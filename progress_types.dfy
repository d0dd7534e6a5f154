/** The shapes of a user's day-by-day progress (src/types/progress.ts). Calendar
    dates are day numbers; an absent optional flag reads as false wherever the
    source reads it, so `memorized` and `tested` are plain booleans. */
module ProgressTypes {
  import opened Common

  datatype TestType = Written | WordHide | Oral | Tap

  datatype DayCompletion = DayCompletion(
    dayNumber: int,
    completedAt: int,
    repetitions: int,
    score: Option<int>,
    testType: Option<TestType>,
    notes: Option<string>,
    memorized: bool,
    tested: bool)

  /** `completedDays` is a record keyed by day number. */
  datatype UserProgress = UserProgress(
    completedDays: map<int, DayCompletion>,
    currentDay: int,
    startDate: int,
    lastActiveDate: int)

  /** A day counts as done once it is both memorized and tested. */
  predicate Complete(c: DayCompletion) {
    c.memorized && c.tested
  }

  /** `isDayCompleted`: day `d` has a record that is memorized and tested. */
  predicate IsDayCompleted(p: UserProgress, d: int) {
    d in p.completedDays && Complete(p.completedDays[d])
  }

  /** The records stored under the keys `ks`, in the order of `ks`. */
  function ValuesAt(days: map<int, DayCompletion>, ks: seq<int>): (r: seq<DayCompletion>)
    requires forall i :: 0 <= i < |ks| ==> ks[i] in days
    ensures |r| == |ks|
    ensures forall i :: 0 <= i < |ks| ==> r[i] == days[ks[i]]
  {
    if ks == [] then [] else [days[ks[0]]] + ValuesAt(days, ks[1..])
  }

  /** `Object.values(progress.completedDays)`. Keys that are array indices
      (non-negative integers) enumerate in ascending numeric order; day numbers
      are positive, so every key is one. A negative key, which JavaScript would
      list after those in insertion order, is listed here in numeric order. */
  function Records(p: UserProgress): (r: seq<DayCompletion>)
    ensures |r| == |p.completedDays|
  {
    ValuesAt(p.completedDays, Ascending(p.completedDays.Keys))
  }

  /** `Object.values` lists every stored record and nothing else. */
  lemma RecordsMembers(p: UserProgress)
    ensures forall c :: c in Records(p) <==> c in p.completedDays.Values
  {
    var ks := Ascending(p.completedDays.Keys);
    var r := Records(p);
    forall c | c in p.completedDays.Values ensures c in r {
      var k :| k in p.completedDays && p.completedDays[k] == c;
      var i :| 0 <= i < |ks| && ks[i] == k;
      assert r[i] == c;
    }
  }

  /** The keys among `ks` whose record satisfies `f`. */
  function KeysWhere(days: map<int, DayCompletion>, ks: seq<int>, f: DayCompletion -> bool): (r: set<int>)
    requires forall i :: 0 <= i < |ks| ==> ks[i] in days
    ensures forall k :: k in r <==> k in ks && f(days[k])
  {
    if ks == [] then {}
    else (if f(days[ks[0]]) then {ks[0]} else {}) + KeysWhere(days, ks[1..], f)
  }

  /** Over distinct keys, `Filter` keeps as many records as there are such keys. */
  lemma {:induction false} CountWhere(days: map<int, DayCompletion>, ks: seq<int>, f: DayCompletion -> bool)
    requires forall i :: 0 <= i < |ks| ==> ks[i] in days
    requires Distinct(ks)
    ensures |Filter(ValuesAt(days, ks), f)| == |KeysWhere(days, ks, f)|
  {
    if ks != [] {
      CountWhere(days, ks[1..], f);
      assert ValuesAt(days, ks)[1..] == ValuesAt(days, ks[1..]);
      assert ks[0] !in KeysWhere(days, ks[1..], f);
    }
  }
}
