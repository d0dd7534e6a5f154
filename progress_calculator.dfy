/** Counts, percentages and the streak derived from a user's progress
    (src/lib/progress-calculator.ts). */
module ProgressCalculator {
  import opened Common
  import opened ProgressTypes

  /** The days that are both memorized and tested. */
  function CompletedDayNumbers(p: UserProgress): set<int> {
    set d | d in p.completedDays && IsDayCompleted(p, d)
  }

  /** `getCompletedCount`: the stored records that are memorized and tested. */
  function CompletedCount(p: UserProgress): (r: nat)
    ensures r == |CompletedDayNumbers(p)|
    ensures r <= |p.completedDays|
  {
    CompletedRecords(p);
    |Filter(Records(p), Complete)|
  }

  lemma CompletedRecords(p: UserProgress)
    ensures |Filter(Records(p), Complete)| == |CompletedDayNumbers(p)|
    ensures CompletedDayNumbers(p) <= p.completedDays.Keys
  {
    var ks := Ascending(p.completedDays.Keys);
    CountWhere(p.completedDays, ks, Complete);
    CompleteKeys(p, ks);
  }

  lemma CompleteKeys(p: UserProgress, ks: seq<int>)
    requires forall i :: 0 <= i < |ks| ==> ks[i] in p.completedDays
    requires forall k :: k in p.completedDays ==> k in ks
    ensures KeysWhere(p.completedDays, ks, Complete) == CompletedDayNumbers(p)
  {
    var kw := KeysWhere(p.completedDays, ks, Complete);
    assert forall k :: k in kw ==> k in CompletedDayNumbers(p);
    assert forall k :: k in CompletedDayNumbers(p) ==> k in kw;
  }

  /** `calculateJuzProgress`: the rounded percentage of the juz's days that are done. */
  function JuzProgress(p: UserProgress, juzDays: seq<int>): (r: int)
    ensures 0 <= r <= 100
    ensures |juzDays| > 0 ==> r == Percent(|Filter(juzDays, d => IsDayCompleted(p, d))|, |juzDays|)
    ensures |juzDays| == 0 ==> r == 0
  {
    var done := Filter(juzDays, d => IsDayCompleted(p, d));
    if |juzDays| > 0 then Percent(|done|, |juzDays|) else 0
  }

  /** No day done gives 0; every day done gives 100. */
  lemma JuzProgressExtremes(p: UserProgress, juzDays: seq<int>)
    ensures (forall i :: 0 <= i < |juzDays| ==> !IsDayCompleted(p, juzDays[i])) ==> JuzProgress(p, juzDays) == 0
    ensures |juzDays| > 0 && (forall i :: 0 <= i < |juzDays| ==> IsDayCompleted(p, juzDays[i])) ==>
      JuzProgress(p, juzDays) == 100
  {
    if forall i :: 0 <= i < |juzDays| ==> !IsDayCompleted(p, juzDays[i]) {
      FilterDropsAll(juzDays, d => IsDayCompleted(p, d));
    }
    if forall i :: 0 <= i < |juzDays| ==> IsDayCompleted(p, juzDays[i]) {
      FilterKeepsAll(juzDays, d => IsDayCompleted(p, d));
    }
  }

  // ---------------------------------------------------------------------------
  // The streak: consecutive days, ending at the latest completion, on which some
  // day was completed. It is broken once the latest completion is more than a
  // day before today.
  // ---------------------------------------------------------------------------

  /** The completion dates of all stored records. */
  function DateSet(p: UserProgress): set<int> {
    set k | k in p.completedDays :: p.completedDays[k].completedAt
  }

  /** The completion dates in `Object.values` order, duplicates kept. */
  function CompletionDates(p: UserProgress): (r: seq<int>)
    ensures forall d :: d in r <==> d in DateSet(p)
  {
    DatesAt(p, Ascending(p.completedDays.Keys))
  }

  /** The completion dates of the records under the keys `ks`, which are
      exactly the stored keys. */
  function DatesAt(p: UserProgress, ks: seq<int>): (r: seq<int>)
    requires forall i :: 0 <= i < |ks| ==> ks[i] in p.completedDays
    requires forall k :: k in p.completedDays ==> k in ks
    ensures forall d :: d in r <==> d in DateSet(p)
  {
    var r := seq(|ks|, i requires 0 <= i < |ks| => p.completedDays[ks[i]].completedAt);
    forall d | d in DateSet(p) ensures d in r {
      var k :| k in p.completedDays && p.completedDays[k].completedAt == d;
      var i :| 0 <= i < |ks| && ks[i] == k;
      assert r[i] == d;
    }
    forall i | 0 <= i < |ks| ensures r[i] in DateSet(p) {
      var k := ks[i];
      assert p.completedDays[k].completedAt in DateSet(p);
    }
    r
  }

  /** Sort key putting later dates first (`sort().reverse()` on ISO dates). */
  function LaterFirst(d: int): (int, int) { (-d, 0) }

  /** Every day from `last - n + 1` to `last` is in `dates`. */
  ghost predicate Run(dates: set<int>, last: int, n: int) {
    forall d :: last - n < d <= last ==> d in dates
  }

  /** A run of `n` days all holding a completion is no longer than the number
      of distinct completion dates. */
  lemma RunAtMostDates(dates: set<int>, last: int, n: int)
    requires n >= 0 && Run(dates, last, n)
    ensures n <= |dates|
  {
    SubsetCard(IntRange(last - n + 1, last + 1), dates);
  }

  /** The streak rule: none without completions or when the latest completion
      is more than a day before today; otherwise the length of the run of
      consecutive completion dates ending at the latest one. */
  ghost predicate IsStreak(dates: set<int>, today: int, n: int) {
    if dates == {} || today - MaxOf(dates) > 1 then n == 0
    else 1 <= n <= |dates| && Run(dates, MaxOf(dates), n) && MaxOf(dates) - n !in dates
  }

  /** The streak rule determines the streak. */
  lemma StreakUnique(dates: set<int>, today: int, a: int, b: int)
    requires IsStreak(dates, today, a) && IsStreak(dates, today, b)
    ensures a == b
  {
    if dates != {} && today - MaxOf(dates) <= 1 {
      var last := MaxOf(dates);
      assert a < b ==> last - a in dates;
      assert b < a ==> last - b in dates;
    }
  }

  predicate Descending(s: seq<int>) {
    forall i, j :: 0 <= i < j < |s| ==> s[j] <= s[i]
  }

  lemma LaterFirstDescending(s: seq<int>)
    requires SortedBy(s, LaterFirst)
    ensures Descending(s)
  {
    forall i, j | 0 <= i < j < |s| ensures s[j] <= s[i] {
      assert !KeyLess(LaterFirst(s[j]), LaterFirst(s[i]));
    }
  }

  /** The loop of `calculateStreak`: walking back from the latest date, count
      the distinct dates until the first gap of more than one day. */
  method CountRun(completions: seq<int>) returns (streak: int)
    requires |completions| > 0 && Descending(completions)
    ensures streak >= 1
    ensures forall d :: completions[0] - streak < d <= completions[0] ==> d in completions
    ensures completions[0] - streak !in completions
  {
    var lastDate := completions[0];
    streak := 1;
    var i := 1;
    while i < |completions|
      invariant 1 <= i <= |completions|
      invariant completions[i - 1] == lastDate - (streak - 1)
      invariant forall d :: completions[i - 1] <= d <= lastDate ==> d in completions[..i]
      invariant forall j :: 0 <= j < i ==> completions[i - 1] <= completions[j]
    {
      var diff := completions[i - 1] - completions[i];
      if diff <= 1 && completions[i] != completions[i - 1] {
        streak := streak + 1;
      } else if diff > 1 {
        break;
      }
      assert completions[..i + 1] == completions[..i] + [completions[i]];
      i := i + 1;
    }
    assert forall d :: lastDate - streak < d <= lastDate ==> d in completions[..i];
    assert forall d :: d in completions[..i] ==> d in completions;
  }

  /** A descending list holding exactly the completion dates. */
  ghost predicate DatesDescending(c: seq<int>, dates: set<int>) {
    Descending(c) && forall d :: d in c <==> d in dates
  }

  /** The head of a descending list is the largest of its elements. */
  lemma HeadIsMax(c: seq<int>, dates: set<int>)
    requires |c| > 0 && DatesDescending(c, dates)
    ensures c[0] in dates && c[0] == MaxOf(dates)
  {
    assert c[0] in c;
    forall d | d in dates ensures d <= c[0] {
      var j :| 0 <= j < |c| && c[j] == d;
    }
  }

  lemma SortedDates(p: UserProgress)
    ensures DatesDescending(SortBy(CompletionDates(p), LaterFirst), DateSet(p))
  {
    SortByMembers(CompletionDates(p), LaterFirst);
    LaterFirstDescending(SortBy(CompletionDates(p), LaterFirst));
  }

  /** What the loop of `calculateStreak` finds is the streak. */
  lemma StreakFromRun(c: seq<int>, dates: set<int>, today: int, n: int)
    requires |c| > 0 && DatesDescending(c, dates)
    requires today - c[0] <= 1 && n >= 1
    requires forall d :: c[0] - n < d <= c[0] ==> d in c
    requires c[0] - n !in c
    ensures IsStreak(dates, today, n)
  {
    HeadIsMax(c, dates);
    assert Run(dates, c[0], n);
    RunAtMostDates(dates, c[0], n);
  }

  /** `calculateStreak`. */
  method CalculateStreak(p: UserProgress, today: int) returns (streak: int)
    ensures IsStreak(DateSet(p), today, streak)
  {
    var completions := SortBy(CompletionDates(p), LaterFirst);
    SortedDates(p);
    if |completions| == 0 {
      assert DateSet(p) == {} by {
        assert forall d :: d in DateSet(p) ==> d in completions;
      }
      return 0;
    }
    var lastDate := completions[0];
    HeadIsMax(completions, DateSet(p));
    var daysSinceLast := today - lastDate;
    if daysSinceLast > 1 {
      return 0;
    }
    streak := CountRun(completions);
    StreakFromRun(completions, DateSet(p), today, streak);
  }

  // ---------------------------------------------------------------------------
  // Recent completions and the initial state.
  // ---------------------------------------------------------------------------

  /** Sort key putting higher day numbers first. */
  function HigherDayFirst(c: DayCompletion): (int, int) { (-c.dayNumber, 0) }

  /** Every record, by descending day number. */
  function Ranked(p: UserProgress): (r: seq<DayCompletion>)
    ensures SortedBy(r, HigherDayFirst) && |r| == |p.completedDays|
    ensures forall i, j :: 0 <= i < j < |r| ==> r[i].dayNumber >= r[j].dayNumber
    ensures forall c :: c in r <==> c in p.completedDays.Values
  {
    var sorted := SortBy(Records(p), HigherDayFirst);
    forall i, j | 0 <= i < j < |sorted| ensures sorted[i].dayNumber >= sorted[j].dayNumber {
      assert !KeyLess(HigherDayFirst(sorted[j]), HigherDayFirst(sorted[i]));
    }
    SortByMembers(Records(p), HigherDayFirst);
    RecordsMembers(p);
    sorted
  }

  /** The ranking is a permutation of the records. */
  lemma RankedIsPermutation(p: UserProgress)
    ensures multiset(Ranked(p)) == multiset(Records(p))
  {}

  /** `getRecentCompletions`: the first `count` records by descending day number. */
  function RecentCompletions(p: UserProgress, count: int): (r: seq<DayCompletion>)
    ensures r <= Ranked(p)
    ensures count >= 0 ==> |r| == Min(count, |p.completedDays|)
  {
    SliceTo(Ranked(p), count)
  }

  lemma PrefixKeepsOrder(ranked: seq<DayCompletion>, r: seq<DayCompletion>)
    requires r <= ranked
    requires forall i, j :: 0 <= i < j < |ranked| ==> ranked[i].dayNumber >= ranked[j].dayNumber
    ensures forall i, j :: 0 <= i < j < |r| ==> r[i].dayNumber >= r[j].dayNumber
    ensures forall c :: c in r ==> c in ranked
  {
    assert forall i :: 0 <= i < |r| ==> r[i] == ranked[i];
  }

  /** The records come by descending day number; every one is a stored one;
      a count covering them all returns every record. */
  lemma RecentAreStored(p: UserProgress, count: int)
    ensures var r := RecentCompletions(p, count);
      forall i, j :: 0 <= i < j < |r| ==> r[i].dayNumber >= r[j].dayNumber
    ensures forall c :: c in RecentCompletions(p, count) ==> c in p.completedDays.Values
    ensures count >= |p.completedDays| ==> multiset(RecentCompletions(p, count)) == multiset(Records(p))
  {
    var ranked := Ranked(p);
    var r := RecentCompletions(p, count);
    PrefixKeepsOrder(ranked, r);
    if count >= |p.completedDays| {
      assert r == ranked;
      RankedIsPermutation(p);
    }
  }

  /** A record left out of the recent completions has a day number no higher
      than any record returned. */
  lemma RecentAreLatest(p: UserProgress, count: int, c: DayCompletion, x: DayCompletion)
    requires c in p.completedDays.Values && c !in RecentCompletions(p, count)
    requires x in RecentCompletions(p, count)
    ensures c.dayNumber <= x.dayNumber
  {
    LeftOutRanksLower(Ranked(p), RecentCompletions(p, count), c, x);
  }

  lemma LeftOutRanksLower(sorted: seq<DayCompletion>, r: seq<DayCompletion>, c: DayCompletion, x: DayCompletion)
    requires SortedBy(sorted, HigherDayFirst) && r <= sorted
    requires c in sorted && c !in r && x in r
    ensures c.dayNumber <= x.dayNumber
  {
    assert r == sorted[..|r|];
    SortedPrefixFirst(sorted, |r|, HigherDayFirst, c, x);
  }

  /** `emptyProgress`, started on `today`: nothing recorded, day 1 next. */
  function EmptyProgress(today: int): (r: UserProgress)
    ensures CompletedCount(r) == 0 && DateSet(r) == {}
    ensures r.currentDay == 1
  {
    UserProgress(map[], 1, today, today)
  }
}
