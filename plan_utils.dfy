/** Plan days and the range helpers over them (src/types/plan.ts,
    src/lib/plan-utils.ts). The plan itself is passed in as a sequence. */
module PlanUtils {
  import opened Common

  datatype PlanDay = PlanDay(
    dayNumber: int,
    juz: int,
    surahName: string,
    surahNumber: int,
    startAyah: int,
    endAyah: int,
    ayahCount: int,
    nearReview: string)

  function DayNumbers(days: seq<PlanDay>): (r: seq<int>)
    ensures |r| == |days|
    ensures forall i :: 0 <= i < |days| ==> r[i] == days[i].dayNumber
  {
    seq(|days|, i requires 0 <= i < |days| => days[i].dayNumber)
  }

  /** No two plan days share a day number. */
  predicate UniqueDays(days: seq<PlanDay>) {
    forall i, j :: 0 <= i < j < |days| ==> days[i].dayNumber != days[j].dayNumber
  }

  /** Keeping some of the days keeps their day numbers distinct. */
  lemma {:induction false} FilterUniqueDays(days: seq<PlanDay>, f: PlanDay -> bool)
    requires UniqueDays(days)
    ensures UniqueDays(Filter(days, f))
  {
    if days != [] {
      var rest := Filter(days[1..], f);
      assert UniqueDays(days[1..]);
      FilterUniqueDays(days[1..], f);
      forall x | x in rest ensures x.dayNumber != days[0].dayNumber {
        var j :| 0 <= j < |days[1..]| && days[1..][j] == x;
        assert days[j + 1] == x;
      }
      if f(days[0]) {
        assert Filter(days, f) == [days[0]] + rest;
        ConsUniqueDays(days[0], rest);
      }
    }
  }

  lemma ConsUniqueDays(x: PlanDay, rest: seq<PlanDay>)
    requires UniqueDays(rest)
    requires forall y :: y in rest ==> y.dayNumber != x.dayNumber
    ensures UniqueDays([x] + rest)
  {
    assert forall j :: 0 < j < |rest| + 1 ==> ([x] + rest)[j] == rest[j - 1];
  }

  /** `getDaysForRange`: the plan days numbered `start` to `end`, in plan order. */
  function DaysForRange(plan: seq<PlanDay>, start: int, end: int): (r: seq<PlanDay>)
    ensures forall d :: d in r <==> d in plan && start <= d.dayNumber <= end
    ensures |r| <= |plan|
    ensures r == Filter(plan, (d: PlanDay) => start <= d.dayNumber <= end)
  {
    FilterMembers(plan, (d: PlanDay) => start <= d.dayNumber <= end);
    Filter(plan, (d: PlanDay) => start <= d.dayNumber <= end)
  }

  /** `getNearReviewDays`: the plan days of the (up to) five days before `currentDay`. */
  function NearReviewDays(plan: seq<PlanDay>, currentDay: int): (r: seq<PlanDay>)
    ensures forall d :: d in r <==> d in plan && Max(1, currentDay - 5) <= d.dayNumber < currentDay
    ensures currentDay <= 1 ==> r == []
    ensures r == DaysForRange(plan, Max(1, currentDay - 5), currentDay - 1)
  {
    var r := DaysForRange(plan, Max(1, currentDay - 5), currentDay - 1);
    assert |r| > 0 ==> r[0] in r;
    r
  }

  /** With unique day numbers there are at most five near-review days. */
  lemma NearReviewAtMostFive(plan: seq<PlanDay>, currentDay: int)
    requires UniqueDays(plan)
    ensures |NearReviewDays(plan, currentDay)| <= 5
  {
    var lo := Max(1, currentDay - 5);
    var r := NearReviewDays(plan, currentDay);
    assert r == Filter(plan, (d: PlanDay) => lo <= d.dayNumber <= currentDay - 1);
    FilterUniqueDays(plan, (d: PlanDay) => lo <= d.dayNumber <= currentDay - 1);
    var ns := DayNumbers(r);
    assert Distinct(ns);
    DistinctCard(ns);
    forall n | n in Elems(ns) ensures n in IntRange(lo, Max(lo, currentDay)) {
      var i :| 0 <= i < |ns| && ns[i] == n;
      assert r[i] in r;
    }
    SubsetCard(Elems(ns), IntRange(lo, Max(lo, currentDay)));
  }

  /** `getJuzDayNumbers`: the day numbers of the juz's plan days, in plan order. */
  function JuzDayNumbers(plan: seq<PlanDay>, juz: int): (r: seq<int>)
    ensures forall n :: n in r <==> exists i :: 0 <= i < |plan| && plan[i].juz == juz && plan[i].dayNumber == n
    ensures r == DayNumbers(Filter(plan, (d: PlanDay) => d.juz == juz))
  {
    var days := Filter(plan, (d: PlanDay) => d.juz == juz);
    var r := DayNumbers(days);
    forall n | n in r ensures exists i :: 0 <= i < |plan| && plan[i].juz == juz && plan[i].dayNumber == n {
      var k :| 0 <= k < |r| && r[k] == n;
      assert days[k] in plan;
      var i :| 0 <= i < |plan| && plan[i] == days[k];
    }
    forall i | 0 <= i < |plan| && plan[i].juz == juz ensures plan[i].dayNumber in r {
      var k :| 0 <= k < |days| && days[k] == plan[i];
      assert r[k] == plan[i].dayNumber;
    }
    r
  }

  /** "name (from–to)". */
  function RangeText(name: string, from: int, to: int): string {
    name + " (" + IntToString(from) + "–" + IntToString(to) + ")"
  }

  /** "name (from) – other (to)". */
  function TwoPartText(name: string, from: int, other: string, to: int): string {
    name + " (" + IntToString(from) + ") – " + other + " (" + IntToString(to) + ")"
  }

  /** `getDayRangeText`: empty for no days, the single range for one day or
      for days within one surah, and the two-part text otherwise. */
  function DayRangeText(days: seq<PlanDay>): (r: string)
    ensures r == "" <==> days == []
    ensures days != [] ==> days[0].surahName <= r
    ensures |days| == 1 ==> r == RangeText(days[0].surahName, days[0].startAyah, days[0].endAyah)
    ensures |days| >= 2 && days[0].surahName == days[|days| - 1].surahName ==>
      r == RangeText(days[0].surahName, days[0].startAyah, days[|days| - 1].endAyah)
    ensures |days| >= 2 && days[0].surahName != days[|days| - 1].surahName ==>
      r == TwoPartText(days[0].surahName, days[0].startAyah, days[|days| - 1].surahName, days[|days| - 1].endAyah)
  {
    if |days| == 0 then ""
    else if |days| == 1 then RangeText(days[0].surahName, days[0].startAyah, days[0].endAyah)
    else
      var first := days[0];
      var last := days[|days| - 1];
      if first.surahName == last.surahName then RangeText(first.surahName, first.startAyah, last.endAyah)
      else TwoPartText(first.surahName, first.startAyah, last.surahName, last.endAyah)
  }

  /** Only the first and the last day decide the text: the days between them are not read. */
  lemma EndsDecideText(days: seq<PlanDay>)
    requires |days| >= 2
    ensures DayRangeText(days) == DayRangeText([days[0], days[|days| - 1]])
  {}

  /** Days that begin and end in the same surah read as one day spanning the
      first day's start to the last day's end. */
  lemma SameSurahReadsAsOneDay(days: seq<PlanDay>)
    requires days != [] && days[0].surahName == days[|days| - 1].surahName
    ensures DayRangeText(days) == DayRangeText([days[0].(endAyah := days[|days| - 1].endAyah)])
  {}
}
