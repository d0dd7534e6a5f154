/** Review selection (src/lib/review-engine.ts): the near review of the last
    five days, the round-robin far review of one juz already started, and the
    weekly review of the last six days. The plan is passed in. */
module ReviewEngine {
  import opened Common
  import opened ProgressTypes
  import opened PlanUtils

  datatype ReviewKind = Near | Far

  datatype ReviewTask = ReviewTask(kind: ReviewKind, days: seq<PlanDay>, juz: Option<int>, description: string)

  /** `getNearReview`. */
  function NearReview(p: UserProgress, plan: seq<PlanDay>): (r: ReviewTask)
    ensures r.kind == Near && r.juz == None
    ensures r.days == NearReviewDays(plan, p.currentDay)
    ensures r.description == "مراجعة آخر " + IntToString(|r.days|) + " أيام"
  {
    var days := NearReviewDays(plan, p.currentDay);
    ReviewTask(Near, days, None, "مراجعة آخر " + IntToString(|days|) + " أيام")
  }

  /** `getWeeklyReview`: the plan days of the (up to) six days before `currentDay`. */
  function WeeklyReview(p: UserProgress, plan: seq<PlanDay>): (r: ReviewTask)
    ensures r.kind == Near && r.juz == None
    ensures forall d :: d in r.days <==> d in plan && Max(1, p.currentDay - 6) <= d.dayNumber < p.currentDay
  {
    var weekStart := Max(1, p.currentDay - 6);
    var days := Filter(plan, (d: PlanDay) => d.dayNumber >= weekStart && d.dayNumber < p.currentDay);
    FilterMembers(plan, (d: PlanDay) => d.dayNumber >= weekStart && d.dayNumber < p.currentDay);
    ReviewTask(Near, days, None, "مراجعة حفظ الأسبوع (المعاهدة الأسبوعية)")
  }

  /** Every near-review day is also a weekly-review day. */
  lemma NearWithinWeekly(p: UserProgress, plan: seq<PlanDay>, d: PlanDay)
    requires d in NearReview(p, plan).days
    ensures d in WeeklyReview(p, plan).days
  {
    assert d in NearReviewDays(plan, p.currentDay);
  }

  // ---------------------------------------------------------------------------
  // Far review.
  // ---------------------------------------------------------------------------

  /** `planDays.find(d => d.dayNumber === n)`: the first plan day numbered `n`. */
  function FindDay(plan: seq<PlanDay>, n: int): (r: Option<PlanDay>)
    ensures r.None? <==> forall i :: 0 <= i < |plan| ==> plan[i].dayNumber != n
    ensures r.Some? ==> r.value in plan && r.value.dayNumber == n
  {
    if plan == [] then None
    else if plan[0].dayNumber == n then Some(plan[0])
    else
      var r := FindDay(plan[1..], n);
      assert forall i :: 0 < i < |plan| ==> plan[i] == plan[1..][i - 1];
      r
  }

  /** The juz of the plan days numbered by `ks`. */
  function JuzOf(plan: seq<PlanDay>, ks: seq<int>): (r: set<int>)
    ensures forall j :: j in r <==> exists i :: 0 <= i < |ks| && FindDay(plan, ks[i]).Some? && FindDay(plan, ks[i]).value.juz == j
  {
    if ks == [] then {}
    else
      var init := ks[..|ks| - 1];
      var k := ks[|ks| - 1];
      var f := FindDay(plan, k);
      assert forall i :: 0 <= i < |init| ==> init[i] == ks[i];
      JuzOf(plan, init) + (if f.Some? then {f.value.juz} else {})
  }

  /** The loop of `getFarReview`: the set of juz of the recorded days that are
      plan days. */
  method CollectJuz(plan: seq<PlanDay>, ks: seq<int>) returns (completedJuz: set<int>)
    ensures completedJuz == JuzOf(plan, ks)
  {
    completedJuz := {};
    for i := 0 to |ks|
      invariant completedJuz == JuzOf(plan, ks[..i])
    {
      var day := FindDay(plan, ks[i]);
      assert ks[..i + 1][..i] == ks[..i];
      if day.Some? {
        completedJuz := completedJuz + {day.value.juz};
      }
    }
    assert ks[..|ks|] == ks;
  }

  /** The recorded day numbers in `Object.entries` order. */
  function RecordedDays(p: UserProgress): (r: seq<int>)
    ensures forall k :: k in r <==> k in p.completedDays
    ensures |r| == |p.completedDays|
  {
    Ascending(p.completedDays.Keys)
  }

  /** Whether some recorded day is a plan day. */
  predicate AnyPlanDayRecorded(p: UserProgress, plan: seq<PlanDay>) {
    exists k :: k in p.completedDays && FindDay(plan, k).Some?
  }

  /** A recorded plan day puts its juz in the set. */
  lemma RecordedPlanDayHasJuz(p: UserProgress, plan: seq<PlanDay>)
    ensures AnyPlanDayRecorded(p, plan) ==> JuzOf(plan, RecordedDays(p)) != {}
  {
    if AnyPlanDayRecorded(p, plan) {
      var ks := RecordedDays(p);
      var k :| k in p.completedDays && FindDay(plan, k).Some?;
      var i :| 0 <= i < |ks| && ks[i] == k;
      assert FindDay(plan, ks[i]).value.juz in JuzOf(plan, ks);
    }
  }

  /** `getFarReview`: none when no recorded day is a plan day; otherwise the
      juz at position (number of recorded days mod number of juz) of the
      ascending list of juz holding a recorded plan day, with its plan days. */
  method FarReview(p: UserProgress, plan: seq<PlanDay>) returns (r: Option<ReviewTask>)
    ensures r.None? <==> !AnyPlanDayRecorded(p, plan)
    ensures r.Some? ==> r.value.kind == Far && r.value.juz.Some?
    ensures r.Some? ==>
      var sorted := Ascending(JuzOf(plan, RecordedDays(p)));
      |sorted| > 0 && r.value.juz.value == sorted[|p.completedDays| % |sorted|]
    ensures r.Some? ==> exists k :: k in p.completedDays && FindDay(plan, k).Some? && FindDay(plan, k).value.juz == r.value.juz.value
    ensures r.Some? ==> forall d :: d in r.value.days <==> d in plan && d.dayNumber in JuzDayNumbers(plan, r.value.juz.value)
    ensures r.Some? ==> r.value.days == Filter(plan, (d: PlanDay) => d.dayNumber in JuzDayNumbers(plan, r.value.juz.value))
  {
    var ks := RecordedDays(p);
    var completedJuzSet := CollectJuz(plan, ks);
    var completedJuzArray := Ascending(completedJuzSet);
    RecordedPlanDayHasJuz(p, plan);
    if |completedJuzArray| == 0 {
      return None;
    }
    var totalCompleted := |p.completedDays|;
    var juzIndex := totalCompleted % |completedJuzArray|;
    var targetJuz := completedJuzArray[juzIndex];
    assert targetJuz in completedJuzSet;
    var i :| 0 <= i < |ks| && FindDay(plan, ks[i]).Some? && FindDay(plan, ks[i]).value.juz == targetJuz;
    assert ks[i] in p.completedDays;
    var days := Filter(plan, (d: PlanDay) => d.dayNumber in JuzDayNumbers(plan, targetJuz));
    FilterMembers(plan, (d: PlanDay) => d.dayNumber in JuzDayNumbers(plan, targetJuz));
    r := Some(ReviewTask(Far, days, Some(targetJuz), "مراجعة الجزء " + IntToString(targetJuz)));
  }

  /** With unique day numbers, the far-review days are exactly the plan days
      of the target juz. */
  lemma FarDaysAreJuzDays(plan: seq<PlanDay>, juz: int, d: PlanDay)
    requires UniqueDays(plan) && d in plan
    ensures d.dayNumber in JuzDayNumbers(plan, juz) <==> d.juz == juz
  {
    var k :| 0 <= k < |plan| && plan[k] == d;
    if d.dayNumber in JuzDayNumbers(plan, juz) {
      var i :| 0 <= i < |plan| && plan[i].juz == juz && plan[i].dayNumber == d.dayNumber;
      assert i == k;
    }
  }

  /** With unique day numbers, the far-review days are the plan days of the
      target juz, in plan order. */
  lemma FarDaysInPlanOrder(plan: seq<PlanDay>, juz: int)
    requires UniqueDays(plan)
    ensures Filter(plan, (d: PlanDay) => d.dayNumber in JuzDayNumbers(plan, juz))
         == Filter(plan, (d: PlanDay) => d.juz == juz)
  {
    forall i | 0 <= i < |plan|
      ensures (plan[i].dayNumber in JuzDayNumbers(plan, juz)) == (plan[i].juz == juz)
    {
      FarDaysAreJuzDays(plan, juz, plan[i]);
    }
    FilterSame(plan, (d: PlanDay) => d.dayNumber in JuzDayNumbers(plan, juz), (d: PlanDay) => d.juz == juz);
  }
}
