/** The per-juz summary of the dashboard grid (`getJuzStatus`,
    src/components/dashboard/JuzProgressGrid.tsx): how many of a juz's days
    are memorized and tested, the average test score and the two rounded
    percentages. */
module JuzProgressGrid {
  import opened Common
  import opened ProgressTypes
  import opened ProgressCalculator
  import opened DayProgress

  datatype JuzStatus = JuzStatus(total: int, memorized: int, tested: int, avgScore: int, pct: int, memPct: int)

  /** A tested day whose score is present and non-zero (`if (c.score)`). */
  predicate ScoredTest(p: UserProgress, d: int) {
    IsDayTested(p, d) && DayScore(p, d).Some? && DayScore(p, d).value != 0
  }

  function MemorizedDays(p: UserProgress, days: seq<int>): seq<int> {
    Filter(days, d => IsDayMemorized(p, d))
  }

  function TestedDays(p: UserProgress, days: seq<int>): seq<int> {
    Filter(days, d => IsDayTested(p, d))
  }

  function ScoredDays(p: UserProgress, days: seq<int>): seq<int> {
    Filter(days, d => ScoredTest(p, d))
  }

  function ScoreTotal(p: UserProgress, days: seq<int>): int {
    SumOf(ScoredDays(p, days), d => ScoreOrZero(DayScore(p, d)))
  }

  /** The summary, defined by counting over the listed days. */
  function StatusOf(p: UserProgress, days: seq<int>): (r: JuzStatus)
    ensures r.total == |days|
    ensures 0 <= r.memorized <= r.total && 0 <= r.tested <= r.total
    ensures 0 <= r.pct <= 100 && 0 <= r.memPct <= 100
    ensures days == [] ==> r.memorized == 0 && r.tested == 0 && r.pct == 0 && r.memPct == 0 && r.avgScore == 0
  {
    var memorized := |MemorizedDays(p, days)|;
    var tested := |TestedDays(p, days)|;
    var scored := ScoredDays(p, days);
    JuzStatus(
      |days|,
      memorized,
      tested,
      if |scored| > 0 then RoundDiv(ScoreTotal(p, days), |scored|) else 0,
      if |days| > 0 then Percent(tested, |days|) else 0,
      if |days| > 0 then Percent(memorized, |days|) else 0)
  }

  /** The four counters after one more day. */
  lemma CountStep(p: UserProgress, days: seq<int>, i: int)
    requires 0 <= i < |days|
    ensures MemorizedDays(p, days[..i + 1]) == MemorizedDays(p, days[..i]) + (if IsDayMemorized(p, days[i]) then [days[i]] else [])
    ensures TestedDays(p, days[..i + 1]) == TestedDays(p, days[..i]) + (if IsDayTested(p, days[i]) then [days[i]] else [])
    ensures ScoredDays(p, days[..i + 1]) == ScoredDays(p, days[..i]) + (if ScoredTest(p, days[i]) then [days[i]] else [])
    ensures ScoreTotal(p, days[..i + 1]) == ScoreTotal(p, days[..i]) + (if ScoredTest(p, days[i]) then DayScore(p, days[i]).value else 0)
  {
    var d := days[i];
    assert days[..i + 1] == days[..i] + [d];
    FilterSnoc(days[..i], d, d => IsDayMemorized(p, d));
    FilterSnoc(days[..i], d, d => IsDayTested(p, d));
    FilterSnoc(days[..i], d, d => ScoredTest(p, d));
    var f := d => ScoreOrZero(DayScore(p, d));
    SumOfAppend(ScoredDays(p, days[..i]), if ScoredTest(p, d) then [d] else [], f);
  }

  /** `getJuzStatus`: one pass over the day numbers updating four counters. */
  method GetJuzStatus(p: UserProgress, dayNumbers: seq<int>) returns (r: JuzStatus)
    ensures r == StatusOf(p, dayNumbers)
  {
    var memorized, tested, totalScore, testedCount := 0, 0, 0, 0;
    for i := 0 to |dayNumbers|
      invariant memorized == |MemorizedDays(p, dayNumbers[..i])|
      invariant tested == |TestedDays(p, dayNumbers[..i])|
      invariant testedCount == |ScoredDays(p, dayNumbers[..i])|
      invariant totalScore == ScoreTotal(p, dayNumbers[..i])
    {
      var dn := dayNumbers[i];
      CountStep(p, dayNumbers, i);
      var c := if dn in p.completedDays then Some(p.completedDays[dn]) else None;
      if c.Some? && c.value.memorized {
        memorized := memorized + 1;
      }
      if c.Some? && c.value.tested {
        tested := tested + 1;
        if c.value.score.Some? && c.value.score.value != 0 {
          totalScore := totalScore + c.value.score.value;
          testedCount := testedCount + 1;
        }
      }
    }
    assert dayNumbers[..|dayNumbers|] == dayNumbers;
    r := JuzStatus(
      |dayNumbers|,
      memorized,
      tested,
      if testedCount > 0 then RoundDiv(totalScore, testedCount) else 0,
      if |dayNumbers| > 0 then Percent(tested, |dayNumbers|) else 0,
      if |dayNumbers| > 0 then Percent(memorized, |dayNumbers|) else 0);
  }

  /** With every stored score between 0 and 100, so is the average score. */
  lemma AvgScoreInRange(p: UserProgress, days: seq<int>)
    requires forall d :: d in p.completedDays && p.completedDays[d].score.Some? ==> 0 <= p.completedDays[d].score.value <= 100
    ensures 0 <= StatusOf(p, days).avgScore <= 100
  {
    var scored := ScoredDays(p, days);
    if |scored| > 0 {
      var f := d => ScoreOrZero(DayScore(p, d));
      SumOfBetween(scored, f, 0, 100);
      RoundDivBetween(ScoreTotal(p, days), |scored|, 0, 100);
    }
  }

  /** Completed days are tested days, so the tested percentage is never below
      the juz progress of the same days. */
  lemma TestedPctAtLeastJuzProgress(p: UserProgress, days: seq<int>)
    ensures StatusOf(p, days).pct >= JuzProgress(p, days)
  {
    if |days| > 0 {
      FilterCountMono(days, d => IsDayCompleted(p, d), d => IsDayTested(p, d));
      RoundDivMono(100 * |Filter(days, d => IsDayCompleted(p, d))|, 100 * |TestedDays(p, days)|, |days|);
    }
  }
}
