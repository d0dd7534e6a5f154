/** The day-progress updaters of the progress hook (src/hooks/useProgress.ts):
    marking a day memorized or tested, the legacy one-step completion and the
    batch memorization, all committed to one progress cell. */
module DayProgress {
  import opened Common
  import opened ProgressTypes
  import opened ProgressCalculator

  /** The minimum score that counts as passing a test. */
  const PassThreshold := 80

  /** The record stored for day `d`, or the empty record the source spreads
      when there is none: no score, no flags, zero repetitions. */
  function Prior(days: map<int, DayCompletion>, d: int): DayCompletion {
    if d in days then days[d] else DayCompletion(d, 0, 0, None, None, None, false, false)
  }

  /** `isDayMemorized`. */
  predicate IsDayMemorized(p: UserProgress, d: int) {
    d in p.completedDays && p.completedDays[d].memorized
  }

  /** `isDayTested`. */
  predicate IsDayTested(p: UserProgress, d: int) {
    d in p.completedDays && p.completedDays[d].tested
  }

  /** `getDayScore`. */
  function DayScore(p: UserProgress, d: int): Option<int> {
    if d in p.completedDays then p.completedDays[d].score else None
  }

  /** The query predicates agree: a day is completed exactly when it is both
      memorized and tested. */
  lemma CompletedIffBoth(p: UserProgress, d: int)
    ensures IsDayCompleted(p, d) <==> IsDayMemorized(p, d) && IsDayTested(p, d)
    ensures !(d in p.completedDays) ==> !IsDayMemorized(p, d) && !IsDayTested(p, d) && DayScore(p, d) == None
  {}

  /** The score the source reads as `existing.score || 0`. */
  function ScoreOrZero(score: Option<int>): int {
    if score.Some? then score.value else 0
  }

  /** The record a memorization leaves for day `d`: the stored fields kept,
      the day, date and repetitions set and the memorized flag raised. */
  function Memorized(e: DayCompletion, d: int, repetitions: int, today: int): (c: DayCompletion)
    ensures c.memorized && c.dayNumber == d && c.completedAt == today && c.repetitions == repetitions
    ensures c.score == e.score && c.testType == e.testType && c.notes == e.notes && c.tested == e.tested
  {
    e.(dayNumber := d, completedAt := today, repetitions := repetitions, memorized := true)
  }

  /** Memorizing twice with the same arguments is memorizing once. */
  lemma MemorizedIdempotent(e: DayCompletion, d: int, repetitions: int, today: int)
    ensures Memorized(Memorized(e, d, repetitions, today), d, repetitions, today) == Memorized(e, d, repetitions, today)
  {}

  /** `markMemorized`: only day `d` changes, and only its memorization fields. */
  function MarkedMemorized(p: UserProgress, d: int, repetitions: int, today: int): (r: UserProgress)
    ensures IsDayMemorized(r, d) && r.completedDays[d].repetitions == repetitions
    ensures r.completedDays[d].completedAt == today
    ensures IsDayTested(r, d) == IsDayTested(p, d) && DayScore(r, d) == DayScore(p, d)
    ensures r.completedDays - {d} == p.completedDays - {d}
    ensures r.currentDay == p.currentDay && r.startDate == p.startDate && r.lastActiveDate == today
  {
    var c := Memorized(Prior(p.completedDays, d), d, repetitions, today);
    var days := p.completedDays[d := c];
    assert days - {d} == p.completedDays - {d};
    p.(completedDays := days, lastActiveDate := today)
  }

  /** The day after the highest fully completed day, or 1 when none is. */
  function AfterLastCompleted(p: UserProgress): (n: int)
    ensures forall d :: IsDayCompleted(p, d) ==> d < n
    ensures n >= 1
    ensures n == 1 || IsDayCompleted(p, n - 1)
  {
    assert forall d :: IsDayCompleted(p, d) ==> d in CompletedDayNumbers(p);
    MaxOf(CompletedDayNumbers(p) + {0}) + 1
  }

  /** `markTested`: best score kept, the pass flag raised at 80 and never
      lowered, memorization untouched, and `currentDay` advanced past every
      fully completed day once day `d` is fully completed. */
  function MarkedTested(p: UserProgress, d: int, score: int, testType: TestType, today: int): (r: UserProgress)
    ensures d in r.completedDays
    ensures DayScore(r, d) == Some(Max(score, ScoreOrZero(DayScore(p, d))))
    ensures IsDayTested(r, d) <==> score >= PassThreshold || IsDayTested(p, d)
    ensures IsDayMemorized(r, d) == IsDayMemorized(p, d)
    ensures r.completedDays[d].testType == Some(testType) && r.completedDays[d].completedAt == today
    ensures r.completedDays - {d} == p.completedDays - {d}
    ensures r.currentDay >= p.currentDay
    ensures IsDayCompleted(r, d) ==> forall k :: IsDayCompleted(r, k) ==> k < r.currentDay
    ensures IsDayCompleted(r, d) ==> r.currentDay == Max(p.currentDay, AfterLastCompleted(r))
    ensures !IsDayCompleted(r, d) ==> r.currentDay == p.currentDay
    ensures r.completedDays[d].dayNumber == d
    ensures r.completedDays[d].repetitions == Prior(p.completedDays, d).repetitions
    ensures r.completedDays[d].notes == Prior(p.completedDays, d).notes
    ensures r.startDate == p.startDate && r.lastActiveDate == today
  {
    var existing := Prior(p.completedDays, d);
    var passed := score >= PassThreshold;
    var c := existing.(
      dayNumber := d,
      completedAt := today,
      score := Some(Max(score, ScoreOrZero(existing.score))),
      testType := Some(testType),
      tested := passed || existing.tested);
    var days := p.completedDays[d := c];
    assert days - {d} == p.completedDays - {d};
    var next := p.(completedDays := days, lastActiveDate := today);
    if Complete(c) then
      var r := next.(currentDay := Max(p.currentDay, AfterLastCompleted(next)));
      assert forall k :: IsDayCompleted(r, k) ==> IsDayCompleted(next, k);
      assert CompletedDayNumbers(r) == CompletedDayNumbers(next);
      r
    else next
  }

  /** The day after the highest recorded day, or 1 when none is. */
  function AfterLastRecorded(days: map<int, DayCompletion>): (n: int)
    ensures forall d :: d in days ==> d < n
    ensures n >= 1
    ensures n == 1 || n - 1 in days
  {
    MaxOf(days.Keys + {0}) + 1
  }

  /** `completeDay` (legacy): day `d` is overwritten with a fresh memorized
      record, tested exactly when a score of at least 80 is given, and
      `currentDay` moves past every recorded day. */
  function CompletedDay(p: UserProgress, d: int, repetitions: int, score: Option<int>, today: int): (r: UserProgress)
    ensures IsDayMemorized(r, d) && DayScore(r, d) == score
    ensures IsDayTested(r, d) <==> score.Some? && score.value >= PassThreshold
    ensures r.completedDays[d].testType == None && r.completedDays[d].repetitions == repetitions
    ensures r.completedDays - {d} == p.completedDays - {d}
    ensures r.currentDay >= p.currentDay
    ensures forall k :: k in r.completedDays ==> k < r.currentDay
    ensures r.currentDay == p.currentDay || r.currentDay == AfterLastRecorded(r.completedDays)
    ensures r.currentDay == Max(p.currentDay, AfterLastRecorded(r.completedDays))
    ensures r.completedDays[d] == DayCompletion(d, today, repetitions, score, None, None, true,
      score.Some? && score.value >= PassThreshold)
    ensures r.startDate == p.startDate && r.lastActiveDate == today
  {
    var c := DayCompletion(d, today, repetitions, score, None, None, true,
      score.Some? && score.value >= PassThreshold);
    var days := p.completedDays[d := c];
    assert days - {d} == p.completedDays - {d};
    p.(completedDays := days, currentDay := Max(p.currentDay, AfterLastRecorded(days)), lastActiveDate := today)
  }

  /** The loop of `completeDays`: every listed day is memorized, keeping its
      other fields, and no other day changes. */
  method MemorizeAll(days: map<int, DayCompletion>, dayNumbers: seq<int>, repetitions: int, today: int)
    returns (r: map<int, DayCompletion>)
    ensures forall i :: 0 <= i < |dayNumbers| ==> (dayNumbers[i] in r &&
      r[dayNumbers[i]] == Memorized(Prior(days, dayNumbers[i]), dayNumbers[i], repetitions, today))
    ensures r - Elems(dayNumbers) == days - Elems(dayNumbers)
  {
    r := days;
    for i := 0 to |dayNumbers|
      invariant forall j :: 0 <= j < i ==> (dayNumbers[j] in r &&
        r[dayNumbers[j]] == Memorized(Prior(days, dayNumbers[j]), dayNumbers[j], repetitions, today))
      invariant forall k :: k !in dayNumbers[..i] ==> Prior(r, k) == Prior(days, k) && (k in r <==> k in days)
    {
      var dn := dayNumbers[i];
      MemorizedIdempotent(Prior(days, dn), dn, repetitions, today);
      assert Prior(r, dn) == Prior(days, dn) || Prior(r, dn) == Memorized(Prior(days, dn), dn, repetitions, today) by {
        if dn in dayNumbers[..i] {
          var j :| 0 <= j < i && dayNumbers[j] == dn;
        }
      }
      r := r[dn := Memorized(Prior(r, dn), dn, repetitions, today)];
      assert dayNumbers[..i + 1] == dayNumbers[..i] + [dn];
    }
    assert dayNumbers[..|dayNumbers|] == dayNumbers;
    var listed := Elems(dayNumbers);
    forall k ensures (k in r - listed <==> k in days - listed) && (k in r - listed ==> (r - listed)[k] == (days - listed)[k]) {
      if k !in listed {
        assert k !in dayNumbers[..|dayNumbers|];
        assert Prior(r, k) == Prior(days, k) && (k in r <==> k in days);
      }
    }
    assert r - listed == days - listed;
  }

  /** The progress cell the hook keeps. */
  class ProgressStore {
    var progress: UserProgress

    constructor(today: int)
      ensures progress == EmptyProgress(today)
    {
      progress := EmptyProgress(today);
    }

    method MarkMemorized(dayNumber: int, repetitions: int, today: int)
      modifies this
      ensures progress == MarkedMemorized(old(progress), dayNumber, repetitions, today)
    {
      progress := MarkedMemorized(progress, dayNumber, repetitions, today);
    }

    method MarkTested(dayNumber: int, score: int, testType: TestType, today: int)
      modifies this
      ensures progress == MarkedTested(old(progress), dayNumber, score, testType, today)
    {
      progress := MarkedTested(progress, dayNumber, score, testType, today);
    }

    method CompleteDay(dayNumber: int, repetitions: int, score: Option<int>, today: int)
      modifies this
      ensures progress == CompletedDay(old(progress), dayNumber, repetitions, score, today)
    {
      progress := CompletedDay(progress, dayNumber, repetitions, score, today);
    }

    /** `completeDays`: every listed day memorized; `currentDay` untouched. */
    method CompleteDays(dayNumbers: seq<int>, repetitions: int, today: int)
      modifies this
      ensures forall i :: 0 <= i < |dayNumbers| ==> (IsDayMemorized(progress, dayNumbers[i]) &&
        progress.completedDays[dayNumbers[i]] ==
        Memorized(Prior(old(progress).completedDays, dayNumbers[i]), dayNumbers[i], repetitions, today))
      ensures progress.completedDays - Elems(dayNumbers) == old(progress).completedDays - Elems(dayNumbers)
      ensures progress == old(progress).(completedDays := progress.completedDays, lastActiveDate := today)
    {
      var newCompleted := MemorizeAll(progress.completedDays, dayNumbers, repetitions, today);
      progress := progress.(completedDays := newCompleted, lastActiveDate := today);
    }
  }
}
