/** Mastery of each ayah: a record per ayah that moves between the levels New,
    Practicing and Mastered as drills are recorded, a spaced-repetition date for the
    next review, and the selections and counts the dashboard shows.

    The stored `MasteryData` is the class MasteryStore: its `ayahs` field is the record
    map, keyed by the pair (surah, ayah) rather than the text "surah:ayah", and its
    `order` field is the map's insertion order, which is the order `Object.values`
    lists the records in (none of the keys is an array index). Dates of drills are ISO
    timestamps passed in as text; calendar days (today, the next review date) are day
    numbers, which compare as the ISO date strings `YYYY-MM-DD` do. */
module Mastery {
  import opened Common
  import FuzzyCompare
  import ErrorTracker

  type AyahKey = ErrorTracker.AyahKey

  datatype Level = New | Practicing | Mastered

  datatype DrillResult = DrillResult(date: string, score: int, errors: int)

  datatype AyahMastery = AyahMastery(
    surahNumber: int, ayahNumber: int, level: Level, totalErrors: int, drillAttempts: nat,
    lastDrillDate: Option<string>, lastDrillScore: Option<int>, nextReviewDate: Option<int>,
    history: seq<DrillResult>)

  // ---------------------------------------------------------------------------
  // Levels and review intervals
  // ---------------------------------------------------------------------------

  /** determineLevelFromErrors: the level follows from the drills alone; the error
      count is accepted and not used. */
  function DetermineLevel(totalErrors: int, drillAttempts: int, lastDrillScore: Option<int>): (r: Level)
    ensures r == Mastered <==> drillAttempts > 0 && lastDrillScore.Some? && lastDrillScore.value >= 90
    ensures r == Practicing <==> drillAttempts > 0 && !(lastDrillScore.Some? && lastDrillScore.value >= 90)
    ensures r == New <==> drillAttempts <= 0
  {
    if drillAttempts > 0 && lastDrillScore.Some? && lastDrillScore.value >= 90 then Mastered
    else if drillAttempts > 0 then Practicing
    else New
  }

  function Pow2(n: nat): (r: nat)
    ensures r >= 1
  {
    if n == 0 then 1 else 2 * Pow2(n - 1)
  }

  lemma {:induction false} Pow2Mono(m: nat, n: nat)
    requires m <= n
    ensures Pow2(m) <= Pow2(n)
  {
    if m < n { Pow2Mono(m, n - 1); }
  }

  /** The score calculateNextReview reads: a missing score counts as 0. */
  function ScoreOf(lastDrillScore: Option<int>): int {
    if lastDrillScore.Some? then lastDrillScore.value else 0
  }

  /** The number of days until the next review. */
  function ReviewInterval(attempts: nat, lastDrillScore: Option<int>): (days: int)
    ensures 1 <= days <= 30
    ensures ScoreOf(lastDrillScore) < 90 ==> days <= 14
    ensures ScoreOf(lastDrillScore) < 70 ==> days == 1
  {
    var score := ScoreOf(lastDrillScore);
    if score >= 90 then Min(Pow2(attempts), 30)
    else if score >= 70 then Min(Pow2(Max(0, attempts - 1)), 14)
    else 1
  }

  /** More attempts never shorten the interval. */
  lemma {:induction false} IntervalGrowsWithAttempts(a1: nat, a2: nat, lastDrillScore: Option<int>)
    requires a1 <= a2
    ensures ReviewInterval(a1, lastDrillScore) <= ReviewInterval(a2, lastDrillScore)
  {
    Pow2Mono(a1, a2);
    Pow2Mono(Max(0, a1 - 1), Max(0, a2 - 1));
  }

  /** A better score never shortens the interval. */
  lemma {:induction false} IntervalGrowsWithScore(attempts: nat, s1: Option<int>, s2: Option<int>)
    requires ScoreOf(s1) <= ScoreOf(s2)
    ensures ReviewInterval(attempts, s1) <= ReviewInterval(attempts, s2)
  {
    Pow2Mono(Max(0, attempts - 1), attempts);
  }

  /** The doubling stops at 30 days from the fifth good drill on, and at 14 days from
      the fifth fair one. */
  lemma {:induction false} IntervalCaps(attempts: nat, lastDrillScore: Option<int>)
    requires attempts >= 5 && ScoreOf(lastDrillScore) >= 70
    ensures ReviewInterval(attempts, lastDrillScore) == if ScoreOf(lastDrillScore) >= 90 then 30 else 14
  {
    assert Pow2(4) == 16;
    Pow2Mono(4, attempts - 1);
    Pow2Mono(5, attempts);
  }

  /** calculateNextReview: the day of the next review. */
  function NextReview(m: AyahMastery, today: int): int {
    today + ReviewInterval(m.drillAttempts, m.lastDrillScore)
  }

  // ---------------------------------------------------------------------------
  // What every stored record satisfies
  // ---------------------------------------------------------------------------

  /** A record as this module writes it: its level is the level its drills give, its
      history has one result per attempt, and the last drill's score and date are the
      last result's. */
  predicate Coherent(k: AyahKey, m: AyahMastery) {
    && m.surahNumber == k.0 && m.ayahNumber == k.1
    && m.level == DetermineLevel(m.totalErrors, m.drillAttempts, m.lastDrillScore)
    && m.drillAttempts == |m.history|
    && (m.drillAttempts == 0 ==> m.lastDrillScore.None? && m.lastDrillDate.None? && m.nextReviewDate.None?)
    && (m.drillAttempts > 0 ==>
          && m.lastDrillScore == Some(m.history[|m.history| - 1].score)
          && m.lastDrillDate == Some(m.history[|m.history| - 1].date)
          && m.nextReviewDate.Some?)
  }

  /** The store: the order lists each ayah with a record once, and each record is coherent. */
  ghost predicate WellKept(ayahs: map<AyahKey, AyahMastery>, order: seq<AyahKey>) {
    && Distinct(order)
    && (forall k :: k in order <==> k in ayahs)
    && forall k :: k in ayahs ==> Coherent(k, ayahs[k])
  }

  /** `Object.values(data.ayahs)`: the records in insertion order. */
  function RecordsOf(ayahs: map<AyahKey, AyahMastery>, order: seq<AyahKey>): (r: seq<AyahMastery>)
    requires forall k :: k in order ==> k in ayahs
    ensures |r| == |order| && forall i :: 0 <= i < |order| ==> r[i] == ayahs[order[i]]
  {
    if order == [] then [] else [ayahs[order[0]]] + RecordsOf(ayahs, order[1..])
  }

  function Lookup(ayahs: map<AyahKey, AyahMastery>, k: AyahKey): Option<AyahMastery> {
    if k in ayahs then Some(ayahs[k]) else None
  }

  // ---------------------------------------------------------------------------
  // syncMasteryFromErrors
  // ---------------------------------------------------------------------------

  function SummaryKey(s: ErrorTracker.AyahErrorSummary): AyahKey {
    (s.surahNumber, s.ayahNumber)
  }

  /** The ayahs of a list of summaries. */
  function KeysOf(ss: seq<ErrorTracker.AyahErrorSummary>): set<AyahKey> {
    if ss == [] then {} else KeysOf(ss[..|ss| - 1]) + {SummaryKey(ss[|ss| - 1])}
  }

  /** The ayahs of the summaries that have no record yet, in summary order. */
  function NewKeys(ss: seq<ErrorTracker.AyahErrorSummary>, known: set<AyahKey>): seq<AyahKey> {
    if ss == [] then []
    else
      var k := SummaryKey(ss[|ss| - 1]);
      NewKeys(ss[..|ss| - 1], known) + (if k in known then [] else [k])
  }

  predicate DistinctKeys(ss: seq<ErrorTracker.AyahErrorSummary>) {
    forall i, j :: 0 <= i < j < |ss| ==> SummaryKey(ss[i]) != SummaryKey(ss[j])
  }

  /** The record an ayah has after a sync with its summary s. */
  function SyncedRecord(ayahs: map<AyahKey, AyahMastery>, s: ErrorTracker.AyahErrorSummary): (r: AyahMastery)
    ensures r.totalErrors == s.totalErrors
    ensures SummaryKey(s) !in ayahs ==>
      r.level == New && r.drillAttempts == 0 && r.history == [] && r.lastDrillScore.None?
    ensures SummaryKey(s) in ayahs ==> var m := ayahs[SummaryKey(s)];
      r.drillAttempts == m.drillAttempts && r.history == m.history && r.lastDrillScore == m.lastDrillScore
      && r.lastDrillDate == m.lastDrillDate && r.nextReviewDate == m.nextReviewDate
      && r.level == DetermineLevel(s.totalErrors, m.drillAttempts, m.lastDrillScore)
  {
    var k := SummaryKey(s);
    if k in ayahs then
      var m := ayahs[k];
      m.(totalErrors := s.totalErrors, level := DetermineLevel(s.totalErrors, m.drillAttempts, m.lastDrillScore))
    else
      AyahMastery(s.surahNumber, s.ayahNumber, New, s.totalErrors, 0, None, None, None, [])
  }

  /** The store (a1, o1) is the store (a0, o0) synced with the summaries ss: every
      summarised ayah has its synced record, every other record is as it was, and the
      ayahs new to the store are added at the end in summary order. */
  ghost predicate SyncedFrom(a0: map<AyahKey, AyahMastery>, o0: seq<AyahKey>, ss: seq<ErrorTracker.AyahErrorSummary>,
                             a1: map<AyahKey, AyahMastery>, o1: seq<AyahKey>) {
    && a1.Keys == a0.Keys + KeysOf(ss)
    && (forall k :: k in a1 && k !in KeysOf(ss) ==> k in a0 && a1[k] == a0[k])
    && (forall i :: 0 <= i < |ss| ==> SummaryKey(ss[i]) in a1 && a1[SummaryKey(ss[i])] == SyncedRecord(a0, ss[i]))
    && o1 == o0 + NewKeys(ss, a0.Keys)
  }

  lemma {:induction false} KeysOfIndex(ss: seq<ErrorTracker.AyahErrorSummary>)
    ensures forall i :: 0 <= i < |ss| ==> SummaryKey(ss[i]) in KeysOf(ss)
    ensures forall k :: k in KeysOf(ss) ==> exists i :: 0 <= i < |ss| && SummaryKey(ss[i]) == k
  {
    if ss != [] {
      var n := |ss| - 1;
      KeysOfIndex(ss[..n]);
      forall k | k in KeysOf(ss) ensures exists i :: 0 <= i < |ss| && SummaryKey(ss[i]) == k {
        if k in KeysOf(ss[..n]) {
          var i :| 0 <= i < n && SummaryKey(ss[..n][i]) == k;
          assert SummaryKey(ss[i]) == k;
        } else {
          assert SummaryKey(ss[n]) == k;
        }
      }
      forall i | 0 <= i < |ss| ensures SummaryKey(ss[i]) in KeysOf(ss) {
        if i < n { assert ss[..n][i] == ss[i]; }
      }
    }
  }

  lemma {:induction false} NewKeysFacts(ss: seq<ErrorTracker.AyahErrorSummary>, known: set<AyahKey>)
    requires DistinctKeys(ss)
    ensures forall k :: k in NewKeys(ss, known) <==> k in KeysOf(ss) && k !in known
    ensures Distinct(NewKeys(ss, known))
  {
    if ss != [] {
      var n := |ss| - 1;
      var k := SummaryKey(ss[n]);
      assert DistinctKeys(ss[..n]);
      NewKeysFacts(ss[..n], known);
      KeysOfIndex(ss[..n]);
      assert forall i :: 0 <= i < n ==> SummaryKey(ss[..n][i]) != k by {
        forall i | 0 <= i < n ensures SummaryKey(ss[..n][i]) != k { assert ss[..n][i] == ss[i]; }
      }
      assert k !in KeysOf(ss[..n]);
    }
  }

  /** Syncing with no new ayah adds nothing to the order. */
  lemma {:induction false} NewKeysKnown(ss: seq<ErrorTracker.AyahErrorSummary>, known: set<AyahKey>)
    requires KeysOf(ss) <= known
    ensures NewKeys(ss, known) == []
  {
    if ss != [] { NewKeysKnown(ss[..|ss| - 1], known); }
  }

  lemma PrefixStep(ss: seq<ErrorTracker.AyahErrorSummary>, i: nat, known: set<AyahKey>)
    requires i < |ss|
    ensures KeysOf(ss[..i + 1]) == KeysOf(ss[..i]) + {SummaryKey(ss[i])}
    ensures NewKeys(ss[..i + 1], known)
      == NewKeys(ss[..i], known) + (if SummaryKey(ss[i]) in known then [] else [SummaryKey(ss[i])])
  {
    assert ss[..i + 1][..i] == ss[..i];
  }

  lemma OrderStep(o0: seq<AyahKey>, o: seq<AyahKey>, ss: seq<ErrorTracker.AyahErrorSummary>, i: nat, known: set<AyahKey>)
    requires i < |ss| && o == o0 + NewKeys(ss[..i], known)
    ensures (if SummaryKey(ss[i]) in known then o else o + [SummaryKey(ss[i])]) == o0 + NewKeys(ss[..i + 1], known)
  {
    PrefixStep(ss, i, known);
  }

  /** The ayah of the next summary is not among those synced so far, so its record is
      still the one the store started with. */
  lemma SyncStepFresh(a0: map<AyahKey, AyahMastery>, o0: seq<AyahKey>, ss: seq<ErrorTracker.AyahErrorSummary>, i: nat,
                      a: map<AyahKey, AyahMastery>, o: seq<AyahKey>)
    requires i < |ss| && DistinctKeys(ss)
    requires SyncedFrom(a0, o0, ss[..i], a, o)
    ensures SummaryKey(ss[i]) !in KeysOf(ss[..i])
    ensures (SummaryKey(ss[i]) in a) == (SummaryKey(ss[i]) in a0)
    ensures SyncedRecord(a, ss[i]) == SyncedRecord(a0, ss[i])
  {
    var k := SummaryKey(ss[i]);
    var pre := ss[..i];
    KeysOfIndex(pre);
    assert forall j :: 0 <= j < i ==> SummaryKey(pre[j]) != k by {
      forall j | 0 <= j < i ensures SummaryKey(pre[j]) != k { assert pre[j] == ss[j]; }
    }
    assert k !in KeysOf(pre);
  }

  /** One iteration of syncMasteryFromErrors' loop. */
  lemma SyncStep(a0: map<AyahKey, AyahMastery>, o0: seq<AyahKey>, ss: seq<ErrorTracker.AyahErrorSummary>, i: nat,
                 a: map<AyahKey, AyahMastery>, o: seq<AyahKey>)
    requires i < |ss| && DistinctKeys(ss)
    requires SyncedFrom(a0, o0, ss[..i], a, o)
    ensures var k := SummaryKey(ss[i]);
      SyncedFrom(a0, o0, ss[..i + 1], a[k := SyncedRecord(a, ss[i])], if k in a then o else o + [k])
  {
    var s, k := ss[i], SummaryKey(ss[i]);
    var pre, post := ss[..i], ss[..i + 1];
    assert post[..i] == pre && post[i] == s;
    SyncStepFresh(a0, o0, ss, i, a, o);
    var r := SyncedRecord(a, s);
    var a', o' := a[k := r], if k in a then o else o + [k];
    PrefixStep(ss, i, a0.Keys);
    assert a'.Keys == a0.Keys + KeysOf(post);
    assert forall kk :: kk in a' && kk !in KeysOf(post) ==> kk in a0 && a'[kk] == a0[kk];
    forall j | 0 <= j < i + 1
      ensures SummaryKey(post[j]) in a' && a'[SummaryKey(post[j])] == SyncedRecord(a0, post[j])
    {
      if j < i {
        assert post[j] == pre[j] && post[j] == ss[j];
      }
    }
    OrderStep(o0, o, ss, i, a0.Keys);
  }

  /** The loop of syncMasteryFromErrors over summaries of distinct ayahs. */
  method SyncSummaries(ayahs: map<AyahKey, AyahMastery>, order: seq<AyahKey>, ss: seq<ErrorTracker.AyahErrorSummary>)
    returns (ayahs': map<AyahKey, AyahMastery>, order': seq<AyahKey>)
    requires DistinctKeys(ss)
    ensures SyncedFrom(ayahs, order, ss, ayahs', order')
  {
    ayahs', order' := ayahs, order;
    var i := 0;
    while i < |ss|
      invariant 0 <= i <= |ss|
      invariant SyncedFrom(ayahs, order, ss[..i], ayahs', order')
    {
      SyncStep(ayahs, order, ss, i, ayahs', order');
      var summary := ss[i];
      var key := (summary.surahNumber, summary.ayahNumber);
      if key in ayahs' {
        var existing := ayahs'[key];
        existing := existing.(totalErrors := summary.totalErrors);
        existing := existing.(level := DetermineLevel(summary.totalErrors, existing.drillAttempts, existing.lastDrillScore));
        ayahs' := ayahs'[key := existing];
      } else {
        ayahs' := ayahs'[key := AyahMastery(summary.surahNumber, summary.ayahNumber, New, summary.totalErrors,
                                            0, None, None, None, [])];
        order' := order' + [key];
      }
      i := i + 1;
    }
    assert ss[..i] == ss;
  }

  /** A synced record is coherent. */
  lemma SyncedCoherent(a0: map<AyahKey, AyahMastery>, s: ErrorTracker.AyahErrorSummary)
    requires SummaryKey(s) in a0 ==> Coherent(SummaryKey(s), a0[SummaryKey(s)])
    ensures Coherent(SummaryKey(s), SyncedRecord(a0, s))
  {
  }

  /** The ayahs a sync adds are new and distinct, so the order stays free of repeats. */
  lemma SyncedOrderDistinct(o0: seq<AyahKey>, ss: seq<ErrorTracker.AyahErrorSummary>, known: set<AyahKey>)
    requires Distinct(o0) && (forall k :: k in o0 <==> k in known) && DistinctKeys(ss)
    ensures Distinct(o0 + NewKeys(ss, known))
    ensures forall k :: k in o0 + NewKeys(ss, known) <==> k in known + KeysOf(ss)
  {
    NewKeysFacts(ss, known);
    var added := NewKeys(ss, known);
    var o1 := o0 + added;
    forall i, j | 0 <= i < j < |o1| ensures o1[i] != o1[j] {
      if j < |o0| {
      } else if i >= |o0| {
        assert o1[i] == added[i - |o0|] && o1[j] == added[j - |o0|];
      } else {
        assert o1[i] in o0 && o1[j] in added;
      }
    }
  }

  /** A sync keeps the store well kept. */
  lemma SyncKeepsWellKept(a0: map<AyahKey, AyahMastery>, o0: seq<AyahKey>, ss: seq<ErrorTracker.AyahErrorSummary>,
                          a1: map<AyahKey, AyahMastery>, o1: seq<AyahKey>)
    requires WellKept(a0, o0) && DistinctKeys(ss) && SyncedFrom(a0, o0, ss, a1, o1)
    ensures WellKept(a1, o1)
  {
    SyncedOrderDistinct(o0, ss, a0.Keys);
    KeysOfIndex(ss);
    forall k | k in a1 ensures Coherent(k, a1[k]) {
      if k in KeysOf(ss) {
        var i :| 0 <= i < |ss| && SummaryKey(ss[i]) == k;
        SyncedCoherent(a0, ss[i]);
      }
    }
  }

  /** A second sync with the same summaries changes no record and adds no ayah. */
  lemma SyncIdempotent(a0: map<AyahKey, AyahMastery>, o0: seq<AyahKey>, ss: seq<ErrorTracker.AyahErrorSummary>,
                       a1: map<AyahKey, AyahMastery>, o1: seq<AyahKey>, a2: map<AyahKey, AyahMastery>, o2: seq<AyahKey>)
    requires SyncedFrom(a0, o0, ss, a1, o1) && SyncedFrom(a1, o1, ss, a2, o2)
    ensures a2 == a1 && o2 == o1
  {
    KeysOfIndex(ss);
    NewKeysKnown(ss, a1.Keys);
    assert a2.Keys == a1.Keys;
    forall k | k in a2 ensures a2[k] == a1[k] {
      if k in KeysOf(ss) {
        var i :| 0 <= i < |ss| && SummaryKey(ss[i]) == k;
        assert a2[k] == SyncedRecord(a1, ss[i]);
      }
    }
  }

  /** The error log's summaries are one per ayah with errors ... */
  lemma SummaryKeys(log: seq<ErrorTracker.ErrorEntry>)
    ensures KeysOf(ErrorTracker.Summaries(log)) == ErrorTracker.KeySet(log)
  {
    var ss := ErrorTracker.Summaries(log);
    ErrorTracker.SummariesAreSummaries(log);
    ErrorTracker.SummariesCoverAyahs(log);
    ErrorTracker.FirstSeenFacts(log);
    KeysOfIndex(ss);
    forall k | k in ErrorTracker.KeySet(log) ensures k in KeysOf(ss) {
      var s := ErrorTracker.Summary(log, k);
      var i :| 0 <= i < |ss| && ss[i] == s;
      assert SummaryKey(s) == k;
    }
    forall k | k in KeysOf(ss) ensures k in ErrorTracker.KeySet(log) {
      var i :| 0 <= i < |ss| && SummaryKey(ss[i]) == k;
      assert ss[i] in ss;
    }
  }

  /** ... each with its ayah's error count. */
  lemma SummaryTotals(log: seq<ErrorTracker.ErrorEntry>)
    ensures forall i :: 0 <= i < |ErrorTracker.Summaries(log)| ==>
      ErrorTracker.Summaries(log)[i].totalErrors == ErrorTracker.Count(log, SummaryKey(ErrorTracker.Summaries(log)[i]))
  {
    var ss := ErrorTracker.Summaries(log);
    ErrorTracker.SummariesAreSummaries(log);
    forall i | 0 <= i < |ss| ensures ss[i].totalErrors == ErrorTracker.Count(log, SummaryKey(ss[i])) {
      assert ss[i] in ss;
    }
  }

  /** Syncing with the error log's summaries: every ayah with errors has a record that
      carries its error count, and the record of every other ayah is left as it was. */
  lemma SyncWithLog(a0: map<AyahKey, AyahMastery>, o0: seq<AyahKey>, log: seq<ErrorTracker.ErrorEntry>,
                    a1: map<AyahKey, AyahMastery>, o1: seq<AyahKey>)
    requires SyncedFrom(a0, o0, ErrorTracker.Summaries(log), a1, o1)
    ensures a1.Keys == a0.Keys + ErrorTracker.KeySet(log)
    ensures forall k :: k in ErrorTracker.KeySet(log) ==> k in a1 && a1[k].totalErrors == ErrorTracker.Count(log, k)
    ensures forall k :: k in a0 && k !in ErrorTracker.KeySet(log) ==> k in a1 && a1[k] == a0[k]
  {
    var ss := ErrorTracker.Summaries(log);
    SummaryKeys(log);
    SummaryTotals(log);
    KeysOfIndex(ss);
    forall k | k in ErrorTracker.KeySet(log) ensures k in a1 && a1[k].totalErrors == ErrorTracker.Count(log, k) {
      var i :| 0 <= i < |ss| && SummaryKey(ss[i]) == k;
      assert a1[k] == SyncedRecord(a0, ss[i]);
    }
  }

  // ---------------------------------------------------------------------------
  // recordDrillResult
  // ---------------------------------------------------------------------------

  /** The record of ayah (s, a) after a drill with the given score and error count:
      a missing record is first an empty one carrying the drill's error count. */
  function Drilled(prev: Option<AyahMastery>, s: int, a: int, score: int, errors: int, now: string, today: int)
    : (r: AyahMastery)
    ensures prev.Some? ==>
      && r.drillAttempts == prev.value.drillAttempts + 1
      && r.history == prev.value.history + [DrillResult(now, score, errors)]
      && r.totalErrors == prev.value.totalErrors
    ensures prev.None? ==>
      r.drillAttempts == 1 && r.history == [DrillResult(now, score, errors)] && r.totalErrors == errors
    ensures r.lastDrillScore == Some(score) && r.lastDrillDate == Some(now)
    ensures r.level == DetermineLevel(r.totalErrors, r.drillAttempts, r.lastDrillScore)
    ensures r.level != New && (r.level == Mastered <==> score >= 90)
    ensures r.nextReviewDate.Some? && today + 1 <= r.nextReviewDate.value <= today + 30
  {
    var base := if prev.Some? then prev.value else AyahMastery(s, a, New, errors, 0, None, None, None, []);
    var attempts := base.drillAttempts + 1;
    base.(level := if score >= 90 then Mastered else Practicing,
          drillAttempts := attempts,
          lastDrillDate := Some(now),
          lastDrillScore := Some(score),
          nextReviewDate := Some(today + ReviewInterval(attempts, Some(score))),
          history := base.history + [DrillResult(now, score, errors)])
  }

  /** A drill on an existing record, field by field as recordDrillResult updates it. */
  lemma DrilledExisting(m: AyahMastery, s: int, a: int, score: int, errors: int, now: string, today: int)
    ensures var attempts := m.drillAttempts + 1;
      Drilled(Some(m), s, a, score, errors, now, today)
      == m.(drillAttempts := attempts, lastDrillDate := Some(now), lastDrillScore := Some(score),
            history := m.history + [DrillResult(now, score, errors)],
            level := DetermineLevel(m.totalErrors, attempts, Some(score)),
            nextReviewDate := Some(today + ReviewInterval(attempts, Some(score))))
  {
  }

  /** recordDrillResult's three updates of an existing record, in order. */
  lemma DrillStepsExisting(m: AyahMastery, s: int, a: int, score: int, errors: int, now: string, today: int)
    ensures var e1 := m.(drillAttempts := m.drillAttempts + 1, lastDrillDate := Some(now),
                         lastDrillScore := Some(score), history := m.history + [DrillResult(now, score, errors)]);
      var e2 := e1.(level := DetermineLevel(e1.totalErrors, e1.drillAttempts, Some(score)));
      e2.(nextReviewDate := Some(NextReview(e2, today))) == Drilled(Some(m), s, a, score, errors, now, today)
  {
    DrilledExisting(m, s, a, score, errors, now, today);
  }

  /** recordDrillResult's new record, built then given its review date. */
  lemma DrillStepsNew(s: int, a: int, score: int, errors: int, now: string, today: int)
    ensures var e := AyahMastery(s, a, if score >= 90 then Mastered else Practicing, errors, 1,
                                 Some(now), Some(score), None, [DrillResult(now, score, errors)]);
      e.(nextReviewDate := Some(NextReview(e, today))) == Drilled(None, s, a, score, errors, now, today)
  {
  }

  /** A drill keeps the ayah's record coherent. */
  lemma DrillKeepsCoherent(prev: Option<AyahMastery>, s: int, a: int, score: int, errors: int, now: string, today: int)
    requires prev.Some? ==> Coherent((s, a), prev.value)
    ensures Coherent((s, a), Drilled(prev, s, a, score, errors, now, today))
  {
    var r := Drilled(prev, s, a, score, errors, now, today);
    assert r.history[|r.history| - 1] == DrillResult(now, score, errors);
  }

  /** A drill keeps the store well kept. */
  lemma DrillKeepsWellKept(ayahs: map<AyahKey, AyahMastery>, order: seq<AyahKey>, s: int, a: int, score: int,
                           errors: int, now: string, today: int)
    requires WellKept(ayahs, order)
    ensures var k := (s, a);
      WellKept(ayahs[k := Drilled(Lookup(ayahs, k), s, a, score, errors, now, today)],
               if k in ayahs then order else order + [k])
  {
    DrillKeepsCoherent(Lookup(ayahs, (s, a)), s, a, score, errors, now, today);
  }

  // ---------------------------------------------------------------------------
  // getDueForReview and getWeakestForDrill
  // ---------------------------------------------------------------------------

  function LevelRank(l: Level): int {
    match l
    case New => 0
    case Practicing => 1
    case Mastered => 2
  }

  /** The comparator of both selections as a sort key: level first (new before
      practicing before mastered), then more errors first. */
  function Priority(m: AyahMastery): (int, int) {
    (LevelRank(m.level), -m.totalErrors)
  }

  predicate IsDue(m: AyahMastery, today: int) {
    m.level != Mastered || (m.nextReviewDate.Some? && m.nextReviewDate.value <= today)
  }

  function DueOn(today: int): AyahMastery -> bool {
    m => IsDue(m, today)
  }

  predicate Unmastered(m: AyahMastery) {
    m.level != Mastered
  }

  /** getDueForReview: every record that is not mastered, and every mastered one whose
      review day has come, in priority order. */
  function DueForReview(records: seq<AyahMastery>, today: int): (r: seq<AyahMastery>)
    ensures forall m :: m in r <==> m in records && IsDue(m, today)
    ensures multiset(r) == multiset(Filter(records, DueOn(today)))
    ensures SortedBy(r, Priority)
  {
    var due := Filter(records, DueOn(today));
    FilterMembers(records, DueOn(today));
    SortByMembers(due, Priority);
    assert forall m :: DueOn(today)(m) == IsDue(m, today);
    SortBy(due, Priority)
  }

  /** The non-mastered records in priority order. */
  function DrillOrder(records: seq<AyahMastery>): (r: seq<AyahMastery>)
    ensures forall m :: m in r <==> m in records && Unmastered(m)
    ensures multiset(r) == multiset(Filter(records, Unmastered))
    ensures SortedBy(r, Priority)
  {
    var open := Filter(records, Unmastered);
    FilterMembers(records, Unmastered);
    SortByMembers(open, Priority);
    SortBy(open, Priority)
  }

  const DefaultDrillCount := 5

  /** getWeakestForDrill's selection: the first `count` records of the drill order
      (for a negative count, all but the last -count of them, as `slice` does). */
  function Weakest(records: seq<AyahMastery>, count: int): (r: seq<AyahMastery>)
    ensures r <= DrillOrder(records)
    ensures count >= 0 ==> |r| == Min(count, |DrillOrder(records)|)
    ensures forall m :: m in r ==> m in records && Unmastered(m)
    ensures SortedBy(r, Priority)
    ensures count >= |DrillOrder(records)| ==> multiset(r) == multiset(Filter(records, Unmastered))
  {
    var order := DrillOrder(records);
    var r := SliceTo(order, count);
    assert r == order[..|r|];
    r
  }

  /** A record the selection leaves out ranks no higher than any record it takes. */
  lemma WeakestFirst(records: seq<AyahMastery>, count: int)
    ensures forall m, x ::
      (m in records && Unmastered(m) && m !in Weakest(records, count) && x in Weakest(records, count)
      ==> !KeyLess(Priority(m), Priority(x)))
  {
    var order := DrillOrder(records);
    var r := Weakest(records, count);
    var n := |r|;
    assert forall t :: 0 <= t < n ==> order[t] == r[t];
    forall m, x | m in records && Unmastered(m) && m !in r && x in r
      ensures !KeyLess(Priority(m), Priority(x))
    {
      var j :| 0 <= j < |order| && order[j] == m;
      var i :| 0 <= i < n && r[i] == x;
      assert order[i] == x;
    }
  }

  // ---------------------------------------------------------------------------
  // getMasteryStats and getErrorTypeBreakdown
  // ---------------------------------------------------------------------------

  datatype MasteryStats = MasteryStats(total: nat, newCount: nat, practicingCount: nat, masteredCount: nat)

  function AtLevel(l: Level): AyahMastery -> bool {
    (m: AyahMastery) => m.level == l
  }

  /** getMasteryStats' counts over the records. */
  function StatsOf(records: seq<AyahMastery>): MasteryStats {
    MasteryStats(|records|, |Filter(records, AtLevel(New))|, |Filter(records, AtLevel(Practicing))|,
                 |Filter(records, AtLevel(Mastered))|)
  }

  /** Every record is at exactly one level, so the three counts add up to the total. */
  lemma {:induction false} StatsAddUp(records: seq<AyahMastery>)
    ensures var st := StatsOf(records); st.newCount + st.practicingCount + st.masteredCount == st.total
  {
    if records != [] {
      StatsAddUp(records[1..]);
    }
  }

  datatype ErrorTypeBreakdown = ErrorTypeBreakdown(substitution: nat, deletion: nat, addition: nat, order: nat)

  /** The number of log entries of one kind. */
  function KindCount(log: seq<ErrorTracker.ErrorEntry>, kind: FuzzyCompare.ErrorKind): nat {
    if log == [] then 0
    else KindCount(log[..|log| - 1], kind) + (if log[|log| - 1].kind == kind then 1 else 0)
  }

  /** Every entry is of one of the four kinds, so the counts add up to the log's length. */
  lemma {:induction false} BreakdownAddsUp(log: seq<ErrorTracker.ErrorEntry>)
    ensures KindCount(log, FuzzyCompare.Substitution) + KindCount(log, FuzzyCompare.Deletion)
      + KindCount(log, FuzzyCompare.Addition) + KindCount(log, FuzzyCompare.Order) == |log|
  {
    if log != [] { BreakdownAddsUp(log[..|log| - 1]); }
  }

  /** getErrorTypeBreakdown's counting loop. */
  method CountErrorTypes(errors: ErrorTracker.ErrorLog) returns (b: ErrorTypeBreakdown)
    ensures b == ErrorTypeBreakdown(
      KindCount(errors.entries, FuzzyCompare.Substitution), KindCount(errors.entries, FuzzyCompare.Deletion),
      KindCount(errors.entries, FuzzyCompare.Addition), KindCount(errors.entries, FuzzyCompare.Order))
  {
    var log := errors.entries;
    b := ErrorTypeBreakdown(0, 0, 0, 0);
    var i := 0;
    while i < |log|
      invariant 0 <= i <= |log|
      invariant b == ErrorTypeBreakdown(
        KindCount(log[..i], FuzzyCompare.Substitution), KindCount(log[..i], FuzzyCompare.Deletion),
        KindCount(log[..i], FuzzyCompare.Addition), KindCount(log[..i], FuzzyCompare.Order))
    {
      assert log[..i + 1][..i] == log[..i];
      match log[i].kind {
        case Substitution => b := b.(substitution := b.substitution + 1);
        case Deletion => b := b.(deletion := b.deletion + 1);
        case Addition => b := b.(addition := b.addition + 1);
        case Order => b := b.(order := b.order + 1);
      }
      i := i + 1;
    }
    assert log[..i] == log;
  }

  /** getAyahMasteryLevel: the level of an ayah's record, if it has one. */
  function AyahMasteryLevel(ayahs: map<AyahKey, AyahMastery>, surahNumber: int, ayahNumber: int): (r: Option<Level>)
    requires forall k :: k in ayahs ==> Coherent(k, ayahs[k])
    ensures r.Some? <==> (surahNumber, ayahNumber) in ayahs
    ensures r.Some? ==> var m := ayahs[(surahNumber, ayahNumber)];
      r.value == DetermineLevel(m.totalErrors, m.drillAttempts, m.lastDrillScore)
  {
    var key := (surahNumber, ayahNumber);
    if key in ayahs then
      assert Coherent(key, ayahs[key]);
      Some(ayahs[key].level)
    else None
  }

  // ---------------------------------------------------------------------------
  // The stored mastery data
  // ---------------------------------------------------------------------------

  class MasteryStore {
    var ayahs: map<AyahKey, AyahMastery>
    var order: seq<AyahKey>
    var lastSyncDate: Option<string>

    ghost predicate Valid()
      reads this
    {
      WellKept(ayahs, order)
    }

    constructor ()
      ensures Valid() && ayahs == map[] && order == [] && lastSyncDate == None
    {
      ayahs, order, lastSyncDate := map[], [], None;
    }

    /** The records, as `Object.values` lists them. */
    function Records(): seq<AyahMastery>
      reads this
      requires Valid()
    {
      RecordsOf(ayahs, order)
    }

    /** syncMasteryFromErrors. */
    method Sync(errors: ErrorTracker.ErrorLog, now: string)
      requires Valid()
      modifies this
      ensures Valid()
      ensures SyncedFrom(old(ayahs), old(order), ErrorTracker.Summaries(errors.entries), ayahs, order)
      ensures lastSyncDate == Some(now)
    {
      var summaries := errors.GetAyahErrorSummaries();
      ErrorTracker.SummariesDistinct(errors.entries);
      assert DistinctKeys(summaries);
      var a, o := SyncSummaries(ayahs, order, summaries);
      SyncKeepsWellKept(ayahs, order, summaries, a, o);
      ayahs, order := a, o;
      lastSyncDate := Some(now);
    }

    /** recordDrillResult: returns the level before and after the drill. */
    method RecordDrill(surahNumber: int, ayahNumber: int, score: int, errors: int, now: string, today: int)
      returns (previousLevel: Level, newLevel: Level)
      requires Valid()
      modifies this
      ensures Valid()
      ensures ayahs == old(ayahs)[(surahNumber, ayahNumber) :=
        Drilled(Lookup(old(ayahs), (surahNumber, ayahNumber)), surahNumber, ayahNumber, score, errors, now, today)]
      ensures order == if (surahNumber, ayahNumber) in old(ayahs) then old(order) else old(order) + [(surahNumber, ayahNumber)]
      ensures lastSyncDate == old(lastSyncDate)
      ensures previousLevel == if (surahNumber, ayahNumber) in old(ayahs) then old(ayahs)[(surahNumber, ayahNumber)].level else New
      ensures newLevel == ayahs[(surahNumber, ayahNumber)].level && newLevel != New
    {
      var key := (surahNumber, ayahNumber);
      var result := DrillResult(now, score, errors);
      DrillKeepsWellKept(ayahs, order, surahNumber, ayahNumber, score, errors, now, today);
      ghost var want := Drilled(Lookup(ayahs, key), surahNumber, ayahNumber, score, errors, now, today);
      previousLevel := if key in ayahs then ayahs[key].level else New;
      var drilled: AyahMastery;
      if key in ayahs {
        var existing := ayahs[key];
        existing := existing.(drillAttempts := existing.drillAttempts + 1, lastDrillDate := Some(result.date),
                              lastDrillScore := Some(score), history := existing.history + [result]);
        existing := existing.(level := DetermineLevel(existing.totalErrors, existing.drillAttempts, Some(score)));
        existing := existing.(nextReviewDate := Some(NextReview(existing, today)));
        DrillStepsExisting(ayahs[key], surahNumber, ayahNumber, score, errors, now, today);
        drilled := existing;
      } else {
        var newMastery := AyahMastery(surahNumber, ayahNumber, if score >= 90 then Mastered else Practicing, errors, 1,
                                 Some(result.date), Some(score), None, [result]);
        newMastery := newMastery.(nextReviewDate := Some(NextReview(newMastery, today)));
        DrillStepsNew(surahNumber, ayahNumber, score, errors, now, today);
        drilled := newMastery;
        order := order + [key];
      }
      ayahs := ayahs[key := drilled];
      newLevel := drilled.level;
    }

    /** getWeakestForDrill(count = 5): syncs with the error log, then selects;
        an omitted count is `None`. */
    method WeakestForDrill(errors: ErrorTracker.ErrorLog, now: string, count: Option<int>) returns (r: seq<AyahMastery>)
      requires Valid()
      modifies this
      ensures Valid()
      ensures SyncedFrom(old(ayahs), old(order), ErrorTracker.Summaries(errors.entries), ayahs, order)
      ensures lastSyncDate == Some(now)
      ensures r == Weakest(Records(), count.GetOr(DefaultDrillCount))
      ensures count.None? ==> |r| == Min(5, |DrillOrder(Records())|)
    {
      Sync(errors, now);
      r := Weakest(Records(), count.GetOr(DefaultDrillCount));
    }

    /** getMasteryStats: syncs with the error log, then counts. */
    method Stats(errors: ErrorTracker.ErrorLog, now: string) returns (st: MasteryStats)
      requires Valid()
      modifies this
      ensures Valid()
      ensures SyncedFrom(old(ayahs), old(order), ErrorTracker.Summaries(errors.entries), ayahs, order)
      ensures lastSyncDate == Some(now)
      ensures st == StatsOf(Records())
    {
      Sync(errors, now);
      st := StatsOf(Records());
    }
  }
}
