/** The session history (src/hooks/useSessionHistory.ts, src/types/session.ts):
    newest session first, the recent prefix, the sessions of one kind and the
    total time spent. */
module Sessions {
  import opened Common

  datatype ErrorKind = Substitution | Deletion | Addition | Order

  datatype SessionError = SessionError(
    ayahNumber: int,
    surahNumber: int,
    wordIndex: int,
    expected: string,
    actual: string,
    kind: ErrorKind)

  datatype SessionType = Memorize | TestWritten | TestWordHide | TestOral | TestTap | ReviewNear | ReviewFar

  /** Every session type once. */
  const AllSessionTypes: seq<SessionType> :=
    [Memorize, TestWritten, TestWordHide, TestOral, TestTap, ReviewNear, ReviewFar]

  /** A session; `duration` is in seconds and the dates are day numbers. */
  datatype Session = Session(
    id: string,
    sessionType: SessionType,
    dayNumbers: seq<int>,
    startedAt: int,
    completedAt: Option<int>,
    duration: int,
    repetitions: Option<int>,
    score: Option<int>,
    errors: seq<SessionError>)

  /** `addSession`: the new session goes first. */
  function AddSession(sessions: seq<Session>, session: Session): (r: seq<Session>)
    ensures |r| == |sessions| + 1 && r[0] == session && r[1..] == sessions
  {
    [session] + sessions
  }

  /** The count `getRecentSessions` uses when none is given. */
  const DefaultRecentCount := 10

  /** `getRecentSessions`: the first `count` sessions (10 when omitted). */
  function RecentSessions(sessions: seq<Session>, count: Option<int>): (r: seq<Session>)
    ensures r <= sessions
    ensures count.None? ==> |r| == Min(DefaultRecentCount, |sessions|)
    ensures count.Some? && count.value >= 0 ==> |r| == Min(count.value, |sessions|)
  {
    SliceTo(sessions, if count.Some? then count.value else DefaultRecentCount)
  }

  /** A newly added session is the most recent one. */
  lemma AddedIsMostRecent(sessions: seq<Session>, session: Session, count: int)
    requires count >= 1
    ensures RecentSessions(AddSession(sessions, session), Some(count)) ==
      [session] + RecentSessions(sessions, Some(count - 1))
  {
    var all := AddSession(sessions, session);
    if count - 1 < |sessions| {
      assert all[..count] == [session] + sessions[..count - 1];
    }
  }

  /** `getSessionsByType`. */
  function SessionsByType(sessions: seq<Session>, t: SessionType): (r: seq<Session>)
    ensures forall s :: s in r <==> s in sessions && s.sessionType == t
  {
    FilterMembers(sessions, (s: Session) => s.sessionType == t);
    Filter(sessions, (s: Session) => s.sessionType == t)
  }

  /** The type filter keeps list order. */
  lemma ByTypeKeepsOrder(a: seq<Session>, b: seq<Session>, t: SessionType)
    ensures SessionsByType(a + b, t) == SessionsByType(a, t) + SessionsByType(b, t)
  {
    FilterAppend(a, b, (s: Session) => s.sessionType == t);
  }

  function Duration(s: Session): int { s.duration }

  /** `getTotalTime`: the sum of the durations. */
  function TotalTime(sessions: seq<Session>): (r: int)
    ensures sessions == [] ==> r == 0
    ensures (forall i :: 0 <= i < |sessions| ==> sessions[i].duration >= 0) ==> r >= 0
  {
    NonNegativeSum(sessions);
    SumOf(sessions, Duration)
  }

  lemma {:induction false} NonNegativeSum(sessions: seq<Session>)
    ensures (forall i :: 0 <= i < |sessions| ==> sessions[i].duration >= 0) ==> SumOf(sessions, Duration) >= 0
  {
    if sessions != [] {
      NonNegativeSum(sessions[1..]);
      assert forall i :: 1 <= i < |sessions| ==> sessions[1..][i - 1] == sessions[i];
    }
  }

  /** Adding a session adds its duration to the total. */
  lemma TotalTimeAfterAdd(sessions: seq<Session>, session: Session)
    ensures TotalTime(AddSession(sessions, session)) == session.duration + TotalTime(sessions)
  {
    assert AddSession(sessions, session)[1..] == sessions;
  }

  /** The total time of each type, added over `types`. */
  function TimeOverTypes(sessions: seq<Session>, types: seq<SessionType>): int {
    if types == [] then 0 else TotalTime(SessionsByType(sessions, types[0])) + TimeOverTypes(sessions, types[1..])
  }

  /** The duration of `s`, counted once for each time its type is listed. */
  function ShareOf(types: seq<SessionType>, s: Session): int {
    if types == [] then 0 else (if types[0] == s.sessionType then s.duration else 0) + ShareOf(types[1..], s)
  }

  /** The first session counts towards its own type only. */
  lemma ByTypeTimeCons(s: Session, rest: seq<Session>, t: SessionType)
    ensures TotalTime(SessionsByType([s] + rest, t)) ==
      (if s.sessionType == t then s.duration else 0) + TotalTime(SessionsByType(rest, t))
  {
    ByTypeKeepsOrder([s], rest, t);
    var head := SessionsByType([s], t);
    assert head == (if s.sessionType == t then [s] else []);
    SumOfAppend(head, SessionsByType(rest, t), Duration);
  }

  /** Splitting off the first session adds its share. */
  lemma {:induction false} TimeOverTypesCons(s: Session, rest: seq<Session>, types: seq<SessionType>)
    ensures TimeOverTypes([s] + rest, types) == ShareOf(types, s) + TimeOverTypes(rest, types)
  {
    if types != [] {
      TimeOverTypesCons(s, rest, types[1..]);
      ByTypeTimeCons(s, rest, types[0]);
    }
  }

  lemma {:induction false} TimeOverTypesEmpty(types: seq<SessionType>)
    ensures TimeOverTypes([], types) == 0
  {
    if types != [] {
      TimeOverTypesEmpty(types[1..]);
    }
  }

  /** Over a list without repeats, a session's share is its duration when
      its type is listed and nothing otherwise. */
  lemma {:induction false} ShareOfDistinct(types: seq<SessionType>, s: Session)
    requires Distinct(types)
    ensures ShareOf(types, s) == if s.sessionType in types then s.duration else 0
  {
    if types != [] {
      assert Distinct(types[1..]);
      ShareOfDistinct(types[1..], s);
      assert types == [types[0]] + types[1..];
    }
  }

  lemma ListedOnce(s: Session)
    ensures ShareOf(AllSessionTypes, s) == s.duration
  {
    ShareOfDistinct(AllSessionTypes, s);
  }

  /** The session types partition the history: the per-type total times add
      up to the total time. */
  lemma {:induction false} TypesPartitionTime(sessions: seq<Session>)
    ensures TimeOverTypes(sessions, AllSessionTypes) == TotalTime(sessions)
  {
    if sessions == [] {
      TimeOverTypesEmpty(AllSessionTypes);
    } else {
      var s := sessions[0];
      TypesPartitionTime(sessions[1..]);
      assert sessions == [s] + sessions[1..];
      TimeOverTypesCons(s, sessions[1..], AllSessionTypes);
      ListedOnce(s);
    }
  }
}
