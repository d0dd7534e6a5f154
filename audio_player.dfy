/** The recitation player (src/hooks/useAudioPlayer.ts): the table of the
    absolute number of each surah's first ayah, the conversion of an absolute
    ayah number to the six-digit "SSSAAA" file name, and the playlist and
    repeat transitions. The surah ayah counts are passed in; the audio element,
    its events and the pause timers are not part of this model. */
module AudioPlayer {
  import opened Common

  // ---------------------------------------------------------------------------
  // Absolute ayah numbers.
  // ---------------------------------------------------------------------------

  /** The sum of a list of counts. */
  function Sum(s: seq<int>): int {
    if s == [] then 0 else Sum(s[..|s| - 1]) + s[|s| - 1]
  }

  /** Entry `i` is the number of ayahs in the surahs before surah `i + 1`. */
  function Starts(counts: seq<int>): (r: seq<int>)
    ensures |r| == |counts|
    ensures forall i :: 0 <= i < |counts| ==> r[i] == Sum(counts[..i])
  {
    seq(|counts|, i requires 0 <= i < |counts| => Sum(counts[..i]))
  }

  /** The loop building `surahStartAbsolute`. */
  method SurahStarts(counts: seq<int>) returns (starts: seq<int>)
    ensures starts == Starts(counts)
  {
    starts := [];
    var cumulative := 0;
    for i := 0 to |counts|
      invariant |starts| == i
      invariant forall j :: 0 <= j < i ==> starts[j] == Sum(counts[..j])
      invariant cumulative == Sum(counts[..i])
    {
      starts := starts + [cumulative];
      assert counts[..i + 1][..i] == counts[..i];
      cumulative := cumulative + counts[i];
    }
  }

  /** Consecutive starts differ by the surah's ayah count. */
  lemma StartsStep(counts: seq<int>, i: int)
    requires 0 <= i < |counts|
    ensures Sum(counts[..i + 1]) == Starts(counts)[i] + counts[i]
  {
    assert counts[..i + 1][..i] == counts[..i];
  }

  /** The reverse search of `absoluteToSSSAAA` from surah index `i` down: the
      last surah whose start lies below `absolute`, as (surah, ayah in surah). */
  function LocateFrom(starts: seq<int>, absolute: int, i: int): (r: Option<(int, int)>)
    requires -1 <= i < |starts|
    ensures r.None? <==> forall j :: 0 <= j <= i ==> absolute <= starts[j]
    ensures r.Some? ==> (1 <= r.value.0 <= i + 1 && starts[r.value.0 - 1] < absolute
      && r.value.1 == absolute - starts[r.value.0 - 1]
      && forall j :: r.value.0 <= j <= i ==> absolute <= starts[j])
    decreases i + 1
  {
    if i < 0 then None
    else if absolute > starts[i] then Some((i + 1, absolute - starts[i]))
    else LocateFrom(starts, absolute, i - 1)
  }

  function Locate(starts: seq<int>, absolute: int): Option<(int, int)> {
    LocateFrom(starts, absolute, |starts| - 1)
  }

  /** Three-digit zero-padded decimal. */
  function Pad3(n: int): string {
    PadStart(IntToString(n), 3, '0')
  }

  /** `absoluteToSSSAAA`, with `"001001"` when no surah starts below the number. */
  function AyahCode(starts: seq<int>, absolute: int): string {
    match Locate(starts, absolute)
    case None => "001001"
    case Some((surah, ayah)) => Pad3(surah) + Pad3(ayah)
  }

  /** The loop of `absoluteToSSSAAA`. */
  method AbsoluteToCode(starts: seq<int>, absolute: int) returns (code: string)
    ensures code == AyahCode(starts, absolute)
  {
    var i := |starts| - 1;
    while i >= 0
      invariant -1 <= i < |starts|
      invariant Locate(starts, absolute) == LocateFrom(starts, absolute, i)
    {
      if absolute > starts[i] {
        var surah := i + 1;
        var ayah := absolute - starts[i];
        assert Locate(starts, absolute) == Some((surah, ayah));
        return Pad3(surah) + Pad3(ayah);
      }
      i := i - 1;
    }
    return "001001";
  }

  /** With positive ayah counts, every absolute number from 1 to the total
      lies in exactly the surah found: its ayah number is between 1 and the
      surah's count, and the surah's start plus the ayah number gives it back. */
  lemma LocateInRange(counts: seq<int>, absolute: int)
    requires forall i :: 0 <= i < |counts| ==> counts[i] >= 1
    requires 1 <= absolute <= Sum(counts)
    ensures Locate(Starts(counts), absolute).Some?
    ensures var (surah, ayah) := Locate(Starts(counts), absolute).value;
      1 <= surah <= |counts| && 1 <= ayah <= counts[surah - 1]
      && Sum(counts[..surah - 1]) + ayah == absolute
  {
    var starts := Starts(counts);
    assert counts != [];
    assert starts[0] == 0 by { assert counts[..0] == []; }
    var r := Locate(starts, absolute);
    var surah := r.value.0;
    StartsStep(counts, surah - 1);
    if surah == |counts| {
      assert counts[..surah] == counts;
    } else {
      assert absolute <= starts[surah];
    }
  }

  /** A number that is not positive gives the first ayah of the first surah. */
  lemma NonPositiveIsFirstAyah(counts: seq<int>, absolute: int)
    requires forall i :: 0 <= i < |counts| ==> counts[i] >= 0
    requires absolute <= 0
    ensures AyahCode(Starts(counts), absolute) == "001001"
  {
    forall j | 0 <= j < |counts| ensures absolute <= Starts(counts)[j] {
      SumNonNegative(counts[..j]);
    }
  }

  lemma {:induction false} SumNonNegative(s: seq<int>)
    requires forall i :: 0 <= i < |s| ==> s[i] >= 0
    ensures Sum(s) >= 0
  {
    if s != [] {
      SumNonNegative(s[..|s| - 1]);
    }
  }

  // ---------------------------------------------------------------------------
  // Reading the file name back.
  // ---------------------------------------------------------------------------

  lemma {:induction false} NatToStringShort(n: nat)
    requires n < 1000
    ensures |NatToString(n)| <= 3
  {
    if n >= 10 { NatToStringShort(n / 10); }
  }

  /** Leading zeros do not change the value. */
  lemma {:induction false} LeadingZeros(zeros: string, s: string)
    requires forall i :: 0 <= i < |zeros| ==> zeros[i] == '0'
    ensures DigitsValue(zeros + s) == DigitsValue(s)
    decreases |s|, |zeros|
  {
    if s == [] {
      assert zeros + s == zeros;
      if zeros != [] {
        LeadingZeros(zeros[..|zeros| - 1], []);
        assert zeros[..|zeros| - 1] + [] == zeros[..|zeros| - 1];
      }
    } else {
      LeadingZeros(zeros, s[..|s| - 1]);
      assert (zeros + s)[..|zeros + s| - 1] == zeros + s[..|s| - 1];
    }
  }

  /** Padding with zeros does not change the value. */
  lemma ZeroPadValue(s: string, width: nat)
    ensures DigitsValue(PadStart(s, width, '0')) == DigitsValue(s)
  {
    var p := PadStart(s, width, '0');
    var zeros := p[..|p| - |s|];
    assert p == zeros + p[|p| - |s|..];
    LeadingZeros(zeros, s);
  }

  lemma Pad3Value(n: int)
    requires 0 <= n < 1000
    ensures |Pad3(n)| == 3 && DigitsValue(Pad3(n)) == n
  {
    NatToStringShort(n);
    NatToStringValue(n);
    ZeroPadValue(NatToString(n), 3);
  }

  /** The file name reads back as the surah and the ayah in the surah. */
  lemma CodeRoundTrip(counts: seq<int>, absolute: int)
    requires forall i :: 0 <= i < |counts| ==> counts[i] >= 1
    requires |counts| < 1000 && forall i :: 0 <= i < |counts| ==> counts[i] < 1000
    requires 1 <= absolute <= Sum(counts)
    ensures var loc := Locate(Starts(counts), absolute);
      var code := AyahCode(Starts(counts), absolute);
      loc.Some? && |code| == 6 && DigitsValue(code[..3]) == loc.value.0 && DigitsValue(code[3..]) == loc.value.1
  {
    LocateInRange(counts, absolute);
    var (surah, ayah) := Locate(Starts(counts), absolute).value;
    Pad3Value(surah);
    Pad3Value(ayah);
    var code := AyahCode(Starts(counts), absolute);
    assert code[..3] == Pad3(surah) && code[3..] == Pad3(ayah);
  }

  // ---------------------------------------------------------------------------
  // Playlist and repeat transitions.
  // ---------------------------------------------------------------------------

  datatype RepeatMode = Off | RepeatAyah | RepeatRange

  /** What the player remembers between events: the playlist, the position in
      it, the 1-based repeat counter, the ayah playing (none for null or an
      undefined playlist entry), whether it plays, and the repeat settings
      (`repeatCount` 0 repeats without end). */
  datatype Player = Player(
    playlist: seq<int>,
    index: int,
    repeat: int,
    currentAyah: Option<int>,
    playing: bool,
    repeatMode: RepeatMode,
    repeatCount: int)

  const Initial := Player([], 0, 1, None, false, Off, 1)

  /** The position is on the playlist, or at 0 of an empty one, and the
      counter is at least 1. */
  predicate Valid(p: Player) {
    0 <= p.index && (p.index < |p.playlist| || (p.playlist == [] && p.index == 0)) && p.repeat >= 1
  }

  /** `playlist[i]`, undefined past the end. */
  function At(playlist: seq<int>, i: int): (r: Option<int>)
    ensures r.Some? <==> 0 <= i < |playlist|
    ensures r.Some? ==> r.value == playlist[i]
  {
    if 0 <= i < |playlist| then Some(playlist[i]) else None
  }

  /** `currentRepeat < maxRepeats`, with 0 standing for no limit. */
  predicate BelowMax(repeat: int, repeatCount: int) {
    repeatCount == 0 || repeat < repeatCount
  }

  /** `playAyah`: start the given ayah. */
  function Play(p: Player, ayah: Option<int>): Player {
    p.(currentAyah := ayah, playing := true)
  }

  /** The `ended` handler, after any auto-pause delay. */
  function Ended(p: Player): (r: Player)
    ensures r.playlist == p.playlist && r.repeatMode == p.repeatMode && r.repeatCount == p.repeatCount
    ensures p.repeatMode == RepeatAyah && BelowMax(p.repeat, p.repeatCount) ==>
      r.index == p.index && r.repeat == p.repeat + 1 && r.playing && r.currentAyah == At(p.playlist, p.index)
    ensures !(p.repeatMode == RepeatAyah && BelowMax(p.repeat, p.repeatCount)) && p.index + 1 < |p.playlist| ==>
      r.index == p.index + 1 && r.repeat == 1 && r.playing && r.currentAyah == At(p.playlist, p.index + 1)
    ensures !(p.repeatMode == RepeatAyah && BelowMax(p.repeat, p.repeatCount)) && p.index + 1 >= |p.playlist| ==>
      if p.repeatMode == RepeatRange && BelowMax(p.repeat, p.repeatCount)
      then r.index == 0 && r.repeat == p.repeat + 1 && r.playing && r.currentAyah == At(p.playlist, 0)
      else r.index == p.index && r.repeat == 1 && !r.playing && r.currentAyah == None
  {
    if p.repeatMode == RepeatAyah && BelowMax(p.repeat, p.repeatCount) then
      Play(p.(repeat := p.repeat + 1), At(p.playlist, p.index))
    else if p.index + 1 < |p.playlist| then
      Play(p.(index := p.index + 1, repeat := 1), At(p.playlist, p.index + 1))
    else if p.repeatMode == RepeatRange && BelowMax(p.repeat, p.repeatCount) then
      Play(p.(repeat := p.repeat + 1, index := 0), At(p.playlist, 0))
    else
      p.(playing := false, currentAyah := None, repeat := 1)
  }

  /** `playRange`: nothing for an empty list, otherwise the list from its start. */
  function PlayRange(p: Player, ayahs: seq<int>): (r: Player)
    ensures ayahs == [] ==> r == p
    ensures ayahs != [] ==> (r.playlist == ayahs && r.index == 0 && r.repeat == 1
      && r.playing && r.currentAyah == Some(ayahs[0]))
  {
    if ayahs == [] then p
    else Play(p.(playlist := ayahs, index := 0, repeat := 1), Some(ayahs[0]))
  }

  /** `stop`: nothing playing, the playlist cleared. */
  function Stop(p: Player): (r: Player)
    ensures Valid(r) && r.playlist == [] && !r.playing && r.currentAyah == None
  {
    p.(playing := false, currentAyah := None, playlist := [], index := 0, repeat := 1)
  }

  /** `skipNext`: the next entry from its first repeat, or stop past the end. */
  function SkipNext(p: Player): (r: Player)
    ensures r.repeat == 1
    ensures p.index + 1 < |p.playlist| ==> r.index == p.index + 1 && r.playing && r.currentAyah == At(p.playlist, p.index + 1)
    ensures p.index + 1 >= |p.playlist| ==> r == Stop(p)
  {
    var q := p.(repeat := 1, index := p.index + 1);
    if q.index < |q.playlist| then Play(q, At(q.playlist, q.index)) else Stop(q)
  }

  /** `skipPrev`: the previous entry from its first repeat; at the first entry
      only the counter is reset. */
  function SkipPrev(p: Player): (r: Player)
    ensures r.repeat == 1 && r.playlist == p.playlist
    ensures p.index > 0 ==> r.index == p.index - 1 && r.playing && r.currentAyah == At(p.playlist, p.index - 1)
    ensures p.index <= 0 ==> r == p.(repeat := 1)
  {
    if p.index > 0 then Play(p.(repeat := 1, index := p.index - 1), At(p.playlist, p.index - 1))
    else p.(repeat := 1)
  }

  /** Every transition keeps the player valid. */
  lemma TransitionsKeepValid(p: Player, ayahs: seq<int>, ayah: Option<int>)
    requires Valid(p)
    ensures Valid(Ended(p)) && Valid(PlayRange(p, ayahs)) && Valid(Stop(p))
    ensures Valid(SkipNext(p)) && Valid(SkipPrev(p)) && Valid(Play(p, ayah))
  {}

  /** `n` successive `ended` events. */
  function EndedTimes(p: Player, n: nat): Player {
    if n == 0 then p else Ended(EndedTimes(p, n - 1))
  }

  /** Repeating an ayah `repeatCount` times: from repeat `k`, the next
      `repeatCount - k` endings replay the same entry. */
  lemma {:induction false} AyahRepeatsInPlace(p: Player, n: nat)
    requires p.repeatMode == RepeatAyah && 1 <= p.repeat && p.repeat + n <= p.repeatCount
    ensures EndedTimes(p, n).index == p.index && EndedTimes(p, n).repeat == p.repeat + n
    ensures EndedTimes(p, n).playlist == p.playlist && EndedTimes(p, n).repeatMode == p.repeatMode
    ensures EndedTimes(p, n).repeatCount == p.repeatCount
    ensures n > 0 ==> EndedTimes(p, n).currentAyah == At(p.playlist, p.index)
  {
    if n > 0 {
      AyahRepeatsInPlace(p, n - 1);
    }
  }

  /** Without repeats, each ending moves one entry on through the playlist. */
  lemma {:induction false} PlaysThrough(p: Player, n: nat)
    requires p.repeatMode == Off && p.index + n < |p.playlist| && 0 <= p.index
    ensures EndedTimes(p, n).index == p.index + n && EndedTimes(p, n).playlist == p.playlist
    ensures EndedTimes(p, n).repeatMode == Off
    ensures n > 0 ==> EndedTimes(p, n).currentAyah == Some(p.playlist[p.index + n]) && EndedTimes(p, n).repeat == 1
  {
    if n > 0 {
      PlaysThrough(p, n - 1);
    }
  }

  /** A playlist started with `playRange` and no repeats plays each entry in
      turn and then stops. */
  lemma RangePlaysOnceAndStops(p: Player, ayahs: seq<int>)
    requires ayahs != [] && p.repeatMode == Off
    ensures EndedTimes(PlayRange(p, ayahs), |ayahs| - 1).currentAyah == Some(ayahs[|ayahs| - 1])
    ensures !EndedTimes(PlayRange(p, ayahs), |ayahs|).playing
    ensures EndedTimes(PlayRange(p, ayahs), |ayahs|).currentAyah == None
  {
    PlaysThrough(PlayRange(p, ayahs), |ayahs| - 1);
    if |ayahs| == 1 {
      assert EndedTimes(PlayRange(p, ayahs), 0) == PlayRange(p, ayahs);
    }
  }

  /** The player state of the hook, updated in place. */
  class AudioPlayerState {
    var playlist: seq<int>
    var index: int
    var repeat: int
    var currentAyah: Option<int>
    var playing: bool
    var repeatMode: RepeatMode
    var repeatCount: int

    function State(): Player
      reads this
    {
      Player(playlist, index, repeat, currentAyah, playing, repeatMode, repeatCount)
    }

    constructor()
      ensures State() == Initial
    {
      playlist, index, repeat := [], 0, 1;
      currentAyah, playing := None, false;
      repeatMode, repeatCount := Off, 1;
    }

    /** `updateConfig` for the repeat settings; absent fields are kept. */
    method UpdateConfig(mode: Option<RepeatMode>, count: Option<int>)
      modifies this
      ensures State() == old(State()).(
        repeatMode := if mode.Some? then mode.value else old(repeatMode),
        repeatCount := if count.Some? then count.value else old(repeatCount))
    {
      if mode.Some? { repeatMode := mode.value; }
      if count.Some? { repeatCount := count.value; }
    }

    method PlayAyah(ayah: Option<int>)
      modifies this
      ensures State() == Play(old(State()), ayah)
    {
      playing := true;
      currentAyah := ayah;
    }

    method OnEnded()
      modifies this
      ensures State() == Ended(old(State()))
    {
      var currentIndex := index;
      var currentRepeat := repeat;
      if repeatMode == RepeatAyah && BelowMax(currentRepeat, repeatCount) {
        repeat := repeat + 1;
        PlayAyah(At(playlist, currentIndex));
        return;
      }
      var nextIndex := currentIndex + 1;
      if nextIndex < |playlist| {
        index := nextIndex;
        repeat := 1;
        PlayAyah(At(playlist, nextIndex));
      } else if repeatMode == RepeatRange && BelowMax(currentRepeat, repeatCount) {
        repeat := repeat + 1;
        index := 0;
        PlayAyah(At(playlist, 0));
      } else {
        playing := false;
        currentAyah := None;
        repeat := 1;
      }
    }

    method PlayRangeOf(ayahs: seq<int>)
      modifies this
      ensures State() == PlayRange(old(State()), ayahs)
    {
      if |ayahs| == 0 {
        return;
      }
      playlist := ayahs;
      index := 0;
      repeat := 1;
      PlayAyah(Some(ayahs[0]));
    }

    method StopPlayback()
      modifies this
      ensures State() == Stop(old(State()))
    {
      playlist := [];
      index := 0;
      repeat := 1;
      playing := false;
      currentAyah := None;
    }

    method SkipToNext()
      modifies this
      ensures State() == SkipNext(old(State()))
    {
      repeat := 1;
      index := index + 1;
      if index < |playlist| {
        PlayAyah(At(playlist, index));
      } else {
        StopPlayback();
      }
    }

    method SkipToPrev()
      modifies this
      ensures State() == SkipPrev(old(State()))
    {
      repeat := 1;
      if index > 0 {
        index := index - 1;
        PlayAyah(At(playlist, index));
      }
    }
  }
}
