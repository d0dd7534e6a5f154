/** The generator of the plan data (scripts/parse-plan.js): the line-by-line
    parser of the markdown plan table and the quoting of the review text in
    the generated source. Reading and writing files is not part of this model:
    the lines and the surah-number table are passed in. */
module PlanParser {
  import opened Common
  import opened ArabicText
  import opened PlanUtils

  const BOOK: char := '\U{1F4D7}'
  const MOSQUE: char := '\U{1F54C}'
  const CLIPBOARD: char := '\U{1F4CB}'
  const JuzWord: string := "الجزء"
  const MonthWord: string := "الشهر"
  const DayWord: string := "اليوم"

  datatype FridayReview = FridayReview(afterDay: int, juz: int)
  datatype MonthlyReview = MonthlyReview(month: int, afterDay: int)

  // ---------------------------------------------------------------------------
  // Splitting a row into cells.
  // ---------------------------------------------------------------------------

  /** `s.split(sep)`: the pieces between separators, empty ones included. */
  function SplitOn(s: string, sep: char): (r: seq<string>)
    ensures |r| >= 1
    ensures forall i :: 0 <= i < |r| ==> sep !in r[i]
  {
    if s == [] then [[]]
    else
      var rest := SplitOn(s[1..], sep);
      if s[0] == sep then [[]] + rest
      else [[s[0]] + rest[0]] + rest[1..]
  }

  /** The pieces joined with the separator between them. */
  function JoinWith(parts: seq<string>, sep: char): string
    requires |parts| >= 1
  {
    if |parts| == 1 then parts[0] else parts[0] + [sep] + JoinWith(parts[1..], sep)
  }

  /** Splitting loses nothing: joining the pieces gives the line back. */
  lemma {:induction false} SplitJoin(s: string, sep: char)
    ensures JoinWith(SplitOn(s, sep), sep) == s
  {
    if s != [] {
      var rest := SplitOn(s[1..], sep);
      SplitJoin(s[1..], sep);
      if s[0] == sep {
        assert SplitOn(s, sep)[1..] == rest;
      } else if |rest| == 1 {
        assert SplitOn(s, sep) == [[s[0]] + rest[0]];
      } else {
        var r := SplitOn(s, sep);
        assert r[1..] == rest[1..];
        assert JoinWith(rest, sep) == rest[0] + [sep] + JoinWith(rest[1..], sep);
      }
    }
  }

  function TrimAll(parts: seq<string>): (r: seq<string>)
    ensures |r| == |parts|
    ensures forall i :: 0 <= i < |parts| ==> r[i] == Trim(parts[i])
  {
    seq(|parts|, i requires 0 <= i < |parts| => Trim(parts[i]))
  }

  predicate NonEmpty(c: string) { c != [] }

  /** `line.split('|').map(c => c.trim()).filter(c => c)`. */
  function Cells(line: string): (r: seq<string>)
    ensures forall i :: 0 <= i < |r| ==> r[i] != [] && '|' !in r[i]
    ensures forall i :: 0 <= i < |r| ==> !IsSpace(r[i][0]) && !IsSpace(r[i][|r[i]| - 1])
  {
    var parts := SplitOn(line, '|');
    var trimmed := TrimAll(parts);
    forall i | 0 <= i < |trimmed| ensures '|' !in trimmed[i] {
      var lo, hi :| 0 <= lo <= hi <= |parts[i]| && trimmed[i] == parts[i][lo..hi];
      assert forall c :: c in trimmed[i] ==> c in parts[i];
    }
    Filter(trimmed, NonEmpty)
  }

  // ---------------------------------------------------------------------------
  // Numbers: `parseInt` and the `\s*(\d+)` of the patterns.
  // ---------------------------------------------------------------------------

  predicate IsDigit(c: char) { '0' <= c <= '9' }

  /** The end of the run of decimal digits starting at `i`. */
  function DigitsEnd(s: string, i: nat): (e: nat)
    requires i <= |s|
    ensures i <= e <= |s|
    ensures forall k :: i <= k < e ==> IsDigit(s[k])
    ensures e < |s| ==> !IsDigit(s[e])
    decreases |s| - i
  {
    if i < |s| && IsDigit(s[i]) then DigitsEnd(s, i + 1) else i
  }

  /** The end of the run of whitespace starting at `i`. */
  function SpacesEnd(s: string, i: nat): (e: nat)
    requires i <= |s|
    ensures i <= e <= |s|
    ensures forall k :: i <= k < e ==> IsSpace(s[k])
    ensures e < |s| ==> !IsSpace(s[e])
    decreases |s| - i
  {
    if i < |s| && IsSpace(s[i]) then SpacesEnd(s, i + 1) else i
  }

  /** `parseInt(s)` in base ten: leading whitespace, an optional sign, then the
      longest run of digits; none when there is no digit (`NaN`). */
  function ParseInt(s: string): Option<int> {
    var i := SpacesEnd(s, 0);
    var negative := i < |s| && s[i] == '-';
    var start := if i < |s| && (s[i] == '-' || s[i] == '+') then i + 1 else i;
    var end := DigitsEnd(s, start);
    if end == start then None
    else
      var value := DigitsValue(s[start..end]);
      Some(if negative then -value else value)
  }

  /** `parseInt` reads the decimal form of `n` back, whatever non-digit text
      follows it. */
  lemma ParseIntOfDecimal(n: nat, rest: string)
    requires rest == [] || !IsDigit(rest[0])
    ensures ParseInt(NatToString(n) + rest) == Some(n)
  {
    var d := NatToString(n);
    var s := d + rest;
    NatToStringValue(n);
    assert s[0] == d[0];
    assert !IsSpace(s[0]) && s[0] != '-' && s[0] != '+';
    DigitsToEnd(d, rest, 0);
    assert s[0..|d|] == d;
  }

  lemma {:induction false} DigitsToEnd(d: string, rest: string, i: nat)
    requires i <= |d| && forall k :: 0 <= k < |d| ==> IsDigit(d[k])
    requires rest == [] || !IsDigit(rest[0])
    ensures DigitsEnd(d + rest, i) == |d|
    decreases |d| - i
  {
    var s := d + rest;
    if i < |d| {
      assert s[i] == d[i];
      DigitsToEnd(d, rest, i + 1);
    } else if i < |s| {
      assert s[i] == rest[0];
    }
  }

  /** `\s*(\d+)` at `j`: the number its digits spell. */
  function NumberAfter(s: string, j: nat): Option<int>
    requires j <= |s|
  {
    var c := SpacesEnd(s, j);
    var e := DigitsEnd(s, c);
    if e == c then None else Some(DigitsValue(s[c..e]))
  }

  predicate StartsAt(s: string, i: nat, w: string) {
    i + |w| <= |s| && s[i..i + |w|] == w
  }

  /** `word\s*(\d+)` at `i`. */
  function WordNumberAt(s: string, i: nat, word: string): Option<int>
    requires i <= |s|
  {
    if StartsAt(s, i, word) then NumberAfter(s, i + |word|) else None
  }

  /** `###\s*📗\s*الجزء\s*(\d+)` at `i`. */
  function JuzHeaderAt(line: string, i: nat): Option<int>
    requires i <= |line|
  {
    if !StartsAt(line, i, "###") then None
    else
      var a := SpacesEnd(line, i + 3);
      if !StartsAt(line, a, [BOOK]) then None
      else WordNumberAt(line, SpacesEnd(line, a + 1), JuzWord)
  }

  /** The leftmost juz-header match at or after `i`. */
  function JuzHeaderFrom(line: string, i: nat): (r: Option<int>)
    requires i <= |line|
    ensures r.Some? ==> exists k :: i <= k <= |line| && JuzHeaderAt(line, k) == r
    ensures r.None? <==> forall k :: i <= k <= |line| ==> JuzHeaderAt(line, k).None?
    decreases |line| - i
  {
    if JuzHeaderAt(line, i).Some? then JuzHeaderAt(line, i)
    else if i == |line| then None
    else JuzHeaderFrom(line, i + 1)
  }

  /** `line.match(/###\s*📗\s*الجزء\s*(\d+)/)`, read with `parseInt`. */
  function JuzHeader(line: string): Option<int> {
    JuzHeaderFrom(line, 0)
  }

  /** The leftmost month match at or after `i`. */
  function MonthFrom(cell: string, i: nat): (r: Option<int>)
    requires i <= |cell|
    ensures r.Some? ==> exists k :: i <= k <= |cell| && WordNumberAt(cell, k, MonthWord) == r
    ensures r.None? <==> forall k :: i <= k <= |cell| ==> WordNumberAt(cell, k, MonthWord).None?
    decreases |cell| - i
  {
    if WordNumberAt(cell, i, MonthWord).Some? then WordNumberAt(cell, i, MonthWord)
    else if i == |cell| then None
    else MonthFrom(cell, i + 1)
  }

  /** `cell.match(/الشهر\s*(\d+)/)`, read with `parseInt`. */
  function MonthIn(cell: string): Option<int> {
    MonthFrom(cell, 0)
  }

  // ---------------------------------------------------------------------------
  // The surah name: `replace(/\*\*/g, '')`.
  // ---------------------------------------------------------------------------

  predicate NoDoubleStar(s: string) {
    forall i :: 0 <= i < |s| - 1 ==> !(s[i] == '*' && s[i + 1] == '*')
  }

  /** Every `**` removed, left to right without overlap. */
  function RemoveDoubleStars(s: string): (r: string)
    ensures |r| <= |s|
  {
    if |s| >= 2 && s[0] == '*' && s[1] == '*' then RemoveDoubleStars(s[2..])
    else if s == [] then []
    else [s[0]] + RemoveDoubleStars(s[1..])
  }

  /** No `**` is left over. */
  lemma {:induction false} RemoveDoubleStarsComplete(s: string)
    ensures NoDoubleStar(RemoveDoubleStars(s))
  {
    if |s| >= 2 && s[0] == '*' && s[1] == '*' {
      RemoveDoubleStarsComplete(s[2..]);
    } else if s != [] {
      var rest := RemoveDoubleStars(s[1..]);
      RemoveDoubleStarsComplete(s[1..]);
      var r := [s[0]] + rest;
      forall i | 0 <= i < |r| - 1 ensures !(r[i] == '*' && r[i + 1] == '*') {
        if i > 0 { assert r[i] == rest[i - 1] && r[i + 1] == rest[i]; }
      }
    }
  }

  /** A string without `**` is left as it is. */
  lemma {:induction false} RemoveDoubleStarsKeeps(s: string)
    requires NoDoubleStar(s)
    ensures RemoveDoubleStars(s) == s
  {
    if s != [] {
      assert NoDoubleStar(s[1..]);
      RemoveDoubleStarsKeeps(s[1..]);
    }
  }

  /** Text before the first `**` is kept, the `**` itself dropped. */
  lemma {:induction false} RemoveDoubleStarsSkips(a: string, b: string)
    requires '*' !in a
    ensures RemoveDoubleStars(a + "**" + b) == a + RemoveDoubleStars(b)
  {
    if a == [] {
      assert a + "**" + b == "**" + b;
      assert ("**" + b)[2..] == b;
    } else {
      assert (a + "**" + b)[0] == a[0];
      assert (a + "**" + b)[1..] == a[1..] + "**" + b;
      RemoveDoubleStarsSkips(a[1..], b);
      assert [a[0]] + a[1..] == a;
    }
  }

  /** A name set in bold, `**name**`, reads as the name. */
  lemma BoldNameRead(name: string)
    requires '*' !in name
    ensures RemoveDoubleStars("**" + name + "**") == name
  {
    RemoveDoubleStarsSkips([], name + "**");
    assert [] + "**" + (name + "**") == "**" + name + "**";
    RemoveDoubleStarsSkips(name, []);
    assert name + "**" + [] == name + "**";
  }

  /** Trimming a string without `**` leaves none. */
  lemma TrimKeepsNoDoubleStar(s: string)
    requires NoDoubleStar(s)
    ensures NoDoubleStar(Trim(s))
  {
    var lo, hi :| 0 <= lo <= hi <= |s| && Trim(s) == s[lo..hi];
    var t := Trim(s);
    forall i | 0 <= i < |t| - 1 ensures !(t[i] == '*' && t[i + 1] == '*') {
      assert t[i] == s[lo + i] && t[i + 1] == s[lo + i + 1];
    }
  }

  // ---------------------------------------------------------------------------
  // One line of the plan.
  // ---------------------------------------------------------------------------

  /** What the parser has collected so far. */
  datatype ParseState = ParseState(
    days: seq<PlanDay>,
    fridays: seq<FridayReview>,
    monthlies: seq<MonthlyReview>,
    currentJuz: int)

  const Start := ParseState([], [], [], 0)

  /** The day number of the last day read, 0 before the first. */
  function LastDayNumber(days: seq<PlanDay>): int {
    if days == [] then 0 else days[|days| - 1].dayNumber
  }

  /** The table header and the separator row. */
  predicate IsHeaderCell(c: string) {
    c == DayWord || StartsAt(c, 0, ":---") || StartsAt(c, 0, "---")
  }

  /** `surahNumbers[name] || 0`. */
  function SurahNumberOf(table: map<string, int>, name: string): (r: int)
    ensures r != 0 <==> name in table && table[name] != 0
  {
    if name in table && table[name] != 0 then table[name] else 0
  }

  /** A day row: none unless the day number and both ayahs read as numbers. */
  function DayRow(cells: seq<string>, juz: int, table: map<string, int>): (r: Option<PlanDay>)
    requires |cells| >= 7
    ensures r.Some? <==> ParseInt(cells[0]).Some? && ParseInt(cells[2]).Some? && ParseInt(cells[3]).Some?
    ensures r.Some? ==> r.value.juz == juz && r.value.nearReview == cells[6]
    ensures r.Some? ==> r.value.dayNumber == ParseInt(cells[0]).value
    ensures r.Some? ==> r.value.startAyah == ParseInt(cells[2]).value && r.value.endAyah == ParseInt(cells[3]).value
    ensures r.Some? ==> r.value.surahName == Trim(RemoveDoubleStars(cells[1]))
    ensures r.Some? && ParseInt(cells[4]).Some? ==> r.value.ayahCount == ParseInt(cells[4]).value
    ensures r.Some? ==> NoDoubleStar(r.value.surahName)
    ensures r.Some? ==> var name := r.value.surahName;
      (r.value.surahNumber != 0 <==> name in table && table[name] != 0)
      && (r.value.surahNumber != 0 ==> r.value.surahNumber == table[name])
    ensures r.Some? && ParseInt(cells[4]).None? ==>
      r.value.ayahCount == r.value.endAyah - r.value.startAyah + 1
  {
    var dayNumber := ParseInt(cells[0]);
    var name := Trim(RemoveDoubleStars(cells[1]));
    var startAyah := ParseInt(cells[2]);
    var endAyah := ParseInt(cells[3]);
    var ayahCount := ParseInt(cells[4]);
    RemoveDoubleStarsComplete(cells[1]);
    TrimKeepsNoDoubleStar(RemoveDoubleStars(cells[1]));
    if dayNumber.None? || startAyah.None? || endAyah.None? then None
    else
      Some(PlanDay(
        dayNumber.value, juz, name, SurahNumberOf(table, name), startAyah.value, endAyah.value,
        if ayahCount.Some? then ayahCount.value else endAyah.value - startAyah.value + 1,
        cells[6]))
  }

  /** How one line can change the state: a juz header sets the current juz
      and nothing else; any other line keeps it, and adds at most one day (of
      the current juz), or one Friday review after the last day, or one
      monthly review after the last day (or 0); a line that is no table row
      changes nothing. */
  ghost predicate StepShape(st: ParseState, line: string, r: ParseState) {
    && (JuzHeader(line).Some? ==> r == st.(currentJuz := JuzHeader(line).value))
    && (JuzHeader(line).None? ==> r.currentJuz == st.currentJuz)
    && (JuzHeader(line).None? && !StartsAt(line, 0, "|") ==> r == st)
    && (|| r == st
        || (exists d: PlanDay :: d.juz == st.currentJuz && r == st.(days := st.days + [d]))
        || (st.days != [] && r == st.(fridays := st.fridays + [FridayReview(LastDayNumber(st.days), st.currentJuz)]))
        || (exists m :: r == st.(monthlies := st.monthlies + [MonthlyReview(m, LastDayNumber(st.days))]))
        || JuzHeader(line).Some?)
  }

  /** One iteration of the loop over the lines of the plan. */
  function Step(st: ParseState, line: string, table: map<string, int>): (r: ParseState)
    ensures StepShape(st, line, r)
  {
    var header := JuzHeader(line);
    if header.Some? then st.(currentJuz := header.value)
    else if !StartsAt(line, 0, "|") then st
    else CellsStep(st, Cells(line), table)
  }

  /** The part of an iteration after a table row has been split into cells. */
  function CellsStep(st: ParseState, cells: seq<string>, table: map<string, int>): ParseState {
    if |cells| < 7 then st
    else
      var first := cells[0];
      if IsHeaderCell(first) then st
      else if first == [MOSQUE] then
        if st.days != [] then st.(fridays := st.fridays + [FridayReview(LastDayNumber(st.days), st.currentJuz)])
        else st
      else if first == [CLIPBOARD] then
        var month := MonthIn(cells[1]);
        if month.Some? then st.(monthlies := st.monthlies + [MonthlyReview(month.value, LastDayNumber(st.days))])
        else st
      else
        var day := DayRow(cells, st.currentJuz, table);
        if day.Some? then st.(days := st.days + [day.value])
        else st
  }

  // ---------------------------------------------------------------------------
  // The whole plan.
  // ---------------------------------------------------------------------------

  /** The state after reading `lines` in order. */
  function ParseLines(lines: seq<string>, table: map<string, int>): ParseState {
    if lines == [] then Start
    else Step(ParseLines(lines[..|lines| - 1], table), lines[|lines| - 1], table)
  }

  /** Reading one more line is one more Step. */
  lemma ParseLinesStep(lines: seq<string>, i: int, table: map<string, int>)
    requires 0 <= i < |lines|
    ensures ParseLines(lines[..i + 1], table) == Step(ParseLines(lines[..i], table), lines[i], table)
  {
    assert lines[..i + 1][..i] == lines[..i];
  }

  /** The loop of the generator (lines 41-107): reads every line once, in
      order, and ends in the state `ParseLines` describes. */
  method ParsePlan(lines: seq<string>, table: map<string, int>)
    returns (days: seq<PlanDay>, fridays: seq<FridayReview>, monthlies: seq<MonthlyReview>)
    ensures var st := ParseLines(lines, table);
      days == st.days && fridays == st.fridays && monthlies == st.monthlies
  {
    days, fridays, monthlies := [], [], [];
    var currentJuz := 0;
    for i := 0 to |lines|
      invariant ParseLines(lines[..i], table) == ParseState(days, fridays, monthlies, currentJuz)
    {
      ParseLinesStep(lines, i, table);
      var line := lines[i];
      var juzMatch := JuzHeader(line);
      if juzMatch.Some? {
        currentJuz := juzMatch.value;
        continue;
      }
      if !StartsAt(line, 0, "|") {
        continue;
      }
      var cells := Cells(line);
      if |cells| < 7 {
        continue;
      }
      var firstCell := cells[0];
      if IsHeaderCell(firstCell) {
        continue;
      }
      if firstCell == [MOSQUE] {
        if |days| > 0 {
          fridays := fridays + [FridayReview(days[|days| - 1].dayNumber, currentJuz)];
        }
        continue;
      }
      if firstCell == [CLIPBOARD] {
        var monthMatch := MonthIn(cells[1]);
        if monthMatch.Some? {
          monthlies := monthlies + [MonthlyReview(monthMatch.value, if |days| > 0 then days[|days| - 1].dayNumber else 0)];
        }
        continue;
      }
      var day := DayRow(cells, currentJuz, table);
      if day.Some? {
        days := days + [day.value];
      }
    }
    assert lines[..|lines|] == lines;
  }

  /** `j` is the juz number of some header line. */
  ghost predicate HeaderValue(lines: seq<string>, j: int) {
    exists k :: 0 <= k < |lines| && JuzHeader(lines[k]) == Some(j)
  }

  /** What the parser keeps true: every juz it records is 0 (before the first
      header) or the number of a header line, every Friday review follows a day
      that was read, and every monthly review follows one or comes first. */
  ghost predicate Coherent(st: ParseState, lines: seq<string>) {
    && (st.currentJuz == 0 || HeaderValue(lines, st.currentJuz))
    && (forall d :: d in st.days ==> d.juz == 0 || HeaderValue(lines, d.juz))
    && (forall f :: f in st.fridays ==>
         (exists d :: d in st.days && d.dayNumber == f.afterDay) && (f.juz == 0 || HeaderValue(lines, f.juz)))
    && (forall m :: m in st.monthlies ==> m.afterDay == 0 || exists d :: d in st.days && d.dayNumber == m.afterDay)
  }

  lemma MoreLinesKeepCoherent(st: ParseState, lines: seq<string>, line: string)
    requires Coherent(st, lines)
    ensures Coherent(st, lines + [line])
  {
    var all := lines + [line];
    forall j | HeaderValue(lines, j) ensures HeaderValue(all, j) {
      var k :| 0 <= k < |lines| && JuzHeader(lines[k]) == Some(j);
      assert all[k] == lines[k];
    }
  }

  lemma HeaderKeepsCoherent(st: ParseState, lines: seq<string>, line: string)
    requires Coherent(st, lines) && JuzHeader(line).Some?
    ensures Coherent(st.(currentJuz := JuzHeader(line).value), lines + [line])
  {
    MoreLinesKeepCoherent(st, lines, line);
    assert (lines + [line])[|lines|] == line;
  }

  lemma DayKeepsCoherent(st: ParseState, lines: seq<string>, d: PlanDay)
    requires Coherent(st, lines) && d.juz == st.currentJuz
    ensures Coherent(st.(days := st.days + [d]), lines)
  {
    assert forall x :: x in st.days + [d] ==> x in st.days || x == d;
  }

  lemma FridayKeepsCoherent(st: ParseState, lines: seq<string>)
    requires Coherent(st, lines) && st.days != []
    ensures Coherent(st.(fridays := st.fridays + [FridayReview(LastDayNumber(st.days), st.currentJuz)]), lines)
  {
    assert st.days[|st.days| - 1] in st.days;
  }

  lemma MonthlyKeepsCoherent(st: ParseState, lines: seq<string>, m: int)
    requires Coherent(st, lines)
    ensures Coherent(st.(monthlies := st.monthlies + [MonthlyReview(m, LastDayNumber(st.days))]), lines)
  {
    if st.days != [] {
      assert st.days[|st.days| - 1] in st.days;
    }
  }

  lemma StepKeepsCoherent(st: ParseState, lines: seq<string>, line: string, r: ParseState)
    requires Coherent(st, lines) && StepShape(st, line, r)
    ensures Coherent(r, lines + [line])
  {
    if JuzHeader(line).Some? {
      HeaderKeepsCoherent(st, lines, line);
    } else {
      MoreLinesKeepCoherent(st, lines, line);
      var all := lines + [line];
      if r == st {
      } else if exists d: PlanDay :: d.juz == st.currentJuz && r == st.(days := st.days + [d]) {
        var d: PlanDay :| d.juz == st.currentJuz && r == st.(days := st.days + [d]);
        DayKeepsCoherent(st, all, d);
      } else if st.days != [] && r == st.(fridays := st.fridays + [FridayReview(LastDayNumber(st.days), st.currentJuz)]) {
        FridayKeepsCoherent(st, all);
      } else {
        var m :| r == st.(monthlies := st.monthlies + [MonthlyReview(m, LastDayNumber(st.days))]);
        MonthlyKeepsCoherent(st, all, m);
      }
    }
  }

  /** Everything the parser records is backed by the lines it read. */
  lemma {:induction false} ParseLinesCoherent(lines: seq<string>, table: map<string, int>)
    ensures Coherent(ParseLines(lines, table), lines)
  {
    if lines != [] {
      var init := lines[..|lines| - 1];
      ParseLinesCoherent(init, table);
      StepKeepsCoherent(ParseLines(init, table), init, lines[|lines| - 1], ParseLines(lines, table));
      assert init + [lines[|lines| - 1]] == lines;
    }
  }

  /** The collected lists after a step extend those before it. */
  lemma StepExtends(st: ParseState, line: string, r: ParseState)
    requires StepShape(st, line, r)
    ensures st.days <= r.days && st.fridays <= r.fridays && st.monthlies <= r.monthlies
  {}

  /** Reading more lines only ever appends: what was collected from the
      first `k` lines stays, in order. */
  lemma {:induction false} ParseLinesExtends(lines: seq<string>, k: nat, table: map<string, int>)
    requires k <= |lines|
    ensures var a := ParseLines(lines[..k], table); var b := ParseLines(lines, table);
      a.days <= b.days && a.fridays <= b.fridays && a.monthlies <= b.monthlies
    decreases |lines|
  {
    if k == |lines| {
      assert lines[..k] == lines;
    } else {
      var init := lines[..|lines| - 1];
      assert init[..k] == lines[..k];
      ParseLinesExtends(init, k, table);
      StepExtends(ParseLines(init, table), lines[|lines| - 1], ParseLines(lines, table));
    }
  }

  // ---------------------------------------------------------------------------
  // Rendered rows read back.
  // ---------------------------------------------------------------------------

  /** A cell the row splitter gives back unchanged, and that cannot start a header. */
  predicate PlainCell(c: string) {
    c != [] && !IsSpace(c[0]) && !IsSpace(c[|c| - 1]) && '|' !in c && '#' !in c
  }

  /** The table row `|c0|c1|...|`. */
  function Row(cells: seq<string>): string {
    JoinWith([[]] + cells + [[]], '|')
  }

  lemma {:induction false} SplitNoSeparator(a: string, sep: char)
    requires sep !in a
    ensures SplitOn(a, sep) == [a]
  {
    if a != [] {
      SplitNoSeparator(a[1..], sep);
      assert [a[0]] + a[1..] == a;
    }
  }

  lemma {:induction false} SplitAtSeparator(a: string, b: string, sep: char)
    requires sep !in a
    ensures SplitOn(a + [sep] + b, sep) == [a] + SplitOn(b, sep)
  {
    if a == [] {
      assert (a + [sep] + b)[1..] == b;
    } else {
      SplitAtSeparator(a[1..], b, sep);
      assert (a + [sep] + b)[1..] == a[1..] + [sep] + b;
      assert [a[0]] + a[1..] == a;
    }
  }

  /** Splitting undoes joining when no piece holds the separator. */
  lemma {:induction false} JoinSplit(parts: seq<string>, sep: char)
    requires |parts| >= 1 && forall i :: 0 <= i < |parts| ==> sep !in parts[i]
    ensures SplitOn(JoinWith(parts, sep), sep) == parts
  {
    if |parts| == 1 {
      SplitNoSeparator(parts[0], sep);
    } else {
      JoinSplit(parts[1..], sep);
      SplitAtSeparator(parts[0], JoinWith(parts[1..], sep), sep);
    }
  }

  lemma {:induction false} JoinedCharacter(parts: seq<string>, sep: char, c: char)
    requires |parts| >= 1 && c != sep && forall i :: 0 <= i < |parts| ==> c !in parts[i]
    ensures c !in JoinWith(parts, sep)
  {
    if |parts| > 1 {
      JoinedCharacter(parts[1..], sep, c);
    }
  }

  lemma TrimAllPlain(parts: seq<string>)
    requires forall i :: 0 <= i < |parts| ==> parts[i] == [] || PlainCell(parts[i])
    ensures TrimAll(parts) == parts
  {
    forall i | 0 <= i < |parts| ensures TrimAll(parts)[i] == parts[i] {
      TrimFixed(parts[i]);
    }
  }

  lemma {:induction false} DropOuterEmpty(cells: seq<string>)
    requires forall i :: 0 <= i < |cells| ==> cells[i] != []
    ensures Filter([[]] + cells + [[]], NonEmpty) == cells
  {
    var a: seq<string> := [[]] + cells;
    FilterDropsAll([[]], NonEmpty);
    FilterKeepsAll(cells, NonEmpty);
    FilterAppend([[]], cells, NonEmpty);
    assert Filter(a, NonEmpty) == cells;
    FilterAppend(a, [[]], NonEmpty);
    assert Filter(a + [[]], NonEmpty) == cells + [];
    assert cells + [] == cells;
  }

  /** The cells of a rendered row are the cells it was rendered from. */
  lemma CellsOfRow(cells: seq<string>)
    requires forall i :: 0 <= i < |cells| ==> PlainCell(cells[i])
    ensures Cells(Row(cells)) == cells
  {
    var parts := [[]] + cells + [[]];
    assert forall i :: 0 <= i < |parts| ==> parts[i] == [] || PlainCell(parts[i]);
    JoinSplit(parts, '|');
    TrimAllPlain(parts);
    DropOuterEmpty(cells);
  }

  /** A row made of plain cells is a table row and no juz header. */
  lemma RowIsNoHeader(cells: seq<string>)
    requires forall i :: 0 <= i < |cells| ==> PlainCell(cells[i])
    ensures JuzHeader(Row(cells)).None?
    ensures StartsAt(Row(cells), 0, "|")
  {
    var line := Row(cells);
    var parts := [[]] + cells + [[]];
    assert forall i :: 0 <= i < |parts| ==> '#' !in parts[i];
    JoinedCharacter(parts, '|', '#');
    forall k | 0 <= k <= |line| ensures !StartsAt(line, k, "###") {
      if k + 3 <= |line| {
        assert line[k..k + 3][0] == line[k];
      }
    }
    assert line[..1] == "|";
  }

  lemma DigitsArePlain(s: string)
    requires s != [] && forall i :: 0 <= i < |s| ==> IsDigit(s[i])
    ensures PlainCell(s)
  {
    assert forall i :: 0 <= i < |s| ==> s[i] != '|' && s[i] != '#';
  }

  lemma DecimalIsPlain(n: nat)
    ensures PlainCell(NatToString(n)) && IsDigit(NatToString(n)[0])
    ensures ParseInt(NatToString(n)) == Some(n)
  {
    var s := NatToString(n);
    DigitsArePlain(s);
    ParseIntOfDecimal(n, []);
    assert s + [] == s;
  }

  /** A table row of plain cells is read as those cells. */
  lemma RowRead(st: ParseState, cells: seq<string>, table: map<string, int>)
    requires forall i :: 0 <= i < |cells| ==> PlainCell(cells[i])
    ensures Step(st, Row(cells), table) == CellsStep(st, cells, table)
  {
    CellsOfRow(cells);
    RowIsNoHeader(cells);
  }

  /** A table row whose first cell names no header, review or other special
      row is read as a day row. */
  lemma RowStep(st: ParseState, cells: seq<string>, table: map<string, int>)
    requires |cells| >= 7 && forall i :: 0 <= i < |cells| ==> PlainCell(cells[i])
    requires !IsHeaderCell(cells[0]) && cells[0] != [MOSQUE] && cells[0] != [CLIPBOARD]
    ensures Step(st, Row(cells), table) ==
      if DayRow(cells, st.currentJuz, table).Some? then st.(days := st.days + [DayRow(cells, st.currentJuz, table).value])
      else st
  {
    RowRead(st, cells, table);
  }

  /** The cells the plan file holds for day `d`; `extra` is the sixth column. */
  function DayCells(d: PlanDay, extra: string): (r: seq<string>)
    requires d.dayNumber >= 0 && d.startAyah >= 0 && d.endAyah >= 0 && d.ayahCount >= 0
  {
    [NatToString(d.dayNumber), d.surahName, NatToString(d.startAyah), NatToString(d.endAyah),
     NatToString(d.ayahCount), extra, d.nearReview]
  }

  /** A cell starting with a digit is no header, separator or review marker. */
  lemma DigitCellIsNoMarker(c: string)
    requires c != [] && IsDigit(c[0])
    ensures !IsHeaderCell(c) && c != [MOSQUE] && c != [CLIPBOARD]
  {
    assert c[0] != DayWord[0];
    if 3 <= |c| {
      assert c[0..3][0] == c[0];
    }
    if 4 <= |c| {
      assert c[0..4][0] == c[0];
    }
  }

  lemma DayCellsPlain(d: PlanDay, extra: string)
    requires d.dayNumber >= 0 && d.startAyah >= 0 && d.endAyah >= 0 && d.ayahCount >= 0
    requires PlainCell(d.surahName) && PlainCell(extra) && PlainCell(d.nearReview)
    ensures var cells := DayCells(d, extra);
      (forall i :: 0 <= i < |cells| ==> PlainCell(cells[i]))
      && !IsHeaderCell(cells[0]) && cells[0] != [MOSQUE] && cells[0] != [CLIPBOARD]
  {
    var cells := DayCells(d, extra);
    DecimalIsPlain(d.dayNumber);
    DecimalIsPlain(d.startAyah);
    DecimalIsPlain(d.endAyah);
    DecimalIsPlain(d.ayahCount);
    forall i | 0 <= i < |cells| ensures PlainCell(cells[i]) {
      if i == 0 { assert cells[i] == NatToString(d.dayNumber); }
      else if i == 2 { assert cells[i] == NatToString(d.startAyah); }
      else if i == 3 { assert cells[i] == NatToString(d.endAyah); }
      else if i == 4 { assert cells[i] == NatToString(d.ayahCount); }
    }
    DigitCellIsNoMarker(NatToString(d.dayNumber));
  }

  /** The cells of a day are parsed back into that day. */
  lemma DayCellsParse(d: PlanDay, extra: string, table: map<string, int>)
    requires d.dayNumber >= 0 && d.startAyah >= 0 && d.endAyah >= 0 && d.ayahCount >= 0
    requires PlainCell(d.surahName) && NoDoubleStar(d.surahName)
    requires d.surahNumber == SurahNumberOf(table, d.surahName)
    ensures DayRow(DayCells(d, extra), d.juz, table) == Some(d)
  {
    var cells := DayCells(d, extra);
    DecimalIsPlain(d.dayNumber);
    DecimalIsPlain(d.startAyah);
    DecimalIsPlain(d.endAyah);
    DecimalIsPlain(d.ayahCount);
    assert ParseInt(cells[0]) == Some(d.dayNumber);
    assert ParseInt(cells[2]) == Some(d.startAyah);
    assert ParseInt(cells[3]) == Some(d.endAyah);
    assert ParseInt(cells[4]) == Some(d.ayahCount);
    RemoveDoubleStarsKeeps(d.surahName);
    TrimFixed(d.surahName);
    assert Trim(RemoveDoubleStars(cells[1])) == d.surahName;
  }

  lemma DayCellsRead(d: PlanDay, extra: string, table: map<string, int>)
    requires d.dayNumber >= 0 && d.startAyah >= 0 && d.endAyah >= 0 && d.ayahCount >= 0
    requires PlainCell(d.surahName) && NoDoubleStar(d.surahName) && PlainCell(extra) && PlainCell(d.nearReview)
    requires d.surahNumber == SurahNumberOf(table, d.surahName)
    ensures var cells := DayCells(d, extra);
      (forall i :: 0 <= i < |cells| ==> PlainCell(cells[i]))
      && !IsHeaderCell(cells[0]) && cells[0] != [MOSQUE] && cells[0] != [CLIPBOARD]
      && DayRow(cells, d.juz, table) == Some(d)
  {
    DayCellsPlain(d, extra);
    DayCellsParse(d, extra, table);
  }


  /** A day written as a table row is read back as that day, appended to the
      days of the current juz; nothing else changes. */
  lemma DayLineReadBack(st: ParseState, d: PlanDay, extra: string, table: map<string, int>)
    requires d.dayNumber >= 0 && d.startAyah >= 0 && d.endAyah >= 0 && d.ayahCount >= 0
    requires PlainCell(d.surahName) && NoDoubleStar(d.surahName) && PlainCell(extra) && PlainCell(d.nearReview)
    requires d.juz == st.currentJuz && d.surahNumber == SurahNumberOf(table, d.surahName)
    ensures Step(st, Row(DayCells(d, extra)), table) == st.(days := st.days + [d])
  {
    DayCellsRead(d, extra, table);
    RowStep(st, DayCells(d, extra), table);
  }

  /** A table row with fewer than seven cells changes nothing. */
  lemma ShortRowIgnored(st: ParseState, cells: seq<string>, table: map<string, int>)
    requires |cells| < 7 && forall i :: 0 <= i < |cells| ==> PlainCell(cells[i])
    ensures Step(st, Row(cells), table) == st
  {
    RowRead(st, cells, table);
  }

  /** The table header and the separator row change nothing. */
  lemma HeaderRowIgnored(st: ParseState, cells: seq<string>, table: map<string, int>)
    requires |cells| >= 1 && IsHeaderCell(cells[0])
    requires forall i :: 0 <= i < |cells| ==> PlainCell(cells[i])
    ensures Step(st, Row(cells), table) == st
  {
    RowRead(st, cells, table);
  }

  /** A Friday-review row (`🕌` in the first cell) records a Friday review
      after the last day read, in the current juz; before any day it
      changes nothing. */
  lemma FridayLineReadBack(st: ParseState, rest: seq<string>, table: map<string, int>)
    requires |rest| >= 6 && forall i :: 0 <= i < |rest| ==> PlainCell(rest[i])
    ensures Step(st, Row([[MOSQUE]] + rest), table) ==
      if st.days != [] then st.(fridays := st.fridays + [FridayReview(LastDayNumber(st.days), st.currentJuz)])
      else st
  {
    var cells := [[MOSQUE]] + rest;
    assert forall i :: 1 <= i < |cells| ==> cells[i] == rest[i - 1];
    RowRead(st, cells, table);
    assert !IsHeaderCell(cells[0]);
  }

  /** The second cell of the monthly-review row of month `m`. */
  function MonthCell(m: nat): string {
    MonthWord + " " + NatToString(m)
  }

  lemma MonthCellPlain(m: nat)
    ensures PlainCell(MonthCell(m))
  {
    var cell := MonthCell(m);
    var digits := NatToString(m);
    assert forall i :: 6 <= i < |cell| ==> cell[i] == digits[i - 6];
    assert forall i :: 0 <= i < |cell| ==> cell[i] != '|' && cell[i] != '#';
  }

  /** The month pattern finds the month number in the month cell. */
  lemma MonthCellRead(m: nat)
    ensures MonthIn(MonthCell(m)) == Some(m)
  {
    var cell := MonthCell(m);
    var p := MonthWord + " ";
    assert |p| == 6 && p[5] == ' ';
    NatToStringValue(m);
    NumberAtEnd(p, NatToString(m));
    assert cell[..5] == MonthWord;
    assert WordNumberAt(cell, 0, MonthWord) == Some(m);
  }

  /** A monthly-review row (`📋`, then the month) records a monthly review of
      that month after the last day read (0 before any day). */
  lemma MonthlyLineReadBack(st: ParseState, m: nat, rest: seq<string>, table: map<string, int>)
    requires |rest| >= 5 && forall i :: 0 <= i < |rest| ==> PlainCell(rest[i])
    ensures Step(st, Row([[CLIPBOARD], MonthCell(m)] + rest), table) ==
      st.(monthlies := st.monthlies + [MonthlyReview(m, LastDayNumber(st.days))])
  {
    var cells := [[CLIPBOARD], MonthCell(m)] + rest;
    MonthlyCells(m, rest);
    RowRead(st, cells, table);
    MonthlyCellsStep(st, cells, m, table);
  }

  lemma MonthlyCells(m: nat, rest: seq<string>)
    requires |rest| >= 5 && forall i :: 0 <= i < |rest| ==> PlainCell(rest[i])
    ensures var cells := [[CLIPBOARD], MonthCell(m)] + rest;
      |cells| >= 7 && (forall i :: 0 <= i < |cells| ==> PlainCell(cells[i]))
      && cells[0] == [CLIPBOARD] && MonthIn(cells[1]) == Some(m)
  {
    var cells := [[CLIPBOARD], MonthCell(m)] + rest;
    MonthCellRead(m);
    MonthCellPlain(m);
    PlainCellsJoin([[CLIPBOARD], MonthCell(m)], rest);
    assert cells[1] == MonthCell(m);
  }

  lemma PlainCellsJoin(a: seq<string>, b: seq<string>)
    requires forall i :: 0 <= i < |a| ==> PlainCell(a[i])
    requires forall i :: 0 <= i < |b| ==> PlainCell(b[i])
    ensures forall i :: 0 <= i < |a + b| ==> PlainCell((a + b)[i])
  {
  }


  /** The monthly branch of an iteration. */
  lemma MonthlyCellsStep(st: ParseState, cells: seq<string>, m: int, table: map<string, int>)
    requires |cells| >= 7 && cells[0] == [CLIPBOARD] && MonthIn(cells[1]) == Some(m)
    ensures CellsStep(st, cells, table) ==
      st.(monthlies := st.monthlies + [MonthlyReview(m, LastDayNumber(st.days))])
  {
    assert !IsHeaderCell(cells[0]);
  }


  lemma {:induction false} DigitsRunToEnd(s: string, i: nat)
    requires i <= |s| && forall k :: i <= k < |s| ==> IsDigit(s[k])
    ensures DigitsEnd(s, i) == |s|
    decreases |s| - i
  {
    if i < |s| { DigitsRunToEnd(s, i + 1); }
  }

  /** The start of a juz header line, up to the number. */
  const HeaderPrefix: string := "### \U{1F4D7} الجزء "

  /** The juz header line the plan file holds before the days of juz `j`. */
  function HeaderLine(j: nat): string {
    HeaderPrefix + NatToString(j)
  }

  lemma HeaderPrefixShape()
    ensures |HeaderPrefix| == 12 && HeaderPrefix[..3] == "###" && HeaderPrefix[4..5] == [BOOK]
    ensures HeaderPrefix[3] == ' ' && HeaderPrefix[5] == ' ' && HeaderPrefix[11] == ' '
    ensures HeaderPrefix[6..11] == JuzWord
  {}

  /** A space followed by a run of digits, at the end of a line, reads as
      the number the digits spell. */
  lemma NumberAtEnd(p: string, digits: string)
    requires |p| >= 1 && IsSpace(p[|p| - 1])
    requires digits != [] && forall i :: 0 <= i < |digits| ==> IsDigit(digits[i])
    ensures NumberAfter(p + digits, |p| - 1) == Some(DigitsValue(digits))
  {
    var line := p + digits;
    DigitsAppended(p, digits);
    assert SpacesEnd(line, |p| - 1) == |p| by {
      assert line[|p| - 1] == p[|p| - 1];
      assert SpacesEnd(line, |p|) == |p|;
    }
    DigitsRunToEnd(line, |p|);
  }

  /** Digits appended to a text fill the line from where the text ends. */
  lemma DigitsAppended(p: string, digits: string)
    requires forall i :: 0 <= i < |digits| ==> IsDigit(digits[i])
    ensures forall k :: |p| <= k < |p + digits| ==> IsDigit((p + digits)[k])
    ensures (p + digits)[|p|..|p + digits|] == digits
  {
    var line := p + digits;
    forall k | |p| <= k < |line| ensures IsDigit(line[k]) {
      assert line[k] == digits[k - |p|];
    }
  }

  /** The header pattern matches a juz header line at its start, with the
      juz number. */
  lemma HeaderLineMatches(j: nat)
    ensures JuzHeaderAt(HeaderLine(j), 0) == Some(j)
  {
    var line := HeaderLine(j);
    HeaderPrefixShape();
    NatToStringValue(j);
    NumberAtEnd(HeaderPrefix, NatToString(j));
    assert forall k :: 0 <= k < 12 ==> line[k] == HeaderPrefix[k];
    assert line[..3] == "###";
    assert SpacesEnd(line, 3) == 4;
    assert line[4..5] == [BOOK];
    assert SpacesEnd(line, 5) == 6;
    assert line[6..11] == JuzWord;
    assert WordNumberAt(line, 6, JuzWord) == Some(j);
  }

  /** A juz header is read back as its number, which becomes the current juz;
      nothing else changes. */
  lemma HeaderLineReadBack(st: ParseState, j: nat, table: map<string, int>)
    ensures Step(st, HeaderLine(j), table) == st.(currentJuz := j)
  {
    HeaderLineMatches(j);
  }

  // ---------------------------------------------------------------------------
  // Quoting the near-review text in the generated source (line 116).
  // ---------------------------------------------------------------------------

  /** The character a backslash escape stands for in a JavaScript string
      literal; a character without a special meaning stands for itself. */
  function EscapedChar(c: char): char {
    match c
    case 'n' => '\n'
    case 'r' => '\r'
    case 't' => '\t'
    case 'b' => '\U{0008}'
    case 'f' => '\U{000C}'
    case 'v' => '\U{000B}'
    case _ => c
  }

  /** `c` put in front of the value read, if any. */
  function Prepend(c: char, read: Option<(string, string)>): Option<(string, string)> {
    if read.Some? then Some(([c] + read.value.0, read.value.1)) else None
  }

  predicate IsLineBreak(c: char) { c == '\n' || c == '\r' }

  /** Reads the rest of a single-quoted literal, after its opening quote: the
      value and the text after the closing quote; none when the line or the
      text ends first. A backslash before a line break continues the literal
      on the next line. */
  function ReadQuotedBody(t: string): Option<(string, string)>
    decreases |t|
  {
    if t == [] || IsLineBreak(t[0]) then None
    else if t[0] == '\'' then Some(([], t[1..]))
    else if t[0] != '\\' then Prepend(t[0], ReadQuotedBody(t[1..]))
    else if |t| < 2 then None
    else if t[1] == '\r' && |t| >= 3 && t[2] == '\n' then ReadQuotedBody(t[3..])
    else if IsLineBreak(t[1]) then ReadQuotedBody(t[2..])
    else Prepend(EscapedChar(t[1]), ReadQuotedBody(t[2..]))
  }

  /** Reads a single-quoted literal at the start of `t`. */
  function ReadQuoted(t: string): Option<(string, string)> {
    if t != [] && t[0] == '\'' then ReadQuotedBody(t[1..]) else None
  }

  function Quote(body: string): string {
    "'" + body + "'"
  }

  /** `s.replace(/'/g, "\\'")`: a backslash before every single quote, and
      nothing else escaped. */
  function EscapeQuotesAsWritten(s: string): (r: string)
    ensures |r| >= |s|
  {
    if s == [] then []
    else (if s[0] == '\'' then "\\'" else [s[0]]) + EscapeQuotesAsWritten(s[1..])
  }

  /** A near review ending in a backslash: the backslash escapes the closing
      quote, and the literal runs on into the line break. */
  lemma TrailingBackslashBreaksLiteral()
    ensures EscapeQuotesAsWritten("\\") == "\\"
    ensures ReadQuoted(Quote(EscapeQuotesAsWritten("\\")) + " },\n") == None
  {
    assert ReadQuotedBody("\n") == None;
    assert ReadQuotedBody(",\n") == None;
    assert ReadQuotedBody("},\n") == None;
    assert ReadQuotedBody(" },\n") == None;
    var t := Quote("\\") + " },\n";
    assert t[1..] == "\\' },\n";
    assert t[1..][2..] == " },\n";
  }

  /** One character as the corrected quoting writes it: a backslash, a single
      quote or a line break as an escape, every other character as itself. */
  function EscapeChar(c: char): string {
    match c
    case '\\' => "\\\\"
    case '\'' => "\\'"
    case '\n' => "\\n"
    case '\r' => "\\r"
    case _ => [c]
  }

  /** Every character escaped. */
  function EscapeLiteral(s: string): (r: string)
    ensures |r| >= |s|
  {
    if s == [] then [] else EscapeChar(s[0]) + EscapeLiteral(s[1..])
  }

  /** Reading an escaped character gives the character back. */
  lemma ReadEscapedChar(c: char, more: string)
    ensures ReadQuotedBody(EscapeChar(c) + more) == Prepend(c, ReadQuotedBody(more))
  {
    var t := EscapeChar(c) + more;
    if c in "\\'\n\r" {
      assert t[2..] == more;
    } else {
      assert t[1..] == more;
    }
  }

  lemma {:induction false} EscapeLiteralReadBack(s: string, rest: string)
    ensures ReadQuotedBody(EscapeLiteral(s) + "'" + rest) == Some((s, rest))
  {
    if s == [] {
      assert (EscapeLiteral(s) + "'" + rest)[1..] == rest;
    } else {
      var tail := EscapeLiteral(s[1..]) + "'" + rest;
      EscapeLiteralReadBack(s[1..], rest);
      assert EscapeLiteral(s) + "'" + rest == EscapeChar(s[0]) + tail;
      ReadEscapedChar(s[0], tail);
      assert [s[0]] + s[1..] == s;
    }
  }

  lemma QuoteShape(e: string, rest: string)
    ensures (Quote(e) + rest)[0] == '\'' && (Quote(e) + rest)[1..] == e + "'" + rest
  {}

  /** The quoted literal reads back as exactly the text it quotes, whatever
      follows it. */
  lemma QuoteReadBack(s: string, rest: string)
    ensures ReadQuoted(Quote(EscapeLiteral(s)) + rest) == Some((s, rest))
  {
    var e := EscapeLiteral(s);
    EscapeLiteralReadBack(s, rest);
    QuoteShape(e, rest);
  }

  /** Without a backslash or a line break the two escapings agree. */
  lemma {:induction false} EscapingsAgree(s: string)
    requires forall i :: 0 <= i < |s| ==> s[i] != '\\' && !IsLineBreak(s[i])
    ensures EscapeQuotesAsWritten(s) == EscapeLiteral(s)
  {
    if s != [] {
      EscapingsAgree(s[1..]);
    }
  }

  /** The near review of a day as it is written into the generated source. */
  function NearReviewLiteral(d: PlanDay): (r: string)
    ensures ReadQuoted(r) == Some((d.nearReview, []))
  {
    QuoteReadBack(d.nearReview, []);
    assert Quote(EscapeLiteral(d.nearReview)) + [] == Quote(EscapeLiteral(d.nearReview));
    Quote(EscapeLiteral(d.nearReview))
  }
}
