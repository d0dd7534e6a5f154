/** Arabic text normalisation, tokenisation and the rasm-tolerant word
    equality used to compare a recitation with the canonical text
    (src/lib/arabic-utils.ts). Strings are sequences of characters; every
    character class below lies in the Basic Multilingual Plane. */
module ArabicText {
  import opened Common

  const ALEF: char := '\U{0627}'
  const SUPERSCRIPT_ALEF: char := '\U{0670}'

  /** Byte-order mark, zero-width and bidirectional control characters. */
  predicate IsInvisible(c: char) {
    c == '\U{FEFF}' || '\U{200B}' <= c <= '\U{200F}' || '\U{202A}' <= c <= '\U{202E}'
    || '\U{2066}' <= c <= '\U{2069}'
  }

  /** Quranic annotation marks, harakat and tatweel. */
  predicate IsTashkeel(c: char) {
    '\U{0610}' <= c <= '\U{061A}' || '\U{064B}' <= c <= '\U{065F}' || '\U{06D6}' <= c <= '\U{06DC}'
    || '\U{06DF}' <= c <= '\U{06E4}' || c == '\U{06E7}' || c == '\U{06E8}'
    || '\U{06EA}' <= c <= '\U{06ED}' || c == '\U{0640}'
  }

  /** Letters that normalisation rewrites: ٱ أ إ آ ى ة ؤ ئ. */
  predicate IsLetterVariant(c: char) {
    c == '\U{0671}' || c == '\U{0623}' || c == '\U{0625}' || c == '\U{0622}'
    || c == '\U{0649}' || c == '\U{0629}' || c == '\U{0624}' || c == '\U{0626}'
  }

  /** JavaScript's `\s` and the characters `trim` removes: WhiteSpace and LineTerminator. */
  predicate IsSpace(c: char) {
    c == '\t' || c == '\n' || c == '\U{000B}' || c == '\U{000C}' || c == '\r' || c == ' '
    || c == '\U{00A0}' || c == '\U{1680}' || '\U{2000}' <= c <= '\U{200A}'
    || c == '\U{2028}' || c == '\U{2029}' || c == '\U{202F}' || c == '\U{205F}'
    || c == '\U{3000}' || c == '\U{FEFF}'
  }

  // ---------------------------------------------------------------------------
  // The normalisation chain
  // ---------------------------------------------------------------------------

  predicate Visible(c: char) { !IsInvisible(c) }

  /** cleanText: drop invisible characters. */
  function CleanText(s: string): (r: string)
    ensures |r| <= |s|
    ensures forall i :: 0 <= i < |r| ==> r[i] in s && !IsInvisible(r[i])
    ensures (forall i :: 0 <= i < |s| ==> !IsInvisible(s[i])) ==> r == s
    ensures r == Filter(s, Visible)
  {
    if s == [] then []
    else (if IsInvisible(s[0]) then [] else [s[0]]) + CleanText(s[1..])
  }

  /** replaceSuperscriptAlef: U+0670 becomes a plain alef. */
  function ReplaceSuperscriptAlef(s: string): (r: string)
    ensures |r| == |s|
    ensures forall i :: 0 <= i < |r| ==> r[i] != SUPERSCRIPT_ALEF
    ensures forall i :: 0 <= i < |s| && s[i] == SUPERSCRIPT_ALEF ==> r[i] == ALEF
    ensures forall i :: 0 <= i < |s| && s[i] != SUPERSCRIPT_ALEF ==> r[i] == s[i]
    ensures (forall i :: 0 <= i < |s| ==> s[i] != SUPERSCRIPT_ALEF) ==> r == s
  {
    seq(|s|, i requires 0 <= i < |s| => if s[i] == SUPERSCRIPT_ALEF then ALEF else s[i])
  }

  predicate NotTashkeel(c: char) { !IsTashkeel(c) }

  /** removeTashkeel: drop diacritics and tatweel. */
  function RemoveTashkeel(s: string): (r: string)
    ensures |r| <= |s|
    ensures forall i :: 0 <= i < |r| ==> r[i] in s && !IsTashkeel(r[i])
    ensures (forall i :: 0 <= i < |s| ==> !IsTashkeel(s[i])) ==> r == s
    ensures r == Filter(s, NotTashkeel)
  {
    if s == [] then []
    else (if IsTashkeel(s[0]) then [] else [s[0]]) + RemoveTashkeel(s[1..])
  }

  function NormalizeLetter(c: char): char {
    if c == '\U{0671}' || c == '\U{0623}' || c == '\U{0625}' || c == '\U{0622}' || c == ALEF then ALEF
    else if c == '\U{0649}' then '\U{064A}'
    else if c == '\U{0629}' then '\U{0647}'
    else if c == '\U{0624}' then '\U{0648}'
    else if c == '\U{0626}' then '\U{064A}'
    else c
  }

  /** normalizeAlef: alef forms to ا, ى to ي, ة to ه, ؤ to و, ئ to ي. */
  function NormalizeAlef(s: string): (r: string)
    ensures |r| == |s|
    ensures forall i :: 0 <= i < |r| ==> !IsLetterVariant(r[i])
    ensures forall i :: 0 <= i < |s| && s[i] in "\U{0671}\U{0623}\U{0625}\U{0622}" ==> r[i] == ALEF
    ensures forall i :: 0 <= i < |s| && (s[i] == '\U{0649}' || s[i] == '\U{0626}') ==> r[i] == '\U{064A}'
    ensures forall i :: 0 <= i < |s| && s[i] == '\U{0629}' ==> r[i] == '\U{0647}'
    ensures forall i :: 0 <= i < |s| && s[i] == '\U{0624}' ==> r[i] == '\U{0648}'
    ensures forall i :: 0 <= i < |s| && !IsLetterVariant(s[i]) ==> r[i] == s[i]
    ensures (forall i :: 0 <= i < |s| ==> !IsLetterVariant(s[i])) ==> r == s
  {
    seq(|s|, i requires 0 <= i < |s| => NormalizeLetter(s[i]))
  }

  /** Number of whitespace characters at the start of `s`. */
  function LeadingSpaces(s: string): (k: nat)
    ensures k <= |s|
    ensures forall i :: 0 <= i < k ==> IsSpace(s[i])
    ensures k < |s| ==> !IsSpace(s[k])
  {
    if s != [] && IsSpace(s[0]) then 1 + LeadingSpaces(s[1..]) else 0
  }

  /** Number of whitespace characters at the end of `s`. */
  function TrailingSpaces(s: string): (k: nat)
    ensures k <= |s|
    ensures forall i :: |s| - k <= i < |s| ==> IsSpace(s[i])
    ensures k < |s| ==> !IsSpace(s[|s| - 1 - k])
  {
    if s != [] && IsSpace(s[|s| - 1]) then 1 + TrailingSpaces(s[..|s| - 1]) else 0
  }

  /** String.prototype.trim. */
  function Trim(s: string): (r: string)
    ensures exists lo, hi :: (0 <= lo <= hi <= |s| && r == s[lo..hi]
      && (forall i :: 0 <= i < lo ==> IsSpace(s[i])) && (forall i :: hi <= i < |s| ==> IsSpace(s[i])))
    ensures r != [] ==> !IsSpace(r[0]) && !IsSpace(r[|r| - 1])
  {
    var lo := LeadingSpaces(s);
    var hi := Max(lo, |s| - TrailingSpaces(s));
    var r := s[lo..hi];
    assert r != [] ==> r[0] == s[lo] && r[|r| - 1] == s[hi - 1];
    r
  }

  /** normalizeArabic: the whole chain, then trim. */
  function NormalizeArabic(s: string): string {
    Trim(NormalizeAlef(RemoveTashkeel(ReplaceSuperscriptAlef(CleanText(s)))))
  }

  /** A character that survives normalisation unchanged. */
  predicate CleanChar(c: char) {
    !IsInvisible(c) && c != SUPERSCRIPT_ALEF && !IsTashkeel(c) && !IsLetterVariant(c)
  }

  /** What a normalised text looks like. */
  predicate IsNormalized(s: string) {
    && (forall i :: 0 <= i < |s| ==> CleanChar(s[i]))
    && (s != [] ==> !IsSpace(s[0]) && !IsSpace(s[|s| - 1]))
  }

  /** Every character of a slice of `s` is a character of `s`. */
  lemma TrimKeepsCharacters(s: string)
    ensures forall i :: 0 <= i < |Trim(s)| ==> Trim(s)[i] in s
  {
    var lo, hi :| 0 <= lo <= hi <= |s| && Trim(s) == s[lo..hi];
    forall i | 0 <= i < |Trim(s)| ensures Trim(s)[i] in s {
      assert Trim(s)[i] == s[lo + i];
    }
  }

  lemma NormalizeAlefKeepsCleanness(c: string)
    requires forall i :: 0 <= i < |c| ==> !IsInvisible(c[i]) && c[i] != SUPERSCRIPT_ALEF && !IsTashkeel(c[i])
    ensures forall i :: 0 <= i < |NormalizeAlef(c)| ==> CleanChar(NormalizeAlef(c)[i])
  {
    var d := NormalizeAlef(c);
    forall i | 0 <= i < |d| ensures CleanChar(d[i]) {
      assert d[i] == NormalizeLetter(c[i]);
    }
  }

  lemma RemoveTashkeelKeepsCleanness(b: string)
    requires forall i :: 0 <= i < |b| ==> !IsInvisible(b[i]) && b[i] != SUPERSCRIPT_ALEF
    ensures forall i :: 0 <= i < |RemoveTashkeel(b)| ==>
      !IsInvisible(RemoveTashkeel(b)[i]) && RemoveTashkeel(b)[i] != SUPERSCRIPT_ALEF && !IsTashkeel(RemoveTashkeel(b)[i])
  {
    var c := RemoveTashkeel(b);
    forall i | 0 <= i < |c| ensures !IsInvisible(c[i]) && c[i] != SUPERSCRIPT_ALEF {
      var k :| 0 <= k < |b| && b[k] == c[i];
    }
  }

  lemma NormalizeArabicIsNormalized(s: string)
    ensures IsNormalized(NormalizeArabic(s))
  {
    var a := CleanText(s);
    var b := ReplaceSuperscriptAlef(a);
    forall i | 0 <= i < |b| ensures !IsInvisible(b[i]) && b[i] != SUPERSCRIPT_ALEF {
      assert b[i] == a[i] || b[i] == ALEF;
    }
    RemoveTashkeelKeepsCleanness(b);
    var d := NormalizeAlef(RemoveTashkeel(b));
    NormalizeAlefKeepsCleanness(RemoveTashkeel(b));
    var r := Trim(d);
    TrimKeepsCharacters(d);
    forall i | 0 <= i < |r| ensures CleanChar(r[i]) {
      var k :| 0 <= k < |d| && d[k] == r[i];
    }
  }

  /** The character-level passes change nothing on clean characters. */
  lemma CleanCharsFixed(s: string)
    requires forall i :: 0 <= i < |s| ==> CleanChar(s[i])
    ensures RemoveTashkeel(ReplaceSuperscriptAlef(CleanText(s))) == s
    ensures NormalizeAlef(s) == s
  {
    FilterKeepsAll(s, Visible);
    assert ReplaceSuperscriptAlef(s) == s;
    FilterKeepsAll(s, NotTashkeel);
  }

  /** Text without whitespace at either end trims to itself. */
  lemma TrimFixed(s: string)
    requires s != [] ==> !IsSpace(s[0]) && !IsSpace(s[|s| - 1])
    ensures Trim(s) == s
  {
    if s != [] {
      assert LeadingSpaces(s) == 0;
      assert TrailingSpaces(s) == 0;
      assert s[0..|s|] == s;
    }
  }

  /** Normalising a normalised text changes nothing. */
  lemma NormalizeFixesNormalized(s: string)
    requires IsNormalized(s)
    ensures NormalizeArabic(s) == s
  {
    CleanCharsFixed(s);
    TrimFixed(s);
  }

  lemma NormalizeArabicIdempotent(s: string)
    ensures NormalizeArabic(NormalizeArabic(s)) == NormalizeArabic(s)
  {
    NormalizeArabicIsNormalized(s);
    NormalizeFixesNormalized(NormalizeArabic(s));
  }

  // ---------------------------------------------------------------------------
  // Tokenisation: `text.split(/\s+/).filter(w => w.length > 0)`
  // ---------------------------------------------------------------------------

  /** Length of the run of non-space characters at the start of `s`. */
  function WordLength(s: string): (k: nat)
    ensures k <= |s|
    ensures forall i :: 0 <= i < k ==> !IsSpace(s[i])
    ensures k < |s| ==> IsSpace(s[k])
  {
    if s != [] && !IsSpace(s[0]) then 1 + WordLength(s[1..]) else 0
  }

  predicate IsWord(w: string) {
    |w| > 0 && forall i :: 0 <= i < |w| ==> !IsSpace(w[i])
  }

  function SplitWords(s: string): (r: seq<string>)
    ensures forall k :: 0 <= k < |r| ==> IsWord(r[k])
    decreases |s|
  {
    var t := s[LeadingSpaces(s)..];
    if t == [] then []
    else
      var k := WordLength(t);
      [t[..k]] + SplitWords(t[k..])
  }

  /** The words joined by single spaces. */
  function JoinWords(ws: seq<string>): string {
    if ws == [] then ""
    else if |ws| == 1 then ws[0]
    else ws[0] + " " + JoinWords(ws[1..])
  }

  lemma {:induction false} WordLengthOfWordThenSpace(w: string, rest: string)
    requires IsWord(w)
    requires rest == [] || IsSpace(rest[0])
    ensures WordLength(w + rest) == |w|
    decreases |w|
  {
    assert (w + rest)[0] == w[0];
    if |w| > 1 {
      assert (w + rest)[1..] == w[1..] + rest;
      WordLengthOfWordThenSpace(w[1..], rest);
    } else {
      assert (w + rest)[1..] == rest;
    }
  }

  /** A word followed by nothing or by whitespace is split off as the first word. */
  lemma SplitWordThenRest(w: string, rest: string)
    requires IsWord(w)
    requires rest == [] || IsSpace(rest[0])
    ensures SplitWords(w + rest) == [w] + SplitWords(rest)
  {
    var s := w + rest;
    assert LeadingSpaces(s) == 0 by { assert s[0] == w[0]; }
    assert s[LeadingSpaces(s)..] == s;
    WordLengthOfWordThenSpace(w, rest);
    assert s[..|w|] == w;
    assert s[|w|..] == rest;
  }

  /** Joined words start with a non-space character. */
  lemma JoinStartsWithWord(ws: seq<string>)
    requires |ws| > 0 && IsWord(ws[0])
    ensures |JoinWords(ws)| > 0 && JoinWords(ws)[0] == ws[0][0]
  {
    if |ws| > 1 { assert JoinWords(ws) == ws[0] + " " + JoinWords(ws[1..]); }
  }

  /** Splitting joined words splits off the first word, then the rest. */
  lemma SplitJoinStep(ws: seq<string>)
    requires |ws| > 1 && IsWord(ws[0]) && IsWord(ws[1])
    ensures SplitWords(JoinWords(ws)) == [ws[0]] + SplitWords(JoinWords(ws[1..]))
  {
    var tail := JoinWords(ws[1..]);
    var rest := " " + tail;
    assert JoinWords(ws) == ws[0] + rest;
    SplitWordThenRest(ws[0], rest);
    JoinStartsWithWord(ws[1..]);
    assert LeadingSpaces(rest) == 1 + LeadingSpaces(tail);
    assert rest[1..] == tail;
  }

  /** Splitting words joined by spaces gives the words back. */
  lemma {:induction false} SplitJoinRoundTrip(ws: seq<string>)
    requires forall k :: 0 <= k < |ws| ==> IsWord(ws[k])
    ensures SplitWords(JoinWords(ws)) == ws
  {
    if |ws| == 1 {
      SplitWordThenRest(ws[0], []);
      assert ws[0] + [] == ws[0];
    } else if |ws| > 1 {
      SplitJoinStep(ws);
      SplitJoinRoundTrip(ws[1..]);
      assert ws == [ws[0]] + ws[1..];
    }
  }

  /** The characters that are not whitespace, in order. */
  function NonSpace(s: string): string {
    if s == [] then [] else (if IsSpace(s[0]) then [] else [s[0]]) + NonSpace(s[1..])
  }

  function Concat(ws: seq<string>): string {
    if ws == [] then [] else ws[0] + Concat(ws[1..])
  }

  lemma {:induction false} NonSpaceAppend(a: string, b: string)
    ensures NonSpace(a + b) == NonSpace(a) + NonSpace(b)
  {
    if a != [] {
      assert (a + b)[0] == a[0];
      assert (a + b)[1..] == a[1..] + b;
      NonSpaceAppend(a[1..], b);
    } else {
      assert a + b == b;
    }
  }

  lemma {:induction false} NonSpaceOfSpaces(s: string)
    requires forall i :: 0 <= i < |s| ==> IsSpace(s[i])
    ensures NonSpace(s) == []
  {
    if s != [] { NonSpaceOfSpaces(s[1..]); }
  }

  lemma {:induction false} NonSpaceOfWord(s: string)
    requires forall i :: 0 <= i < |s| ==> !IsSpace(s[i])
    ensures NonSpace(s) == s
  {
    if s != [] { NonSpaceOfWord(s[1..]); assert s == [s[0]] + s[1..]; }
  }

  /** Leading whitespace holds no non-whitespace characters. */
  lemma NonSpaceAfterLeadingSpaces(s: string)
    ensures NonSpace(s) == NonSpace(s[LeadingSpaces(s)..])
  {
    var lo := LeadingSpaces(s);
    assert s == s[..lo] + s[lo..];
    NonSpaceAppend(s[..lo], s[lo..]);
    NonSpaceOfSpaces(s[..lo]);
  }

  /** A leading word keeps all its characters. */
  lemma NonSpaceOfLeadingWord(t: string)
    ensures NonSpace(t) == t[..WordLength(t)] + NonSpace(t[WordLength(t)..])
  {
    var k := WordLength(t);
    assert t == t[..k] + t[k..];
    NonSpaceAppend(t[..k], t[k..]);
    NonSpaceOfWord(t[..k]);
  }

  /** The tokens, concatenated, are exactly the non-whitespace characters of the text. */
  lemma {:induction false} SplitWordsKeepsAllText(s: string)
    ensures Concat(SplitWords(s)) == NonSpace(s)
    decreases |s|
  {
    var t := s[LeadingSpaces(s)..];
    NonSpaceAfterLeadingSpaces(s);
    if t != [] {
      var k := WordLength(t);
      NonSpaceOfLeadingWord(t);
      SplitWordsKeepsAllText(t[k..]);
      assert SplitWords(s) == [t[..k]] + SplitWords(t[k..]);
    }
  }

  /** Leading whitespace adds to the whitespace run of what follows. */
  lemma {:induction false} LeadingSpacesAppend(sp: string, x: string)
    requires forall i :: 0 <= i < |sp| ==> IsSpace(sp[i])
    ensures LeadingSpaces(sp + x) == |sp| + LeadingSpaces(x)
    decreases |sp|
  {
    if sp == [] {
      assert sp + x == x;
    } else {
      assert (sp + x)[0] == sp[0];
      assert (sp + x)[1..] == sp[1..] + x;
      LeadingSpacesAppend(sp[1..], x);
    }
  }

  /** Whitespace in front of a text yields no token. */
  lemma SkipSpaces(sp: string, x: string)
    requires forall i :: 0 <= i < |sp| ==> IsSpace(sp[i])
    ensures SplitWords(sp + x) == SplitWords(x)
  {
    LeadingSpacesAppend(sp, x);
    assert (sp + x)[|sp| + LeadingSpaces(x)..] == x[LeadingSpaces(x)..];
  }

  /** A single word is a single token. */
  lemma SplitWordsOfWord(w: string)
    requires IsWord(w)
    ensures SplitWords(w) == [w]
  {
    SplitWordThenRest(w, []);
    assert w + [] == w;
  }

  /** Leading whitespace of `a` yields no token, with or without a tail. */
  lemma DropLeadingSpaces(a: string, tail: string)
    ensures SplitWords(a) == SplitWords(a[LeadingSpaces(a)..])
    ensures SplitWords(a + tail) == SplitWords(a[LeadingSpaces(a)..] + tail)
  {
    var lo := LeadingSpaces(a);
    assert a == a[..lo] + a[lo..];
    assert a + tail == a[..lo] + (a[lo..] + tail);
    SkipSpaces(a[..lo], a[lo..]);
    SkipSpaces(a[..lo], a[lo..] + tail);
  }

  /** A word followed by text that begins with whitespace is split off first. */
  lemma WordThenSpaces(w: string, rest: string, x: string)
    requires IsWord(w) && (rest == [] || IsSpace(rest[0]))
    requires x != [] && IsSpace(x[0])
    ensures SplitWords(w + (rest + x)) == [w] + SplitWords(rest + x)
  {
    assert (rest + x)[0] == (if rest == [] then x[0] else rest[0]);
    SplitWordThenRest(w, rest + x);
  }

  /** The inductive step: `a` begins, after its leading whitespace, with the word `w`. */
  lemma SplitWordsAtSpacesStep(a: string, w: string, rest: string, sp: string, b: string)
    requires IsWord(w) && (rest == [] || IsSpace(rest[0]))
    requires a[LeadingSpaces(a)..] == w + rest
    requires sp != [] && forall i :: 0 <= i < |sp| ==> IsSpace(sp[i])
    requires SplitWords(rest + sp + b) == SplitWords(rest) + SplitWords(b)
    ensures SplitWords(a + sp + b) == SplitWords(a) + SplitWords(b)
  {
    var x := sp + b;
    AppendAssoc(a, sp, b);
    AppendAssoc(rest, sp, b);
    AppendAssoc(w, rest, x);
    DropLeadingSpaces(a, x);
    SplitWordThenRest(w, rest);
    WordThenSpaces(w, rest, x);
    AppendAssoc([w], SplitWords(rest), SplitWords(b));
  }

  /** The base case: `a` is all whitespace. */
  lemma SplitWordsAtSpacesBlank(a: string, sp: string, b: string)
    requires a[LeadingSpaces(a)..] == []
    requires forall i :: 0 <= i < |sp| ==> IsSpace(sp[i])
    ensures SplitWords(a + sp + b) == SplitWords(a) + SplitWords(b)
  {
    var t := a[LeadingSpaces(a)..];
    DropLeadingSpaces(a, sp + b);
    AppendAssoc(a, sp, b);
    assert t + (sp + b) == sp + b;
    SkipSpaces(sp, b);
    assert SplitWords(t) == [];
    assert [] + SplitWords(b) == SplitWords(b);
  }

  /** A run of whitespace separates tokens: the tokens of `a`, then those of `b`. */
  lemma {:induction false} SplitWordsAtSpaces(a: string, sp: string, b: string)
    requires sp != [] && forall i :: 0 <= i < |sp| ==> IsSpace(sp[i])
    ensures SplitWords(a + sp + b) == SplitWords(a) + SplitWords(b)
    decreases |a|
  {
    var t := a[LeadingSpaces(a)..];
    if t == [] {
      SplitWordsAtSpacesBlank(a, sp, b);
    } else {
      FirstWord(a);
      var k := WordLength(t);
      SplitWordsAtSpaces(t[k..], sp, b);
      SplitWordsAtSpacesStep(a, t[..k], t[k..], sp, b);
    }
  }

  /** After its leading whitespace, non-blank text starts with a word and
      continues with whitespace or nothing. */
  lemma FirstWord(a: string)
    requires a[LeadingSpaces(a)..] != []
    ensures var t := a[LeadingSpaces(a)..]; var k := WordLength(t);
      && IsWord(t[..k]) && (t[k..] == [] || IsSpace(t[k..][0]))
      && t == t[..k] + t[k..] && |t[k..]| < |a|
  {
    var t := a[LeadingSpaces(a)..];
    var k := WordLength(t);
    assert t[0] == a[LeadingSpaces(a)];
    SplitAt(t, k);
  }

  lemma SplitAt<T>(t: seq<T>, k: nat)
    requires k <= |t|
    ensures t == t[..k] + t[k..]
  {}

  // ---------------------------------------------------------------------------
  // Rasm-tolerant word equality
  // ---------------------------------------------------------------------------

  predicate NotAlef(c: char) { c != ALEF }

  /** `replace(/\u0627/g, '')`: every alef dropped, the other characters kept in order. */
  function RemoveAlefs(s: string): (r: string)
    ensures |r| <= |s|
    ensures forall i :: 0 <= i < |r| ==> r[i] != ALEF && r[i] in s
    ensures (forall i :: 0 <= i < |s| ==> s[i] != ALEF) ==> r == s
    ensures r == Filter(s, NotAlef)
  {
    if s == [] then [] else (if s[0] == ALEF then [] else [s[0]]) + RemoveAlefs(s[1..])
  }

  /** stripInternalAlefs: keep the first and last character, drop alefs in between. */
  function StripInternalAlefs(w: string): (r: string)
    ensures |w| <= 2 ==> r == w
    ensures |w| > 2 ==> 2 <= |r| <= |w| && r[0] == w[0] && r[|r| - 1] == w[|w| - 1]
    ensures |w| > 2 ==> forall i :: 0 < i < |r| - 1 ==> r[i] != ALEF
    ensures |w| > 2 ==> r == [w[0]] + Filter(w[1..|w| - 1], NotAlef) + [w[|w| - 1]]
  {
    if |w| <= 2 then w else [w[0]] + RemoveAlefs(w[1..|w| - 1]) + [w[|w| - 1]]
  }

  lemma StripInternalAlefsIdempotent(w: string)
    ensures StripInternalAlefs(StripInternalAlefs(w)) == StripInternalAlefs(w)
  {
    var r := StripInternalAlefs(w);
    if |r| > 2 {
      var mid := r[1..|r| - 1];
      assert forall i :: 0 <= i < |mid| ==> mid[i] != ALEF;
      assert RemoveAlefs(mid) == mid;
      assert r == [r[0]] + mid + [r[|r| - 1]];
    }
  }

  /** wordsMatch: equal, or equal once interior alefs are dropped. */
  predicate WordsMatch(a: string, b: string) {
    a == b || StripInternalAlefs(a) == StripInternalAlefs(b)
  }

  lemma WordsMatchIsStripEquality(a: string, b: string)
    ensures WordsMatch(a, b) <==> StripInternalAlefs(a) == StripInternalAlefs(b)
  {}

  lemma WordsMatchIsEquivalence(a: string, b: string, c: string)
    ensures WordsMatch(a, a)
    ensures WordsMatch(a, b) ==> WordsMatch(b, a)
    ensures WordsMatch(a, b) && WordsMatch(b, c) ==> WordsMatch(a, c)
  {}

  /** An interior alef is tolerated: قالوا and قلوا match. */
  lemma InteriorAlefTolerated()
    ensures WordsMatch("\U{0642}\U{0627}\U{0644}\U{0648}\U{0627}", "\U{0642}\U{0644}\U{0648}\U{0627}")
  {
    var a := "\U{0642}\U{0627}\U{0644}\U{0648}\U{0627}";
    var b := "\U{0642}\U{0644}\U{0648}\U{0627}";
    assert a[1..4] == [ALEF] + b[1..3];
    assert RemoveAlefs(a[1..4]) == [a[2]] + RemoveAlefs(a[3..4]);
    assert RemoveAlefs(b[1..3]) == [b[1]] + RemoveAlefs(b[2..3]);
    assert a[3..4] == b[2..3];
  }

  /** A word-final alef is not interior: قالوا and قالو do not match. */
  lemma FinalAlefNotTolerated()
    ensures !WordsMatch("\U{0642}\U{0627}\U{0644}\U{0648}\U{0627}", "\U{0642}\U{0627}\U{0644}\U{0648}")
  {
    var a := "\U{0642}\U{0627}\U{0644}\U{0648}\U{0627}";
    var b := "\U{0642}\U{0627}\U{0644}\U{0648}";
    assert StripInternalAlefs(a)[|StripInternalAlefs(a)| - 1] == ALEF;
    assert StripInternalAlefs(b)[|StripInternalAlefs(b)| - 1] == '\U{0648}';
  }
}
