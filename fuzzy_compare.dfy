/** Word-level comparison of a recitation with the canonical text
    (compareTexts and fuzzyLCS in src/lib/arabic-utils.ts): a longest common
    subsequence under the rasm-tolerant word equality, a greedy trace that marks
    matched words, pairing of nearby unmatched words into substitutions, and the
    score. */
module FuzzyCompare {
  import opened Common
  import opened ArabicText

  /** The word equality the comparison is run with; compareTexts uses WordsMatch.
      Keeping it a parameter lets the proofs below treat it as an abstract relation. */
  type WordEq = (string, string) -> bool

  ghost predicate Reflexive(eq: WordEq) { forall x :: eq(x, x) }
  ghost predicate Symmetric(eq: WordEq) { forall x, y :: eq(x, y) ==> eq(y, x) }

  lemma WordsMatchReflexiveSymmetric()
    ensures Reflexive(WordsMatch) && Symmetric(WordsMatch)
  {
    forall x, y ensures WordsMatch(x, x) && (WordsMatch(x, y) ==> WordsMatch(y, x)) {
      WordsMatchIsEquivalence(x, y, x);
    }
  }

  // ---------------------------------------------------------------------------
  // The dynamic-programming table and its reconstruction
  // ---------------------------------------------------------------------------

  /** dp[i][j]: the length of a longest fuzzy common subsequence of a[..i] and b[..j]. */
  function Dp(eq: WordEq, a: seq<string>, b: seq<string>, i: nat, j: nat): (d: nat)
    requires i <= |a| && j <= |b|
    ensures d <= i && d <= j
    decreases i + j
  {
    if i == 0 || j == 0 then 0
    else if eq(a[i - 1], b[j - 1]) then Dp(eq, a, b, i - 1, j - 1) + 1
    else
      var up, left := Dp(eq, a, b, i - 1, j), Dp(eq, a, b, i, j - 1);
      if up < left then left else up
  }

  /** The backwards walk of fuzzyLCS from cell (i, j); on ties it moves left (j - 1). */
  function Reconstruct(eq: WordEq, a: seq<string>, b: seq<string>, i: nat, j: nat): (r: seq<string>)
    requires i <= |a| && j <= |b|
    ensures |r| == Dp(eq, a, b, i, j)
    decreases i + j
  {
    if i == 0 || j == 0 then []
    else if eq(a[i - 1], b[j - 1]) then Reconstruct(eq, a, b, i - 1, j - 1) + [a[i - 1]]
    else if Dp(eq, a, b, i - 1, j) > Dp(eq, a, b, i, j - 1) then Reconstruct(eq, a, b, i - 1, j)
    else Reconstruct(eq, a, b, i, j - 1)
  }

  /** The result of fuzzyLCS(a, b). */
  function Lcs(eq: WordEq, a: seq<string>, b: seq<string>): seq<string> {
    Reconstruct(eq, a, b, |a|, |b|)
  }

  /** Index pairs, increasing in both components, whose words match. */
  ghost predicate Aligned(eq: WordEq, a: seq<string>, b: seq<string>, p: seq<(nat, nat)>, i: nat, j: nat)
    requires i <= |a| && j <= |b|
  {
    && (forall k :: 0 <= k < |p| ==> p[k].0 < i && p[k].1 < j && eq(a[p[k].0], b[p[k].1]))
    && (forall k, l :: 0 <= k < l < |p| ==> p[k].0 < p[l].0 && p[k].1 < p[l].1)
  }

  /** The positions the reconstruction takes its words from. */
  ghost function ReconstructPairs(eq: WordEq, a: seq<string>, b: seq<string>, i: nat, j: nat): (p: seq<(nat, nat)>)
    requires i <= |a| && j <= |b|
    ensures |p| == |Reconstruct(eq, a, b, i, j)|
    decreases i + j
  {
    if i == 0 || j == 0 then []
    else if eq(a[i - 1], b[j - 1]) then ReconstructPairs(eq, a, b, i - 1, j - 1) + [(i - 1, j - 1)]
    else if Dp(eq, a, b, i - 1, j) > Dp(eq, a, b, i, j - 1) then ReconstructPairs(eq, a, b, i - 1, j)
    else ReconstructPairs(eq, a, b, i, j - 1)
  }

  /** The three moves of the backwards walk, as equations on the walk and its positions. */
  lemma WalkDiagonal(eq: WordEq, a: seq<string>, b: seq<string>, i: nat, j: nat)
    requires 0 < i <= |a| && 0 < j <= |b| && eq(a[i - 1], b[j - 1])
    ensures Reconstruct(eq, a, b, i, j) == Reconstruct(eq, a, b, i - 1, j - 1) + [a[i - 1]]
    ensures ReconstructPairs(eq, a, b, i, j) == ReconstructPairs(eq, a, b, i - 1, j - 1) + [(i - 1, j - 1)]
  {
  }

  lemma WalkUp(eq: WordEq, a: seq<string>, b: seq<string>, i: nat, j: nat)
    requires 0 < i <= |a| && 0 < j <= |b| && !eq(a[i - 1], b[j - 1])
    requires Dp(eq, a, b, i - 1, j) > Dp(eq, a, b, i, j - 1)
    ensures Reconstruct(eq, a, b, i, j) == Reconstruct(eq, a, b, i - 1, j)
    ensures ReconstructPairs(eq, a, b, i, j) == ReconstructPairs(eq, a, b, i - 1, j)
  {
  }

  lemma WalkLeft(eq: WordEq, a: seq<string>, b: seq<string>, i: nat, j: nat)
    requires 0 < i <= |a| && 0 < j <= |b| && !eq(a[i - 1], b[j - 1])
    requires Dp(eq, a, b, i - 1, j) <= Dp(eq, a, b, i, j - 1)
    ensures Reconstruct(eq, a, b, i, j) == Reconstruct(eq, a, b, i, j - 1)
    ensures ReconstructPairs(eq, a, b, i, j) == ReconstructPairs(eq, a, b, i, j - 1)
  {
  }

  /** The positions of the reconstruction are aligned. */
  lemma {:induction false} ReconstructAligned(eq: WordEq, a: seq<string>, b: seq<string>, i: nat, j: nat)
    requires i <= |a| && j <= |b|
    ensures Aligned(eq, a, b, ReconstructPairs(eq, a, b, i, j), i, j)
    decreases i + j
  {
    if i > 0 && j > 0 {
      if eq(a[i - 1], b[j - 1]) {
        WalkDiagonal(eq, a, b, i, j);
        ReconstructAligned(eq, a, b, i - 1, j - 1);
        AlignedExtend(eq, a, b, ReconstructPairs(eq, a, b, i - 1, j - 1), i, j);
      } else if Dp(eq, a, b, i - 1, j) > Dp(eq, a, b, i, j - 1) {
        WalkUp(eq, a, b, i, j);
        ReconstructAligned(eq, a, b, i - 1, j);
        AlignedWiden(eq, a, b, ReconstructPairs(eq, a, b, i - 1, j), i - 1, j, i, j);
      } else {
        WalkLeft(eq, a, b, i, j);
        ReconstructAligned(eq, a, b, i, j - 1);
        AlignedWiden(eq, a, b, ReconstructPairs(eq, a, b, i, j - 1), i, j - 1, i, j);
      }
    }
  }

  lemma AlignedExtend(eq: WordEq, a: seq<string>, b: seq<string>, p: seq<(nat, nat)>, i: nat, j: nat)
    requires 0 < i <= |a| && 0 < j <= |b|
    requires Aligned(eq, a, b, p, i - 1, j - 1) && eq(a[i - 1], b[j - 1])
    ensures Aligned(eq, a, b, p + [(i - 1, j - 1)], i, j)
  {
  }

  lemma AlignedWiden(eq: WordEq, a: seq<string>, b: seq<string>, p: seq<(nat, nat)>, i: nat, j: nat, i2: nat, j2: nat)
    requires i <= i2 <= |a| && j <= j2 <= |b|
    requires Aligned(eq, a, b, p, i, j)
    ensures Aligned(eq, a, b, p, i2, j2)
  {
  }

  /** The reconstruction takes its words from `a` at those positions. */
  lemma {:induction false} ReconstructWords(eq: WordEq, a: seq<string>, b: seq<string>, i: nat, j: nat)
    requires i <= |a| && j <= |b|
    ensures forall k :: 0 <= k < |ReconstructPairs(eq, a, b, i, j)| ==>
      ReconstructPairs(eq, a, b, i, j)[k].0 < |a| && Reconstruct(eq, a, b, i, j)[k] == a[ReconstructPairs(eq, a, b, i, j)[k].0]
    decreases i + j
  {
    if i > 0 && j > 0 {
      if eq(a[i - 1], b[j - 1]) {
        WalkDiagonal(eq, a, b, i, j);
        ReconstructWords(eq, a, b, i - 1, j - 1);
      } else if Dp(eq, a, b, i - 1, j) > Dp(eq, a, b, i, j - 1) {
        WalkUp(eq, a, b, i, j);
        ReconstructWords(eq, a, b, i - 1, j);
      } else {
        WalkLeft(eq, a, b, i, j);
        ReconstructWords(eq, a, b, i, j - 1);
      }
    }
  }

  /** Each table cell is at least its upper and left neighbour and at most one more. */
  lemma {:induction false} DpSteps(eq: WordEq, a: seq<string>, b: seq<string>, i: nat, j: nat)
    requires i <= |a| && j <= |b|
    ensures i > 0 ==> Dp(eq, a, b, i - 1, j) <= Dp(eq, a, b, i, j) <= Dp(eq, a, b, i - 1, j) + 1
    ensures j > 0 ==> Dp(eq, a, b, i, j - 1) <= Dp(eq, a, b, i, j) <= Dp(eq, a, b, i, j - 1) + 1
    decreases i + j
  {
    if i > 0 && j > 0 {
      DpSteps(eq, a, b, i - 1, j);
      DpSteps(eq, a, b, i, j - 1);
    }
  }

  /** No aligned sequence of pairs is longer than the table entry: the LCS is longest. */
  lemma {:induction false} DpIsLongest(eq: WordEq, a: seq<string>, b: seq<string>, p: seq<(nat, nat)>, i: nat, j: nat)
    requires i <= |a| && j <= |b|
    requires Aligned(eq, a, b, p, i, j)
    ensures |p| <= Dp(eq, a, b, i, j)
    decreases i + j
  {
    if p != [] {
      var last := p[|p| - 1];
      var init := p[..|p| - 1];
      DpSteps(eq, a, b, i, j);
      if last.0 == i - 1 && last.1 == j - 1 {
        DpIsLongest(eq, a, b, init, i - 1, j - 1);
      } else if last.0 < i - 1 {
        DpIsLongest(eq, a, b, p, i - 1, j);
      } else {
        DpIsLongest(eq, a, b, p, i, j - 1);
      }
    }
  }

  /** fuzzyLCS returns a longest fuzzy common subsequence, taken from `a`. */
  lemma LcsIsLongestCommon(eq: WordEq, a: seq<string>, b: seq<string>)
    ensures |Lcs(eq, a, b)| == Dp(eq, a, b, |a|, |b|) <= if |a| < |b| then |a| else |b|
    ensures Aligned(eq, a, b, ReconstructPairs(eq, a, b, |a|, |b|), |a|, |b|)
    ensures forall k :: 0 <= k < |Lcs(eq, a, b)| ==> Lcs(eq, a, b)[k] == a[ReconstructPairs(eq, a, b, |a|, |b|)[k].0]
    ensures forall p :: Aligned(eq, a, b, p, |a|, |b|) ==> |p| <= |Lcs(eq, a, b)|
  {
    ReconstructAligned(eq, a, b, |a|, |b|);
    ReconstructWords(eq, a, b, |a|, |b|);
    forall p | Aligned(eq, a, b, p, |a|, |b|) ensures |p| <= |Lcs(eq, a, b)| {
      DpIsLongest(eq, a, b, p, |a|, |b|);
    }
  }

  /** The table of fuzzyLCS, filled row by row. */
  method FillTable(eq: WordEq, a: seq<string>, b: seq<string>) returns (dp: array2<nat>)
    ensures fresh(dp) && dp.Length0 == |a| + 1 && dp.Length1 == |b| + 1
    ensures forall r, c {:trigger dp[r, c]} :: 0 <= r <= |a| && 0 <= c <= |b| ==> dp[r, c] == Dp(eq, a, b, r, c)
  {
    var m, n := |a|, |b|;
    dp := new nat[m + 1, n + 1]((_, _) => 0);
    for i := 1 to m + 1
      invariant forall r, c {:trigger dp[r, c]} :: 0 <= r < i && 0 <= c <= n ==> dp[r, c] == Dp(eq, a, b, r, c)
      invariant forall r :: i <= r <= m ==> dp[r, 0] == 0
    {
      for j := 1 to n + 1
        invariant forall r, c {:trigger dp[r, c]} :: 0 <= r < i && 0 <= c <= n ==> dp[r, c] == Dp(eq, a, b, r, c)
        invariant forall c {:trigger dp[i, c]} :: 0 <= c < j ==> dp[i, c] == Dp(eq, a, b, i, c)
        invariant forall r :: i < r <= m ==> dp[r, 0] == 0
      {
        if eq(a[i - 1], b[j - 1]) {
          dp[i, j] := dp[i - 1, j - 1] + 1;
        } else {
          dp[i, j] := if dp[i - 1, j] < dp[i, j - 1] then dp[i, j - 1] else dp[i - 1, j];
        }
      }
    }
  }

  /** fuzzyLCS: walk back from the corner of the table, prepending matched words. */
  method FuzzyLcs(eq: WordEq, a: seq<string>, b: seq<string>) returns (lcs: seq<string>)
    ensures lcs == Lcs(eq, a, b)
  {
    var dp := FillTable(eq, a, b);
    lcs := [];
    var i, j := |a|, |b|;
    while i > 0 && j > 0
      invariant 0 <= i <= |a| && 0 <= j <= |b|
      invariant Reconstruct(eq, a, b, i, j) + lcs == Lcs(eq, a, b)
      decreases i + j
    {
      if eq(a[i - 1], b[j - 1]) {
        lcs := [a[i - 1]] + lcs;
        i, j := i - 1, j - 1;
      } else if dp[i - 1, j] > dp[i, j - 1] {
        i := i - 1;
      } else {
        j := j - 1;
      }
    }
  }

  // ---------------------------------------------------------------------------
  // The greedy trace that marks matched words
  // ---------------------------------------------------------------------------

  /** The first index at or after k whose word matches w (|ws| if none): one inner while loop of the trace. */
  function SkipTo(eq: WordEq, ws: seq<string>, w: string, k: nat): (r: nat)
    requires k <= |ws|
    ensures k <= r <= |ws|
    decreases |ws| - k
  {
    if k == |ws| || eq(ws[k], w) then k else SkipTo(eq, ws, w, k + 1)
  }

  /** The skip stops at the first matching word, or at the end when no word from k on matches. */
  lemma {:induction false} SkipToFinds(eq: WordEq, ws: seq<string>, w: string, k: nat)
    requires k <= |ws|
    ensures SkipTo(eq, ws, w, k) < |ws| ==> eq(ws[SkipTo(eq, ws, w, k)], w)
    ensures forall q :: k <= q < SkipTo(eq, ws, w, k) ==> !eq(ws[q], w)
    decreases |ws| - k
  {
    if k < |ws| && !eq(ws[k], w) {
      SkipToFinds(eq, ws, w, k + 1);
    }
  }

  predicate Increasing(s: seq<nat>) {
    forall x, y :: 0 <= x < y < |s| ==> s[x] < s[y]
  }

  /** The cursors oi and ii of the trace, and the indices it has marked so far. */
  datatype TraceState = TraceState(oi: nat, ii: nat, origMarks: seq<nat>, inputMarks: seq<nat>)

  ghost predicate TraceInv(st: TraceState, orig: seq<string>, inp: seq<string>) {
    && st.oi <= |orig| && st.ii <= |inp|
    && |st.origMarks| == |st.inputMarks|
    && Increasing(st.origMarks) && Increasing(st.inputMarks)
    && (forall k :: 0 <= k < |st.origMarks| ==> st.origMarks[k] < st.oi)
    && (forall k :: 0 <= k < |st.inputMarks| ==> st.inputMarks[k] < st.ii)
  }

  /** One iteration of the trace loop, for the LCS word w. */
  function TraceStep(eq: WordEq, orig: seq<string>, inp: seq<string>, w: string, st: TraceState): (r: TraceState)
    requires st.oi <= |orig| && st.ii <= |inp|
    ensures r.oi <= |orig| && r.ii <= |inp|
  {
    var o := SkipTo(eq, orig, w, st.oi);
    var n := SkipTo(eq, inp, w, st.ii);
    if o < |orig| && n < |inp| then TraceState(o + 1, n + 1, st.origMarks + [o], st.inputMarks + [n])
    else TraceState(o, n, st.origMarks, st.inputMarks)
  }

  /** The trace after its first l iterations. */
  function TraceUpTo(eq: WordEq, orig: seq<string>, inp: seq<string>, lcs: seq<string>, l: nat): (st: TraceState)
    requires l <= |lcs|
    ensures st.oi <= |orig| && st.ii <= |inp|
  {
    if l == 0 then TraceState(0, 0, [], [])
    else TraceStep(eq, orig, inp, lcs[l - 1], TraceUpTo(eq, orig, inp, lcs, l - 1))
  }

  /** The marks are increasing, lie before the cursors, come in pairs, and number at most l. */
  lemma {:induction false} TraceInvariant(eq: WordEq, orig: seq<string>, inp: seq<string>, lcs: seq<string>, l: nat)
    requires l <= |lcs|
    ensures TraceInv(TraceUpTo(eq, orig, inp, lcs, l), orig, inp)
    ensures |TraceUpTo(eq, orig, inp, lcs, l).origMarks| <= l
  {
    if l > 0 {
      TraceInvariant(eq, orig, inp, lcs, l - 1);
      TraceStepKeepsInv(eq, orig, inp, lcs[l - 1], TraceUpTo(eq, orig, inp, lcs, l - 1));
    }
  }

  lemma TraceStepKeepsInv(eq: WordEq, orig: seq<string>, inp: seq<string>, w: string, st: TraceState)
    requires TraceInv(st, orig, inp)
    ensures TraceInv(TraceStep(eq, orig, inp, w, st), orig, inp)
    ensures |TraceStep(eq, orig, inp, w, st).origMarks| <= |st.origMarks| + 1
  {
    var o := SkipTo(eq, orig, w, st.oi);
    var n := SkipTo(eq, inp, w, st.ii);
    if o < |orig| && n < |inp| {
      AppendAbove(st.origMarks, o);
      AppendAbove(st.inputMarks, n);
    }
  }

  /** Appending an element above every element keeps a sequence increasing. */
  lemma AppendAbove(s: seq<nat>, x: nat)
    requires Increasing(s) && forall k :: 0 <= k < |s| ==> s[k] < x
    ensures Increasing(s + [x]) && forall k :: 0 <= k < |s| + 1 ==> (s + [x])[k] <= x
  {
  }

  function Trace(eq: WordEq, orig: seq<string>, inp: seq<string>, lcs: seq<string>): TraceState {
    TraceUpTo(eq, orig, inp, lcs, |lcs|)
  }

  /** The origMatched / inputMatched arrays for a list of marked indices. */
  function Flags(n: nat, marks: seq<nat>): (f: seq<bool>)
    ensures |f| == n
    ensures forall k :: 0 <= k < n ==> (f[k] <==> k in marks)
  {
    seq(n, k => k in marks)
  }

  /** If lcs can be matched at increasing positions p on both sides, and the cursors after l
      steps have not passed p[l], the greedy trace marks one word on each side for every
      remaining LCS word. */
  lemma {:induction false} GreedyTraceMarksAll(eq: WordEq, orig: seq<string>, inp: seq<string>, lcs: seq<string>,
                                               l: nat, p: seq<(nat, nat)>)
    requires l <= |lcs| && |p| == |lcs|
    requires forall k :: 0 <= k < |p| ==>
      p[k].0 < |orig| && p[k].1 < |inp| && eq(orig[p[k].0], lcs[k]) && eq(inp[p[k].1], lcs[k])
    requires forall k :: 0 <= k < |p| - 1 ==> p[k].0 < p[k + 1].0 && p[k].1 < p[k + 1].1
    requires l < |p| ==> TraceUpTo(eq, orig, inp, lcs, l).oi <= p[l].0 && TraceUpTo(eq, orig, inp, lcs, l).ii <= p[l].1
    ensures |TraceUpTo(eq, orig, inp, lcs, |lcs|).origMarks| == |TraceUpTo(eq, orig, inp, lcs, l).origMarks| + (|lcs| - l)
    decreases |lcs| - l
  {
    if l < |lcs| {
      TraceStepMatches(eq, orig, inp, lcs[l], TraceUpTo(eq, orig, inp, lcs, l), p[l].0, p[l].1);
      GreedyTraceMarksAll(eq, orig, inp, lcs, l + 1, p);
    }
  }

  /** A step whose word matches at or after both cursors marks one word on each side,
      no later than those matches. */
  lemma TraceStepMatches(eq: WordEq, orig: seq<string>, inp: seq<string>, w: string, st: TraceState, po: nat, pi: nat)
    requires st.oi <= po < |orig| && st.ii <= pi < |inp|
    requires eq(orig[po], w) && eq(inp[pi], w)
    ensures TraceStep(eq, orig, inp, w, st).oi <= po + 1 && TraceStep(eq, orig, inp, w, st).ii <= pi + 1
    ensures |TraceStep(eq, orig, inp, w, st).origMarks| == |st.origMarks| + 1
  {
    SkipToFinds(eq, orig, w, st.oi);
    SkipToFinds(eq, inp, w, st.ii);
  }

  /** The trace of compareTexts: the marks left by matching the LCS. */
  function Marks(eq: WordEq, orig: seq<string>, inp: seq<string>): TraceState {
    Trace(eq, orig, inp, Lcs(eq, orig, inp))
  }

  /** The trace marks exactly as many words on each side as the LCS has. */
  lemma TraceMarksLcs(eq: WordEq, orig: seq<string>, inp: seq<string>)
    requires Reflexive(eq) && Symmetric(eq)
    ensures |Marks(eq, orig, inp).origMarks| == |Lcs(eq, orig, inp)|
    ensures |Marks(eq, orig, inp).inputMarks| == |Lcs(eq, orig, inp)|
  {
    var lcs := Lcs(eq, orig, inp);
    var p := LcsPositions(eq, orig, inp);
    GreedyTraceMarksAll(eq, orig, inp, lcs, 0, p);
    TraceInvariant(eq, orig, inp, lcs, |lcs|);
  }

  /** Increasing positions on both sides whose words match the LCS word by word. */
  lemma LcsPositions(eq: WordEq, orig: seq<string>, inp: seq<string>) returns (p: seq<(nat, nat)>)
    requires Reflexive(eq) && Symmetric(eq)
    ensures |p| == |Lcs(eq, orig, inp)|
    ensures forall k :: 0 <= k < |p| ==>
      p[k].0 < |orig| && p[k].1 < |inp| && eq(orig[p[k].0], Lcs(eq, orig, inp)[k]) && eq(inp[p[k].1], Lcs(eq, orig, inp)[k])
    ensures forall k :: 0 <= k < |p| - 1 ==> p[k].0 < p[k + 1].0 && p[k].1 < p[k + 1].1
  {
    var lcs := Lcs(eq, orig, inp);
    p := ReconstructPairs(eq, orig, inp, |orig|, |inp|);
    ReconstructAligned(eq, orig, inp, |orig|, |inp|);
    ReconstructWords(eq, orig, inp, |orig|, |inp|);
    forall k | 0 <= k < |p| ensures eq(orig[p[k].0], lcs[k]) && eq(inp[p[k].1], lcs[k]) {
      assert lcs[k] == orig[p[k].0];
      assert eq(orig[p[k].0], inp[p[k].1]);
    }
  }

  // ---------------------------------------------------------------------------
  // Unmatched words
  // ---------------------------------------------------------------------------

  /** A deletion or addition candidate: its word index and its raw (un-normalised) word. */
  datatype Pending = Pending(wordIndex: nat, word: string)

  /** `raw[i] || ''`: the raw token, or the empty string past the end. */
  function RawAt(raw: seq<string>, i: nat): string {
    if i < |raw| then raw[i] else ""
  }

  function CountTrue(f: seq<bool>): (c: nat)
    ensures c <= |f|
  {
    if f == [] then 0 else CountTrue(f[..|f| - 1]) + (if f[|f| - 1] then 1 else 0)
  }

  /** The loop collecting deletions (or additions): every index not marked, in order. */
  function Unmatched(matched: seq<bool>, raw: seq<string>): seq<Pending> {
    if matched == [] then []
    else
      var k := |matched| - 1;
      Unmatched(matched[..k], raw) + (if matched[k] then [] else [Pending(k, RawAt(raw, k))])
  }

  /** Exactly the unset flags, in increasing order, with their raw words. */
  lemma {:induction false} UnmatchedFacts(matched: seq<bool>, raw: seq<string>)
    ensures |Unmatched(matched, raw)| + CountTrue(matched) == |matched|
    ensures forall x :: 0 <= x < |Unmatched(matched, raw)| ==>
      && Unmatched(matched, raw)[x].wordIndex < |matched| && !matched[Unmatched(matched, raw)[x].wordIndex]
      && Unmatched(matched, raw)[x].word == RawAt(raw, Unmatched(matched, raw)[x].wordIndex)
    ensures forall x, y :: 0 <= x < y < |Unmatched(matched, raw)| ==>
      Unmatched(matched, raw)[x].wordIndex < Unmatched(matched, raw)[y].wordIndex
  {
    if matched != [] {
      UnmatchedFacts(matched[..|matched| - 1], raw);
    }
  }

  lemma {:induction false} CountFlagsAdd(k: nat, marks: seq<nat>, x: nat)
    requires x !in marks
    ensures CountTrue(Flags(k, marks + [x])) == CountTrue(Flags(k, marks)) + (if x < k then 1 else 0)
  {
    if k > 0 {
      assert Flags(k, marks + [x])[..k - 1] == Flags(k - 1, marks + [x]);
      assert Flags(k, marks)[..k - 1] == Flags(k - 1, marks);
      CountFlagsAdd(k - 1, marks, x);
    }
  }

  lemma {:induction false} CountNoFlags(k: nat)
    ensures CountTrue(Flags(k, [])) == 0
  {
    if k > 0 {
      assert Flags(k, [])[..k - 1] == Flags(k - 1, []);
      CountNoFlags(k - 1);
    }
  }

  /** Distinct marks below n set exactly that many flags. */
  lemma {:induction false} CountFlags(n: nat, marks: seq<nat>)
    requires forall k :: 0 <= k < |marks| ==> marks[k] < n
    requires Increasing(marks)
    ensures CountTrue(Flags(n, marks)) == |marks|
  {
    if marks == [] {
      CountNoFlags(n);
    } else {
      var init := marks[..|marks| - 1];
      var x := marks[|marks| - 1];
      assert marks == init + [x];
      CountFlags(n, init);
      CountFlagsAdd(n, init, x);
    }
  }

  /** With every flag set there is nothing unmatched. */
  lemma {:induction false} AllMatchedNoneLeft(matched: seq<bool>, raw: seq<string>)
    requires forall k :: 0 <= k < |matched| ==> matched[k]
    ensures Unmatched(matched, raw) == []
  {
    if matched != [] {
      AllMatchedNoneLeft(matched[..|matched| - 1], raw);
    }
  }

  /** With no flag set every index is unmatched. */
  lemma {:induction false} NoneMatchedAllLeft(matched: seq<bool>, raw: seq<string>)
    requires forall k :: 0 <= k < |matched| ==> !matched[k]
    ensures |Unmatched(matched, raw)| == |matched|
    ensures forall k :: 0 <= k < |matched| ==> Unmatched(matched, raw)[k] == Pending(k, RawAt(raw, k))
  {
    if matched != [] {
      NoneMatchedAllLeft(matched[..|matched| - 1], raw);
    }
  }

  // ---------------------------------------------------------------------------
  // Pairing deletions with nearby additions
  // ---------------------------------------------------------------------------

  /** 'order' is declared by the source but never produced. */
  datatype ErrorKind = Substitution | Deletion | Addition | Order

  datatype CompareError = CompareError(wordIndex: nat, expected: string, actual: string, kind: ErrorKind)

  /** The scan state (bestIdx, bestDist); NoneYet stands for bestIdx = -1, bestDist = Infinity. */
  datatype Best = NoneYet | Found(index: nat, dist: nat)

  function Dist(x: nat, y: nat): nat {
    if x < y then y - x else x - y
  }

  /** The scan over the first a additions for the deletion at wordIndex. */
  function Closest(wordIndex: nat, adds: seq<Pending>, used: set<nat>, a: nat): (b: Best)
    requires a <= |adds|
    ensures b.Found? ==> (b.index < a && b.index !in used
      && b.dist == Dist(wordIndex, adds[b.index].wordIndex) <= 2)
    ensures b.Found? ==> forall k :: 0 <= k < b.index && k !in used ==>
      Dist(wordIndex, adds[k].wordIndex) > b.dist
    ensures b.Found? ==> forall k :: b.index < k < a && k !in used ==>
      Dist(wordIndex, adds[k].wordIndex) >= b.dist
    ensures b.NoneYet? ==> forall k :: 0 <= k < a && k !in used ==> Dist(wordIndex, adds[k].wordIndex) > 2
  {
    if a == 0 then NoneYet
    else
      var b := Closest(wordIndex, adds, used, a - 1);
      var d := Dist(wordIndex, adds[a - 1].wordIndex);
      if a - 1 in used then b
      else if (b.NoneYet? || d < b.dist) && d <= 2 then Found(a - 1, d)
      else b
  }

  /** The error one deletion becomes, and the additions used afterwards. */
  function PairOne(del: Pending, adds: seq<Pending>, used: set<nat>): (r: (CompareError, set<nat>))
    ensures r.0.wordIndex == del.wordIndex && r.0.expected == del.word
    ensures r.0.kind == Substitution || r.0.kind == Deletion
    ensures r.0.kind == Deletion ==> r.0.actual == "" && r.1 == used
    ensures r.0.kind == Substitution ==> exists b :: b < |adds| && b !in used && r.1 == used + {b} && r.0.actual == adds[b].word
  {
    match Closest(del.wordIndex, adds, used, |adds|)
    case Found(b, _) => (CompareError(del.wordIndex, del.word, adds[b].word, Substitution), used + {b})
    case NoneYet => (CompareError(del.wordIndex, del.word, "", Deletion), used)
  }

  predicate IsSubstitution(e: CompareError) { e.kind == Substitution }
  predicate IsAddition(e: CompareError) { e.kind == Addition }
  predicate NotAddition(e: CompareError) { e.kind != Addition }

  /** The pairing loop over the deletions, in order. */
  function Pairing(dels: seq<Pending>, adds: seq<Pending>): (r: (seq<CompareError>, set<nat>))
    ensures |r.0| == |dels|
  {
    if dels == [] then ([], {})
    else
      var prev := Pairing(dels[..|dels| - 1], adds);
      var one := PairOne(dels[|dels| - 1], adds, prev.1);
      (prev.0 + [one.0], one.1)
  }

  /** One error per deletion, in order, each a substitution or a deletion with an empty
      actual word, and only additions that exist are used. */
  lemma {:induction false} PairingShape(dels: seq<Pending>, adds: seq<Pending>)
    ensures forall x :: x in Pairing(dels, adds).1 ==> x < |adds|
    ensures forall k :: 0 <= k < |dels| ==>
      && Pairing(dels, adds).0[k].wordIndex == dels[k].wordIndex
      && Pairing(dels, adds).0[k].expected == dels[k].word
      && (Pairing(dels, adds).0[k].kind == Substitution || Pairing(dels, adds).0[k].kind == Deletion)
      && (Pairing(dels, adds).0[k].kind == Deletion ==> Pairing(dels, adds).0[k].actual == "")
  {
    if dels != [] {
      var n := |dels| - 1;
      var prev := Pairing(dels[..n], adds);
      var one := PairOne(dels[n], adds, prev.1);
      PairingShape(dels[..n], adds);
      var r := Pairing(dels, adds);
      assert r == (prev.0 + [one.0], one.1);
      forall k | 0 <= k < n
        ensures r.0[k] == prev.0[k] && dels[k] == dels[..n][k]
      {
      }
    }
  }

  /** Every substitution uses its own addition: as many additions are used as there are substitutions. */
  lemma {:induction false} PairingUsesDistinct(dels: seq<Pending>, adds: seq<Pending>)
    ensures |Pairing(dels, adds).1| == |Filter(Pairing(dels, adds).0, IsSubstitution)|
  {
    if dels != [] {
      var n := |dels| - 1;
      var prev := Pairing(dels[..n], adds);
      var one := PairOne(dels[n], adds, prev.1);
      PairingUsesDistinct(dels[..n], adds);
      FilterAppend(prev.0, [one.0], IsSubstitution);
    }
  }

  /** The loop emitting the additions that no deletion used, in input order. */
  function Leftovers(adds: seq<Pending>, used: set<nat>): seq<CompareError> {
    if adds == [] then []
    else
      var k := |adds| - 1;
      Leftovers(adds[..k], used) + (if k in used then [] else [CompareError(adds[k].wordIndex, "", adds[k].word, Addition)])
  }

  /** Every leftover is an addition reporting one of the pending input words. */
  lemma {:induction false} LeftoversAreAdditions(adds: seq<Pending>, used: set<nat>)
    ensures forall x :: 0 <= x < |Leftovers(adds, used)| ==>
      && Leftovers(adds, used)[x].kind == Addition && Leftovers(adds, used)[x].expected == ""
      && Pending(Leftovers(adds, used)[x].wordIndex, Leftovers(adds, used)[x].actual) in adds
  {
    if adds != [] {
      var k := |adds| - 1;
      var prev := Leftovers(adds[..k], used);
      var r := Leftovers(adds, used);
      LeftoversAreAdditions(adds[..k], used);
      forall x | 0 <= x < |r|
        ensures r[x].kind == Addition && r[x].expected == "" && Pending(r[x].wordIndex, r[x].actual) in adds
      {
        if x < |prev| {
          assert r[x] == prev[x];
          var a :| 0 <= a < k && adds[..k][a] == Pending(prev[x].wordIndex, prev[x].actual);
          assert adds[a] == adds[..k][a];
        } else {
          assert adds[k] == Pending(r[x].wordIndex, r[x].actual);
        }
      }
    }
  }

  /** Leftovers keep the order of the additions. */
  lemma {:induction false} LeftoversInOrder(adds: seq<Pending>, used: set<nat>)
    requires forall x, y :: 0 <= x < y < |adds| ==> adds[x].wordIndex < adds[y].wordIndex
    ensures forall x, y :: 0 <= x < y < |Leftovers(adds, used)| ==>
      Leftovers(adds, used)[x].wordIndex < Leftovers(adds, used)[y].wordIndex
  {
    if adds != [] {
      var k := |adds| - 1;
      var prev := Leftovers(adds[..k], used);
      LeftoversInOrder(adds[..k], used);
      LeftoversAreAdditions(adds[..k], used);
      forall x | 0 <= x < |prev| ensures prev[x].wordIndex < adds[k].wordIndex {
        var a :| 0 <= a < k && adds[..k][a] == Pending(prev[x].wordIndex, prev[x].actual);
        assert adds[a] == adds[..k][a];
      }
    }
  }

  /** Membership of indices the scan never reaches does not matter. */
  lemma {:induction false} LeftoversIgnoreOthers(adds: seq<Pending>, u1: set<nat>, u2: set<nat>)
    requires forall x :: 0 <= x < |adds| ==> (x in u1 <==> x in u2)
    ensures Leftovers(adds, u1) == Leftovers(adds, u2)
  {
    if adds != [] { LeftoversIgnoreOthers(adds[..|adds| - 1], u1, u2); }
  }

  /** Every addition is either used by exactly one substitution or left over. */
  lemma {:induction false} LeftoversCount(adds: seq<Pending>, used: set<nat>)
    requires forall x :: x in used ==> x < |adds|
    ensures |Leftovers(adds, used)| + |used| == |adds|
  {
    if adds != [] {
      var k := |adds| - 1;
      var lower := used - {k};
      LeftoversIgnoreOthers(adds[..k], used, lower);
      LeftoversCount(adds[..k], lower);
      if k in used { assert used == lower + {k}; } else { assert used == lower; }
    }
  }

  // ---------------------------------------------------------------------------
  // The whole comparison
  // ---------------------------------------------------------------------------

  /** The paired deletions followed by the leftover additions. */
  function ErrorList(dels: seq<Pending>, adds: seq<Pending>): seq<CompareError> {
    var paired := Pairing(dels, adds);
    paired.0 + Leftovers(adds, paired.1)
  }

  /** One substitution or deletion per pending original word, in order, then additions
      reporting pending input words, in input order. */
  lemma ErrorListLayout(dels: seq<Pending>, adds: seq<Pending>)
    ensures |dels| <= |ErrorList(dels, adds)|
    ensures forall k :: 0 <= k < |dels| ==>
      && ErrorList(dels, adds)[k].wordIndex == dels[k].wordIndex
      && ErrorList(dels, adds)[k].expected == dels[k].word
      && (ErrorList(dels, adds)[k].kind == Substitution || ErrorList(dels, adds)[k].kind == Deletion)
    ensures forall k :: |dels| <= k < |ErrorList(dels, adds)| ==>
      && ErrorList(dels, adds)[k].kind == Addition && ErrorList(dels, adds)[k].expected == ""
      && Pending(ErrorList(dels, adds)[k].wordIndex, ErrorList(dels, adds)[k].actual) in adds
    ensures (forall x, y :: 0 <= x < y < |adds| ==> adds[x].wordIndex < adds[y].wordIndex) ==>
      forall x, y :: |dels| <= x < y < |ErrorList(dels, adds)| ==>
        ErrorList(dels, adds)[x].wordIndex < ErrorList(dels, adds)[y].wordIndex
  {
    var paired := Pairing(dels, adds);
    var rest := Leftovers(adds, paired.1);
    PairingShape(dels, adds);
    LeftoversAreAdditions(adds, paired.1);
    if forall x, y :: 0 <= x < y < |adds| ==> adds[x].wordIndex < adds[y].wordIndex {
      LeftoversInOrder(adds, paired.1);
    }
    forall k | |dels| <= k < |ErrorList(dels, adds)| ensures ErrorList(dels, adds)[k] == rest[k - |dels|] {
    }
  }

  datatype CompareResult = CompareResult(score: int, errors: seq<CompareError>, totalWords: nat, correctWords: int)

  /** compareTexts after its trace loop, for the marks st: the error list and the score. */
  function Report(orig: seq<string>, inp: seq<string>, origRaw: seq<string>, inputRaw: seq<string>, st: TraceState): CompareResult {
    var dels := Unmatched(Flags(|orig|, st.origMarks), origRaw);
    var adds := Unmatched(Flags(|inp|, st.inputMarks), inputRaw);
    var errors := ErrorList(dels, adds);
    var correct := |orig| - |Filter(errors, NotAddition)|;
    var score := if |orig| > 0 then RoundDiv(100 * correct, |orig|) else 100;
    CompareResult(Max(0, score), errors, |orig|, Max(0, correct))
  }

  /** compareTexts on split words: normalised original and input words, and their raw forms. */
  function Compare(eq: WordEq, orig: seq<string>, inp: seq<string>, origRaw: seq<string>, inputRaw: seq<string>): CompareResult {
    Report(orig, inp, origRaw, inputRaw, Marks(eq, orig, inp))
  }

  /** compareTexts(original, input). */
  function Comparison(original: string, input: string): CompareResult {
    Compare(WordsMatch, SplitWords(NormalizeArabic(original)), SplitWords(NormalizeArabic(input)),
            SplitWords(CleanText(original)), SplitWords(CleanText(input)))
  }

  /** One non-addition error per pending original word. */
  lemma ErrorListPaired(dels: seq<Pending>, adds: seq<Pending>)
    ensures |Filter(ErrorList(dels, adds), NotAddition)| == |dels|
  {
    var paired := Pairing(dels, adds);
    PairingShape(dels, adds);
    LeftoversAreAdditions(adds, paired.1);
    NonAdditionsArePaired(paired.0, Leftovers(adds, paired.1));
  }

  /** The non-addition errors are exactly the paired deletions. */
  lemma NonAdditionsArePaired(paired: seq<CompareError>, rest: seq<CompareError>)
    requires forall k :: 0 <= k < |paired| ==> paired[k].kind == Substitution || paired[k].kind == Deletion
    requires forall k :: 0 <= k < |rest| ==> rest[k].kind == Addition
    ensures Filter(paired + rest, NotAddition) == paired
  {
    FilterAppend(paired, rest, NotAddition);
    FilterKeepsAll(paired, NotAddition);
    FilterDropsAll(rest, NotAddition);
  }

  /** Every word the trace did not mark is pending. */
  lemma PendingCounts(orig: seq<string>, inp: seq<string>, origRaw: seq<string>, inputRaw: seq<string>, st: TraceState)
    requires TraceInv(st, orig, inp)
    ensures |Unmatched(Flags(|orig|, st.origMarks), origRaw)| == |orig| - |st.origMarks|
    ensures |Unmatched(Flags(|inp|, st.inputMarks), inputRaw)| == |inp| - |st.inputMarks|
  {
    UnmatchedFacts(Flags(|orig|, st.origMarks), origRaw);
    UnmatchedFacts(Flags(|inp|, st.inputMarks), inputRaw);
    CountFlags(|orig|, st.origMarks);
    CountFlags(|inp|, st.inputMarks);
  }

  lemma ReportScore(orig: seq<string>, inp: seq<string>, origRaw: seq<string>, inputRaw: seq<string>, st: TraceState)
    requires TraceInv(st, orig, inp)
    ensures Report(orig, inp, origRaw, inputRaw, st).totalWords == |orig|
    ensures Report(orig, inp, origRaw, inputRaw, st).correctWords == |st.origMarks|
    ensures |st.origMarks| == |orig| - |Filter(Report(orig, inp, origRaw, inputRaw, st).errors, NotAddition)|
    ensures 0 <= Report(orig, inp, origRaw, inputRaw, st).score <= 100
    ensures |orig| == 0 ==> Report(orig, inp, origRaw, inputRaw, st).score == 100
    ensures |orig| > 0 ==> Report(orig, inp, origRaw, inputRaw, st).score == Percent(|st.origMarks|, |orig|)
  {
    PendingCounts(orig, inp, origRaw, inputRaw, st);
    ErrorListPaired(Unmatched(Flags(|orig|, st.origMarks), origRaw), Unmatched(Flags(|inp|, st.inputMarks), inputRaw));
    if |orig| > 0 {
      assert Percent(|st.origMarks|, |orig|) == RoundDiv(100 * |st.origMarks|, |orig|);
    }
  }

  lemma ReportDeletionsFirst(orig: seq<string>, inp: seq<string>, origRaw: seq<string>, inputRaw: seq<string>, st: TraceState)
    requires TraceInv(st, orig, inp)
    ensures |orig| - |st.origMarks| <= |Report(orig, inp, origRaw, inputRaw, st).errors|
    ensures forall k :: 0 <= k < |orig| - |st.origMarks| ==>
      && (Report(orig, inp, origRaw, inputRaw, st).errors[k].kind == Substitution
          || Report(orig, inp, origRaw, inputRaw, st).errors[k].kind == Deletion)
      && Report(orig, inp, origRaw, inputRaw, st).errors[k].wordIndex < |orig|
      && Report(orig, inp, origRaw, inputRaw, st).errors[k].wordIndex !in st.origMarks
      && Report(orig, inp, origRaw, inputRaw, st).errors[k].expected
         == RawAt(origRaw, Report(orig, inp, origRaw, inputRaw, st).errors[k].wordIndex)
    ensures forall x, y :: 0 <= x < y < |orig| - |st.origMarks| ==>
      Report(orig, inp, origRaw, inputRaw, st).errors[x].wordIndex < Report(orig, inp, origRaw, inputRaw, st).errors[y].wordIndex
  {
    var flags := Flags(|orig|, st.origMarks);
    var dels := Unmatched(flags, origRaw);
    var adds := Unmatched(Flags(|inp|, st.inputMarks), inputRaw);
    PendingCounts(orig, inp, origRaw, inputRaw, st);
    UnmatchedFacts(flags, origRaw);
    ErrorListLayout(dels, adds);
    var errs := ErrorList(dels, adds);
    assert |dels| == |orig| - |st.origMarks|;
    forall k | 0 <= k < |dels|
      ensures errs[k].wordIndex < |orig| && errs[k].wordIndex !in st.origMarks
      ensures errs[k].expected == RawAt(origRaw, errs[k].wordIndex)
    {
      assert errs[k].wordIndex == dels[k].wordIndex && !flags[dels[k].wordIndex];
    }
    assert Report(orig, inp, origRaw, inputRaw, st).errors == errs;
  }

  lemma ReportAdditionsLast(orig: seq<string>, inp: seq<string>, origRaw: seq<string>, inputRaw: seq<string>, st: TraceState)
    requires TraceInv(st, orig, inp)
    ensures |orig| - |st.origMarks| <= |Report(orig, inp, origRaw, inputRaw, st).errors|
    ensures forall k :: 0 <= k < |Report(orig, inp, origRaw, inputRaw, st).errors| && |orig| - |st.origMarks| <= k ==>
      && Report(orig, inp, origRaw, inputRaw, st).errors[k].kind == Addition
      && Report(orig, inp, origRaw, inputRaw, st).errors[k].expected == ""
      && Report(orig, inp, origRaw, inputRaw, st).errors[k].wordIndex < |inp|
      && Report(orig, inp, origRaw, inputRaw, st).errors[k].wordIndex !in st.inputMarks
      && Report(orig, inp, origRaw, inputRaw, st).errors[k].actual
         == RawAt(inputRaw, Report(orig, inp, origRaw, inputRaw, st).errors[k].wordIndex)
    ensures forall x, y :: 0 <= x < y < |Report(orig, inp, origRaw, inputRaw, st).errors| && |orig| - |st.origMarks| <= x ==>
      Report(orig, inp, origRaw, inputRaw, st).errors[x].wordIndex < Report(orig, inp, origRaw, inputRaw, st).errors[y].wordIndex
  {
    var dels := Unmatched(Flags(|orig|, st.origMarks), origRaw);
    var adds := Unmatched(Flags(|inp|, st.inputMarks), inputRaw);
    PendingCounts(orig, inp, origRaw, inputRaw, st);
    UnmatchedFacts(Flags(|inp|, st.inputMarks), inputRaw);
    ErrorListLayout(dels, adds);
    var errs := ErrorList(dels, adds);
    forall k | |dels| <= k < |errs|
      ensures errs[k].wordIndex < |inp| && errs[k].wordIndex !in st.inputMarks
      ensures errs[k].actual == RawAt(inputRaw, errs[k].wordIndex)
    {
      var a :| 0 <= a < |adds| && adds[a] == Pending(errs[k].wordIndex, errs[k].actual);
    }
    assert Report(orig, inp, origRaw, inputRaw, st).errors == errs;
  }

  /** The marks of the trace compareTexts runs satisfy the trace invariant. */
  lemma MarksInv(eq: WordEq, orig: seq<string>, inp: seq<string>)
    ensures TraceInv(Marks(eq, orig, inp), orig, inp)
  {
    TraceInvariant(eq, orig, inp, Lcs(eq, orig, inp), |Lcs(eq, orig, inp)|);
  }

  /** correctWords is the number of original words the trace marked; the score is their
      rounded percentage, between 0 and 100, and 100 for an empty original. */
  lemma CompareScore(eq: WordEq, orig: seq<string>, inp: seq<string>, origRaw: seq<string>, inputRaw: seq<string>)
    ensures Compare(eq, orig, inp, origRaw, inputRaw).totalWords == |orig|
    ensures Compare(eq, orig, inp, origRaw, inputRaw).correctWords == |Marks(eq, orig, inp).origMarks|
    ensures Compare(eq, orig, inp, origRaw, inputRaw).correctWords
      == |orig| - |Filter(Compare(eq, orig, inp, origRaw, inputRaw).errors, NotAddition)|
    ensures 0 <= Compare(eq, orig, inp, origRaw, inputRaw).score <= 100
    ensures |orig| == 0 ==> Compare(eq, orig, inp, origRaw, inputRaw).score == 100
    ensures |orig| > 0 ==>
      Compare(eq, orig, inp, origRaw, inputRaw).score == Percent(Compare(eq, orig, inp, origRaw, inputRaw).correctWords, |orig|)
  {
    MarksInv(eq, orig, inp);
    ReportScore(orig, inp, origRaw, inputRaw, Marks(eq, orig, inp));
  }

  /** With a reflexive and symmetric word equality, correctWords is the length of the LCS. */
  lemma CorrectWordsIsLcsLength(eq: WordEq, orig: seq<string>, inp: seq<string>, origRaw: seq<string>, inputRaw: seq<string>)
    requires Reflexive(eq) && Symmetric(eq)
    ensures Compare(eq, orig, inp, origRaw, inputRaw).correctWords == |Lcs(eq, orig, inp)| == Dp(eq, orig, inp, |orig|, |inp|)
  {
    CompareScore(eq, orig, inp, origRaw, inputRaw);
    TraceMarksLcs(eq, orig, inp);
  }

  /** First come the unmatched original words, each as one substitution or deletion, in original order. */
  lemma DeletionsFirst(eq: WordEq, orig: seq<string>, inp: seq<string>, origRaw: seq<string>, inputRaw: seq<string>)
    ensures |orig| - |Marks(eq, orig, inp).origMarks| <= |Compare(eq, orig, inp, origRaw, inputRaw).errors|
    ensures forall k :: 0 <= k < |orig| - |Marks(eq, orig, inp).origMarks| ==>
      && (Compare(eq, orig, inp, origRaw, inputRaw).errors[k].kind == Substitution
          || Compare(eq, orig, inp, origRaw, inputRaw).errors[k].kind == Deletion)
      && Compare(eq, orig, inp, origRaw, inputRaw).errors[k].wordIndex < |orig|
      && Compare(eq, orig, inp, origRaw, inputRaw).errors[k].wordIndex !in Marks(eq, orig, inp).origMarks
      && Compare(eq, orig, inp, origRaw, inputRaw).errors[k].expected
         == RawAt(origRaw, Compare(eq, orig, inp, origRaw, inputRaw).errors[k].wordIndex)
    ensures forall x, y :: 0 <= x < y < |orig| - |Marks(eq, orig, inp).origMarks| ==>
      Compare(eq, orig, inp, origRaw, inputRaw).errors[x].wordIndex < Compare(eq, orig, inp, origRaw, inputRaw).errors[y].wordIndex
  {
    MarksInv(eq, orig, inp);
    ReportDeletionsFirst(orig, inp, origRaw, inputRaw, Marks(eq, orig, inp));
  }

  /** Then come the unmatched input words no deletion used, as additions, in input order. */
  lemma AdditionsLast(eq: WordEq, orig: seq<string>, inp: seq<string>, origRaw: seq<string>, inputRaw: seq<string>)
    ensures |orig| - |Marks(eq, orig, inp).origMarks| <= |Compare(eq, orig, inp, origRaw, inputRaw).errors|
    ensures forall k :: 0 <= k < |Compare(eq, orig, inp, origRaw, inputRaw).errors| && |orig| - |Marks(eq, orig, inp).origMarks| <= k ==>
      && Compare(eq, orig, inp, origRaw, inputRaw).errors[k].kind == Addition
      && Compare(eq, orig, inp, origRaw, inputRaw).errors[k].expected == ""
      && Compare(eq, orig, inp, origRaw, inputRaw).errors[k].wordIndex < |inp|
      && Compare(eq, orig, inp, origRaw, inputRaw).errors[k].wordIndex !in Marks(eq, orig, inp).inputMarks
      && Compare(eq, orig, inp, origRaw, inputRaw).errors[k].actual
         == RawAt(inputRaw, Compare(eq, orig, inp, origRaw, inputRaw).errors[k].wordIndex)
    ensures forall x, y :: 0 <= x < y < |Compare(eq, orig, inp, origRaw, inputRaw).errors| && |orig| - |Marks(eq, orig, inp).origMarks| <= x ==>
      Compare(eq, orig, inp, origRaw, inputRaw).errors[x].wordIndex < Compare(eq, orig, inp, origRaw, inputRaw).errors[y].wordIndex
  {
    MarksInv(eq, orig, inp);
    ReportAdditionsLast(orig, inp, origRaw, inputRaw, Marks(eq, orig, inp));
  }

  /** Every unmatched input word is either the partner of exactly one substitution or an addition. */
  lemma AdditionsBalance(eq: WordEq, orig: seq<string>, inp: seq<string>, origRaw: seq<string>, inputRaw: seq<string>)
    ensures |Filter(Compare(eq, orig, inp, origRaw, inputRaw).errors, IsSubstitution)|
          + |Filter(Compare(eq, orig, inp, origRaw, inputRaw).errors, IsAddition)|
         == |inp| - |Marks(eq, orig, inp).inputMarks|
  {
    var st := Marks(eq, orig, inp);
    MarksInv(eq, orig, inp);
    PendingCounts(orig, inp, origRaw, inputRaw, st);
    ErrorListBalance(Unmatched(Flags(|orig|, st.origMarks), origRaw), Unmatched(Flags(|inp|, st.inputMarks), inputRaw));
  }

  /** Each pending input word is used by one substitution or reported as one addition. */
  lemma ErrorListBalance(dels: seq<Pending>, adds: seq<Pending>)
    ensures |Filter(ErrorList(dels, adds), IsSubstitution)| + |Filter(ErrorList(dels, adds), IsAddition)| == |adds|
  {
    var paired := Pairing(dels, adds);
    var rest := Leftovers(adds, paired.1);
    PairingShape(dels, adds);
    PairingUsesDistinct(dels, adds);
    LeftoversAreAdditions(adds, paired.1);
    LeftoversCount(adds, paired.1);
    FilterAppend(paired.0, rest, IsSubstitution);
    FilterDropsAll(rest, IsSubstitution);
    FilterAppend(paired.0, rest, IsAddition);
    FilterDropsAll(paired.0, IsAddition);
    FilterKeepsAll(rest, IsAddition);
  }

  /** compareTexts never reports the declared 'order' kind. */
  lemma NoOrderErrors(eq: WordEq, orig: seq<string>, inp: seq<string>, origRaw: seq<string>, inputRaw: seq<string>)
    ensures forall e :: e in Compare(eq, orig, inp, origRaw, inputRaw).errors ==> e.kind != Order
  {
    DeletionsFirst(eq, orig, inp, origRaw, inputRaw);
    AdditionsLast(eq, orig, inp, origRaw, inputRaw);
  }

  // ---------------------------------------------------------------------------
  // Worked cases
  // ---------------------------------------------------------------------------

  function Range(n: nat): (r: seq<nat>)
    ensures |r| == n && forall k :: 0 <= k < n ==> r[k] == k
  {
    seq(n, k requires 0 <= k < n => k)
  }

  lemma FlagsOfRange(n: nat, m: nat)
    ensures forall k :: 0 <= k < n ==> (Flags(n, Range(m))[k] <==> k < m)
  {
    forall k | 0 <= k < n ensures Flags(n, Range(m))[k] <==> k < m {
      if k < m { assert Range(m)[k] == k; }
    }
  }

  /** Along the diagonal of equal prefixes every word matches itself. */
  lemma {:induction false} DiagonalLcs(eq: WordEq, a: seq<string>, b: seq<string>, i: nat)
    requires Reflexive(eq)
    requires i <= |a| && i <= |b| && forall k :: 0 <= k < i ==> b[k] == a[k]
    ensures Dp(eq, a, b, i, i) == i
    ensures Reconstruct(eq, a, b, i, i) == a[..i]
  {
    if i > 0 {
      assert eq(a[i - 1], b[i - 1]) by { assert b[i - 1] == a[i - 1]; }
      DiagonalLcs(eq, a, b, i - 1);
      assert a[..i] == a[..i - 1] + [a[i - 1]];
    }
  }

  /** A column whose input word matches nothing adds nothing to the table. */
  lemma {:induction false} ColumnWithoutMatch(eq: WordEq, a: seq<string>, b: seq<string>, i: nat, j: nat)
    requires i <= |a| && j < |b|
    requires forall k :: 0 <= k < |a| ==> !eq(a[k], b[j])
    ensures Dp(eq, a, b, i, j + 1) == Dp(eq, a, b, i, j)
  {
    if i > 0 {
      ColumnWithoutMatch(eq, a, b, i - 1, j);
      DpSteps(eq, a, b, i, j);
    }
  }

  /** Tracing a text against an input that starts with the same words marks them one by one. */
  lemma {:induction false} TraceOfCopy(eq: WordEq, orig: seq<string>, inp: seq<string>, l: nat)
    requires Reflexive(eq)
    requires l <= |orig| <= |inp| && forall k :: 0 <= k < |orig| ==> inp[k] == orig[k]
    ensures TraceUpTo(eq, orig, inp, orig, l) == TraceState(l, l, Range(l), Range(l))
  {
    if l > 0 {
      TraceOfCopy(eq, orig, inp, l - 1);
      assert eq(orig[l - 1], orig[l - 1]);
      assert SkipTo(eq, orig, orig[l - 1], l - 1) == l - 1;
      assert SkipTo(eq, inp, orig[l - 1], l - 1) == l - 1;
      assert Range(l - 1) + [l - 1] == Range(l);
    }
  }

  /** Reciting the text exactly gives no errors and a score of 100. */
  lemma CompareIdentical(eq: WordEq, ws: seq<string>, raw: seq<string>)
    requires Reflexive(eq)
    ensures Compare(eq, ws, ws, raw, raw).errors == []
    ensures Compare(eq, ws, ws, raw, raw).correctWords == |ws|
    ensures Compare(eq, ws, ws, raw, raw).score == 100
  {
    var m := |ws|;
    DiagonalLcs(eq, ws, ws, m);
    assert ws[..m] == ws;
    TraceOfCopy(eq, ws, ws, m);
    FlagsOfRange(m, m);
    AllMatchedNoneLeft(Flags(m, Range(m)), raw);
    CompareScore(eq, ws, ws, raw, raw);
  }

  /** An empty recitation gives one deletion per original word and a score of 0. */
  lemma CompareEmptyInput(eq: WordEq, ws: seq<string>, raw: seq<string>)
    ensures |Compare(eq, ws, [], raw, []).errors| == |ws|
    ensures forall k :: 0 <= k < |ws| ==> Compare(eq, ws, [], raw, []).errors[k] == CompareError(k, RawAt(raw, k), "", Deletion)
    ensures Compare(eq, ws, [], raw, []).correctWords == 0
    ensures |ws| > 0 ==> Compare(eq, ws, [], raw, []).score == 0
  {
    assert Lcs(eq, ws, []) == [];
    assert Marks(eq, ws, []) == TraceState(0, 0, [], []);
    ReportNothingMarked(ws, raw);
  }

  /** With no additions to pair with, every pending original word becomes a deletion. */
  lemma PairingWithoutAdditions(dels: seq<Pending>)
    ensures Pairing(dels, []).1 == {}
    ensures forall k :: 0 <= k < |dels| ==>
      Pairing(dels, []).0[k] == CompareError(dels[k].wordIndex, dels[k].word, "", Deletion)
  {
    var paired := Pairing(dels, []);
    PairingShape(dels, []);
    PairingUsesDistinct(dels, []);
    assert paired.1 == {};
    assert Filter(paired.0, IsSubstitution) == [];
    forall k | 0 <= k < |dels| ensures paired.0[k].kind == Deletion {
      assert !IsSubstitution(paired.0[k]);
    }
  }

  /** With nothing marked and no input, every original word is a deletion. */
  lemma ReportNothingMarked(ws: seq<string>, raw: seq<string>)
    ensures |Report(ws, [], raw, [], TraceState(0, 0, [], [])).errors| == |ws|
    ensures forall k :: 0 <= k < |ws| ==>
      Report(ws, [], raw, [], TraceState(0, 0, [], [])).errors[k] == CompareError(k, RawAt(raw, k), "", Deletion)
    ensures Report(ws, [], raw, [], TraceState(0, 0, [], [])).correctWords == 0
    ensures |ws| > 0 ==> Report(ws, [], raw, [], TraceState(0, 0, [], [])).score == 0
  {
    var st := TraceState(0, 0, [], []);
    NoneMatchedAllLeft(Flags(|ws|, []), raw);
    var dels := Unmatched(Flags(|ws|, []), raw);
    PairingWithoutAdditions(dels);
    assert Unmatched(Flags(0, []), []) == [];
    assert Leftovers([], {}) == [];
    assert Report(ws, [], raw, [], st).errors == Pairing(dels, []).0;
    ReportScore(ws, [], raw, [], st);
  }

  /** The LCS of a text and the text followed by a word that matches none of its words is the text. */
  lemma LcsOfExtraWord(eq: WordEq, ws: seq<string>, w: string)
    requires Reflexive(eq)
    requires forall k :: 0 <= k < |ws| ==> !eq(ws[k], w)
    ensures Lcs(eq, ws, ws + [w]) == ws
  {
    var m := |ws|;
    var b := ws + [w];
    forall k | 0 <= k < m ensures !eq(ws[k], b[m]) { assert b[m] == w; }
    DiagonalLcs(eq, ws, b, m);
    assert ws[..m] == ws;
    if m > 0 {
      ColumnWithoutMatch(eq, ws, b, m - 1, m);
      ColumnWithoutMatch(eq, ws, b, m, m);
      assert !eq(ws[m - 1], b[m]);
      assert Reconstruct(eq, ws, b, m, m + 1) == Reconstruct(eq, ws, b, m, m);
    }
  }

  /** With the first m of m + 1 input words marked against all m original words, the one
      unmarked input word is the only error. */
  lemma ReportOneExtra(m: nat, orig: seq<string>, inp: seq<string>, raw: seq<string>, inputRaw: seq<string>)
    requires |orig| == m && |inp| == m + 1
    ensures Report(orig, inp, raw, inputRaw, TraceState(m, m, Range(m), Range(m))).errors
      == [CompareError(m, "", RawAt(inputRaw, m), Addition)]
  {
    FlagsOfRange(m, m);
    FlagsOfRange(m + 1, m);
    AllMatchedNoneLeft(Flags(m, Range(m)), raw);
    var flags := Flags(m + 1, Range(m));
    AllMatchedNoneLeft(flags[..m], inputRaw);
    var adds := Unmatched(flags, inputRaw);
    assert adds == [Pending(m, RawAt(inputRaw, m))];
    assert Leftovers(adds, {}) == [CompareError(m, "", RawAt(inputRaw, m), Addition)];
  }

  /** Appending one word that matches nothing to a correct recitation gives exactly one
      addition, at its position, and keeps the score at 100. */
  lemma CompareExtraWord(eq: WordEq, ws: seq<string>, w: string, raw: seq<string>, inputRaw: seq<string>)
    requires Reflexive(eq)
    requires forall k :: 0 <= k < |ws| ==> !eq(ws[k], w)
    ensures Compare(eq, ws, ws + [w], raw, inputRaw).errors == [CompareError(|ws|, "", RawAt(inputRaw, |ws|), Addition)]
    ensures Compare(eq, ws, ws + [w], raw, inputRaw).correctWords == |ws|
    ensures Compare(eq, ws, ws + [w], raw, inputRaw).score == 100
  {
    var m := |ws|;
    var b := ws + [w];
    LcsOfExtraWord(eq, ws, w);
    TraceOfCopy(eq, ws, b, m);
    assert Marks(eq, ws, b) == TraceState(m, m, Range(m), Range(m));
    ReportOneExtra(m, ws, b, raw, inputRaw);
    CompareScore(eq, ws, b, raw, inputRaw);
  }

  /** compareTexts(T, T) has no errors and scores 100. */
  lemma CompareTextsIdentical(t: string)
    ensures Comparison(t, t).errors == [] && Comparison(t, t).score == 100
    ensures Comparison(t, t).correctWords == Comparison(t, t).totalWords
  {
    WordsMatchReflexiveSymmetric();
    CompareIdentical(WordsMatch, SplitWords(NormalizeArabic(t)), SplitWords(CleanText(t)));
    CompareScore(WordsMatch, SplitWords(NormalizeArabic(t)), SplitWords(NormalizeArabic(t)),
                 SplitWords(CleanText(t)), SplitWords(CleanText(t)));
  }

  /** compareTexts(T, "") reports every word of T as deleted and scores 0 when T has words. */
  lemma CompareTextsEmptyInput(t: string)
    ensures var ws := SplitWords(NormalizeArabic(t));
      && |Comparison(t, "").errors| == |ws|
      && (forall k :: 0 <= k < |ws| ==>
            Comparison(t, "").errors[k] == CompareError(k, RawAt(SplitWords(CleanText(t)), k), "", Deletion))
      && (|ws| > 0 ==> Comparison(t, "").score == 0)
  {
    assert NormalizeArabic("") == "";
    assert SplitWords("") == [];
    assert CleanText("") == "";
    CompareEmptyInput(WordsMatch, SplitWords(NormalizeArabic(t)), SplitWords(CleanText(t)));
  }

  // ---------------------------------------------------------------------------
  // The imperative compareTexts
  // ---------------------------------------------------------------------------

  /** The trace loop: advance each cursor to the next word matching the LCS word and mark both. */
  method TraceMatches(eq: WordEq, orig: seq<string>, inp: seq<string>, lcs: seq<string>)
    returns (origMatched: array<bool>, inputMatched: array<bool>)
    ensures fresh(origMatched) && fresh(inputMatched)
    ensures origMatched[..] == Flags(|orig|, Trace(eq, orig, inp, lcs).origMarks)
    ensures inputMatched[..] == Flags(|inp|, Trace(eq, orig, inp, lcs).inputMarks)
  {
    origMatched := new bool[|orig|](_ => false);
    inputMatched := new bool[|inp|](_ => false);
    var oi: nat, ii: nat := 0, 0;
    ghost var origMarks: seq<nat>, inputMarks: seq<nat> := [], [];
    for l := 0 to |lcs|
      invariant TraceUpTo(eq, orig, inp, lcs, l) == TraceState(oi, ii, origMarks, inputMarks)
      invariant origMatched[..] == Flags(|orig|, origMarks)
      invariant inputMatched[..] == Flags(|inp|, inputMarks)
    {
      oi, ii, origMarks, inputMarks := TraceOne(eq, orig, inp, lcs[l], origMatched, inputMatched, oi, ii, origMarks, inputMarks);
    }
  }

  /** One iteration of the trace loop, on the two flag arrays. */
  method TraceOne(eq: WordEq, orig: seq<string>, inp: seq<string>, w: string,
                  origMatched: array<bool>, inputMatched: array<bool>,
                  oi: nat, ii: nat, ghost origMarks: seq<nat>, ghost inputMarks: seq<nat>)
    returns (oi': nat, ii': nat, ghost origMarks': seq<nat>, ghost inputMarks': seq<nat>)
    requires origMatched != inputMatched
    requires oi <= |orig| && ii <= |inp|
    requires origMatched.Length == |orig| && origMatched[..] == Flags(|orig|, origMarks)
    requires inputMatched.Length == |inp| && inputMatched[..] == Flags(|inp|, inputMarks)
    modifies origMatched, inputMatched
    ensures TraceState(oi', ii', origMarks', inputMarks')
         == TraceStep(eq, orig, inp, w, TraceState(oi, ii, origMarks, inputMarks))
    ensures origMatched[..] == Flags(|orig|, origMarks')
    ensures inputMatched[..] == Flags(|inp|, inputMarks')
  {
    oi' := Advance(eq, orig, w, oi);
    ii' := Advance(eq, inp, w, ii);
    origMarks', inputMarks' := origMarks, inputMarks;
    if oi' < |orig| && ii' < |inp| {
      Mark(origMatched, origMarks, oi');
      Mark(inputMatched, inputMarks, ii');
      origMarks', inputMarks' := origMarks + [oi'], inputMarks + [ii'];
      oi', ii' := oi' + 1, ii' + 1;
    }
  }

  /** One inner while loop of the trace: move the cursor to the next word matching w. */
  method Advance(eq: WordEq, ws: seq<string>, w: string, k: nat) returns (r: nat)
    requires k <= |ws|
    ensures r == SkipTo(eq, ws, w, k)
  {
    r := k;
    while r < |ws| && !eq(ws[r], w)
      invariant k <= r <= |ws|
      invariant SkipTo(eq, ws, w, r) == SkipTo(eq, ws, w, k)
      decreases |ws| - r
    {
      r := r + 1;
    }
  }

  /** `matched[x] = true`: setting flag x is marking x. */
  method Mark(matched: array<bool>, ghost marks: seq<nat>, x: nat)
    requires x < matched.Length && matched[..] == Flags(matched.Length, marks)
    modifies matched
    ensures matched[..] == Flags(matched.Length, marks + [x])
  {
    matched[x] := true;
    assert matched[..] == Flags(matched.Length, marks + [x]);
  }

  /** The loop collecting unmatched words with their raw text. */
  method CollectUnmatched(matched: array<bool>, raw: seq<string>) returns (pending: seq<Pending>)
    ensures pending == Unmatched(matched[..], raw)
  {
    pending := [];
    for i := 0 to matched.Length
      invariant pending == Unmatched(matched[..i], raw)
    {
      if !matched[i] {
        pending := pending + [Pending(i, RawAt(raw, i))];
      }
      assert matched[..i + 1][..i] == matched[..i];
    }
    assert matched[..matched.Length] == matched[..];
  }

  /** The inner scan for the closest unused addition within distance 2. */
  method ClosestAddition(wordIndex: nat, adds: seq<Pending>, used: set<nat>) returns (best: Best)
    ensures best == Closest(wordIndex, adds, used, |adds|)
  {
    best := NoneYet;
    for a := 0 to |adds|
      invariant best == Closest(wordIndex, adds, used, a)
    {
      if a in used {
        continue;
      }
      var dist := Dist(wordIndex, adds[a].wordIndex);
      if (best.NoneYet? || dist < best.dist) && dist <= 2 {
        best := Found(a, dist);
      }
    }
  }

  /** The pairing loop over the deletions. */
  method PairDeletions(dels: seq<Pending>, adds: seq<Pending>) returns (errors: seq<CompareError>, used: set<nat>)
    ensures (errors, used) == Pairing(dels, adds)
  {
    errors, used := [], {};
    for k := 0 to |dels|
      invariant (errors, used) == Pairing(dels[..k], adds)
    {
      var del := dels[k];
      var best := ClosestAddition(del.wordIndex, adds, used);
      if best.Found? {
        used := used + {best.index};
        errors := errors + [CompareError(del.wordIndex, del.word, adds[best.index].word, Substitution)];
      } else {
        errors := errors + [CompareError(del.wordIndex, del.word, "", Deletion)];
      }
      assert dels[..k + 1][..k] == dels[..k];
    }
    assert dels[..|dels|] == dels;
  }

  /** The loop appending the additions no deletion used. */
  method AppendLeftovers(paired: seq<CompareError>, adds: seq<Pending>, used: set<nat>) returns (errors: seq<CompareError>)
    ensures errors == paired + Leftovers(adds, used)
  {
    errors := paired;
    for a := 0 to |adds|
      invariant errors == paired + Leftovers(adds[..a], used)
    {
      if a !in used {
        errors := errors + [CompareError(adds[a].wordIndex, "", adds[a].word, Addition)];
      }
      assert adds[..a + 1][..a] == adds[..a];
    }
    assert adds[..|adds|] == adds;
  }

  /** compareTexts. */
  method CompareTexts(original: string, input: string) returns (r: CompareResult)
    ensures r == Comparison(original, input)
  {
    var origWords := SplitWords(NormalizeArabic(original));
    var inputWords := SplitWords(NormalizeArabic(input));
    var origWordsRaw := SplitWords(CleanText(original));
    var inputWordsRaw := SplitWords(CleanText(input));
    r := CompareWords(WordsMatch, origWords, inputWords, origWordsRaw, inputWordsRaw);
  }

  /** The body of compareTexts after splitting: the LCS, the trace, the pending words,
      the pairing, the leftovers and the score. */
  method CompareWords(eq: WordEq, origWords: seq<string>, inputWords: seq<string>, origWordsRaw: seq<string>, inputWordsRaw: seq<string>)
    returns (r: CompareResult)
    ensures r == Compare(eq, origWords, inputWords, origWordsRaw, inputWordsRaw)
  {
    var lcs := FuzzyLcs(eq, origWords, inputWords);
    ghost var st := Marks(eq, origWords, inputWords);
    var origMatched, inputMatched := TraceMatches(eq, origWords, inputWords, lcs);
    var deletions := CollectUnmatched(origMatched, origWordsRaw);
    var additions := CollectUnmatched(inputMatched, inputWordsRaw);
    var errors, usedAdditions := PairDeletions(deletions, additions);
    errors := AppendLeftovers(errors, additions, usedAdditions);
    var correctWords := |origWords| - |Filter(errors, NotAddition)|;
    var score := if |origWords| > 0 then RoundDiv(100 * correctWords, |origWords|) else 100;
    r := CompareResult(Max(0, score), errors, |origWords|, Max(0, correctWords));
    assert r == Report(origWords, inputWords, origWordsRaw, inputWordsRaw, st);
  }
}
