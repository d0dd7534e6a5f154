/** Word hiding for the fill-in test: a share of an ayah's words, set by the difficulty,
    is hidden. The weak words (those with most errors) are hidden first; the rest are
    picked at random among the words not yet hidden. The first word is never hidden, so
    the reader has an anchor.

    The random pick is a nondeterministic choice: every property below holds whichever
    index is picked. */
module WordHide {
  import opened Common
  import ArabicText

  datatype Difficulty = Easy | Medium | Hard

  datatype HiddenWord = HiddenWord(word: string, index: nat, hidden: bool, revealed: bool)

  /** HIDE_RATIOS, in quarters: 0.25, 0.5 and 0.75. */
  function HideQuarters(d: Difficulty): nat {
    match d
    case Easy => 1
    case Medium => 2
    case Hard => 3
  }

  /** `Math.floor(words.length * hideRatio)`. The ratios are exact binary fractions, so
      the product is exact and its floor is an integer division. */
  function HideTarget(n: nat, d: Difficulty): (target: nat)
    ensures target <= n
    ensures 4 * target <= HideQuarters(d) * n < 4 * target + 4
  {
    HideQuarters(d) * n / 4
  }

  // ---------------------------------------------------------------------------
  // The weak words
  // ---------------------------------------------------------------------------

  /** The weak indices that can be hidden (between 1 and n - 1), each at its first
      occurrence, in the given order. */
  function FirstValid(ws: seq<int>, n: int): seq<int> {
    if ws == [] then []
    else
      var p := FirstValid(ws[..|ws| - 1], n);
      var x := ws[|ws| - 1];
      if 0 < x < n && x !in p then p + [x] else p
  }

  lemma {:induction false} FirstValidFacts(ws: seq<int>, n: int)
    ensures Distinct(FirstValid(ws, n))
    ensures forall x :: x in FirstValid(ws, n) <==> x in ws && 0 < x < n
  {
    if ws != [] {
      var m := |ws| - 1;
      FirstValidFacts(ws[..m], n);
      assert ws == ws[..m] + [ws[m]];
    }
  }

  /** Reading more weak indices only extends the list. */
  lemma {:induction false} FirstValidPrefix(ws: seq<int>, i: nat, n: int)
    requires i <= |ws|
    ensures FirstValid(ws[..i], n) <= FirstValid(ws, n)
  {
    if i < |ws| {
      var m := |ws| - 1;
      FirstValidPrefix(ws[..m], i, n);
      assert ws[..m][..i] == ws[..i];
    } else {
      assert ws[..i] == ws;
    }
  }

  /** How many weak words the first loop hides: up to the target, but at least one when
      there is one, because the loop checks the size only after adding. */
  function WeakQuota(weak: seq<int>, n: int, target: nat): nat {
    Min(Max(target, 1), |FirstValid(weak, n)|)
  }

  /** The weak words the first loop hides. */
  function WeakPicks(weak: seq<int>, n: int, target: nat): set<int> {
    Elems(FirstValid(weak, n)[..WeakQuota(weak, n, target)])
  }

  /** The weak words hidden are valid weak indices, as many as the quota. */
  lemma WeakPicksFacts(weak: seq<int>, n: int, target: nat)
    ensures |WeakPicks(weak, n, target)| == WeakQuota(weak, n, target)
    ensures forall x :: x in WeakPicks(weak, n, target) ==> x in weak && 0 < x < n
  {
    var fv := FirstValid(weak, n);
    FirstValidFacts(weak, n);
    var q := WeakQuota(weak, n, target);
    assert Distinct(fv[..q]);
    DistinctCard(fv[..q]);
    forall x | x in WeakPicks(weak, n, target) ensures x in weak && 0 < x < n {
      assert x in fv[..q];
    }
  }

  /** Reading one more weak index: it is added when valid and new. */
  lemma PickWeakStep(weak: seq<int>, n: int, i: nat)
    requires i < |weak|
    ensures var before := FirstValid(weak[..i], n); var after := FirstValid(weak[..i + 1], n);
      && after == (if 0 < weak[i] < n && weak[i] !in before then before + [weak[i]] else before)
      && Elems(after) == Elems(before) + (if 0 < weak[i] < n then {weak[i]} else {})
      && |Elems(after)| == |after|
  {
    assert weak[..i + 1][..i] == weak[..i] && weak[..i + 1][i] == weak[i];
    FirstValidFacts(weak[..i + 1], n);
    DistinctCard(FirstValid(weak[..i + 1], n));
  }

  /** The early exit: once the quota is reached, the words hidden so far are
      the weak picks. */
  lemma PickWeakDone(weak: seq<int>, n: int, target: nat, i: nat)
    requires i < |weak| && |FirstValid(weak[..i + 1], n)| == Max(target, 1)
    ensures WeakPicks(weak, n, target) == Elems(FirstValid(weak[..i + 1], n))
  {
    var after := FirstValid(weak[..i + 1], n);
    FirstValidPrefix(weak, i + 1, n);
    assert WeakQuota(weak, n, target) == |after|;
    assert FirstValid(weak, n)[..|after|] == after;
  }

  /** The loop over the weak indices, with its early exit. */
  method PickWeak(weak: seq<int>, n: int, target: nat) returns (indices: set<int>)
    ensures indices == WeakPicks(weak, n, target)
  {
    indices := {};
    var i := 0;
    while i < |weak|
      invariant 0 <= i <= |weak|
      invariant indices == Elems(FirstValid(weak[..i], n))
      invariant |FirstValid(weak[..i], n)| < Max(target, 1)
    {
      var idx := weak[i];
      PickWeakStep(weak, n, i);
      if idx < n && idx > 0 {
        indices := indices + {idx};
        if |indices| >= target {
          PickWeakDone(weak, n, target, i);
          break;
        }
      }
      i := i + 1;
    }
    if i == |weak| {
      assert weak[..i] == weak;
    }
  }

  // ---------------------------------------------------------------------------
  // The random fill
  // ---------------------------------------------------------------------------

  /** `Array.from({ length: n - 1 }, (_, i) => i + 1)`: the indices 1 .. n - 1. */
  function Candidates(n: int): (r: seq<int>)
    ensures |r| == Max(n - 1, 0)
    ensures forall i :: 0 <= i < |r| ==> r[i] == i + 1
  {
    seq(Max(n - 1, 0), i => i + 1)
  }

  function NotIn(indices: set<int>): int -> bool {
    i => i !in indices
  }

  /** Dropping the members of a set from a list without repeats drops exactly as many
      elements as the set has in the list. */
  lemma {:induction false} FilterOutCount(s: seq<int>, a: set<int>)
    requires Distinct(s) && a <= Elems(s)
    ensures |Filter(s, NotIn(a))| + |a| == |s|
  {
    if s != [] {
      var rest := s[1..];
      assert Distinct(rest);
      if s[0] in a {
        assert a - {s[0]} <= Elems(rest);
        FilterOutCount(rest, a - {s[0]});
        assert forall j :: 0 <= j < |rest| ==> (NotIn(a)(rest[j]) <==> NotIn(a - {s[0]})(rest[j]));
        FilterAgree(rest, NotIn(a), NotIn(a - {s[0]}));
      } else {
        assert a <= Elems(rest);
        FilterOutCount(rest, a);
      }
    }
  }

  lemma {:induction false} FilterAgree(s: seq<int>, p: int -> bool, q: int -> bool)
    requires forall j :: 0 <= j < |s| ==> (p(s[j]) <==> q(s[j]))
    ensures Filter(s, p) == Filter(s, q)
  {
    if s != [] { FilterAgree(s[1..], p, q); }
  }

  lemma FilterDistinct(s: seq<int>, p: int -> bool)
    requires Distinct(s)
    ensures Distinct(Filter(s, p))
    decreases |s|
  {
    if s != [] {
      FilterDistinct(s[1..], p);
      var rest := Filter(s[1..], p);
      assert s[0] !in s[1..];
      assert s[0] !in rest;
    }
  }

  /** The candidates not hidden yet: every index from 1 to n - 1 outside the set, once. */
  lemma AvailableFacts(n: int, indices: set<int>)
    requires forall x :: x in indices ==> 0 < x < n
    ensures Distinct(Filter(Candidates(n), NotIn(indices)))
    ensures forall x :: x in Filter(Candidates(n), NotIn(indices)) <==> 0 < x < n && x !in indices
    ensures |Filter(Candidates(n), NotIn(indices))| + |indices| == Max(n - 1, 0)
  {
    var c := Candidates(n);
    FilterMembers(c, NotIn(indices));
    FilterDistinct(c, NotIn(indices));
    forall x | 0 < x < n ensures x in c { assert c[x - 1] == x; }
    assert indices <= Elems(c);
    FilterOutCount(c, indices);
  }

  /** The state of the random fill: the hidden indices and the candidates left split the
      indices 1 .. n - 1 between them. */
  ghost predicate Pool(indices: set<int>, available: seq<int>, n: int) {
    && (forall x :: x in indices ==> 0 < x < n)
    && Distinct(available)
    && (forall x :: x in available <==> 0 < x < n && x !in indices)
    && |indices| + |available| == Max(n - 1, 0)
  }

  /** Hiding the k-th candidate and splicing it out keeps the split. */
  lemma PoolStep(indices: set<int>, available: seq<int>, k: nat, n: int)
    requires Pool(indices, available, n) && k < |available|
    ensures |indices + {available[k]}| == |indices| + 1
    ensures Pool(indices + {available[k]}, available[..k] + available[k + 1..], n)
  {
    var x := available[k];
    assert x in available;
    assert x !in indices;
    RemoveAt(available, k);
    var rest := available[..k] + available[k + 1..];
    assert |rest| == |available| - 1;
    forall y ensures y in rest <==> 0 < y < n && y !in indices + {x} {
      assert y in rest <==> y in available && y != x;
      assert y in available <==> 0 < y < n && y !in indices;
    }
  }

  /** The random fill: while fewer than the target are hidden and a candidate is left,
      hide one of the candidates, whichever it is. */
  method FillRandom(indices0: set<int>, n: int, target: nat) returns (indices: set<int>)
    requires forall x :: x in indices0 ==> 0 < x < n
    ensures indices0 <= indices
    ensures forall x :: x in indices ==> 0 < x < n
    ensures |indices| == Max(|indices0|, Min(target, Max(n - 1, 0)))
  {
    AvailableFacts(n, indices0);
    var available := Filter(Candidates(n), NotIn(indices0));
    indices := indices0;
    while |indices| < target && |available| > 0
      invariant indices0 <= indices
      invariant Pool(indices, available, n)
      invariant indices == indices0 || |indices| <= target
      decreases |available|
    {
      var randIdx :| 0 <= randIdx < |available|;
      PoolStep(indices, available, randIdx, n);
      indices := indices + {available[randIdx]};
      available := available[..randIdx] + available[randIdx + 1..];
    }
  }

  /** `splice(k, 1)` on a list without repeats removes exactly its k-th element. */
  lemma RemoveAt(s: seq<int>, k: nat)
    requires Distinct(s) && k < |s|
    ensures Distinct(s[..k] + s[k + 1..])
    ensures forall x :: x in s[..k] + s[k + 1..] <==> x in s && x != s[k]
  {
    var t := s[..k] + s[k + 1..];
    assert forall j :: 0 <= j < |t| ==> t[j] == if j < k then s[j] else s[j + 1];
    forall x | x in s && x != s[k] ensures x in t {
      var j :| 0 <= j < |s| && s[j] == x;
      if j < k { assert t[j] == x; } else { assert t[j - 1] == x; }
    }
  }

  // ---------------------------------------------------------------------------
  // generateHiddenWords
  // ---------------------------------------------------------------------------

  /** The positions a result hides. */
  function HiddenSet(r: seq<HiddenWord>): set<int> {
    set i | 0 <= i < |r| && r[i].hidden
  }

  /** The weak list the loop reads: an absent list is read as an empty one. */
  function WeakList(weakWordIndices: Option<seq<int>>): seq<int> {
    if weakWordIndices.Some? then weakWordIndices.value else []
  }

  /** How many words generateHiddenWords hides. */
  function HiddenCount(weak: seq<int>, n: nat, target: nat): int {
    Max(WeakQuota(weak, n, target), Min(target, Max(n - 1, 0)))
  }

  /** With a positive target, exactly the target is hidden, or every word but the first
      when there are fewer; with a target of 0, at most the first valid weak word. */
  lemma HiddenCountFacts(weak: seq<int>, n: nat, target: nat)
    ensures target >= 1 ==> HiddenCount(weak, n, target) == Min(target, Max(n - 1, 0))
    ensures target == 0 ==> HiddenCount(weak, n, target) <= 1
    ensures target == 0 ==> (HiddenCount(weak, n, target) == 1 <==> exists x :: x in weak && 0 < x < n)
  {
    FirstValidFacts(weak, n);
    var fv := FirstValid(weak, n);
    assert Elems(fv) <= Elems(Candidates(n)) by {
      forall x | x in Elems(fv) ensures x in Elems(Candidates(n)) { assert Candidates(n)[x - 1] == x; }
    }
    DistinctCard(fv);
    assert Distinct(Candidates(n));
    DistinctCard(Candidates(n));
    SubsetCard(Elems(fv), Elems(Candidates(n)));
    if target == 0 && (exists x :: x in weak && 0 < x < n) {
      var x :| x in weak && 0 < x < n;
      assert x in fv;
    }
  }

  /** generateHiddenWords: one entry per word, in order, never revealed; the first word
      is never hidden; the valid weak words up to the quota are hidden; and the number
      hidden is HiddenCount. */
  method GenerateHiddenWords(text: string, difficulty: Difficulty, weakWordIndices: Option<seq<int>>)
    returns (r: seq<HiddenWord>)
    ensures var words := ArabicText.SplitWords(text);
      && |r| == |words|
      && forall i :: 0 <= i < |r| ==> r[i].word == words[i] && r[i].index == i && !r[i].revealed
    ensures forall i :: 0 <= i < |r| && r[i].hidden ==> i > 0
    ensures var n := |ArabicText.SplitWords(text)|;
      WeakPicks(WeakList(weakWordIndices), n, HideTarget(n, difficulty)) <= HiddenSet(r)
    ensures var n := |ArabicText.SplitWords(text)|;
      |HiddenSet(r)| == HiddenCount(WeakList(weakWordIndices), n, HideTarget(n, difficulty))
  {
    var words := ArabicText.SplitWords(text);
    var n := |words|;
    var totalToHide := HideTarget(n, difficulty);
    var weak := WeakList(weakWordIndices);
    var picked := PickWeak(weak, n, totalToHide);
    WeakPicksFacts(weak, n, totalToHide);
    var indices := FillRandom(picked, n, totalToHide);
    r := seq(n, i requires 0 <= i < n => HiddenWord(words[i], i, i in indices, false));
    assert HiddenSet(r) == indices;
  }
}
