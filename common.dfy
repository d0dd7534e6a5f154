/** Helpers shared by the modules of the model: optional values, JavaScript's
    rounding and slicing on integers, string ordering, sorting and filtering. */
module Common {

  datatype Option<T> = None | Some(value: T) {
    /** The value of an optional argument, or its default when it is omitted. */
    function GetOr(default: T): T {
      if Some? then value else default
    }
  }

  // ---------------------------------------------------------------------------
  // Rounding. `Math.round(x / y)` on integers with a positive divisor is the
  // nearest integer with halves rounded up, i.e. floor((2x + y) / (2y)).
  // ---------------------------------------------------------------------------

  function RoundDiv(x: int, y: int): (r: int)
    requires y > 0
    ensures 2 * y * r <= 2 * x + y < 2 * y * (r + 1)
  {
    (2 * x + y) / (2 * y)
  }

  lemma MulMono(a: int, b: int, y: int)
    requires y > 0 && a <= b
    ensures y * a <= y * b
  {}

  lemma RoundDivBetween(x: int, y: int, lo: int, hi: int)
    requires y > 0 && lo * y <= x <= hi * y
    ensures lo <= RoundDiv(x, y) <= hi
  {
    var r := RoundDiv(x, y);
    if r > hi { MulMono(hi + 1, r, 2 * y); assert false; }
    if r < lo { MulMono(r + 1, lo, 2 * y); assert false; }
  }

  lemma PercentFacts(part: int, whole: int)
    requires whole > 0
    ensures 0 <= part <= whole ==> 0 <= RoundDiv(100 * part, whole) <= 100
    ensures part == whole ==> RoundDiv(100 * part, whole) == 100
    ensures part == 0 ==> RoundDiv(100 * part, whole) == 0
  {
    if 0 <= part <= whole { RoundDivBetween(100 * part, whole, 0, 100); }
    if part == whole { RoundDivBetween(100 * part, whole, 100, 100); }
  }

  /** Rounding keeps the order of the numerators. */
  lemma RoundDivMono(x1: int, x2: int, y: int)
    requires y > 0 && x1 <= x2
    ensures RoundDiv(x1, y) <= RoundDiv(x2, y)
  {
    var r1, r2 := RoundDiv(x1, y), RoundDiv(x2, y);
    if r1 > r2 { MulMono(r2 + 1, r1, 2 * y); assert false; }
  }

  /** `Math.round(part / whole * 100)`, computed exactly on integers. */
  function Percent(part: int, whole: int): (r: int)
    requires whole > 0
    ensures 0 <= part <= whole ==> 0 <= r <= 100
    ensures part == whole ==> r == 100
    ensures part == 0 ==> r == 0
  {
    PercentFacts(part, whole);
    RoundDiv(100 * part, whole)
  }

  function Max(a: int, b: int): int { if a < b then b else a }
  function Min(a: int, b: int): int { if a < b then a else b }

  /** JavaScript's `s.slice(0, count)`: a negative count counts from the end. */
  function SliceTo<T>(s: seq<T>, count: int): (r: seq<T>)
    ensures r <= s
    ensures count >= 0 ==> |r| == Min(count, |s|)
    ensures count < 0 ==> |r| == Max(0, |s| + count)
  {
    if count >= 0 then (if count < |s| then s[..count] else s)
    else if |s| + count > 0 then s[..|s| + count] else []
  }

  // ---------------------------------------------------------------------------
  // Strings compared with `<` in JavaScript: code unit by code unit, a proper
  // prefix coming first.
  // ---------------------------------------------------------------------------

  predicate LexLess(a: string, b: string)
    decreases |a|
  {
    if |a| == 0 then |b| > 0
    else if |b| == 0 then false
    else if a[0] != b[0] then a[0] < b[0]
    else LexLess(a[1..], b[1..])
  }

  lemma LexIrreflexive(a: string)
    ensures !LexLess(a, a)
  {}

  lemma {:induction false} LexTransitive(a: string, b: string, c: string)
    requires LexLess(a, b) && LexLess(b, c)
    ensures LexLess(a, c)
    decreases |a|
  {
    if |a| > 0 && |b| > 0 && |c| > 0 && a[0] == b[0] && b[0] == c[0] {
      LexTransitive(a[1..], b[1..], c[1..]);
    }
  }

  lemma {:induction false} LexTotal(a: string, b: string)
    ensures a == b || LexLess(a, b) || LexLess(b, a)
    decreases |a|
  {
    if |a| > 0 && |b| > 0 && a[0] == b[0] {
      LexTotal(a[1..], b[1..]);
      if a[1..] == b[1..] { assert a == [a[0]] + a[1..] && b == [b[0]] + b[1..]; }
    }
  }

  /** The later of two timestamps under string order (`t > m ? t : m`). */
  function MaxStr(m: string, t: string): (r: string)
    ensures r == m || r == t
    ensures !LexLess(r, m) && !LexLess(r, t)
  {
    LexIrreflexive(m);
    LexIrreflexive(t);
    if LexLess(m, t) then
      (if LexLess(t, m) then LexTransitive(t, m, t); t else t)
    else
      (LexTotal(m, t); m)
  }

  /** "Not earlier than" is transitive. */
  lemma LexNotLessTransitive(a: string, b: string, c: string)
    requires !LexLess(a, b) && !LexLess(b, c)
    ensures !LexLess(a, c)
  {
    if LexLess(a, c) {
      LexTotal(b, c);
      if LexLess(c, b) { LexTransitive(a, c, b); }
    }
  }

  // ---------------------------------------------------------------------------
  // Finite sets of integers: least and greatest element, ascending listing.
  // ---------------------------------------------------------------------------

  /** Some element of a non-empty set. */
  lemma AnElement<T>(s: set<T>) returns (y: T)
    requires s != {}
    ensures y in s
  {
    y :| y in s;
  }

  lemma {:induction false} MinExists(s: set<int>)
    requires s != {}
    ensures exists m :: m in s && forall x :: x in s ==> m <= x
    decreases |s|
  {
    var y := AnElement(s);
    var rest := s - {y};
    if rest == {} {
      forall x | x in s ensures y <= x {
        assert x !in rest;
      }
    } else {
      MinExists(rest);
      var m :| m in rest && forall x :: x in rest ==> m <= x;
      var b := if y < m then y else m;
      forall x | x in s ensures b <= x {
        if x != y { assert x in rest; }
      }
      assert b in s;
    }
  }

  lemma {:induction false} MaxExists(s: set<int>)
    requires s != {}
    ensures exists m :: m in s && forall x :: x in s ==> x <= m
    decreases |s|
  {
    var y := AnElement(s);
    var rest := s - {y};
    if rest == {} {
      forall x | x in s ensures x <= y {
        assert x !in rest;
      }
    } else {
      MaxExists(rest);
      var m :| m in rest && forall x :: x in rest ==> x <= m;
      var b := if m < y then y else m;
      forall x | x in s ensures x <= b {
        if x != y { assert x in rest; }
      }
      assert b in s;
    }
  }

  function MinOf(s: set<int>): (m: int)
    requires s != {}
    ensures m in s && forall x :: x in s ==> m <= x
  {
    MinExists(s);
    var m :| m in s && forall x :: x in s ==> m <= x; m
  }

  function MaxOf(s: set<int>): (m: int)
    requires s != {}
    ensures m in s && forall x :: x in s ==> x <= m
  {
    MaxExists(s);
    var m :| m in s && forall x :: x in s ==> x <= m; m
  }

  /** The elements of a finite set of integers in ascending order. */
  function Ascending(s: set<int>): (r: seq<int>)
    ensures forall x :: x in s <==> x in r
    ensures forall i, j :: 0 <= i < j < |r| ==> r[i] < r[j]
    ensures |r| == |s|
    decreases |s|
  {
    if s == {} then [] else
    var m := MinOf(s);
    [m] + Ascending(s - {m})
  }

  // ---------------------------------------------------------------------------
  // Stable sorting by an integer pair, compared lexicographically. JavaScript's
  // Array.prototype.sort is stable, so a stable insertion sort gives exactly the
  // order the source produces for a comparator that compares these keys.
  // ---------------------------------------------------------------------------

  predicate KeyLess(p: (int, int), q: (int, int)) {
    p.0 < q.0 || (p.0 == q.0 && p.1 < q.1)
  }

  ghost predicate SortedBy<T>(s: seq<T>, key: T -> (int, int)) {
    forall i, j :: 0 <= i < j < |s| ==> !KeyLess(key(s[j]), key(s[i]))
  }

  function InsertBy<T>(x: T, s: seq<T>, key: T -> (int, int)): (r: seq<T>)
    ensures multiset(r) == multiset(s) + multiset{x}
  {
    if s == [] then [x]
    else if KeyLess(key(x), key(s[0])) then [x] + s
    else
      assert s == [s[0]] + s[1..];
      [s[0]] + InsertBy(x, s[1..], key)
  }

  lemma {:induction false} InsertBySorted<T>(x: T, s: seq<T>, key: T -> (int, int))
    requires SortedBy(s, key)
    ensures SortedBy(InsertBy(x, s, key), key)
  {
    if s != [] && !KeyLess(key(x), key(s[0])) {
      InsertBySorted(x, s[1..], key);
      var rest := InsertBy(x, s[1..], key);
      forall j | 0 <= j < |rest| ensures !KeyLess(key(rest[j]), key(s[0])) {
        assert rest[j] in multiset(rest);
        if rest[j] != x {
          assert rest[j] in multiset(s[1..]);
          var k :| 0 <= k < |s[1..]| && s[1..][k] == rest[j];
          assert s[k + 1] == rest[j];
        }
      }
      assert InsertBy(x, s, key) == [s[0]] + rest;
    }
  }

  /** Two keys that order x against every element alike insert x at the same place. */
  lemma {:induction false} InsertByAgree<T>(x: T, s: seq<T>, key1: T -> (int, int), key2: T -> (int, int))
    requires forall y :: y in s ==> (KeyLess(key1(x), key1(y)) <==> KeyLess(key2(x), key2(y)))
    ensures InsertBy(x, s, key1) == InsertBy(x, s, key2)
  {
    if s != [] {
      assert s[0] in s;
      assert forall y :: y in s[1..] ==> y in s;
      InsertByAgree(x, s[1..], key1, key2);
    }
  }

  /** Insertion sort: each element goes after every earlier element whose key is not greater. */
  function SortBy<T>(s: seq<T>, key: T -> (int, int)): (r: seq<T>)
    ensures multiset(r) == multiset(s)
    ensures |r| == |s|
    ensures SortedBy(r, key)
  {
    if s == [] then []
    else
      assert s == s[..|s| - 1] + [s[|s| - 1]];
      var r := InsertBy(s[|s| - 1], SortBy(s[..|s| - 1], key), key);
      InsertBySorted(s[|s| - 1], SortBy(s[..|s| - 1], key), key);
      assert |r| == |multiset(r)|;
      r
  }

  /** The elements whose key is `k`. */
  function KeyIs<T>(key: T -> (int, int), k: (int, int)): T -> bool {
    (y: T) => key(y) == k
  }

  /** A filter that no element passes is empty. */
  lemma FilterNone<T>(s: seq<T>, p: T -> bool)
    requires forall i :: 0 <= i < |s| ==> !p(s[i])
    ensures Filter(s, p) == []
  {
  }

  /** The tail of a sorted list is sorted. */
  lemma SortedTail<T>(s: seq<T>, key: T -> (int, int))
    requires SortedBy(s, key) && s != []
    ensures SortedBy(s[1..], key)
  {
    var rest := s[1..];
    forall i, j | 0 <= i < j < |rest| ensures !KeyLess(key(rest[j]), key(rest[i])) {
      assert rest[i] == s[i + 1] && rest[j] == s[j + 1];
    }
  }

  /** An element ranked strictly before a sorted list shares its key with none of it. */
  lemma NoTieBefore<T>(x: T, s: seq<T>, key: T -> (int, int))
    requires SortedBy(s, key) && s != [] && KeyLess(key(x), key(s[0]))
    ensures Filter(s, KeyIs(key, key(x))) == []
  {
    forall i | 0 <= i < |s| ensures !KeyIs(key, key(x))(s[i]) {
      if i > 0 {
        assert !KeyLess(key(s[i]), key(s[0]));
      }
    }
    FilterNone(s, KeyIs(key, key(x)));
  }

  /** x inserted in front of a sorted list: no element of x's key precedes it. */
  lemma InsertFrontTies<T>(x: T, s: seq<T>, key: T -> (int, int), k: (int, int))
    requires SortedBy(s, key) && s != [] && KeyLess(key(x), key(s[0]))
    ensures Filter(InsertBy(x, s, key), KeyIs(key, k)) == Filter(s, KeyIs(key, k)) + Filter([x], KeyIs(key, k))
  {
    var p := KeyIs(key, k);
    FilterSingle(x, p);
    assert InsertBy(x, s, key) == [x] + s;
    FilterAppend([x], s, p);
    if key(x) == k {
      NoTieBefore(x, s, key);
    }
  }

  /** A common head keeps an equation between two filters. */
  lemma PastHead<T>(h: T, a: seq<T>, b: seq<T>, f: seq<T>, p: T -> bool)
    requires Filter(a, p) == Filter(b, p) + f
    ensures Filter([h] + a, p) == Filter([h] + b, p) + f
  {
    FilterAppend([h], a, p);
    FilterAppend([h], b, p);
    AppendAssoc(Filter([h], p), Filter(b, p), f);
  }

  lemma AppendAssoc<T>(a: seq<T>, b: seq<T>, c: seq<T>)
    ensures a + (b + c) == (a + b) + c
  {
  }

  /** Inserting x into a sorted list puts it after every element of equal key. */
  lemma {:induction false} InsertByKeepsTies<T>(x: T, s: seq<T>, key: T -> (int, int), k: (int, int))
    requires SortedBy(s, key)
    ensures Filter(InsertBy(x, s, key), KeyIs(key, k)) == Filter(s, KeyIs(key, k)) + Filter([x], KeyIs(key, k))
  {
    if s == [] {
      assert InsertBy(x, s, key) == [x];
    } else if KeyLess(key(x), key(s[0])) {
      InsertFrontTies(x, s, key, k);
    } else {
      SortedTail(s, key);
      InsertByKeepsTies(x, s[1..], key, k);
      assert InsertBy(x, s, key) == [s[0]] + InsertBy(x, s[1..], key);
      PastHead(s[0], InsertBy(x, s[1..], key), s[1..], Filter([x], KeyIs(key, k)), KeyIs(key, k));
      assert [s[0]] + s[1..] == s;
    }
  }

  lemma FilterSingle<T>(x: T, p: T -> bool)
    ensures Filter([x], p) == if p(x) then [x] else []
  {
    assert [x][1..] == [];
  }

  /** The sort of a non-empty list inserts its last element into the sort of the rest. */
  lemma SortByLast<T>(s: seq<T>, key: T -> (int, int))
    requires s != []
    ensures SortBy(s, key) == InsertBy(s[|s| - 1], SortBy(s[..|s| - 1], key), key)
  {
  }

  /** The sort is stable: the elements of any one key keep their input order. */
  lemma {:induction false} SortByStable<T>(s: seq<T>, key: T -> (int, int), k: (int, int))
    ensures Filter(SortBy(s, key), KeyIs(key, k)) == Filter(s, KeyIs(key, k))
  {
    if s != [] {
      var n := |s| - 1;
      var p := KeyIs(key, k);
      var t := SortBy(s[..n], key);
      calc {
        Filter(SortBy(s, key), p);
        { SortByLast(s, key); }
        Filter(InsertBy(s[n], t, key), p);
        { InsertByKeepsTies(s[n], t, key, k); }
        Filter(t, p) + Filter([s[n]], p);
        { SortByStable(s[..n], key, k); }
        Filter(s[..n], p) + Filter([s[n]], p);
        { FilterAppend(s[..n], [s[n]], p); }
        Filter(s[..n] + [s[n]], p);
        { assert s[..n] + [s[n]] == s; }
        Filter(s, p);
      }
    }
  }

  lemma SortByMembers<T>(s: seq<T>, key: T -> (int, int))
    ensures forall x :: x in SortBy(s, key) <==> x in s
  {
    var r := SortBy(s, key);
    assert forall x :: x in r <==> x in multiset(r);
    assert forall x :: x in s <==> x in multiset(s);
  }

  /** In a sorted list, whatever lies beyond a prefix ranks no higher than
      anything in the prefix. */
  lemma SortedPrefixFirst<T>(s: seq<T>, n: int, key: T -> (int, int), c: T, x: T)
    requires SortedBy(s, key) && 0 <= n <= |s|
    requires c in s && c !in s[..n] && x in s[..n]
    ensures !KeyLess(key(c), key(x))
  {
    var j :| 0 <= j < |s| && s[j] == c;
    var i :| 0 <= i < n && s[..n][i] == x;
    assert forall k :: 0 <= k < n ==> s[k] == s[..n][k] != c;
    assert s[i] == x;
  }

  predicate Distinct<T(==)>(s: seq<T>) {
    forall i, j :: 0 <= i < j < |s| ==> s[i] != s[j]
  }

  function Elems<T>(s: seq<T>): set<T> {
    set x | x in s
  }

  /** The integers `lo` to `hi - 1`. */
  function IntRange(lo: int, hi: int): (r: set<int>)
    ensures forall x :: x in r <==> lo <= x < hi
    ensures lo <= hi ==> |r| == hi - lo
    decreases hi - lo
  {
    if lo >= hi then {} else IntRange(lo, hi - 1) + {hi - 1}
  }

  lemma SubsetCard<T>(a: set<T>, b: set<T>)
    requires a <= b
    ensures |a| <= |b|
  {
    assert b == a + (b - a);
  }

  lemma {:induction false} DistinctCard<T>(s: seq<T>)
    requires Distinct(s)
    ensures |Elems(s)| == |s|
  {
    if s != [] {
      DistinctCard(s[1..]);
      assert Elems(s) == Elems(s[1..]) + {s[0]};
    }
  }

  lemma {:induction false} InsertByDistinct<T>(x: T, s: seq<T>, key: T -> (int, int))
    requires Distinct(s) && x !in s
    ensures Distinct(InsertBy(x, s, key))
  {
    if s != [] && !KeyLess(key(x), key(s[0])) {
      InsertByDistinct(x, s[1..], key);
      var rest := InsertBy(x, s[1..], key);
      forall j | 0 <= j < |rest| ensures rest[j] != s[0] {
        assert rest[j] in multiset(rest);
        if rest[j] != x {
          assert rest[j] in multiset(s[1..]);
          var k :| 0 <= k < |s[1..]| && s[1..][k] == rest[j];
          assert s[k + 1] == rest[j];
        }
      }
      assert InsertBy(x, s, key) == [s[0]] + rest;
    }
  }

  /** Sorting a sequence without duplicates gives one without duplicates. */
  lemma {:induction false} SortByDistinct<T>(s: seq<T>, key: T -> (int, int))
    requires Distinct(s)
    ensures Distinct(SortBy(s, key))
  {
    if s != [] {
      var n := |s| - 1;
      assert s == s[..n] + [s[n]];
      SortByDistinct(s[..n], key);
      var t := SortBy(s[..n], key);
      assert s[n] !in multiset(s[..n]);
      InsertByDistinct(s[n], t, key);
    }
  }

  // ---------------------------------------------------------------------------
  // Sums (`reduce((sum, x) => sum + f(x), 0)`), over sequences and over finite sets.
  // ---------------------------------------------------------------------------

  function SumOf<T>(s: seq<T>, f: T -> int): int {
    if s == [] then 0 else f(s[0]) + SumOf(s[1..], f)
  }

  lemma {:induction false} SumOfInsertBy<T>(x: T, s: seq<T>, key: T -> (int, int), f: T -> int)
    ensures SumOf(InsertBy(x, s, key), f) == f(x) + SumOf(s, f)
  {
    if s != [] && !KeyLess(key(x), key(s[0])) {
      SumOfInsertBy(x, s[1..], key, f);
      assert InsertBy(x, s, key)[1..] == InsertBy(x, s[1..], key);
    }
  }

  lemma {:induction false} SumOfAppend<T>(s: seq<T>, t: seq<T>, f: T -> int)
    ensures SumOf(s + t, f) == SumOf(s, f) + SumOf(t, f)
  {
    if s != [] {
      assert (s + t)[1..] == s[1..] + t;
      SumOfAppend(s[1..], t, f);
    } else {
      assert s + t == t;
    }
  }

  /** A sum of values between `lo` and `hi` lies between `lo` and `hi` times the count. */
  lemma {:induction false} SumOfBetween<T>(s: seq<T>, f: T -> int, lo: int, hi: int)
    requires forall i :: 0 <= i < |s| ==> lo <= f(s[i]) <= hi
    ensures lo * |s| <= SumOf(s, f) <= hi * |s|
  {
    if s != [] {
      assert forall i :: 1 <= i < |s| ==> s[1..][i - 1] == s[i];
      SumOfBetween(s[1..], f, lo, hi);
      assert lo * |s| == lo + lo * (|s| - 1) && hi * |s| == hi + hi * (|s| - 1);
    }
  }

  /** Sorting does not change a sum. */
  lemma {:induction false} SumOfSortBy<T>(s: seq<T>, key: T -> (int, int), f: T -> int)
    ensures SumOf(SortBy(s, key), f) == SumOf(s, f)
  {
    if s != [] {
      var n := |s| - 1;
      assert s == s[..n] + [s[n]];
      SumOfSortBy(s[..n], key, f);
      SumOfInsertBy(s[n], SortBy(s[..n], key), key, f);
      SumOfAppend(s[..n], [s[n]], f);
    }
  }

  ghost function SumSet<T>(s: set<T>, f: T -> int): int
    decreases |s|
  {
    if s == {} then 0 else var x :| x in s; f(x) + SumSet(s - {x}, f)
  }

  /** A set sum can be taken apart at any element. */
  lemma {:induction false} SumSetRemove<T>(s: set<T>, f: T -> int, y: T)
    requires y in s
    ensures SumSet(s, f) == f(y) + SumSet(s - {y}, f)
    decreases |s|
  {
    var x :| x in s && SumSet(s, f) == f(x) + SumSet(s - {x}, f);
    if x != y {
      SumSetRemove(s - {x}, f, y);
      SumSetRemove(s - {y}, f, x);
      assert s - {x} - {y} == s - {y} - {x};
    }
  }

  lemma {:induction false} SumSetSame<T>(s: set<T>, f: T -> int, g: T -> int)
    requires forall y :: y in s ==> f(y) == g(y)
    ensures SumSet(s, f) == SumSet(s, g)
    decreases |s|
  {
    if s != {} {
      var x :| x in s;
      SumSetRemove(s, f, x);
      SumSetRemove(s, g, x);
      SumSetSame(s - {x}, f, g);
    }
  }

  /** Changing one element's value changes the sum by the difference. */
  lemma SumSetBump<T>(s: set<T>, f: T -> int, g: T -> int, x: T)
    requires x in s
    requires forall y :: y in s && y != x ==> f(y) == g(y)
    ensures SumSet(s, g) == SumSet(s, f) + g(x) - f(x)
  {
    SumSetRemove(s, f, x);
    SumSetRemove(s, g, x);
    SumSetSame(s - {x}, f, g);
  }

  /** Adding a new element adds its value. */
  lemma SumSetAdd<T>(s: set<T>, f: T -> int, g: T -> int, x: T)
    requires x !in s
    requires forall y :: y in s ==> f(y) == g(y)
    ensures SumSet(s + {x}, g) == SumSet(s, f) + g(x)
  {
    SumSetRemove(s + {x}, g, x);
    assert s + {x} - {x} == s;
    SumSetSame(s, f, g);
  }

  /** Over a sequence without duplicates, the sequence sum is the set sum. */
  lemma {:induction false} SumOfDistinct<T>(s: seq<T>, f: T -> int)
    requires Distinct(s)
    ensures SumOf(s, f) == SumSet((set x | x in s), f)
  {
    if s == [] {
      assert (set x | x in s) == {};
    } else {
      var rest := set x | x in s[1..];
      SumOfDistinct(s[1..], f);
      assert s[0] !in rest;
      assert (set x | x in s) == rest + {s[0]};
      SumSetAdd(rest, f, f, s[0]);
    }
  }

  // ---------------------------------------------------------------------------
  // Filtering (`Array.prototype.filter`).
  // ---------------------------------------------------------------------------

  function Filter<T>(s: seq<T>, p: T -> bool): (r: seq<T>)
    ensures |r| <= |s|
    ensures forall i :: 0 <= i < |r| ==> r[i] in s && p(r[i])
    ensures forall i :: 0 <= i < |s| && p(s[i]) ==> s[i] in r
  {
    if s == [] then [] else (if p(s[0]) then [s[0]] else []) + Filter(s[1..], p)
  }

  lemma {:induction false} FilterAppend<T>(s: seq<T>, t: seq<T>, p: T -> bool)
    ensures Filter(s + t, p) == Filter(s, p) + Filter(t, p)
  {
    if s != [] {
      assert (s + t)[0] == s[0];
      assert (s + t)[1..] == s[1..] + t;
      FilterAppend(s[1..], t, p);
      var h := if p(s[0]) then [s[0]] else [];
      AppendAssoc(h, Filter(s[1..], p), Filter(t, p));
      calc {
        Filter(s + t, p);
        h + Filter(s[1..] + t, p);
        h + (Filter(s[1..], p) + Filter(t, p));
      }
    } else {
      assert s + t == t;
    }
  }

  lemma FilterMembers<T>(s: seq<T>, p: T -> bool)
    ensures forall x :: x in Filter(s, p) <==> x in s && p(x)
  {
    forall x | x in s && p(x) ensures x in Filter(s, p) {
      var i :| 0 <= i < |s| && s[i] == x;
    }
  }

  /** Filtering a list grown by one element. */
  lemma FilterSnoc<T>(s: seq<T>, x: T, p: T -> bool)
    ensures Filter(s + [x], p) == Filter(s, p) + (if p(x) then [x] else [])
  {
    FilterAppend(s, [x], p);
    assert [x][1..] == [];
  }

  /** A weaker condition keeps at least as many elements. */
  lemma {:induction false} FilterCountMono<T>(s: seq<T>, p: T -> bool, q: T -> bool)
    requires forall i :: 0 <= i < |s| && p(s[i]) ==> q(s[i])
    ensures |Filter(s, p)| <= |Filter(s, q)|
  {
    if s != [] {
      assert forall i :: 1 <= i < |s| ==> s[1..][i - 1] == s[i];
      FilterCountMono(s[1..], p, q);
    }
  }

  lemma {:induction false} FilterKeepsAll<T>(s: seq<T>, p: T -> bool)
    requires forall i :: 0 <= i < |s| ==> p(s[i])
    ensures Filter(s, p) == s
  {
    if s != [] { FilterKeepsAll(s[1..], p); assert s == [s[0]] + s[1..]; }
  }

  /** Two conditions that agree on every element select the same sub-list. */
  lemma {:induction false} FilterSame<T>(s: seq<T>, p: T -> bool, q: T -> bool)
    requires forall i :: 0 <= i < |s| ==> p(s[i]) == q(s[i])
    ensures Filter(s, p) == Filter(s, q)
  {
    if s != [] {
      assert forall i :: 1 <= i < |s| ==> s[1..][i - 1] == s[i];
      FilterSame(s[1..], p, q);
    }
  }

  lemma {:induction false} FilterDropsAll<T>(s: seq<T>, p: T -> bool)
    requires forall i :: 0 <= i < |s| ==> !p(s[i])
    ensures Filter(s, p) == []
  {
    if s != [] { FilterDropsAll(s[1..], p); }
  }

  // ---------------------------------------------------------------------------
  // Decimal text, as `String(n)` and `padStart` produce it.
  // ---------------------------------------------------------------------------

  function DigitChar(d: nat): char
    requires d < 10
  {
    "0123456789"[d]
  }

  function NatToString(n: nat): (r: string)
    ensures |r| >= 1
    ensures forall i :: 0 <= i < |r| ==> '0' <= r[i] <= '9'
  {
    if n < 10 then [DigitChar(n)] else NatToString(n / 10) + [DigitChar(n % 10)]
  }

  function IntToString(i: int): string {
    if i < 0 then "-" + NatToString(-i) else NatToString(i)
  }

  /** The number a string of decimal digits spells, leading zeros allowed. */
  function DigitsValue(s: string): int {
    if s == [] then 0 else 10 * DigitsValue(s[..|s| - 1]) + (s[|s| - 1] as int - '0' as int)
  }

  lemma DigitCharValue(d: nat)
    requires d < 10
    ensures DigitChar(d) as int - '0' as int == d
  {
    var digits := "0123456789";
    assert digits[d] as int - '0' as int == d by {
      assert forall k :: 0 <= k < 10 ==> digits[k] as int == '0' as int + k;
    }
  }

  /** Reading a number's decimal text gives the number back. */
  lemma {:induction false} NatToStringValue(n: nat)
    ensures DigitsValue(NatToString(n)) == n
    decreases n
  {
    DigitCharValue(n % 10);
    if n >= 10 {
      NatToStringValue(n / 10);
      var s := NatToString(n);
      assert s[..|s| - 1] == NatToString(n / 10);
    } else {
      assert NatToString(n)[..0] == [];
    }
  }

  /** `s.padStart(width, fill)`. */
  function PadStart(s: string, width: nat, fill: char): (r: string)
    ensures |r| == Max(width, |s|)
    ensures r[|r| - |s|..] == s
    ensures forall i :: 0 <= i < |r| - |s| ==> r[i] == fill
  {
    if |s| >= width then s else seq(width - |s|, _ => fill) + s
  }
}
