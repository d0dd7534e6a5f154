/** The error log: an append-only list of recitation errors, and what the app derives
    from it — one summary per ayah, the weak ayahs and words, and the colour of each
    erroneous word and ayah on the mushaf page.

    Ayahs are keyed by the pair (surah, ayah) rather than the text "surah:ayah", which
    is the same key for integer numbers. Timestamps are ISO strings compared in string
    order, as the source compares them with `<` and `sort()`. */
module ErrorTracker {
  import opened Common
  import FuzzyCompare

  datatype ErrorEntry = ErrorEntry(
    id: string, sessionId: string, timestamp: string,
    surahNumber: int, ayahNumber: int, wordIndex: nat,
    expected: string, actual: string, kind: FuzzyCompare.ErrorKind)

  type AyahKey = (int, int)

  function KeyOf(e: ErrorEntry): AyahKey {
    (e.surahNumber, e.ayahNumber)
  }

  datatype AyahErrorSummary = AyahErrorSummary(
    surahNumber: int, ayahNumber: int, totalErrors: nat, lastErrorDate: string,
    errorWords: map<int, nat>)

  // ---------------------------------------------------------------------------
  // Reference definitions: what the log says about one ayah, or one word of it.
  // Each is defined by the log's last entry, so that appending an entry is one step.
  // ---------------------------------------------------------------------------

  /** The timestamps of the entries for ayah k, in log order. */
  function TimestampsOf(log: seq<ErrorEntry>, k: AyahKey): seq<string> {
    if log == [] then []
    else
      var e := log[|log| - 1];
      TimestampsOf(log[..|log| - 1], k) + (if KeyOf(e) == k then [e.timestamp] else [])
  }

  /** The timestamps of the entries for word w of ayah k, in log order. */
  function WordTimestamps(log: seq<ErrorEntry>, k: AyahKey, w: int): seq<string> {
    if log == [] then []
    else
      var e := log[|log| - 1];
      WordTimestamps(log[..|log| - 1], k, w) + (if KeyOf(e) == k && e.wordIndex == w then [e.timestamp] else [])
  }

  /** The number of errors recorded for ayah k. */
  function Count(log: seq<ErrorEntry>, k: AyahKey): nat {
    |TimestampsOf(log, k)|
  }

  /** The ayahs with at least one error. */
  function KeySet(log: seq<ErrorEntry>): set<AyahKey> {
    if log == [] then {} else KeySet(log[..|log| - 1]) + {KeyOf(log[|log| - 1])}
  }

  /** The ayahs with errors, in the order of their first error (a Map's insertion order). */
  function FirstSeen(log: seq<ErrorEntry>): seq<AyahKey> {
    if log == [] then []
    else
      var ks := FirstSeen(log[..|log| - 1]);
      var k := KeyOf(log[|log| - 1]);
      if k in ks then ks else ks + [k]
  }

  /** The word indices of ayah k with at least one error. */
  function WordsOf(log: seq<ErrorEntry>, k: AyahKey): set<int> {
    if log == [] then {}
    else
      var e := log[|log| - 1];
      WordsOf(log[..|log| - 1], k) + (if KeyOf(e) == k then {e.wordIndex as int} else {})
  }

  /** `errorWords`: word index to number of errors. */
  function WordCounts(log: seq<ErrorEntry>, k: AyahKey): map<int, nat> {
    map w | w in WordsOf(log, k) :: |WordTimestamps(log, k, w)|
  }

  /** The latest timestamp: the last element once `sort()` has put them in string order. */
  function Latest(ts: seq<string>): string
    requires |ts| > 0
  {
    if |ts| == 1 then ts[0] else MaxStr(Latest(ts[..|ts| - 1]), ts[|ts| - 1])
  }

  lemma {:induction false} LatestIsMax(ts: seq<string>)
    requires |ts| > 0
    ensures Latest(ts) in ts
    ensures forall u :: u in ts ==> !LexLess(Latest(ts), u)
  {
    if |ts| == 1 {
      LexIrreflexive(ts[0]);
    } else {
      var n := |ts| - 1;
      LatestIsMax(ts[..n]);
      var m := Latest(ts[..n]);
      assert ts[..|ts| - 1] == ts[..n];
      assert Latest(ts) == MaxStr(m, ts[n]);
      assert ts == ts[..n] + [ts[n]];
      forall u | u in ts ensures !LexLess(Latest(ts), u) {
        if u in ts[..n] { LexNotLessTransitive(Latest(ts), m, u); } else { assert u == ts[n]; }
      }
    }
  }

  function CountOf(m: map<int, nat>, w: int): nat {
    if w in m then m[w] else 0
  }

  // ---------------------------------------------------------------------------
  // Appending one entry
  // ---------------------------------------------------------------------------

  lemma LogStep(log: seq<ErrorEntry>, e: ErrorEntry, k: AyahKey)
    ensures TimestampsOf(log + [e], k) == TimestampsOf(log, k) + (if KeyOf(e) == k then [e.timestamp] else [])
    ensures forall w :: (WordTimestamps(log + [e], k, w)
      == WordTimestamps(log, k, w) + (if KeyOf(e) == k && e.wordIndex == w then [e.timestamp] else []))
    ensures WordsOf(log + [e], k) == WordsOf(log, k) + (if KeyOf(e) == k then {e.wordIndex as int} else {})
    ensures KeySet(log + [e]) == KeySet(log) + {KeyOf(e)}
    ensures FirstSeen(log + [e]) == if KeyOf(e) in FirstSeen(log) then FirstSeen(log) else FirstSeen(log) + [KeyOf(e)]
  {
    assert (log + [e])[..|log|] == log;
  }

  /** An ayah is listed exactly when it has errors, and listed once. */
  lemma {:induction false} FirstSeenFacts(log: seq<ErrorEntry>)
    ensures forall k :: k in FirstSeen(log) <==> k in KeySet(log)
    ensures forall k :: k in KeySet(log) <==> Count(log, k) > 0
    ensures Distinct(FirstSeen(log))
  {
    if log != [] {
      var n := |log| - 1;
      var e := log[n];
      assert log == log[..n] + [e];
      FirstSeenFacts(log[..n]);
      forall k ensures Count(log, k) == Count(log[..n], k) + (if KeyOf(e) == k then 1 else 0) {
        LogStep(log[..n], e, k);
      }
      LogStep(log[..n], e, KeyOf(e));
    }
  }

  /** A word has errors exactly when it is listed, and its errors are errors of its ayah. */
  lemma {:induction false} WordFacts(log: seq<ErrorEntry>, k: AyahKey)
    ensures forall w :: w in WordsOf(log, k) <==> |WordTimestamps(log, k, w)| > 0
    ensures forall w, t :: t in WordTimestamps(log, k, w) ==> t in TimestampsOf(log, k)
    ensures forall t :: t in TimestampsOf(log, k) ==> exists w :: w in WordsOf(log, k) && t in WordTimestamps(log, k, w)
    ensures Count(log, k) == 0 <==> WordsOf(log, k) == {}
  {
    if log != [] {
      var n := |log| - 1;
      var e := log[n];
      assert log == log[..n] + [e];
      WordFacts(log[..n], k);
      LogStep(log[..n], e, k);
      if KeyOf(e) == k {
        assert e.timestamp in WordTimestamps(log, k, e.wordIndex);
      }
    }
  }

  // ---------------------------------------------------------------------------
  // Summaries (getAyahErrorSummaries)
  // ---------------------------------------------------------------------------

  /** What getAyahErrorSummaries reports for ayah k. */
  function Summary(log: seq<ErrorEntry>, k: AyahKey): AyahErrorSummary
    requires Count(log, k) > 0
  {
    AyahErrorSummary(k.0, k.1, Count(log, k), Latest(TimestampsOf(log, k)), WordCounts(log, k))
  }

  function SummaryList(log: seq<ErrorEntry>, ks: seq<AyahKey>): (r: seq<AyahErrorSummary>)
    requires forall k :: k in ks ==> Count(log, k) > 0
    ensures |r| == |ks| && forall j :: 0 <= j < |ks| ==> r[j] == Summary(log, ks[j])
  {
    if ks == [] then [] else [Summary(log, ks[0])] + SummaryList(log, ks[1..])
  }

  /** `(a, b) => b.totalErrors - a.totalErrors` as a sort key. */
  function ByCountDesc(s: AyahErrorSummary): (int, int) {
    (-(s.totalErrors as int), 0)
  }

  /** getAyahErrorSummaries: the summaries in first-error order, stably sorted by count, largest first. */
  function Summaries(log: seq<ErrorEntry>): seq<AyahErrorSummary> {
    FirstSeenFacts(log);
    SortBy(SummaryList(log, FirstSeen(log)), ByCountDesc)
  }

  function TotalOf(s: AyahErrorSummary): int {
    s.totalErrors
  }

  function CountIn(log: seq<ErrorEntry>): AyahKey -> int {
    k => Count(log, k)
  }

  function WordCountIn(log: seq<ErrorEntry>, k: AyahKey): int -> int {
    w => |WordTimestamps(log, k, w)|
  }

  /** The count a word-count map records for each word (0 when absent). */
  function CountsIn(m: map<int, nat>): int -> int {
    w => CountOf(m, w)
  }

  /** Every entry is counted for exactly one ayah. */
  lemma {:induction false} CountsSumToLog(log: seq<ErrorEntry>)
    ensures SumSet(KeySet(log), CountIn(log)) == |log|
  {
    if log != [] {
      var n := |log| - 1;
      var e := log[n];
      var k := KeyOf(e);
      assert log == log[..n] + [e];
      CountsSumToLog(log[..n]);
      FirstSeenFacts(log[..n]);
      forall j ensures CountIn(log)(j) == CountIn(log[..n])(j) + (if j == k then 1 else 0) {
        LogStep(log[..n], e, j);
      }
      LogStep(log[..n], e, k);
      if k in KeySet(log[..n]) {
        assert KeySet(log) == KeySet(log[..n]);
        SumSetBump(KeySet(log[..n]), CountIn(log[..n]), CountIn(log), k);
      } else {
        SumSetAdd(KeySet(log[..n]), CountIn(log[..n]), CountIn(log), k);
      }
    }
  }

  /** Every error of an ayah is counted for exactly one of its words. */
  lemma {:induction false} WordCountsSumToCount(log: seq<ErrorEntry>, k: AyahKey)
    ensures SumSet(WordsOf(log, k), WordCountIn(log, k)) == Count(log, k)
  {
    if log != [] {
      var n := |log| - 1;
      var e := log[n];
      var w := e.wordIndex as int;
      assert log == log[..n] + [e];
      WordCountsSumToCount(log[..n], k);
      WordFacts(log[..n], k);
      LogStep(log[..n], e, k);
      if KeyOf(e) == k {
        forall v ensures WordCountIn(log, k)(v) == WordCountIn(log[..n], k)(v) + (if v == w then 1 else 0) {
        }
        assert WordsOf(log, k) == WordsOf(log[..n], k) + {w};
        if w in WordsOf(log[..n], k) {
          assert WordsOf(log, k) == WordsOf(log[..n], k);
          SumSetBump(WordsOf(log[..n], k), WordCountIn(log[..n], k), WordCountIn(log, k), w);
        } else {
          SumSetAdd(WordsOf(log[..n], k), WordCountIn(log[..n], k), WordCountIn(log, k), w);
        }
      } else {
        forall v ensures WordCountIn(log, k)(v) == WordCountIn(log[..n], k)(v) {
        }
        assert WordsOf(log, k) == WordsOf(log[..n], k);
        SumSetSame(WordsOf(log, k), WordCountIn(log[..n], k), WordCountIn(log, k));
      }
    }
  }

  lemma {:induction false} SummaryListSum(log: seq<ErrorEntry>, ks: seq<AyahKey>)
    requires forall k :: k in ks ==> Count(log, k) > 0
    ensures SumOf(SummaryList(log, ks), TotalOf) == SumOf(ks, CountIn(log))
  {
    if ks != [] {
      SummaryListSum(log, ks[1..]);
      assert SummaryList(log, ks)[1..] == SummaryList(log, ks[1..]);
    }
  }

  lemma SummaryListDistinct(log: seq<ErrorEntry>, ks: seq<AyahKey>)
    requires forall k :: k in ks ==> Count(log, k) > 0
    requires Distinct(ks)
    ensures Distinct(SummaryList(log, ks))
  {
    var r := SummaryList(log, ks);
    forall i, j | 0 <= i < j < |r| ensures r[i] != r[j] {
      assert r[i].surahNumber == ks[i].0 && r[i].ayahNumber == ks[i].1;
      assert r[j].surahNumber == ks[j].0 && r[j].ayahNumber == ks[j].1;
    }
  }

  /** There is one summary per ayah with errors. */
  lemma SummariesCount(log: seq<ErrorEntry>)
    ensures |Summaries(log)| == |KeySet(log)|
  {
    FirstSeenFacts(log);
    var ks := FirstSeen(log);
    assert |Summaries(log)| == |SummaryList(log, ks)| == |ks|;
    assert Elems(ks) == KeySet(log);
    DistinctCard(ks);
  }

  /** Every summary is the summary of an ayah with errors ... */
  lemma SummariesAreSummaries(log: seq<ErrorEntry>)
    ensures forall s :: s in Summaries(log) ==>
      && Count(log, (s.surahNumber, s.ayahNumber)) > 0
      && s == Summary(log, (s.surahNumber, s.ayahNumber))
  {
    FirstSeenFacts(log);
    var ks := FirstSeen(log);
    var list := SummaryList(log, ks);
    var r := Summaries(log);
    assert r == SortBy(list, ByCountDesc);
    forall s | s in r
      ensures Count(log, (s.surahNumber, s.ayahNumber)) > 0 && s == Summary(log, (s.surahNumber, s.ayahNumber))
    {
      assert s in multiset(list);
      var j :| 0 <= j < |list| && list[j] == s;
    }
  }

  /** ... and every ayah with errors has its summary. */
  lemma SummariesCoverAyahs(log: seq<ErrorEntry>)
    ensures forall k :: Count(log, k) > 0 ==> Summary(log, k) in Summaries(log)
  {
    FirstSeenFacts(log);
    var ks := FirstSeen(log);
    var list := SummaryList(log, ks);
    var r := Summaries(log);
    assert r == SortBy(list, ByCountDesc);
    forall k | Count(log, k) > 0 ensures Summary(log, k) in r {
      var j :| 0 <= j < |ks| && ks[j] == k;
      assert list[j] in multiset(r);
    }
  }

  /** No ayah has two summaries. */
  lemma SummariesDistinct(log: seq<ErrorEntry>)
    ensures forall i, j :: 0 <= i < j < |Summaries(log)| ==>
      (Summaries(log)[i].surahNumber, Summaries(log)[i].ayahNumber)
      != (Summaries(log)[j].surahNumber, Summaries(log)[j].ayahNumber)
  {
    FirstSeenFacts(log);
    var ks := FirstSeen(log);
    var list := SummaryList(log, ks);
    var r := Summaries(log);
    assert r == SortBy(list, ByCountDesc);
    SummaryListDistinct(log, ks);
    SortByDistinct(list, ByCountDesc);
    SummariesAreSummaries(log);
    forall i, j | 0 <= i < j < |r|
      ensures (r[i].surahNumber, r[i].ayahNumber) != (r[j].surahNumber, r[j].ayahNumber)
    {
      assert r[i] in r && r[j] in r;
      assert r[i] != r[j];
    }
  }

  /** The summaries come largest count first. */
  lemma SummariesSorted(log: seq<ErrorEntry>)
    ensures forall i, j :: 0 <= i < j < |Summaries(log)| ==>
      Summaries(log)[i].totalErrors >= Summaries(log)[j].totalErrors
  {
    var r := Summaries(log);
    forall i, j | 0 <= i < j < |r| ensures r[i].totalErrors >= r[j].totalErrors {
      assert !KeyLess(ByCountDesc(r[j]), ByCountDesc(r[i]));
    }
  }

  /** The counts of all summaries add up to the length of the log. */
  lemma SummariesTotal(log: seq<ErrorEntry>)
    ensures SumOf(Summaries(log), TotalOf) == |log|
  {
    FirstSeenFacts(log);
    var ks := FirstSeen(log);
    var list := SummaryList(log, ks);
    assert Summaries(log) == SortBy(list, ByCountDesc);
    assert (set k | k in ks) == KeySet(log);
    SumOfSortBy(list, ByCountDesc, TotalOf);
    SummaryListSum(log, ks);
    SumOfDistinct(ks, CountIn(log));
    CountsSumToLog(log);
  }

  /** A summary's date is its ayah's latest error ... */
  lemma SummaryDate(log: seq<ErrorEntry>, k: AyahKey)
    requires Count(log, k) > 0
    ensures Summary(log, k).lastErrorDate in TimestampsOf(log, k)
    ensures forall t :: t in TimestampsOf(log, k) ==> !LexLess(Summary(log, k).lastErrorDate, t)
  {
    LatestIsMax(TimestampsOf(log, k));
  }

  /** ... its words are the words with errors ... */
  lemma SummaryWords(log: seq<ErrorEntry>, k: AyahKey)
    requires Count(log, k) > 0
    ensures forall w :: w in Summary(log, k).errorWords <==> |WordTimestamps(log, k, w)| > 0
  {
    WordFacts(log, k);
  }

  /** ... and its word counts add up to its total. */
  lemma SummaryWordsSum(log: seq<ErrorEntry>, k: AyahKey)
    requires Count(log, k) > 0
    ensures SumSet(Summary(log, k).errorWords.Keys, CountsIn(Summary(log, k).errorWords))
      == Summary(log, k).totalErrors
  {
    WordCountsSumToCount(log, k);
    var m := WordCounts(log, k);
    assert Summary(log, k).errorWords == m;
    assert Summary(log, k).totalErrors == Count(log, k);
    assert m.Keys == WordsOf(log, k);
    forall w | w in m.Keys ensures WordCountIn(log, k)(w) == CountsIn(m)(w) {
      assert CountOf(m, w) == m[w];
    }
    SumSetSame(m.Keys, WordCountIn(log, k), CountsIn(m));
  }

  // ---------------------------------------------------------------------------
  // Weak ayahs and weak words
  // ---------------------------------------------------------------------------

  const DefaultMinErrors := 3

  /** getWeakAyahs(minErrors = 3): the summaries with at least minErrors errors,
      in summary order; an omitted argument is `None`. */
  function WeakAyahs(log: seq<ErrorEntry>, minErrors: Option<int>): (r: seq<AyahErrorSummary>)
    ensures forall s :: s in r <==> s in Summaries(log) && s.totalErrors >= minErrors.GetOr(DefaultMinErrors)
    ensures minErrors.None? ==> forall s :: s in r <==> s in Summaries(log) && s.totalErrors >= 3
  {
    var least := minErrors.GetOr(DefaultMinErrors);
    Filter(Summaries(log), (s: AyahErrorSummary) => s.totalErrors >= least)
  }

  /** `summaries.find(...)` by surah and ayah. */
  function FindSummary(ss: seq<AyahErrorSummary>, s: int, a: int): (r: Option<AyahErrorSummary>)
    ensures r.Some? ==> r.value in ss && r.value.surahNumber == s && r.value.ayahNumber == a
    ensures r.None? ==> forall x :: x in ss ==> !(x.surahNumber == s && x.ayahNumber == a)
  {
    if ss == [] then None
    else if ss[0].surahNumber == s && ss[0].ayahNumber == a then Some(ss[0])
    else FindSummary(ss[1..], s, a)
  }

  /** The comparator `(a, b) => b.count - a.count` as a sort key ... */
  function ByWordCount(m: map<int, nat>): int -> (int, int) {
    w => (-(CountOf(m, w) as int), 0)
  }

  /** ... and the same with ties broken by ascending index. */
  function ByWordCountThenIndex(m: map<int, nat>): int -> (int, int) {
    w => (-(CountOf(m, w) as int), w)
  }

  /** getWeakWordIndices: Object.entries lists integer keys in ascending order, and the
      stable sort by count keeps that order among equal counts. */
  function WeakWordIndices(log: seq<ErrorEntry>, s: int, a: int): seq<int> {
    match FindSummary(Summaries(log), s, a)
    case None => []
    case Some(summary) => WeakWords(summary.errorWords)
  }

  /** A summary's word indices, most errors first. */
  function WeakWords(m: map<int, nat>): seq<int> {
    SortBy(Ascending(m.Keys), ByWordCount(m))
  }

  lemma InsertByTieBreak(x: int, t: seq<int>, m: map<int, nat>)
    requires forall y :: y in t ==> y < x
    ensures InsertBy(x, t, ByWordCount(m)) == InsertBy(x, t, ByWordCountThenIndex(m))
  {
    var key1, key2 := ByWordCount(m), ByWordCountThenIndex(m);
    forall y | y in t ensures KeyLess(key1(x), key1(y)) <==> KeyLess(key2(x), key2(y)) {
      assert key1(x) == (-(CountOf(m, x) as int), 0) && key1(y) == (-(CountOf(m, y) as int), 0);
      assert key2(x) == (-(CountOf(m, x) as int), x) && key2(y) == (-(CountOf(m, y) as int), y);
    }
    InsertByAgree(x, t, key1, key2);
  }

  /** Stable sorting an ascending list by count equals sorting by (count, index). */
  lemma {:induction false} SortByTieBreak(s: seq<int>, m: map<int, nat>)
    requires forall i, j :: 0 <= i < j < |s| ==> s[i] < s[j]
    ensures SortBy(s, ByWordCount(m)) == SortBy(s, ByWordCountThenIndex(m))
  {
    if s != [] {
      var n := |s| - 1;
      var init := s[..n];
      SortByTieBreak(init, m);
      var t := SortBy(init, ByWordCount(m));
      BelowLast(s, t);
      InsertByTieBreak(s[n], t, m);
      SortByLast(s, ByWordCount(m));
      SortByLast(s, ByWordCountThenIndex(m));
    }
  }

  /** Whatever holds the same elements as all but the last of an ascending list lies below its last. */
  lemma BelowLast(s: seq<int>, t: seq<int>)
    requires s != [] && forall i, j :: 0 <= i < j < |s| ==> s[i] < s[j]
    requires multiset(t) == multiset(s[..|s| - 1])
    ensures forall y :: y in t ==> y < s[|s| - 1]
  {
    var n := |s| - 1;
    forall y | y in t ensures y < s[n] {
      assert y in multiset(s[..n]);
      var i :| 0 <= i < n && s[..n][i] == y;
      assert s[i] == y;
    }
  }

  /** Word indices listed by descending error count, ties by ascending index. */
  predicate MostErrorsFirst(ws: seq<int>, count: int -> int) {
    forall i, j :: 0 <= i < j < |ws| ==>
      count(ws[i]) > count(ws[j]) || (count(ws[i]) == count(ws[j]) && ws[i] < ws[j])
  }

  lemma MostErrorsFirstSame(ws: seq<int>, f: int -> int, g: int -> int)
    requires MostErrorsFirst(ws, f)
    requires forall w :: w in ws ==> f(w) == g(w)
    ensures MostErrorsFirst(ws, g)
  {
    forall i, j | 0 <= i < j < |ws|
      ensures g(ws[i]) > g(ws[j]) || (g(ws[i]) == g(ws[j]) && ws[i] < ws[j])
    {
      assert ws[i] in ws && ws[j] in ws;
    }
  }

  /** The weak words of a summary are its words, each once, most errors first and
      ties in ascending index. */
  lemma WeakWordsFacts(m: map<int, nat>)
    ensures forall w :: w in WeakWords(m) <==> w in m
    ensures |WeakWords(m)| == |m|
    ensures MostErrorsFirst(WeakWords(m), CountsIn(m))
  {
    var asc := Ascending(m.Keys);
    var r := WeakWords(m);
    SortByTieBreak(asc, m);
    assert multiset(r) == multiset(asc);
    forall w ensures w in r <==> w in m {
      assert w in r <==> w in multiset(r);
      assert w in asc <==> w in multiset(asc);
      assert w in asc <==> w in m.Keys;
    }
    assert |r| == |asc| == |m.Keys| == |m|;
    var key := ByWordCountThenIndex(m);
    assert SortedBy(r, key);
    forall i, j | 0 <= i < j < |r|
      ensures CountsIn(m)(r[i]) > CountsIn(m)(r[j]) || (CountsIn(m)(r[i]) == CountsIn(m)(r[j]) && r[i] < r[j])
    {
      assert !KeyLess(key(r[j]), key(r[i]));
      assert key(r[i]) == (-(CountOf(m, r[i]) as int), r[i]);
      assert key(r[j]) == (-(CountOf(m, r[j]) as int), r[j]);
      assert r[i] != r[j] by { SortByDistinct(asc, ByWordCount(m)); }
    }
  }

  /** Looking an ayah up among the summaries finds its summary exactly when it has errors. */
  lemma FindSummaryOfAyah(log: seq<ErrorEntry>, s: int, a: int)
    ensures Count(log, (s, a)) == 0 ==> FindSummary(Summaries(log), s, a).None?
    ensures Count(log, (s, a)) > 0 ==> FindSummary(Summaries(log), s, a) == Some(Summary(log, (s, a)))
  {
    SummariesAreSummaries(log);
    SummariesCoverAyahs(log);
    var found := FindSummary(Summaries(log), s, a);
    if found.Some? {
      assert found.value in Summaries(log);
    }
  }

  /** The weak words of an ayah are those of its summary, none without one. */
  lemma WeakWordIndicesIs(log: seq<ErrorEntry>, s: int, a: int)
    ensures Count(log, (s, a)) == 0 ==> WeakWordIndices(log, s, a) == []
    ensures Count(log, (s, a)) > 0 ==> WeakWordIndices(log, s, a) == WeakWords(WordCounts(log, (s, a)))
  {
    FindSummaryOfAyah(log, s, a);
  }

  /** The counts recorded for an ayah's words are their numbers of errors. */
  lemma WordCountsAgree(log: seq<ErrorEntry>, k: AyahKey)
    ensures WordCounts(log, k).Keys == WordsOf(log, k)
    ensures forall w :: w in WordCounts(log, k) ==> CountsIn(WordCounts(log, k))(w) == WordCountIn(log, k)(w)
  {
  }

  /** The weak words of an ayah are exactly its words with errors, each once; none for
      an ayah without errors. */
  lemma WeakWordIndicesWords(log: seq<ErrorEntry>, s: int, a: int)
    ensures Count(log, (s, a)) == 0 ==> WeakWordIndices(log, s, a) == []
    ensures Count(log, (s, a)) > 0 ==>
      && (forall w :: w in WeakWordIndices(log, s, a) <==> w in WordsOf(log, (s, a)))
      && |WeakWordIndices(log, s, a)| == |WordsOf(log, (s, a))|
  {
    WeakWordIndicesIs(log, s, a);
    if Count(log, (s, a)) > 0 {
      WeakWordsFacts(WordCounts(log, (s, a)));
      WordCountsAgree(log, (s, a));
    }
  }

  /** The weak words of an ayah come most errors first, ties in ascending index. */
  lemma WeakWordIndicesOrder(log: seq<ErrorEntry>, s: int, a: int)
    ensures MostErrorsFirst(WeakWordIndices(log, s, a), WordCountIn(log, (s, a)))
  {
    var k := (s, a);
    WeakWordIndicesIs(log, s, a);
    if Count(log, k) > 0 {
      var m := WordCounts(log, k);
      WeakWordsFacts(m);
      WordCountsAgree(log, k);
      MostErrorsFirstSame(WeakWords(m), CountsIn(m), WordCountIn(log, k));
    }
  }

  // ---------------------------------------------------------------------------
  // Colours (getWordErrorStatuses, getAyahErrorStatus, getAllAyahErrorStatuses)
  // ---------------------------------------------------------------------------

  /** 'red' several errors, the latest still current; 'orange' several errors, all older
      than the ayah's latest error; 'yellow' one error; 'none'. */
  datatype WordErrorStatus = Red | Yellow | Orange | NoError

  /** The errors of one word as the status functions group them: `{ count, timestamps }`. */
  datatype WordGroup = WordGroup(count: nat, timestamps: seq<string>)

  /** The colour of one word from its group and the ayah's latest error. */
  function StatusOf(g: WordGroup, latestError: string): WordErrorStatus
    requires |g.timestamps| > 0
  {
    if g.count > 1 then
      if LexLess(Latest(g.timestamps), latestError) then Orange else Red
    else Yellow
  }

  predicate WellGrouped(groups: map<int, WordGroup>) {
    forall w :: w in groups ==> |groups[w].timestamps| > 0
  }

  /** The colour of every grouped word. */
  function Colours(groups: map<int, WordGroup>, latestError: string): map<int, WordErrorStatus>
    requires WellGrouped(groups)
  {
    map w | w in groups :: StatusOf(groups[w], latestError)
  }

  /** The groups of ayah k in log: each word with errors, its count and timestamps. */
  function WordGroups(log: seq<ErrorEntry>, k: AyahKey): (r: map<int, WordGroup>)
    ensures WellGrouped(r)
  {
    WordFacts(log, k);
    map w | w in WordsOf(log, k) :: WordGroup(|WordTimestamps(log, k, w)|, WordTimestamps(log, k, w))
  }

  /** getWordErrorStatuses(surah, ayah). */
  function WordStatuses(log: seq<ErrorEntry>, s: int, a: int): map<int, WordErrorStatus> {
    var k := (s, a);
    if Count(log, k) == 0 then map[]
    else Colours(WordGroups(log, k), Latest(TimestampsOf(log, k)))
  }

  /** The ayah colour from its word colours. */
  function RollUp(statuses: map<int, WordErrorStatus>): WordErrorStatus {
    if |statuses| == 0 then NoError
    else if Red in statuses.Values then Red
    else if Yellow in statuses.Values then Yellow
    else Orange
  }

  /** getAyahErrorStatus(surah, ayah). */
  function AyahErrorStatus(log: seq<ErrorEntry>, s: int, a: int): WordErrorStatus {
    RollUp(WordStatuses(log, s, a))
  }

  /** What getAllAyahErrorStatuses promises: the ayah colour of every ayah with errors. */
  function AllStatuses(log: seq<ErrorEntry>): map<AyahKey, WordErrorStatus> {
    map k | k in KeySet(log) :: AyahErrorStatus(log, k.0, k.1)
  }

  /** Word colours are given exactly to the words with errors. */
  lemma WordStatusesDomain(log: seq<ErrorEntry>, s: int, a: int)
    ensures forall w :: w in WordStatuses(log, s, a) <==> |WordTimestamps(log, (s, a), w)| > 0
  {
    WordFacts(log, (s, a));
  }

  /** One error is yellow; several are orange when all of them are older than some error
      of the ayah, and red otherwise; no word with errors is 'none'. */
  lemma WordStatusMeaning(log: seq<ErrorEntry>, s: int, a: int, w: int)
    requires w in WordStatuses(log, s, a)
    ensures WordStatuses(log, s, a)[w] == Yellow <==> |WordTimestamps(log, (s, a), w)| == 1
    ensures WordStatuses(log, s, a)[w] == Orange <==>
      |WordTimestamps(log, (s, a), w)| > 1 && Superseded(WordTimestamps(log, (s, a), w), TimestampsOf(log, (s, a)))
    ensures WordStatuses(log, s, a)[w] != NoError
  {
    var k := (s, a);
    var ws := WordTimestamps(log, k, w);
    var latest := Latest(TimestampsOf(log, k));
    var st := WordStatuses(log, s, a)[w];
    assert st == StatusOf(WordGroup(|ws|, ws), latest);
    assert st == Orange <==> |ws| > 1 && LexLess(Latest(ws), latest);
    OlderThanSome(ws, TimestampsOf(log, k));
  }

  /** Every time in ws is earlier than one same time in ts. */
  predicate Superseded(ws: seq<string>, ts: seq<string>) {
    exists t :: t in ts && forall u :: u in ws ==> LexLess(u, t)
  }

  /** The latest of ws is before the latest of ts exactly when ws is superseded by ts. */
  lemma OlderThanSome(ws: seq<string>, ts: seq<string>)
    requires |ws| > 0 && |ts| > 0
    ensures LexLess(Latest(ws), Latest(ts)) <==> Superseded(ws, ts)
  {
    LatestIsMax(ws);
    LatestIsMax(ts);
    var lw, lt := Latest(ws), Latest(ts);
    if LexLess(lw, lt) {
      forall u | u in ws ensures LexLess(u, lt) {
        LexTotal(u, lw);
        if u != lw { LexTransitive(u, lw, lt); }
      }
    } else {
      forall t | t in ts ensures !LexLess(lw, t) {
        LexNotLessTransitive(lw, lt, t);
      }
    }
  }

  /** The word holding the ayah's latest error is never orange, so an ayah with errors is
      never orange either: the 'orange' ayah colour is never produced. */
  lemma AyahNeverOrange(log: seq<ErrorEntry>, s: int, a: int)
    ensures AyahErrorStatus(log, s, a) == NoError <==> Count(log, (s, a)) == 0
    ensures AyahErrorStatus(log, s, a) != Orange
  {
    var k := (s, a);
    var st := WordStatuses(log, s, a);
    if Count(log, k) > 0 {
      WordFacts(log, k);
      var ts := TimestampsOf(log, k);
      LatestIsMax(ts);
      var w :| w in WordsOf(log, k) && Latest(ts) in WordTimestamps(log, k, w);
      var ws := WordTimestamps(log, k, w);
      LatestIsMax(ws);
      assert !LexLess(Latest(ws), Latest(ts));
      assert st[w] == StatusOf(WordGroup(|ws|, ws), Latest(ts));
      assert st[w] in st.Values;
    }
  }

  /** The ayah is red exactly when some word is red, yellow when no word is red and some
      word is yellow. */
  lemma AyahStatusFromWords(log: seq<ErrorEntry>, s: int, a: int)
    ensures AyahErrorStatus(log, s, a) == Red <==> exists w :: w in WordStatuses(log, s, a) && WordStatuses(log, s, a)[w] == Red
    ensures AyahErrorStatus(log, s, a) == Yellow <==>
      && (forall w :: w in WordStatuses(log, s, a) ==> WordStatuses(log, s, a)[w] != Red)
      && exists w :: w in WordStatuses(log, s, a) && WordStatuses(log, s, a)[w] == Yellow
  {
    var st := WordStatuses(log, s, a);
    if exists w :: w in st && st[w] == Red {
      var w :| w in st && st[w] == Red;
      assert st[w] in st.Values;
    }
    if exists w :: w in st && st[w] == Yellow {
      var w :| w in st && st[w] == Yellow;
      assert st[w] in st.Values;
    }
  }

  /** Two logs that agree on an ayah's entries give it the same colours. */
  lemma WordStatusesSameLog(l1: seq<ErrorEntry>, l2: seq<ErrorEntry>, k: AyahKey)
    requires TimestampsOf(l1, k) == TimestampsOf(l2, k) && WordsOf(l1, k) == WordsOf(l2, k)
    requires forall w :: WordTimestamps(l1, k, w) == WordTimestamps(l2, k, w)
    ensures WordGroups(l1, k) == WordGroups(l2, k)
    ensures WordStatuses(l1, k.0, k.1) == WordStatuses(l2, k.0, k.1)
  {
    assert WordGroups(l1, k) == WordGroups(l2, k);
  }

  // ---------------------------------------------------------------------------
  // One step of the methods' loops
  // ---------------------------------------------------------------------------

  /** The state of getAyahErrorSummaries' loop after the entries of log: the ayahs in
      first-error order and the summary of each. */
  ghost predicate Tallied(table: map<AyahKey, AyahErrorSummary>, order: seq<AyahKey>, log: seq<ErrorEntry>) {
    && order == FirstSeen(log)
    && (forall k :: k in table <==> Count(log, k) > 0)
    && forall k :: k in table ==> Count(log, k) > 0 && table[k] == Summary(log, k)
  }

  /** Read in first-error order, the tally is the list of summaries. */
  lemma TalliedInOrder(table: map<AyahKey, AyahErrorSummary>, order: seq<AyahKey>, log: seq<ErrorEntry>)
    requires Tallied(table, order, log)
    ensures order == FirstSeen(log)
    ensures forall k :: k in order ==> Count(log, k) > 0
    ensures forall j :: 0 <= j < |order| ==> order[j] in table && table[order[j]] == SummaryList(log, order)[j]
  {
    FirstSeenFacts(log);
  }

  /** One iteration of getAyahErrorSummaries' loop. */
  method Tally(table: map<AyahKey, AyahErrorSummary>, order: seq<AyahKey>, e: ErrorEntry, ghost log: seq<ErrorEntry>)
    returns (table': map<AyahKey, AyahErrorSummary>, order': seq<AyahKey>)
    requires Tallied(table, order, log)
    ensures Tallied(table', order', log + [e])
  {
    var k := KeyOf(e);
    if k in table {
      var existing := table[k];
      table' := table[k := existing.(
        totalErrors := existing.totalErrors + 1,
        lastErrorDate := MaxStr(existing.lastErrorDate, e.timestamp),
        errorWords := existing.errorWords[e.wordIndex := CountOf(existing.errorWords, e.wordIndex) + 1])];
      order' := order;
      SummaryBumped(log, e);
    } else {
      table' := table[k := AyahErrorSummary(e.surahNumber, e.ayahNumber, 1, e.timestamp, map[e.wordIndex as int := 1])];
      order' := order + [k];
      SummaryStarted(log, e);
    }
    TallyStep(table, order, e, log, table', order');
  }

  /** The tally after one more entry: its ayah's summary is the new one, the others stay. */
  lemma TallyStep(table: map<AyahKey, AyahErrorSummary>, order: seq<AyahKey>, e: ErrorEntry, log: seq<ErrorEntry>,
                  table': map<AyahKey, AyahErrorSummary>, order': seq<AyahKey>)
    requires Tallied(table, order, log)
    requires Count(log + [e], KeyOf(e)) > 0
    requires table' == table[KeyOf(e) := Summary(log + [e], KeyOf(e))]
    requires order' == if KeyOf(e) in table then order else order + [KeyOf(e)]
    ensures Tallied(table', order', log + [e])
  {
    var k := KeyOf(e);
    FirstSeenFacts(log);
    LogStep(log, e, k);
    assert order' == FirstSeen(log + [e]);
    forall j ensures j in table' <==> Count(log + [e], j) > 0 {
      if j != k {
        LogStep(log, e, j);
      }
    }
    forall j | j in table' ensures Count(log + [e], j) > 0 && table'[j] == Summary(log + [e], j) {
      if j != k {
        SummaryUnchanged(log, e, j);
      }
    }
  }

  /** An entry for another ayah leaves a summary as it was. */
  lemma SummaryUnchanged(log: seq<ErrorEntry>, e: ErrorEntry, k: AyahKey)
    requires KeyOf(e) != k && Count(log, k) > 0
    ensures Count(log + [e], k) > 0 && Summary(log + [e], k) == Summary(log, k)
  {
    LogStep(log, e, k);
    assert TimestampsOf(log + [e], k) == TimestampsOf(log, k);
    var m0, m1 := WordCounts(log, k), WordCounts(log + [e], k);
    assert m1.Keys == m0.Keys;
    forall w | w in m1 ensures m1[w] == m0[w] {
      assert WordTimestamps(log + [e], k, w) == WordTimestamps(log, k, w);
    }
    assert m1 == m0;
  }

  /** A further entry for an ayah: one more error, a later date if it is later, one more
      error for its word. */
  lemma SummaryBumped(log: seq<ErrorEntry>, e: ErrorEntry)
    requires Count(log, KeyOf(e)) > 0
    ensures Count(log + [e], KeyOf(e)) > 0
    ensures var old_ := Summary(log, KeyOf(e));
      Summary(log + [e], KeyOf(e)) == old_.(
        totalErrors := old_.totalErrors + 1,
        lastErrorDate := MaxStr(old_.lastErrorDate, e.timestamp),
        errorWords := old_.errorWords[e.wordIndex := CountOf(old_.errorWords, e.wordIndex) + 1])
  {
    var k := KeyOf(e);
    var ts := TimestampsOf(log, k);
    LogStep(log, e, k);
    assert (ts + [e.timestamp])[..|ts|] == ts;
    assert Latest(TimestampsOf(log + [e], k)) == MaxStr(Latest(ts), e.timestamp);
    WordCountsBumped(log, e);
  }

  /** A further entry adds one error to its word's count. */
  lemma WordCountsBumped(log: seq<ErrorEntry>, e: ErrorEntry)
    ensures var before := WordCounts(log, KeyOf(e));
      WordCounts(log + [e], KeyOf(e)) == before[e.wordIndex := CountOf(before, e.wordIndex) + 1]
  {
    var k := KeyOf(e);
    var w0 := e.wordIndex as int;
    LogStep(log, e, k);
    var before := WordCounts(log, k);
    var after := WordCounts(log + [e], k);
    var want := before[w0 := CountOf(before, w0) + 1];
    assert after.Keys == want.Keys;
    forall w | w in after ensures after[w] == want[w] {
      assert WordTimestamps(log + [e], k, w)
        == WordTimestamps(log, k, w) + (if w0 == w then [e.timestamp] else []);
      if w == w0 && w0 !in before {
        WordAbsent(log, k, w0);
      }
    }
    assert after == want;
  }

  /** A word with no recorded error has no timestamps. */
  lemma WordAbsent(log: seq<ErrorEntry>, k: AyahKey, w: int)
    requires w !in WordsOf(log, k)
    ensures WordTimestamps(log, k, w) == []
  {
    WordFacts(log, k);
  }

  /** The first entry for an ayah starts its summary. */
  lemma SummaryStarted(log: seq<ErrorEntry>, e: ErrorEntry)
    requires Count(log, KeyOf(e)) == 0
    ensures Count(log + [e], KeyOf(e)) > 0
    ensures Summary(log + [e], KeyOf(e)) == AyahErrorSummary(e.surahNumber, e.ayahNumber, 1, e.timestamp, map[e.wordIndex as int := 1])
  {
    var k := KeyOf(e);
    LogStep(log, e, k);
    WordFacts(log, k);
    assert WordsOf(log + [e], k) == {e.wordIndex as int};
    assert WordCounts(log + [e], k) == map[e.wordIndex as int := 1];
  }

  /** Adding an entry to ayah k's groups: one more error for its word. */
  function AddToGroups(groups: map<int, WordGroup>, e: ErrorEntry): (r: map<int, WordGroup>) {
    var w := e.wordIndex as int;
    if w in groups then groups[w := WordGroup(groups[w].count + 1, groups[w].timestamps + [e.timestamp])]
    else groups[w := WordGroup(1, [e.timestamp])]
  }

  /** An entry of ayah k adds to its groups; an entry of another ayah leaves them alone. */
  lemma WordGroupsStep(log: seq<ErrorEntry>, e: ErrorEntry, k: AyahKey)
    ensures KeyOf(e) == k ==> WordGroups(log + [e], k) == AddToGroups(WordGroups(log, k), e)
    ensures KeyOf(e) != k ==> WordGroups(log + [e], k) == WordGroups(log, k)
  {
    if KeyOf(e) == k {
      WordGroupsGrow(log, e);
    } else {
      WordGroupsStay(log, e, k);
    }
  }

  lemma WordGroupsGrow(log: seq<ErrorEntry>, e: ErrorEntry)
    ensures WordGroups(log + [e], KeyOf(e)) == AddToGroups(WordGroups(log, KeyOf(e)), e)
  {
    var k := KeyOf(e);
    LogStep(log, e, k);
    WordFacts(log, k);
    var g0, g1 := WordGroups(log, k), WordGroups(log + [e], k);
    var g := AddToGroups(g0, e);
    assert g1.Keys == g.Keys;
    forall v | v in g1 ensures g1[v] == g[v] {
      if v != e.wordIndex as int {
        assert g1[v] == g0[v];
      }
    }
  }

  lemma WordGroupsStay(log: seq<ErrorEntry>, e: ErrorEntry, k: AyahKey)
    requires KeyOf(e) != k
    ensures WordGroups(log + [e], k) == WordGroups(log, k)
  {
    LogStep(log, e, k);
    WordFacts(log, k);
    var g0, g1 := WordGroups(log, k), WordGroups(log + [e], k);
    assert g1.Keys == g0.Keys;
    forall v | v in g1 ensures g1[v] == g0[v] {
      assert WordTimestamps(log + [e], k, v) == WordTimestamps(log, k, v);
    }
  }

  /** getWordErrorStatuses' grouping step. */
  method GroupWord(groups: map<int, WordGroup>, e: ErrorEntry) returns (r: map<int, WordGroup>)
    ensures r == AddToGroups(groups, e)
  {
    var w := e.wordIndex as int;
    if w in groups {
      var existing := groups[w];
      r := groups[w := WordGroup(existing.count + 1, existing.timestamps + [e.timestamp])];
    } else {
      r := groups[w := WordGroup(1, [e.timestamp])];
    }
  }

  function IsFor(k: AyahKey): ErrorEntry -> bool {
    e => KeyOf(e) == k
  }

  /** Filtering the log down to one ayah keeps all that the log says about that ayah. */
  lemma {:induction false} FilterKeepsAyah(log: seq<ErrorEntry>, k: AyahKey)
    ensures TimestampsOf(Filter(log, IsFor(k)), k) == TimestampsOf(log, k)
    ensures WordsOf(Filter(log, IsFor(k)), k) == WordsOf(log, k)
    ensures forall w :: WordTimestamps(Filter(log, IsFor(k)), k, w) == WordTimestamps(log, k, w)
  {
    if log != [] {
      var n := |log| - 1;
      var e := log[n];
      assert log == log[..n] + [e];
      FilterKeepsAyah(log[..n], k);
      FilterAppend(log[..n], [e], IsFor(k));
      var f := Filter(log[..n], IsFor(k));
      LogStep(log[..n], e, k);
      if KeyOf(e) == k {
        assert Filter([e], IsFor(k)) == [e];
        LogStep(f, e, k);
      } else {
        assert Filter([e], IsFor(k)) == [];
        assert Filter(log, IsFor(k)) == f;
      }
    }
  }

  /** Entries all of one ayah: their timestamps are that ayah's timestamps. */
  lemma {:induction false} TimestampsOfOneAyah(log: seq<ErrorEntry>, k: AyahKey)
    requires forall j :: 0 <= j < |log| ==> KeyOf(log[j]) == k
    ensures TimestampsOf(log, k) == seq(|log|, j requires 0 <= j < |log| => log[j].timestamp)
  {
    if log != [] {
      TimestampsOfOneAyah(log[..|log| - 1], k);
    }
  }

  /** getWordErrorStatuses' colouring loop. */
  method ColourWords(groups: map<int, WordGroup>, latestError: string) returns (result: map<int, WordErrorStatus>)
    requires WellGrouped(groups)
    ensures result == Colours(groups, latestError)
  {
    result := map[];
    var todo := groups.Keys;
    while todo != {}
      invariant todo <= groups.Keys
      invariant result.Keys == groups.Keys - todo
      invariant forall w :: w in result ==> result[w] == StatusOf(groups[w], latestError)
      decreases |todo|
    {
      ghost var some := AnElement(todo);
      var w :| w in todo;
      var data := groups[w];
      var status;
      if data.count > 1 {
        var latestForWord := Latest(data.timestamps);
        if LexLess(latestForWord, latestError) {
          status := Orange;
        } else {
          status := Red;
        }
      } else {
        status := Yellow;
      }
      result := result[w := status];
      todo := todo - {w};
    }
    ColoursDone(groups, latestError, result);
  }

  /** A colour map over every group, with each word's colour, is the colouring. */
  lemma ColoursDone(groups: map<int, WordGroup>, latestError: string, result: map<int, WordErrorStatus>)
    requires WellGrouped(groups) && result.Keys == groups.Keys
    requires forall w :: w in result ==> result[w] == StatusOf(groups[w], latestError)
    ensures result == Colours(groups, latestError)
  {
    forall w | w in result ensures result[w] == Colours(groups, latestError)[w] {
    }
    assert result.Keys == Colours(groups, latestError).Keys;
  }

  /** getAllAyahErrorStatuses' flags for one ayah: some word red, some word yellow,
      every word orange. */
  method AyahFlags(groups: map<int, WordGroup>, latestError: string) returns (hasRed: bool, hasYellow: bool, allOrange: bool)
    requires WellGrouped(groups)
    ensures hasRed <==> Red in Colours(groups, latestError).Values
    ensures hasYellow <==> Yellow in Colours(groups, latestError).Values
    ensures allOrange <==> Colours(groups, latestError).Values <= {Orange}
  {
    ghost var c := Colours(groups, latestError);
    hasRed, hasYellow, allOrange := false, false, true;
    var todo := groups.Keys;
    ghost var done: set<int> := {};
    while todo != {}
      invariant todo <= groups.Keys && done == groups.Keys - todo
      invariant hasRed <==> exists w :: w in done && c[w] == Red
      invariant hasYellow <==> exists w :: w in done && c[w] == Yellow
      invariant allOrange <==> forall w :: w in done ==> c[w] == Orange
      decreases |todo|
    {
      ghost var some := AnElement(todo);
      var w :| w in todo;
      var data := groups[w];
      assert c[w] == StatusOf(data, latestError);
      if data.count > 1 {
        var latestForWord := Latest(data.timestamps);
        if !LexLess(latestForWord, latestError) {
          hasRed := true;
          allOrange := false;
        }
      } else {
        hasYellow := true;
        allOrange := false;
      }
      todo := todo - {w};
      done := done + {w};
    }
    assert done == c.Keys;
    ValuesOf(c, Red);
    ValuesOf(c, Yellow);
    ValuesAll(c, Orange);
  }

  lemma ValuesOf(c: map<int, WordErrorStatus>, v: WordErrorStatus)
    ensures v in c.Values <==> exists w :: w in c && c[w] == v
  {
    if exists w :: w in c && c[w] == v { var w :| w in c && c[w] == v; assert c[w] in c.Values; }
  }

  lemma ValuesAll(c: map<int, WordErrorStatus>, v: WordErrorStatus)
    ensures c.Values <= {v} <==> forall w :: w in c ==> c[w] == v
  {
    if forall w :: w in c ==> c[w] == v {
      forall u | u in c.Values ensures u == v {
        ValuesOf(c, u);
      }
    } else {
      var w :| w in c && c[w] != v;
      assert c[w] in c.Values;
    }
  }

  /** The flags give the rolled-up colour: red, else yellow, else (every word being
      orange) orange. */
  lemma FlagsRollUp(c: map<int, WordErrorStatus>, hasRed: bool, hasYellow: bool, allOrange: bool)
    requires |c| > 0 && NoError !in c.Values
    requires hasRed <==> Red in c.Values
    requires hasYellow <==> Yellow in c.Values
    requires allOrange <==> c.Values <= {Orange}
    ensures hasRed || hasYellow || allOrange
    ensures RollUp(c) == (if hasRed then Red else if hasYellow then Yellow else Orange)
  {
    if !hasRed && !hasYellow {
      forall v | v in c.Values ensures v == Orange {
        assert v != Red && v != Yellow && v != NoError;
      }
    }
  }

  /** A word colour is never 'none'. */
  lemma ColoursNeverNone(groups: map<int, WordGroup>, latestError: string)
    requires WellGrouped(groups)
    ensures NoError !in Colours(groups, latestError).Values
    ensures |Colours(groups, latestError)| == |groups|
  {
    var c := Colours(groups, latestError);
    assert c.Keys == groups.Keys;
    forall w | w in c ensures c[w] != NoError {
      assert c[w] == StatusOf(groups[w], latestError);
    }
    ValuesOf(c, NoError);
  }

  /** What getAllAyahErrorStatuses has grouped for one ayah. */
  datatype AyahGroup = AyahGroup(wordErrors: map<int, WordGroup>, allTimestamps: seq<string>)

  /** The state of getAllAyahErrorStatuses' grouping loop after the entries of log. */
  ghost predicate AyahsGrouped(ayahMap: map<AyahKey, AyahGroup>, log: seq<ErrorEntry>) {
    && ayahMap.Keys == KeySet(log)
    && forall k :: k in ayahMap ==> ayahMap[k] == AyahGroup(WordGroups(log, k), TimestampsOf(log, k))
  }

  /** One iteration of getAllAyahErrorStatuses' grouping loop. */
  method GroupEntry(ayahMap: map<AyahKey, AyahGroup>, e: ErrorEntry, ghost log: seq<ErrorEntry>)
    returns (r: map<AyahKey, AyahGroup>)
    requires AyahsGrouped(ayahMap, log)
    ensures AyahsGrouped(r, log + [e])
  {
    var k := KeyOf(e);
    var entry: AyahGroup;
    if k in ayahMap {
      entry := ayahMap[k];
    } else {
      entry := AyahGroup(map[], []);
    }
    var wordErrors := GroupWord(entry.wordErrors, e);
    GroupedStep(ayahMap, e, log, entry);
    r := ayahMap[k := AyahGroup(wordErrors, entry.allTimestamps + [e.timestamp])];
  }

  /** What the grouping holds for ayah k: its groups, or nothing yet. */
  lemma EntrySoFar(ayahMap: map<AyahKey, AyahGroup>, log: seq<ErrorEntry>, k: AyahKey)
    requires AyahsGrouped(ayahMap, log)
    ensures (if k in ayahMap then ayahMap[k] else AyahGroup(map[], [])) == AyahGroup(WordGroups(log, k), TimestampsOf(log, k))
  {
    if k !in ayahMap {
      FirstSeenFacts(log);
      WordFacts(log, k);
      assert WordGroups(log, k) == map[];
    }
  }

  /** The grouping after one more entry: its ayah's group grows, the others stay. */
  lemma GroupedStep(ayahMap: map<AyahKey, AyahGroup>, e: ErrorEntry, log: seq<ErrorEntry>, entry: AyahGroup)
    requires AyahsGrouped(ayahMap, log)
    requires entry == if KeyOf(e) in ayahMap then ayahMap[KeyOf(e)] else AyahGroup(map[], [])
    ensures AyahsGrouped(ayahMap[KeyOf(e) := AyahGroup(AddToGroups(entry.wordErrors, e), entry.allTimestamps + [e.timestamp])], log + [e])
  {
    var k := KeyOf(e);
    EntrySoFar(ayahMap, log, k);
    OtherAyahsStay(log, e);
    LogStep(log, e, k);
    WordGroupsStep(log, e, k);
    var r := ayahMap[k := AyahGroup(AddToGroups(entry.wordErrors, e), entry.allTimestamps + [e.timestamp])];
    forall j | j in r ensures r[j] == AyahGroup(WordGroups(log + [e], j), TimestampsOf(log + [e], j)) {
      if j != k {
        assert r[j] == ayahMap[j];
      }
    }
    assert r.Keys == KeySet(log + [e]);
  }

  /** An entry leaves the groups of every other ayah as they were. */
  lemma OtherAyahsStay(log: seq<ErrorEntry>, e: ErrorEntry)
    ensures forall j :: j != KeyOf(e) ==> WordGroups(log + [e], j) == WordGroups(log, j)
    ensures forall j :: j != KeyOf(e) ==> TimestampsOf(log + [e], j) == TimestampsOf(log, j)
  {
    forall j | j != KeyOf(e)
      ensures WordGroups(log + [e], j) == WordGroups(log, j) && TimestampsOf(log + [e], j) == TimestampsOf(log, j)
    {
      LogStep(log, e, j);
      WordGroupsStep(log, e, j);
    }
  }

  /** getAllAyahErrorStatuses' status for one grouped ayah: None when no flag is set. */
  method AyahStatus(entry: AyahGroup) returns (status: Option<WordErrorStatus>)
    requires WellGrouped(entry.wordErrors) && |entry.allTimestamps| > 0 && |entry.wordErrors| > 0
    ensures status == Some(RollUp(Colours(entry.wordErrors, Latest(entry.allTimestamps))))
  {
    var latestError := Latest(entry.allTimestamps);
    var hasRed, hasYellow, allOrange := AyahFlags(entry.wordErrors, latestError);
    ColoursNeverNone(entry.wordErrors, latestError);
    FlagsRollUp(Colours(entry.wordErrors, latestError), hasRed, hasYellow, allOrange);
    if hasRed {
      status := Some(Red);
    } else if hasYellow {
      status := Some(Yellow);
    } else if allOrange {
      status := Some(Orange);
    } else {
      status := None;
    }
  }

  /** getAyahErrorSummaries' loop over the whole log. */
  method TallyAll(log: seq<ErrorEntry>) returns (table: map<AyahKey, AyahErrorSummary>, order: seq<AyahKey>)
    ensures Tallied(table, order, log)
  {
    table, order := map[], [];
    var i := 0;
    while i < |log|
      invariant 0 <= i <= |log|
      invariant Tallied(table, order, log[..i])
    {
      assert log[..i + 1] == log[..i] + [log[i]];
      table, order := Tally(table, order, log[i], log[..i]);
      i := i + 1;
    }
    assert log[..i] == log;
  }

  /** getWordErrorStatuses' grouping loop over the entries of one ayah. */
  method GroupWords(ayahErrors: seq<ErrorEntry>, ghost k: AyahKey) returns (wordErrors: map<int, WordGroup>)
    requires forall j :: 0 <= j < |ayahErrors| ==> KeyOf(ayahErrors[j]) == k
    ensures wordErrors == WordGroups(ayahErrors, k)
  {
    wordErrors := map[];
    var i := 0;
    while i < |ayahErrors|
      invariant 0 <= i <= |ayahErrors|
      invariant wordErrors == WordGroups(ayahErrors[..i], k)
    {
      assert ayahErrors[..i + 1] == ayahErrors[..i] + [ayahErrors[i]];
      WordGroupsStep(ayahErrors[..i], ayahErrors[i], k);
      wordErrors := GroupWord(wordErrors, ayahErrors[i]);
      i := i + 1;
    }
    assert ayahErrors[..i] == ayahErrors;
  }

  /** getAllAyahErrorStatuses' grouping loop. */
  method GroupAyahs(log: seq<ErrorEntry>) returns (ayahMap: map<AyahKey, AyahGroup>)
    ensures AyahsGrouped(ayahMap, log)
  {
    ayahMap := map[];
    var i := 0;
    while i < |log|
      invariant 0 <= i <= |log|
      invariant AyahsGrouped(ayahMap, log[..i])
    {
      assert log[..i + 1] == log[..i] + [log[i]];
      ayahMap := GroupEntry(ayahMap, log[i], log[..i]);
      i := i + 1;
    }
    assert log[..i] == log;
  }

  /** Every grouped ayah has errors, and every grouped word has timestamps. */
  predicate AyahGroupsFilled(ayahMap: map<AyahKey, AyahGroup>) {
    forall k :: k in ayahMap ==>
      WellGrouped(ayahMap[k].wordErrors) && |ayahMap[k].allTimestamps| > 0 && |ayahMap[k].wordErrors| > 0
  }

  /** The colour of each grouped ayah. */
  function RolledUp(ayahMap: map<AyahKey, AyahGroup>): map<AyahKey, WordErrorStatus>
    requires AyahGroupsFilled(ayahMap)
  {
    map k | k in ayahMap :: RollUp(Colours(ayahMap[k].wordErrors, Latest(ayahMap[k].allTimestamps)))
  }

  /** The grouping of a log has only filled groups. */
  lemma GroupsFilled(ayahMap: map<AyahKey, AyahGroup>, log: seq<ErrorEntry>)
    requires AyahsGrouped(ayahMap, log)
    ensures AyahGroupsFilled(ayahMap)
  {
    FirstSeenFacts(log);
    forall k | k in ayahMap
      ensures WellGrouped(ayahMap[k].wordErrors) && |ayahMap[k].allTimestamps| > 0 && |ayahMap[k].wordErrors| > 0
    {
      WordFacts(log, k);
      assert WordGroups(log, k).Keys == WordsOf(log, k);
    }
  }

  /** An ayah's group rolls up to the ayah's colour. */
  lemma RolledUpAt(ayahMap: map<AyahKey, AyahGroup>, log: seq<ErrorEntry>, k: AyahKey)
    requires AyahsGrouped(ayahMap, log) && AyahGroupsFilled(ayahMap) && k in ayahMap
    ensures k in RolledUp(ayahMap) && k in AllStatuses(log)
    ensures RolledUp(ayahMap)[k] == AllStatuses(log)[k]
  {
    var g := ayahMap[k];
    assert g == AyahGroup(WordGroups(log, k), TimestampsOf(log, k));
    FirstSeenFacts(log);
    assert (k.0, k.1) == k;
    assert RolledUp(ayahMap)[k] == RollUp(Colours(g.wordErrors, Latest(g.allTimestamps)));
    assert AllStatuses(log)[k] == AyahErrorStatus(log, k.0, k.1);
  }

  /** Grouping the whole log and rolling up each ayah gives every ayah's colour. */
  lemma RolledUpIsAll(ayahMap: map<AyahKey, AyahGroup>, log: seq<ErrorEntry>)
    requires AyahsGrouped(ayahMap, log) && AyahGroupsFilled(ayahMap)
    ensures RolledUp(ayahMap) == AllStatuses(log)
  {
    var r, all := RolledUp(ayahMap), AllStatuses(log);
    RolledUpKeys(ayahMap, log);
    forall k | k in r ensures r[k] == all[k] {
      RolledUpAt(ayahMap, log, k);
    }
  }

  /** The ayahs with a colour are the grouped ayahs. */
  lemma RolledUpKeys(ayahMap: map<AyahKey, AyahGroup>, log: seq<ErrorEntry>)
    requires AyahsGrouped(ayahMap, log) && AyahGroupsFilled(ayahMap)
    ensures RolledUp(ayahMap).Keys == AllStatuses(log).Keys
  {
  }

  /** One iteration of the colouring loop: the colour of one more ayah is added. */
  lemma ColourStep(ayahMap: map<AyahKey, AyahGroup>, result: map<AyahKey, WordErrorStatus>, todo: set<AyahKey>,
                   k: AyahKey, v: WordErrorStatus)
    requires AyahGroupsFilled(ayahMap) && todo <= ayahMap.Keys && result.Keys == ayahMap.Keys - todo
    requires forall j :: j in result ==> result[j] == RolledUp(ayahMap)[j]
    requires k in todo && v == RollUp(Colours(ayahMap[k].wordErrors, Latest(ayahMap[k].allTimestamps)))
    ensures todo - {k} <= ayahMap.Keys && result[k := v].Keys == ayahMap.Keys - (todo - {k})
    ensures forall j :: j in result[k := v] ==> result[k := v][j] == RolledUp(ayahMap)[j]
  {
  }

  /** getAllAyahErrorStatuses' colouring loop. */
  method ColourAyahs(ayahMap: map<AyahKey, AyahGroup>) returns (result: map<AyahKey, WordErrorStatus>)
    requires AyahGroupsFilled(ayahMap)
    ensures result == RolledUp(ayahMap)
  {
    result := map[];
    var todo := ayahMap.Keys;
    while todo != {}
      invariant todo <= ayahMap.Keys
      invariant result.Keys == ayahMap.Keys - todo
      invariant forall k :: k in result ==> result[k] == RolledUp(ayahMap)[k]
      decreases |todo|
    {
      ghost var some := AnElement(todo);
      var k :| k in todo;
      var status := AyahStatus(ayahMap[k]);
      ColourStep(ayahMap, result, todo, k, status.value);
      if status.Some? {
        result := result[k := status.value];
      }
      todo := todo - {k};
    }
    assert todo == {} && result.Keys == RolledUp(ayahMap).Keys;
  }

  // ---------------------------------------------------------------------------
  // The stored log
  // ---------------------------------------------------------------------------

  class ErrorLog {
    var entries: seq<ErrorEntry>

    constructor ()
      ensures entries == []
    {
      entries := [];
    }

    /** addErrors: the new entries go after the old ones, without deduplication. */
    method AddErrors(errors: seq<ErrorEntry>)
      modifies this
      ensures entries == old(entries) + errors
    {
      entries := entries + errors;
    }

    method ClearErrors()
      modifies this
      ensures entries == []
    {
      entries := [];
    }

    method GetAyahErrorSummaries() returns (r: seq<AyahErrorSummary>)
      ensures r == Summaries(entries)
    {
      var table, order := TallyAll(entries);
      TalliedInOrder(table, order, entries);
      var values := seq(|order|, j requires 0 <= j < |order| => table[order[j]]);
      assert values == SummaryList(entries, order);
      r := SortBy(values, ByCountDesc);
    }

    method GetWordErrorStatuses(s: int, a: int) returns (r: map<int, WordErrorStatus>)
      ensures r == WordStatuses(entries, s, a)
    {
      var k := (s, a);
      var ayahErrors := Filter(entries, IsFor(k));
      FilterKeepsAyah(entries, k);
      WordStatusesSameLog(ayahErrors, entries, k);
      if |ayahErrors| == 0 {
        return map[];
      }
      var wordErrors := GroupWords(ayahErrors, k);
      var allTimestamps := seq(|ayahErrors|, j requires 0 <= j < |ayahErrors| => ayahErrors[j].timestamp);
      TimestampsOfOneAyah(ayahErrors, k);
      var latestError := Latest(allTimestamps);
      r := ColourWords(wordErrors, latestError);
    }

    method GetAllAyahErrorStatuses() returns (r: map<AyahKey, WordErrorStatus>)
      ensures r == AllStatuses(entries)
    {
      if |entries| == 0 {
        assert AllStatuses(entries) == map[];
        return map[];
      }
      var ayahMap := GroupAyahs(entries);
      GroupsFilled(ayahMap, entries);
      RolledUpIsAll(ayahMap, entries);
      r := ColourAyahs(ayahMap);
    }
  }
}
