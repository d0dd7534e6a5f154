/** The stored list of test certificates (src/lib/certificates.ts): newest
    first, filtered by juz, and the best score of a day. The stored list is a
    field of `CertificateStore`. */
module Certificates {
  import opened Common
  import opened ProgressTypes

  /** `CertificateRecord` (src/types/progress.ts); the date is a day number. */
  datatype CertificateRecord = CertificateRecord(
    id: string,
    dayNumber: int,
    surahName: string,
    surahNumber: int,
    startAyah: int,
    endAyah: int,
    score: int,
    testType: TestType,
    errors: int,
    date: int,
    juz: int)

  /** `getCertificatesByJuz`. */
  function CertificatesByJuz(certs: seq<CertificateRecord>, juz: int): (r: seq<CertificateRecord>)
    ensures forall c :: c in r <==> c in certs && c.juz == juz
  {
    FilterMembers(certs, (c: CertificateRecord) => c.juz == juz);
    Filter(certs, (c: CertificateRecord) => c.juz == juz)
  }

  /** The juz filter keeps list order: filtering a concatenation concatenates
      the filtered parts. */
  lemma ByJuzKeepsOrder(a: seq<CertificateRecord>, b: seq<CertificateRecord>, juz: int)
    ensures CertificatesByJuz(a + b, juz) == CertificatesByJuz(a, juz) + CertificatesByJuz(b, juz)
  {
    FilterAppend(a, b, (c: CertificateRecord) => c.juz == juz);
  }

  /** `Math.max(...scores)` over a non-empty list. */
  function MaxScore(scores: seq<int>): (r: int)
    requires |scores| > 0
    ensures r in scores
    ensures forall i :: 0 <= i < |scores| ==> scores[i] <= r
  {
    if |scores| == 1 then scores[0]
    else
      var rest := MaxScore(scores[1..]);
      assert forall i :: 1 <= i < |scores| ==> scores[i] == scores[1..][i - 1];
      Max(scores[0], rest)
  }

  function Scores(certs: seq<CertificateRecord>): (r: seq<int>)
    ensures |r| == |certs|
    ensures forall i :: 0 <= i < |certs| ==> r[i] == certs[i].score
  {
    seq(|certs|, i requires 0 <= i < |certs| => certs[i].score)
  }

  /** `v` is the highest score among the certificates of the day. */
  ghost predicate IsBest(certs: seq<CertificateRecord>, dayNumber: int, v: int) {
    && (exists c :: c in certs && c.dayNumber == dayNumber && c.score == v)
    && (forall c :: c in certs && c.dayNumber == dayNumber ==> c.score <= v)
  }

  /** `getBestScore`: none when the day has no certificate; otherwise the
      highest score among the day's certificates. */
  function BestScore(certs: seq<CertificateRecord>, dayNumber: int): (r: Option<int>)
    ensures r.None? <==> forall c :: c in certs ==> c.dayNumber != dayNumber
    ensures r.Some? ==> IsBest(certs, dayNumber, r.value)
  {
    var dayCerts := Filter(certs, (c: CertificateRecord) => c.dayNumber == dayNumber);
    FilterMembers(certs, (c: CertificateRecord) => c.dayNumber == dayNumber);
    if |dayCerts| == 0 then None
    else
      var scores := Scores(dayCerts);
      var best := MaxScore(scores);
      assert forall c :: c in dayCerts ==> c.score <= best by {
        forall c | c in dayCerts ensures c.score <= best {
          var i :| 0 <= i < |dayCerts| && dayCerts[i] == c;
          assert scores[i] == c.score;
        }
      }
      var k :| 0 <= k < |scores| && scores[k] == best;
      assert dayCerts[k] in dayCerts;
      Some(best)
  }

  /** What `BestScore` promises, over a plain value. */
  ghost predicate BestOf(certs: seq<CertificateRecord>, dayNumber: int, r: Option<int>) {
    && (r.None? <==> forall c :: c in certs ==> c.dayNumber != dayNumber)
    && (r.Some? ==> IsBest(certs, dayNumber, r.value))
  }

  lemma BestOfAdd(cert: CertificateRecord, certs: seq<CertificateRecord>, dayNumber: int, before: Option<int>, after: Option<int>)
    requires BestOf(certs, dayNumber, before) && BestOf([cert] + certs, dayNumber, after)
    ensures cert.dayNumber != dayNumber ==> after == before
    ensures cert.dayNumber == dayNumber ==>
      after == Some(if before.Some? then Max(cert.score, before.value) else cert.score)
  {
    assert forall c :: c in [cert] + certs <==> c == cert || c in certs;
    if after.Some? {
      var y :| y in [cert] + certs && y.dayNumber == dayNumber && y.score == after.value;
      if before.Some? {
        var x :| x in certs && x.dayNumber == dayNumber && x.score == before.value;
        assert x.score <= after.value;
      }
    }
  }

  /** A new certificate for the day raises its best score to the new score
      when that is higher; a certificate for another day leaves it alone. */
  lemma BestScoreAfterAdd(cert: CertificateRecord, certs: seq<CertificateRecord>, dayNumber: int)
    ensures cert.dayNumber != dayNumber ==> BestScore([cert] + certs, dayNumber) == BestScore(certs, dayNumber)
    ensures cert.dayNumber == dayNumber ==> (BestScore([cert] + certs, dayNumber) ==
      Some(if BestScore(certs, dayNumber).Some? then Max(cert.score, BestScore(certs, dayNumber).value) else cert.score))
  {
    BestOfAdd(cert, certs, dayNumber, BestScore(certs, dayNumber), BestScore([cert] + certs, dayNumber));
  }

  /** The certificate list kept in storage. */
  class CertificateStore {
    var certs: seq<CertificateRecord>

    constructor()
      ensures certs == []
    {
      certs := [];
    }

    /** `addCertificate`: the new certificate goes first, the rest follow unchanged. */
    method AddCertificate(cert: CertificateRecord)
      modifies this
      ensures certs == [cert] + old(certs)
    {
      certs := [cert] + certs;
    }
  }

  /** After adding a certificate, its juz lists it first, ahead of the
      previous ones in their order; other juz are unchanged. */
  lemma AddedFirstInJuz(cert: CertificateRecord, certs: seq<CertificateRecord>, juz: int)
    ensures CertificatesByJuz([cert] + certs, juz) ==
      (if cert.juz == juz then [cert] else []) + CertificatesByJuz(certs, juz)
  {
    ByJuzKeepsOrder([cert], certs, juz);
  }
}
