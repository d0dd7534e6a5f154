/** The table of the thirty juz and the lookup of the juz holding an ayah
    (src/data/juz-boundaries.ts). Positions are (surah, ayah) pairs compared
    lexicographically. */
module JuzBoundaries {

  datatype Position = Position(surah: int, ayah: int)

  datatype Boundary = Boundary(juz: int, start: Position, end: Position)

  /** `a` comes no later than `b`. */
  predicate NotAfter(a: Position, b: Position) {
    a.surah < b.surah || (a.surah == b.surah && a.ayah <= b.ayah)
  }

  predicate Before(a: Position, b: Position) {
    a.surah < b.surah || (a.surah == b.surah && a.ayah < b.ayah)
  }

  const Table: seq<Boundary> := [
    Boundary(1, Position(1, 1), Position(2, 141)),
    Boundary(2, Position(2, 142), Position(2, 252)),
    Boundary(3, Position(2, 253), Position(3, 92)),
    Boundary(4, Position(3, 93), Position(4, 23)),
    Boundary(5, Position(4, 24), Position(4, 147)),
    Boundary(6, Position(4, 148), Position(5, 81)),
    Boundary(7, Position(5, 82), Position(6, 110)),
    Boundary(8, Position(6, 111), Position(7, 87)),
    Boundary(9, Position(7, 88), Position(8, 40)),
    Boundary(10, Position(8, 41), Position(9, 92)),
    Boundary(11, Position(9, 93), Position(11, 5)),
    Boundary(12, Position(11, 6), Position(12, 52)),
    Boundary(13, Position(12, 53), Position(14, 52)),
    Boundary(14, Position(15, 1), Position(16, 128)),
    Boundary(15, Position(17, 1), Position(18, 74)),
    Boundary(16, Position(18, 75), Position(20, 135)),
    Boundary(17, Position(21, 1), Position(22, 78)),
    Boundary(18, Position(23, 1), Position(25, 20)),
    Boundary(19, Position(25, 21), Position(27, 55)),
    Boundary(20, Position(27, 56), Position(29, 45)),
    Boundary(21, Position(29, 46), Position(33, 30)),
    Boundary(22, Position(33, 31), Position(36, 27)),
    Boundary(23, Position(36, 28), Position(39, 31)),
    Boundary(24, Position(39, 32), Position(41, 46)),
    Boundary(25, Position(41, 47), Position(45, 37)),
    Boundary(26, Position(46, 1), Position(51, 30)),
    Boundary(27, Position(51, 31), Position(57, 29)),
    Boundary(28, Position(58, 1), Position(66, 12)),
    Boundary(29, Position(67, 1), Position(77, 50)),
    Boundary(30, Position(78, 1), Position(114, 6))
  ]

  predicate Contains(b: Boundary, pos: Position) {
    NotAfter(b.start, pos) && NotAfter(pos, b.end)
  }

  /** The table lists juz 1 to 30 in order, each range non-empty and each
      ending before the next begins. */
  ghost predicate Ordered(t: seq<Boundary>) {
    && (forall i :: 0 <= i < |t| ==> t[i].juz == i + 1 && NotAfter(t[i].start, t[i].end))
    && (forall i :: 0 <= i < |t| - 1 ==> Before(t[i].end, t[i + 1].start))
  }

  /** Juz 1 to 10 are numbered, non-empty and each ends before the next begins. */
  lemma JuzOneToTen()
    ensures forall i :: 0 <= i < 10 ==> Table[i].juz == i + 1 && NotAfter(Table[i].start, Table[i].end)
    ensures forall i :: 0 <= i < 10 ==> Before(Table[i].end, Table[i + 1].start)
  {}

  /** The same for juz 11 to 20. */
  lemma JuzElevenToTwenty()
    ensures forall i :: 10 <= i < 20 ==> Table[i].juz == i + 1 && NotAfter(Table[i].start, Table[i].end)
    ensures forall i :: 10 <= i < 20 ==> Before(Table[i].end, Table[i + 1].start)
  {}

  /** The same for juz 21 to 30. */
  lemma JuzTwentyOneToThirty()
    ensures forall i :: 20 <= i < 30 ==> Table[i].juz == i + 1 && NotAfter(Table[i].start, Table[i].end)
    ensures forall i :: 20 <= i < 29 ==> Before(Table[i].end, Table[i + 1].start)
  {}

  lemma TableOrdered()
    ensures |Table| == 30 && Ordered(Table)
  {
    JuzOneToTen();
    JuzElevenToTwenty();
    JuzTwentyOneToThirty();
  }

  lemma {:induction false} BeforeTransitive(t: seq<Boundary>, i: int, j: int)
    requires Ordered(t) && 0 <= i < j < |t|
    ensures Before(t[i].end, t[j].start)
    decreases j - i
  {
    if j > i + 1 {
      BeforeTransitive(t, i, j - 1);
    }
  }

  /** The loop of `getJuzForAyah` from entry `i` on: the juz of the first
      entry containing the position. */
  function FindFrom(t: seq<Boundary>, i: nat, pos: Position): (r: int)
    requires i <= |t|
    ensures (exists k :: i <= k < |t| && Contains(t[k], pos)) ==>
      exists k :: i <= k < |t| && Contains(t[k], pos) && r == t[k].juz &&
        forall m :: i <= m < k ==> !Contains(t[m], pos)
    ensures (forall k :: i <= k < |t| ==> !Contains(t[k], pos)) ==> r == 1
    decreases |t| - i
  {
    if i == |t| then 1
    else if Contains(t[i], pos) then t[i].juz
    else FindFrom(t, i + 1, pos)
  }

  /** `getJuzForAyah`: 1 when no entry contains the position. */
  function JuzForAyah(surah: int, ayah: int): (r: int)
    ensures (exists k :: 0 <= k < |Table| && Contains(Table[k], Position(surah, ayah))) ==>
      exists k :: 0 <= k < |Table| && Contains(Table[k], Position(surah, ayah)) && r == Table[k].juz
    ensures (forall k :: 0 <= k < |Table| ==> !Contains(Table[k], Position(surah, ayah))) ==> r == 1
    ensures 1 <= r <= 30
  {
    TableOrdered();
    FindFrom(Table, 0, Position(surah, ayah))
  }

  /** The containing entry is unique: its juz is the one found. */
  lemma ContainedIn(k: int, pos: Position)
    requires 0 <= k < |Table| && Contains(Table[k], pos)
    ensures JuzForAyah(pos.surah, pos.ayah) == k + 1
  {
    TableOrdered();
    var r := JuzForAyah(pos.surah, pos.ayah);
    var m :| 0 <= m < |Table| && Contains(Table[m], pos) && r == Table[m].juz;
    if m < k { BeforeTransitive(Table, m, k); }
    if k < m { BeforeTransitive(Table, k, m); }
  }

  /** Over positions the table covers, the juz never decreases. */
  lemma JuzMonotone(a: Position, b: Position, i: int, j: int)
    requires 0 <= i < |Table| && Contains(Table[i], a)
    requires 0 <= j < |Table| && Contains(Table[j], b)
    requires NotAfter(a, b)
    ensures JuzForAyah(a.surah, a.ayah) <= JuzForAyah(b.surah, b.ayah)
  {
    TableOrdered();
    ContainedIn(i, a);
    ContainedIn(j, b);
    if j < i { BeforeTransitive(Table, j, i); }
  }

  /** A position after the last ayah of the table falls back to juz 1. */
  lemma PastEndIsFirst(pos: Position)
    requires Before(Table[29].end, pos)
    ensures JuzForAyah(pos.surah, pos.ayah) == 1
  {
    TableOrdered();
    forall k | 0 <= k < 29 ensures !Contains(Table[k], pos) {
      BeforeTransitive(Table, k, 29);
    }
  }

  lemma SpotValues()
    ensures JuzForAyah(1, 1) == 1
    ensures JuzForAyah(2, 142) == 2
    ensures JuzForAyah(114, 6) == 30
    ensures JuzForAyah(114, 7) == 1
  {
    ContainedIn(0, Position(1, 1));
    ContainedIn(1, Position(2, 142));
    ContainedIn(29, Position(114, 6));
    PastEndIsFirst(Position(114, 7));
  }
}
