/**
 * The relation algebra of Yoakke.Collections.Intervals: the seven shapes
 * two intervals can relate by, and their equality under a caller-supplied
 * comparer. Bounds and intervals are minimal stand-ins: a bound is
 * unbounded, inclusive or exclusive, and two bounds are equal under a
 * comparer when they are of the same kind and their values compare 0.
 */
module Intervals {
  import opened Numbers

  datatype Bound<T> = Unbounded | Inclusive(value: T) | Exclusive(value: T)

  datatype Interval<T> = Interval(lower: Bound<T>, upper: Bound<T>)

  /** Bound equality under a comparer. */
  predicate BoundEquals<T>(a: Bound<T>, b: Bound<T>, cmp: (T, T) -> int) {
    match (a, b)
    case (Unbounded, Unbounded) => true
    case (Inclusive(x), Inclusive(y)) => cmp(x, y) == 0
    case (Exclusive(x), Exclusive(y)) => cmp(x, y) == 0
    case _ => false
  }

  /** Interval equality under a comparer: both bounds are equal. */
  predicate IntervalEquals<T>(a: Interval<T>, b: Interval<T>, cmp: (T, T) -> int) {
    BoundEquals(a.lower, b.lower, cmp) && BoundEquals(a.upper, b.upper, cmp)
  }

  /** The seven relation shapes, each holding its named pieces. */
  datatype IntervalRelation<T> =
    | Disjunct(first: Interval<T>, second: Interval<T>)
    | Touching(first: Interval<T>, second: Interval<T>)
    | Overlapping(firstDisjunct: Interval<T>, overlap: Interval<T>, secondDisjunct: Interval<T>)
    | Containing(firstDisjunct: Interval<T>, contained: Interval<T>, secondDisjunct: Interval<T>)
    | Starting(overlap: Interval<T>, disjunct: Interval<T>)
    | Finishing(disjunct: Interval<T>, overlap: Interval<T>)
    | Equal(interval: Interval<T>)

  /** Which of the seven shapes a relation has. */
  function Variant<T>(r: IntervalRelation<T>): nat {
    match r
    case Disjunct(_, _) => 0
    case Touching(_, _) => 1
    case Overlapping(_, _, _) => 2
    case Containing(_, _, _) => 3
    case Starting(_, _) => 4
    case Finishing(_, _) => 5
    case Equal(_) => 6
  }

  /** The pieces of a relation in declaration order of its fields. */
  function Pieces<T>(r: IntervalRelation<T>): seq<Interval<T>> {
    match r
    case Disjunct(a, b) => [a, b]
    case Touching(a, b) => [a, b]
    case Overlapping(a, b, c) => [a, b, c]
    case Containing(a, b, c) => [a, b, c]
    case Starting(a, b) => [a, b]
    case Finishing(a, b) => [a, b]
    case Equal(a) => [a]
  }

  /**
   * `Equals(other, comparer)`: the other relation is of the same variant
   * and every named piece is equal under the comparer.
   */
  predicate EqualsWith<T>(a: IntervalRelation<T>, b: IntervalRelation<T>, cmp: (T, T) -> int) {
    match (a, b)
    case (Disjunct(f, s), Disjunct(f', s')) => IntervalEquals(f, f', cmp) && IntervalEquals(s, s', cmp)
    case (Touching(f, s), Touching(f', s')) => IntervalEquals(f, f', cmp) && IntervalEquals(s, s', cmp)
    case (Overlapping(f, o, s), Overlapping(f', o', s')) =>
      IntervalEquals(f, f', cmp) && IntervalEquals(o, o', cmp) && IntervalEquals(s, s', cmp)
    case (Containing(f, c, s), Containing(f', c', s')) =>
      IntervalEquals(f, f', cmp) && IntervalEquals(c, c', cmp) && IntervalEquals(s, s', cmp)
    case (Starting(o, d), Starting(o', d')) => IntervalEquals(o, o', cmp) && IntervalEquals(d, d', cmp)
    case (Finishing(d, o), Finishing(d', o')) => IntervalEquals(o, o', cmp) && IntervalEquals(d, d', cmp)
    case (Equal(i), Equal(i')) => IntervalEquals(i, i', cmp)
    case _ => false
  }

  /** `Equals(IntervalRelation<T>)` uses `Comparer<T>.Default`; for int that is Int32.CompareTo. */
  function Equals(a: IntervalRelation<int>, b: IntervalRelation<int>): (r: bool)
    ensures r <==> a == b
  {
    IntervalEqualityIsStructural(a, b, CompareInt);
    EqualsWith(a, b, CompareInt)
  }

  /** What `Equals(object)` can receive: a relation or some other object. */
  datatype RelationObject = AnyRelation(relation: IntervalRelation<int>) | NotARelation

  /** `Equals(object)`: only a relation can be equal. */
  function EqualsObject(a: IntervalRelation<int>, obj: RelationObject): (r: bool)
    ensures r <==> obj == AnyRelation(a)
  {
    match obj
    case AnyRelation(b) => Equals(a, b)
    case NotARelation => false
  }

  /** Operator `==`. */
  function Eq(a: IntervalRelation<int>, b: IntervalRelation<int>): (r: bool)
    ensures r <==> a == b
  {
    Equals(a, b)
  }

  /** Operator `!=`, the negation of `==`. */
  function NotEq(a: IntervalRelation<int>, b: IntervalRelation<int>): (r: bool)
    ensures r <==> !Eq(a, b)
  {
    !Equals(a, b)
  }

  /** Relation equality compares the shape, then every named piece in order. */
  lemma {:induction false} EqualsWithIsPiecewise<T>(a: IntervalRelation<T>, b: IntervalRelation<T>, cmp: (T, T) -> int)
    ensures EqualsWith(a, b, cmp) <==>
      && Variant(a) == Variant(b)
      && |Pieces(a)| == |Pieces(b)|
      && forall i :: 0 <= i < |Pieces(a)| ==> IntervalEquals(Pieces(a)[i], Pieces(b)[i], cmp)
  {
    var p, q := Pieces(a), Pieces(b);
    if Variant(a) == Variant(b) {
      assert |p| == |q|;
      assert IntervalEquals(p[0], q[0], cmp) <==> IntervalEquals(Pieces(a)[0], Pieces(b)[0], cmp);
      if |p| >= 2 {
        assert IntervalEquals(p[1], q[1], cmp) <==> IntervalEquals(Pieces(a)[1], Pieces(b)[1], cmp);
      }
      if |p| == 3 {
        assert IntervalEquals(p[2], q[2], cmp) <==> IntervalEquals(Pieces(a)[2], Pieces(b)[2], cmp);
      }
    }
  }

  /** A comparer whose zero is exactly equality makes relation equality structural. */
  lemma IntervalEqualityIsStructural<T>(a: IntervalRelation<T>, b: IntervalRelation<T>, cmp: (T, T) -> int)
    requires forall x, y :: cmp(x, y) == 0 <==> x == y
    ensures EqualsWith(a, b, cmp) <==> a == b
  {
  }

  // The repository's `Interval<T>.RelationTo` is not part of this model. Its
  // behaviour is pinned by the assertions of the interval test suite below.

  /** `lo..hi` in the tests: inclusive lower, exclusive upper bound. */
  function HalfOpen(lo: int, hi: int): Interval<int> {
    Interval(Inclusive(lo), Exclusive(hi))
  }

  /** `lo..=hi` in the tests: both bounds inclusive. */
  function Closed(lo: int, hi: int): Interval<int> {
    Interval(Inclusive(lo), Inclusive(hi))
  }

  /**
   * `relationTo` satisfies every assertion of the interval tests: each
   * expected relation `Equals` the computed one, in both argument orders.
   * `Equals` on int relations is structural equality (its contract), so
   * the assertions are stated with `==`.
   */
  ghost predicate PinnedByTests(relationTo: (Interval<int>, Interval<int>) -> IntervalRelation<int>) {
    PinnedApartOrAtEdge(relationTo) && PinnedOverlapping(relationTo)
  }

  /** The assertions on disjunct, touching, starting and finishing pairs. */
  ghost predicate PinnedApartOrAtEdge(relationTo: (Interval<int>, Interval<int>) -> IntervalRelation<int>) {
    && Disjunct(HalfOpen(1, 4), HalfOpen(5, 7)) == relationTo(HalfOpen(1, 4), HalfOpen(5, 7))
    && Disjunct(HalfOpen(1, 4), HalfOpen(5, 7)) == relationTo(HalfOpen(5, 7), HalfOpen(1, 4))
    && Touching(HalfOpen(1, 4), HalfOpen(4, 7)) == relationTo(HalfOpen(1, 4), HalfOpen(4, 7))
    && Touching(HalfOpen(1, 4), HalfOpen(4, 7)) == relationTo(HalfOpen(4, 7), HalfOpen(1, 4))
    && Starting(HalfOpen(4, 6), HalfOpen(6, 8)) == relationTo(HalfOpen(4, 8), HalfOpen(4, 6))
    && Starting(HalfOpen(4, 6), HalfOpen(6, 8)) == relationTo(HalfOpen(4, 6), HalfOpen(4, 8))
    && Finishing(HalfOpen(4, 6), HalfOpen(6, 8)) == relationTo(HalfOpen(6, 8), HalfOpen(4, 8))
    && Finishing(HalfOpen(4, 6), HalfOpen(6, 8)) == relationTo(HalfOpen(4, 8), HalfOpen(6, 8))
  }

  /** The assertions on overlapping and containing pairs. */
  ghost predicate PinnedOverlapping(relationTo: (Interval<int>, Interval<int>) -> IntervalRelation<int>) {
    && Overlapping(HalfOpen(4, 6), Closed(6, 6), Interval(Exclusive(6), Exclusive(8))) == relationTo(Closed(4, 6), HalfOpen(6, 8))
    && Overlapping(HalfOpen(4, 6), Closed(6, 6), Interval(Exclusive(6), Exclusive(8))) == relationTo(HalfOpen(6, 8), Closed(4, 6))
    && Containing(HalfOpen(2, 4), HalfOpen(4, 7), HalfOpen(7, 10)) == relationTo(HalfOpen(2, 10), HalfOpen(4, 7))
    && Containing(HalfOpen(2, 4), HalfOpen(4, 7), HalfOpen(7, 10)) == relationTo(HalfOpen(4, 7), HalfOpen(2, 10))
    && Overlapping(HalfOpen(2, 4), HalfOpen(4, 7), HalfOpen(7, 9)) == relationTo(HalfOpen(2, 7), HalfOpen(4, 9))
    && Overlapping(HalfOpen(2, 4), HalfOpen(4, 7), HalfOpen(7, 9)) == relationTo(HalfOpen(4, 9), HalfOpen(2, 7))
  }

  /** The test assertions do not contradict each other: some classifier meets all of them. */
  lemma TestAssertionsAreConsistent()
    ensures exists relationTo :: PinnedByTests(relationTo)
  {
    TableApartOrAtEdge();
    TableOverlapping();
    assert PinnedByTests(TestTable);
  }

  lemma TableApartOrAtEdge()
    ensures PinnedApartOrAtEdge(TestTable)
  {
    var h14, h57, h47 := HalfOpen(1, 4), HalfOpen(5, 7), HalfOpen(4, 7);
    var h48, h46, h68 := HalfOpen(4, 8), HalfOpen(4, 6), HalfOpen(6, 8);
  }

  lemma TableOverlapping()
    ensures PinnedOverlapping(TestTable)
  {
    var h48, h46, h68 := HalfOpen(4, 8), HalfOpen(4, 6), HalfOpen(6, 8);
    var c46, h210, h27, h49, h47 := Closed(4, 6), HalfOpen(2, 10), HalfOpen(2, 7), HalfOpen(4, 9), HalfOpen(4, 7);
  }

  /** A lookup table returning the expected relation for every tested pair. */
  function TestTable(a: Interval<int>, b: Interval<int>): IntervalRelation<int> {
    if (a, b) == (HalfOpen(1, 4), HalfOpen(5, 7)) || (a, b) == (HalfOpen(5, 7), HalfOpen(1, 4)) then
      Disjunct(HalfOpen(1, 4), HalfOpen(5, 7))
    else if (a, b) == (HalfOpen(1, 4), HalfOpen(4, 7)) || (a, b) == (HalfOpen(4, 7), HalfOpen(1, 4)) then
      Touching(HalfOpen(1, 4), HalfOpen(4, 7))
    else if (a, b) == (HalfOpen(4, 8), HalfOpen(4, 6)) || (a, b) == (HalfOpen(4, 6), HalfOpen(4, 8)) then
      Starting(HalfOpen(4, 6), HalfOpen(6, 8))
    else if (a, b) == (HalfOpen(6, 8), HalfOpen(4, 8)) || (a, b) == (HalfOpen(4, 8), HalfOpen(6, 8)) then
      Finishing(HalfOpen(4, 6), HalfOpen(6, 8))
    else if (a, b) == (Closed(4, 6), HalfOpen(6, 8)) || (a, b) == (HalfOpen(6, 8), Closed(4, 6)) then
      Overlapping(HalfOpen(4, 6), Closed(6, 6), Interval(Exclusive(6), Exclusive(8)))
    else if (a, b) == (HalfOpen(2, 10), HalfOpen(4, 7)) || (a, b) == (HalfOpen(4, 7), HalfOpen(2, 10)) then
      Containing(HalfOpen(2, 4), HalfOpen(4, 7), HalfOpen(7, 10))
    else
      Overlapping(HalfOpen(2, 4), HalfOpen(4, 7), HalfOpen(7, 9))
  }

  /** A pinned classifier is insensitive to argument order on every tested pair. */
  lemma PinnedIsOrderInsensitive(relationTo: (Interval<int>, Interval<int>) -> IntervalRelation<int>)
    requires PinnedByTests(relationTo)
    ensures relationTo(HalfOpen(1, 4), HalfOpen(5, 7)) == relationTo(HalfOpen(5, 7), HalfOpen(1, 4))
    ensures relationTo(HalfOpen(1, 4), HalfOpen(4, 7)) == relationTo(HalfOpen(4, 7), HalfOpen(1, 4))
    ensures relationTo(HalfOpen(4, 8), HalfOpen(4, 6)) == relationTo(HalfOpen(4, 6), HalfOpen(4, 8))
    ensures relationTo(HalfOpen(6, 8), HalfOpen(4, 8)) == relationTo(HalfOpen(4, 8), HalfOpen(6, 8))
    ensures relationTo(Closed(4, 6), HalfOpen(6, 8)) == relationTo(HalfOpen(6, 8), Closed(4, 6))
    ensures relationTo(HalfOpen(2, 10), HalfOpen(4, 7)) == relationTo(HalfOpen(4, 7), HalfOpen(2, 10))
    ensures relationTo(HalfOpen(2, 7), HalfOpen(4, 9)) == relationTo(HalfOpen(4, 9), HalfOpen(2, 7))
  {
  }

  /**
   * Two neighbouring pieces meet at a cut: the value is shared and exactly
   * one side includes it.
   */
  ghost predicate MeetAtCut(left: Interval<int>, right: Interval<int>) {
    || (left.upper.Exclusive? && right.lower.Inclusive? && left.upper.value == right.lower.value)
    || (left.upper.Inclusive? && right.lower.Exclusive? && left.upper.value == right.lower.value)
  }

  /**
   * On every tested pair, the pieces a pinned classifier returns for the
   * touching, starting, finishing, overlapping and containing shapes meet
   * at cuts that keep the bound kind of the endpoint they come from, and the
   * disjunct pieces are ordered earlier-first with a gap between them.
   */
  lemma PinnedPiecesMeetAtCuts(relationTo: (Interval<int>, Interval<int>) -> IntervalRelation<int>)
    requires PinnedByTests(relationTo)
    ensures forall a, b | (a, b) in TestedPairs() ::
      var r := relationTo(a, b);
      forall i | 0 <= i < |Pieces(r)| - 1 :: r.Disjunct? || MeetAtCut(Pieces(r)[i], Pieces(r)[i + 1])
    ensures var d := relationTo(HalfOpen(5, 7), HalfOpen(1, 4));
      d.Disjunct? && d.first.upper.value < d.second.lower.value
  {
  }

  /** The argument pairs the interval tests classify. */
  function TestedPairs(): set<(Interval<int>, Interval<int>)> {
    {
      (HalfOpen(1, 4), HalfOpen(5, 7)), (HalfOpen(5, 7), HalfOpen(1, 4)),
      (HalfOpen(1, 4), HalfOpen(4, 7)), (HalfOpen(4, 7), HalfOpen(1, 4)),
      (HalfOpen(4, 8), HalfOpen(4, 6)), (HalfOpen(4, 6), HalfOpen(4, 8)),
      (HalfOpen(6, 8), HalfOpen(4, 8)), (HalfOpen(4, 8), HalfOpen(6, 8)),
      (Closed(4, 6), HalfOpen(6, 8)), (HalfOpen(6, 8), Closed(4, 6)),
      (HalfOpen(2, 10), HalfOpen(4, 7)), (HalfOpen(4, 7), HalfOpen(2, 10)),
      (HalfOpen(2, 7), HalfOpen(4, 9)), (HalfOpen(4, 9), HalfOpen(2, 7))
    }
  }
}
