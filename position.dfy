/**
 * The 2D text position of Yoakke.Text: a 0-based line and column, ordered
 * lexicographically, plus the range of two positions that the C lexer builds
 * for its tokens.
 */
module Text {
  import opened Numbers

  /** A position: 0-based line index and 0-based column index, both Int32. */
  datatype Position = Position(line: Int32, column: Int32)
  {
    /** The lexicographic order on (line, column) that CompareTo decides. */
    ghost predicate Before(other: Position) {
      line < other.line || (line == other.line && column < other.column)
    }

    /** Three-way comparison: the line decides, the column only on equal lines. */
    function CompareTo(other: Position): (r: int)
      ensures r == -1 || r == 0 || r == 1
      ensures r < 0 <==> Before(other)
      ensures r > 0 <==> other.Before(this)
      ensures r == 0 <==> this == other
    {
      var l := CompareInt(line, other.line);
      if l == 0 then CompareInt(column, other.column) else l
    }

    /** `Equals(Position)`, which compares through CompareTo. */
    function Equals(other: Position): (r: bool)
      ensures r <==> line == other.line && column == other.column
    {
      CompareTo(other) == 0
    }

    /** `Equals(object)`: a value that is not a Position is never equal. */
    function EqualsObject(obj: PositionObject): (r: bool)
      ensures r <==> obj.AnyPosition? && obj.position == this
    {
      match obj
      case AnyPosition(p) => Equals(p)
      case NotAPosition => false
    }

    /** Operator `==`. */
    function Eq(other: Position): (r: bool)
      ensures r <==> this == other
    {
      CompareTo(other) == 0
    }

    /** Operator `!=`. */
    function NotEq(other: Position): (r: bool)
      ensures r <==> this != other
    {
      CompareTo(other) != 0
    }

    /** Operator `<`. */
    function Less(other: Position): (r: bool)
      ensures r <==> Before(other)
    {
      CompareTo(other) < 0
    }

    /** Operator `>`. */
    function Greater(other: Position): (r: bool)
      ensures r <==> other.Before(this)
    {
      CompareTo(other) > 0
    }

    /** Operator `<=`. */
    function LessEq(other: Position): (r: bool)
      ensures r <==> Before(other) || this == other
    {
      CompareTo(other) <= 0
    }

    /** Operator `>=`. */
    function GreaterEq(other: Position): (r: bool)
      ensures r <==> other.Before(this) || this == other
    {
      CompareTo(other) >= 0
    }

    /**
     * The position `amount` columns further in the same line. The column is
     * an Int32 added without an overflow check, so past Int32.MaxValue it
     * wraps around to negative columns.
     */
    function Advance(amount: int := 1): (r: Position)
      ensures r.line == line
      ensures Int32Min <= column + amount <= Int32Max ==> r.column == column + amount
      ensures Int32Max < column + amount <= Int32Max + 0x1_0000_0000 ==> r.column == column + amount - 0x1_0000_0000
    {
      Position(line, WrapInt32(column + amount))
    }

    /** The first column of the next line; the line index wraps like Advance's column. */
    function Newline(): (r: Position)
      ensures r.column == 0
      ensures line < Int32Max ==> r.line == line + 1
      ensures line == Int32Max ==> r.line == Int32Min
    {
      Position(WrapInt32(line + 1), 0)
    }
  }

  /** What `Equals(object)` can receive: a boxed Position or anything else. */
  datatype PositionObject = AnyPosition(position: Position) | NotAPosition

  /** A range of two positions, as `new Range(start, end)` builds it. */
  datatype Range = Range(start: Position, end: Position)

  /** CompareTo is antisymmetric: swapping the arguments negates the result. */
  lemma CompareToAntisymmetric(p: Position, q: Position)
    ensures p.CompareTo(q) == -q.CompareTo(p)
  {
  }

  /** CompareTo is transitive on "less than". */
  lemma CompareToTransitive(p: Position, q: Position, s: Position)
    requires p.CompareTo(q) < 0 && q.CompareTo(s) < 0
    ensures p.CompareTo(s) < 0
  {
  }

  /** Below the last Int32 line, a newline lands strictly after the position it started from. */
  lemma NewlineIsGreater(p: Position)
    requires p.line < Int32Max
    ensures p.Newline().Greater(p) && p.Newline().column == 0
  {
  }

  /** Advancing by a positive amount that keeps the column an Int32 lands strictly after the start. */
  lemma AdvanceIsGreater(p: Position, n: int)
    requires n > 0 && p.column + n <= Int32Max
    ensures p.Advance(n).Greater(p) && p.Advance(n).line == p.line
  {
  }

  /** On the last Int32 line, a newline wraps around to a position before the start. */
  lemma NewlineWrapsOnLastLine(p: Position)
    requires p.line == Int32Max
    ensures p.Newline().Less(p) && p.Newline().line == Int32Min
  {
  }

  /** Advancing past the last Int32 column wraps around to a position before the start. */
  lemma AdvanceWrapsPastLastColumn(p: Position, n: int)
    requires 0 < n <= Int32Max && p.column + n > Int32Max
    ensures p.Advance(n).Less(p) && p.Advance(n).line == p.line
  {
  }

  /** The default amount of Advance is one column. */
  lemma AdvanceDefaultIsOne(p: Position)
    requires p.column < Int32Max
    ensures p.Advance() == Position(p.line, p.column + 1)
  {
  }
}
