/**
 * Severity levels of Yoakke.Reporting. A level has a name and a priority,
 * but its identity (equality, ordering, hash) is its priority alone.
 */
module Reporting {

  datatype Severity = Severity(name: string, priority: int)
  {
    /** `Equals(Severity)`: the name is ignored. */
    function Equals(other: Severity): (r: bool)
      ensures r <==> priority == other.priority
      ensures name != other.name && r ==> this != other
    {
      priority == other.priority
    }

    /** `Equals(object)`: a value that is not a Severity is never equal. */
    function EqualsObject(obj: SeverityObject): (r: bool)
      ensures r <==> obj.AnySeverity? && obj.severity.priority == priority
    {
      match obj
      case AnySeverity(s) => Equals(s)
      case NotASeverity => false
    }

    /** The hash of the priority; Int32.GetHashCode is the value itself. */
    function GetHashCode(): int
    {
      priority
    }

    /** `Priority - other.Priority` (without 32-bit wrap-around). */
    function CompareTo(other: Severity): (r: int)
      ensures r < 0 <==> priority < other.priority
      ensures r == 0 <==> Equals(other)
      ensures r > 0 <==> priority > other.priority
    {
      priority - other.priority
    }

    /** Operator `==`. */
    function Eq(other: Severity): (r: bool)
      ensures r <==> Equals(other)
    {
      Equals(other)
    }

    /** Operator `!=`. */
    function NotEq(other: Severity): (r: bool)
      ensures r <==> !Equals(other)
    {
      !Equals(other)
    }

    /** Operator `<`. */
    function Less(other: Severity): (r: bool)
      ensures r <==> priority < other.priority
    {
      CompareTo(other) < 0
    }

    /** Operator `<=`. */
    function LessEq(other: Severity): (r: bool)
      ensures r <==> priority <= other.priority
    {
      CompareTo(other) <= 0
    }

    /** Operator `>`. */
    function Greater(other: Severity): (r: bool)
      ensures r <==> priority > other.priority
    {
      CompareTo(other) > 0
    }

    /** Operator `>=`. */
    function GreaterEq(other: Severity): (r: bool)
      ensures r <==> priority >= other.priority
    {
      CompareTo(other) >= 0
    }
  }

  /** What `Equals(object)` can receive: a boxed Severity or anything else. */
  datatype SeverityObject = AnySeverity(severity: Severity) | NotASeverity

  const Note: Severity := Severity("note", 0)
  const Help: Severity := Severity("help", 1)
  const Warning: Severity := Severity("warning", 2)
  const Error: Severity := Severity("error", 3)
  const InternalError: Severity := Severity("internal error", 4)

  /** The predefined levels are strictly ordered and pairwise distinct. */
  lemma PredefinedLevelsOrdered()
    ensures Note.Less(Help) && Help.Less(Warning) && Warning.Less(Error) && Error.Less(InternalError)
    ensures Note.NotEq(InternalError) && Help.NotEq(Error)
  {
  }

  /** Two levels with the same priority are equal whatever their names. */
  lemma SamePriorityIsSameLevel(a: Severity, name: string)
    ensures a.Eq(Severity(name, a.priority))
    ensures a.GetHashCode() == Severity(name, a.priority).GetHashCode()
  {
  }

  /** Equal levels hash equally. */
  lemma EqualLevelsHashEqually(a: Severity, b: Severity)
    requires a.Equals(b)
    ensures a.GetHashCode() == b.GetHashCode()
  {
  }

  /** The comparison operators are mutually consistent with CompareTo. */
  lemma OperatorsAgree(a: Severity, b: Severity)
    ensures a.LessEq(b) <==> a.Less(b) || a.Eq(b)
    ensures a.Greater(b) <==> b.Less(a)
    ensures a.GreaterEq(b) <==> !a.Less(b)
    ensures a.Eq(b) <==> !a.NotEq(b)
  {
  }
}
