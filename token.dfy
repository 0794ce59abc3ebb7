/**
 * The tagged token of Yoakke.Lexer: a source range, the text it was lexed
 * from and a kind tag. The range type is opaque here (a type parameter that
 * only supports equality).
 */
module Lexer {
  import opened Wrappers

  datatype Token<R(==), K(==)> = Token(range: R, text: string, kind: K)
  {
    /** `Equals(Token<TKind>?)`: no token equals null; otherwise all three parts are compared. */
    function Equals(other: Option<Token<R, K>>): (r: bool)
      ensures r <==> other == Some(this)
    {
      other.Some? && range == other.value.range && text == other.value.text && kind == other.value.kind
    }

    /** `Equals(object)` and `Equals(IToken)`: cast with `as Token<TKind>`, then compare. */
    function EqualsObject(obj: TokenObject<R, K>): (r: bool)
      ensures r <==> obj == SameKindToken(this)
    {
      Equals(AsToken(obj))
    }

    /** `HashCode.Combine(Range, Text)` for a given (runtime-seeded) combiner. */
    function GetHashCode(combine: (R, string) -> int): int
    {
      combine(range, text)
    }
  }

  /**
   * What `Equals(object)` or `Equals(IToken)` can receive: null, a
   * `Token<TKind>`, or some other object (another token type included).
   */
  datatype TokenObject<R(==), K(==)> = NullObject | SameKindToken(token: Token<R, K>) | OtherObject

  /** The `as Token<TKind>` cast: null unless the object is a `Token<TKind>`. */
  function AsToken<R(==), K(==)>(obj: TokenObject<R, K>): (r: Option<Token<R, K>>)
    ensures r.Some? <==> obj.SameKindToken?
  {
    match obj
    case SameKindToken(t) => Some(t)
    case _ => None
  }

  /** Equal tokens hash equally under every combiner. */
  lemma EqualTokensHashEqually<R, K>(a: Token<R, K>, b: Token<R, K>, combine: (R, string) -> int)
    requires a.Equals(Some(b))
    ensures a.GetHashCode(combine) == b.GetHashCode(combine)
  {
  }

  /** The hash does not depend on the kind. */
  lemma HashIgnoresKind<R, K>(t: Token<R, K>, k: K, combine: (R, string) -> int)
    ensures t.GetHashCode(combine) == Token(t.range, t.text, k).GetHashCode(combine)
  {
  }

  /** Null and non-token objects are never equal to a token. */
  lemma NeverEqualsNonToken<R, K>(t: Token<R, K>)
    ensures !t.Equals(None)
    ensures !t.EqualsObject(NullObject) && !t.EqualsObject(OtherObject)
  {
  }

  /** Token equality is an equivalence: it is symmetric and transitive. */
  lemma EqualsIsEquivalence<R, K>(a: Token<R, K>, b: Token<R, K>, c: Token<R, K>)
    ensures a.Equals(Some(a))
    ensures a.Equals(Some(b)) ==> b.Equals(Some(a))
    ensures a.Equals(Some(b)) && b.Equals(Some(c)) ==> a.Equals(Some(c))
  {
  }
}
