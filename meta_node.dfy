/**
 * A node of the syntax-tree generator's class hierarchy: a type symbol,
 * the node of its base class, the containing types it is nested in, and
 * whether equality is to be generated for it, which is inherited from the
 * base when not set.
 */
module AstGenerator {
  import opened Wrappers

  /** A named type and the type it is declared in, if any. */
  datatype TypeSymbol = TypeSymbol(name: string, containing: Option<TypeSymbol>)

  /** The names of the types enclosing `p` and `p` itself, outermost first. */
  function NestingFrom(p: Option<TypeSymbol>): seq<string>
    decreases p
  {
    match p
    case None => []
    case Some(t) => NestingFrom(t.containing) + [t.name]
  }

  /** The names of the containing types of `symbol`, outermost first. */
  function Nesting(symbol: TypeSymbol): seq<string> {
    NestingFrom(symbol.containing)
  }

  /** The containing types in the order the loop meets them: innermost first. */
  function Containers(p: Option<TypeSymbol>): (r: seq<TypeSymbol>)
    ensures p.None? <==> r == []
    decreases p
  {
    match p
    case None => []
    case Some(t) => [t] + Containers(t.containing)
  }

  /**
   * `Nesting` is the containing types' names outermost first: the name at
   * place `i` is that of the container met `i`-th from the outside, and a
   * top-level type has none.
   */
  lemma {:induction false} NestingIsOutermostFirst(p: Option<TypeSymbol>)
    ensures |NestingFrom(p)| == |Containers(p)|
    ensures forall i | 0 <= i < |NestingFrom(p)| ::
      NestingFrom(p)[i] == Containers(p)[|Containers(p)| - 1 - i].name
    decreases p
  {
    match p
    case None =>
    case Some(t) =>
      NestingIsOutermostFirst(t.containing);
      var rest := Containers(t.containing);
      assert Containers(p) == [t] + rest;
      forall i | 0 <= i < |NestingFrom(p)|
        ensures NestingFrom(p)[i] == Containers(p)[|Containers(p)| - 1 - i].name
      {
        if i < |rest| {
          assert Containers(p)[|Containers(p)| - 1 - i] == rest[|rest| - 1 - i];
        }
      }
  }

  /** A type nested in `p` has the nesting of `p` followed by `p`'s name. */
  lemma NestingOfNested(name: string, p: TypeSymbol)
    ensures Nesting(TypeSymbol(name, Some(p))) == Nesting(p) + [p.name]
    ensures Nesting(TypeSymbol(name, None)) == []
  {
  }

  class MetaNode {
    const symbol: TypeSymbol
    const parent: MetaNode?
    const nesting: seq<string>
    /** How many base nodes lie above; it orders the chain of parents. */
    ghost const depth: nat
    var implementEquality: Option<bool>

    /** Every base node lies strictly higher up. */
    ghost predicate Valid()
      decreases depth
    {
      parent != null ==> parent.depth < depth && parent.Valid()
    }

    /** The nodes above this one, up to the root. */
    function Ancestors(): (r: set<MetaNode>)
      requires Valid()
      ensures forall a | a in r :: a.depth < depth && a.Valid()
      ensures parent != null ==> parent in r
      decreases depth
    {
      if parent == null then {} else {parent} + parent.Ancestors()
    }

    function Name(): string {
      symbol.name
    }

    /** `MetaNode(symbol, parent)`: no equality setting, and the nesting of the symbol. */
    constructor(symbol: TypeSymbol, parent: MetaNode?)
      requires parent != null ==> parent.Valid()
      ensures Valid()
      ensures this.symbol == symbol && this.parent == parent
      ensures nesting == Nesting(symbol) && implementEquality == None
    {
      var n := GetNesting(symbol);
      this.symbol := symbol;
      this.parent := parent;
      this.nesting := n;
      this.depth := if parent == null then 0 else parent.depth + 1;
      this.implementEquality := None;
    }

    /** `GetNesting`: walks the containing types inwards-out, inserting each name at the front. */
    static method GetNesting(symbol: TypeSymbol) returns (result: seq<string>)
      ensures result == Nesting(symbol)
    {
      result := [];
      var p := symbol.containing;
      while p.Some?
        invariant Nesting(symbol) == NestingFrom(p) + result
        decreases p
      {
        result := [p.value.name] + result;
        p := p.value.containing;
      }
    }

    /** `Root`: the node at the top of the chain of parents. */
    function Root(): (r: MetaNode)
      requires Valid()
      ensures r.parent == null && r.Valid()
      ensures r == this || r in Ancestors()
      ensures parent == null ==> r == this
      decreases depth
    {
      if parent == null then this else parent.Root()
    }

    /** A node shares the root of its parent, and the root is its own root. */
    lemma {:induction false} RootOfChain()
      requires Valid()
      ensures parent != null ==> Root() == parent.Root()
      ensures Root().Root() == Root()
    {
    }

    /** The `ImplementEquality` getter: the setting, else the parent's, else false at the root. */
    function ImplementEquality(): (r: bool)
      requires Valid()
      reads this, Ancestors()
      ensures implementEquality.Some? ==> r == implementEquality.value
      ensures implementEquality.None? && parent == null ==> !r
      decreases depth
    {
      if implementEquality.None? then (if parent == null then false else parent.ImplementEquality())
      else implementEquality.value
    }

    /** The settings along the chain of parents, from this node to the root. */
    function Settings(): (r: seq<Option<bool>>)
      requires Valid()
      reads this, Ancestors()
      ensures |r| > 0 && r[0] == implementEquality
      decreases depth
    {
      [implementEquality] + (if parent == null then [] else parent.Settings())
    }

    /** The getter is the first setting on the way up, or false where there is none. */
    lemma {:induction false} ImplementEqualityIsFirstSetting()
      requires Valid()
      ensures ImplementEquality() == FirstSetting(Settings())
      ensures (forall i | 0 <= i < |Settings()| :: Settings()[i].None?) ==> !ImplementEquality()
      decreases depth
    {
      if parent != null {
        parent.ImplementEqualityIsFirstSetting();
        assert Settings()[1..] == parent.Settings();
      }
      if forall i | 0 <= i < |Settings()| :: Settings()[i].None? {
        FirstSettingNone(Settings());
      }
    }

    /** The `ImplementEquality` setter: the node's own setting; the nodes above are not touched. */
    method SetImplementEquality(value: bool)
      requires Valid()
      modifies this
      ensures implementEquality == Some(value)
      ensures ImplementEquality() == value
      ensures parent != null ==> parent.ImplementEquality() == old(parent.ImplementEquality())
    {
      assert parent != null ==> parent != this && this !in parent.Ancestors();
      implementEquality := Some(value);
    }
  }

  /** The first explicit value of a list of settings, or false. */
  function FirstSetting(settings: seq<Option<bool>>): bool
    decreases |settings|
  {
    if |settings| == 0 then false
    else if settings[0].Some? then settings[0].value
    else FirstSetting(settings[1..])
  }

  /** With no explicit value, the first setting is false. */
  lemma {:induction false} FirstSettingNone(settings: seq<Option<bool>>)
    requires forall i | 0 <= i < |settings| :: settings[i].None?
    ensures !FirstSetting(settings)
    decreases |settings|
  {
    if |settings| > 0 {
      FirstSettingNone(settings[1..]);
    }
  }
}
