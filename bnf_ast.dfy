/**
 * The grammar tree of Yoakke's parser generator, with the members of its
 * `FoldLeft` node. The other nodes' classes are not part of this model:
 * their equality is taken to be structural, and their `Desugar` and
 * `GetParsedType` are passed in as functions.
 */
module Grammar {
  import opened Wrappers

  /**
   * A method symbol of the compilation: its name and the display string
   * of its return type. `SymbolEqualityComparer.Default` is `==` on it.
   */
  datatype MethodSymbol = MethodSymbol(name: string, returnType: string)

  /** The grammar tree. A `Literal` is the token text or kind it matches. */
  datatype BnfAst =
    | Alt(elements: seq<BnfAst>)
    | Seq(elements: seq<BnfAst>)
    | Call(name: string)
    | Literal(value: string)
    | Transform(subexpr: BnfAst, func: MethodSymbol)
    | FoldLeft(first: BnfAst, second: BnfAst, func: MethodSymbol)

  /**
   * `Equals(BnfAst other)`: a `FoldLeft` equals only a `FoldLeft` whose
   * two parts are equal and whose method is the same symbol; the other
   * nodes compare structurally.
   */
  function Equals(a: BnfAst, b: BnfAst): (r: bool)
    ensures a.FoldLeft? && r ==> b.FoldLeft? && a.func == b.func
    decreases a
  {
    match a
    case FoldLeft(first, second, func) =>
      b.FoldLeft? && Equals(first, b.first) && Equals(second, b.second) && func == b.func
    case _ => a == b
  }

  /** Node equality is equality of trees: two nodes are `Equals` exactly when they are the same tree. */
  lemma {:induction false} EqualsIsSameTree(a: BnfAst, b: BnfAst)
    ensures Equals(a, b) <==> a == b
    decreases a
  {
    match a
    case FoldLeft(first, second, func) =>
      if b.FoldLeft? {
        EqualsIsSameTree(first, b.first);
        EqualsIsSameTree(second, b.second);
      }
    case _ =>
  }

  /** So `Equals` is reflexive and symmetric. */
  lemma EqualsIsEquivalence(a: BnfAst, b: BnfAst)
    ensures Equals(a, a)
    ensures Equals(a, b) == Equals(b, a)
  {
    EqualsIsSameTree(a, a);
    EqualsIsSameTree(a, b);
    EqualsIsSameTree(b, a);
  }

  /**
   * `FoldLeft.Desugar()`: a `FoldLeft` of the desugared parts with the
   * same method; `desugar` is `Desugar()` on the parts.
   */
  function DesugarFoldLeft(node: BnfAst, desugar: BnfAst -> BnfAst): (r: BnfAst)
    requires node.FoldLeft?
    ensures r.FoldLeft? && r.func == node.func
  {
    FoldLeft(desugar(node.first), desugar(node.second), node.func)
  }

  /** Desugaring a `FoldLeft` whose parts are already desugared leaves it as it is. */
  lemma DesugarFoldLeftKeepsDesugared(node: BnfAst, desugar: BnfAst -> BnfAst)
    requires node.FoldLeft? && desugar(node.first) == node.first && desugar(node.second) == node.second
    ensures DesugarFoldLeft(node, desugar) == node
  {
  }

  /** When desugaring the parts is idempotent, so is desugaring the `FoldLeft`. */
  lemma DesugarFoldLeftIdempotent(node: BnfAst, desugar: BnfAst -> BnfAst)
    requires node.FoldLeft?
    requires desugar(desugar(node.first)) == desugar(node.first)
    requires desugar(desugar(node.second)) == desugar(node.second)
    ensures DesugarFoldLeft(DesugarFoldLeft(node, desugar), desugar) == DesugarFoldLeft(node, desugar)
  {
  }

  /**
   * `FoldLeft.GetParsedType`: the type the first part parses to, which
   * must be the return type of the method, else "Incompatible folded
   * types"; `parsedType` is `GetParsedType` of the first part, which can
   * fail too.
   */
  function GetParsedType(node: BnfAst, parsedType: BnfAst -> Result<string>): (r: Result<string>)
    requires node.FoldLeft?
    ensures r.Ok? <==> parsedType(node.first).Ok? && parsedType(node.first).value == node.func.returnType
    ensures r.Ok? ==> r.value == node.func.returnType
    ensures parsedType(node.first).Ok? && r.Err? ==> r.message == "Incompatible folded types"
    ensures parsedType(node.first).Err? ==> r == parsedType(node.first)
  {
    match parsedType(node.first)
    case Err(message) => Err(message)
    case Ok(firstType) =>
      var mappedType := node.func.returnType;
      if firstType != mappedType then Err("Incompatible folded types") else Ok(firstType)
  }

  /** The second part's type is never looked at. */
  lemma GetParsedTypeIgnoresSecond(first: BnfAst, second1: BnfAst, second2: BnfAst, func: MethodSymbol,
                                   parsedType: BnfAst -> Result<string>)
    ensures GetParsedType(FoldLeft(first, second1, func), parsedType)
      == GetParsedType(FoldLeft(first, second2, func), parsedType)
  {
  }
}
