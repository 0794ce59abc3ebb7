/**
 * The rewritings of Yoakke's parser generator: direct left recursion in a
 * rule's alternation becomes a `FoldLeft`, and a precedence table becomes
 * one rule per level over an atomic rule.
 */
module BnfDesugar {
  import opened Wrappers
  import opened Grammar

  /**
   * A grammar rule: its name, its tree, whether it is part of the public
   * API, and its visual name (None where the rule's constructor chooses it;
   * that constructor is not part of this model).
   */
  datatype Rule = Rule(name: string, ast: BnfAst, publicApi: bool, visualName: Option<string>)

  /** A level of a precedence table: its associativity, its operators and the method that builds a node. */
  datatype PrecedenceEntry = PrecedenceEntry(left: bool, operators: seq<string>, func: MethodSymbol)

  /** What the indexer throws when a sequence node has no elements. */
  const IndexOutOfRange := "Index was out of range"
  const IncompatibleFolds := "Incompatible fold functions"

  // Left recursion.

  /** The sequence starts with a call to the rule itself. */
  predicate HeadedBySelf(rule: Rule, elements: seq<BnfAst>) {
    |elements| > 0 && elements[0] == Call(rule.name)
  }

  /** The rest of a sequence after its first element: the one element, or a sequence of them. */
  function Rest(elements: seq<BnfAst>): (r: BnfAst)
    requires |elements| > 0
  {
    if |elements| == 2 then elements[1] else Seq(elements[1..])
  }

  /**
   * `TrySplitLeftRecursion`: a sequence headed by a call to the rule
   * splits into that call and its rest; reading the first element of an
   * empty sequence throws.
   */
  function TrySplitLeftRecursion(rule: Rule, elements: seq<BnfAst>): (r: Result<Option<BnfAst>>)
    ensures r.Err? <==> |elements| == 0
    ensures r.Ok? ==> (r.value.Some? <==> HeadedBySelf(rule, elements))
  {
    if |elements| == 0 then Err(IndexOutOfRange)
    else if elements[0] == Call(rule.name) then Ok(Some(Rest(elements)))
    else Ok(None)
  }

  /** The split gives back the sequence it came from: the call to the rule, then the rest. */
  lemma SplitRoundTrip(rule: Rule, elements: seq<BnfAst>)
    requires |elements| > 0
    requires TrySplitLeftRecursion(rule, elements) == Ok(Some(Rest(elements)))
    ensures elements == [Call(rule.name)] + (if |elements| == 2 then [Rest(elements)] else Rest(elements).elements)
  {
    assert elements == [elements[0]] + elements[1..];
    if |elements| == 2 {
      assert elements[1..] == [elements[1]];
    }
  }

  /** A sequence made of a call to the rule and a rest splits into that rest. */
  lemma SplitOfSelfCall(rule: Rule, rest: seq<BnfAst>)
    ensures TrySplitLeftRecursion(rule, [Call(rule.name)] + rest)
      == Ok(Some(if |rest| == 1 then rest[0] else Seq(rest)))
  {
    assert ([Call(rule.name)] + rest)[1..] == rest;
  }

  /** An alternative that is a transformed sequence headed by a call to the rule. */
  predicate IsLeftRecursive(rule: Rule, child: BnfAst) {
    child.Transform? && child.subexpr.Seq? && HeadedBySelf(rule, child.subexpr.elements)
  }

  /** An alternative whose split throws: a transformed empty sequence. */
  predicate Malformed(child: BnfAst) {
    child.Transform? && child.subexpr.Seq? && |child.subexpr.elements| == 0
  }

  /** What the loop over the alternatives has gathered: the alphas, the betas and the fold method. */
  datatype Gathered = Gathered(alphas: seq<BnfAst>, betas: seq<BnfAst>, fold: Option<MethodSymbol>)

  /** One turn of the loop of `EliminateLeftRecursionInAlternation`. */
  function Gather(rule: Rule, g: Gathered, child: BnfAst): (r: Result<Gathered>)
  {
    if !child.Transform? then Ok(g.(betas := g.betas + [child]))
    else if !child.subexpr.Seq? then Ok(g.(betas := g.betas + [child]))
    else
      match TrySplitLeftRecursion(rule, child.subexpr.elements)
      case Err(message) => Err(message)
      case Ok(None) => Ok(g.(betas := g.betas + [child]))
      case Ok(Some(alpha)) =>
        if g.fold.None? then Ok(Gathered(g.alphas + [alpha], g.betas, Some(child.func)))
        else if g.fold.value != child.func then Err(IncompatibleFolds)
        else Ok(g.(alphas := g.alphas + [alpha]))
  }

  /** The loop over all of `children`, in order; the first error ends it. */
  function GatherAll(rule: Rule, children: seq<BnfAst>): (r: Result<Gathered>)
    decreases |children|
  {
    if |children| == 0 then Ok(Gathered([], [], None))
    else
      match GatherAll(rule, children[..|children| - 1])
      case Err(message) => Err(message)
      case Ok(g) => Gather(rule, g, children[|children| - 1])
  }

  /** The rests of the left-recursive alternatives, in order. */
  function Alphas(rule: Rule, children: seq<BnfAst>): seq<BnfAst>
    decreases |children|
  {
    if |children| == 0 then []
    else
      var last := children[|children| - 1];
      Alphas(rule, children[..|children| - 1])
      + (if IsLeftRecursive(rule, last) then [Rest(last.subexpr.elements)] else [])
  }

  /** The other alternatives, in order. */
  function Betas(rule: Rule, children: seq<BnfAst>): seq<BnfAst>
    decreases |children|
  {
    if |children| == 0 then []
    else
      var last := children[|children| - 1];
      Betas(rule, children[..|children| - 1]) + (if IsLeftRecursive(rule, last) then [] else [last])
  }

  /** All left-recursive alternatives are transformed by the same method. */
  predicate OneFold(rule: Rule, children: seq<BnfAst>) {
    forall i, j | 0 <= i < |children| && 0 <= j < |children| ::
      IsLeftRecursive(rule, children[i]) && IsLeftRecursive(rule, children[j]) ==> children[i].func == children[j].func
  }

  /** No left-recursive alternative at all. */
  predicate NoLeftRecursion(rule: Rule, children: seq<BnfAst>) {
    forall i | 0 <= i < |children| :: !IsLeftRecursive(rule, children[i])
  }

  /**
   * The loop splits the alternatives into the rests of the left-recursive
   * ones and the others, in order, and its fold method is the method of
   * every left-recursive alternative (none when there is none).
   * Without a malformed alternative it fails exactly when two
   * left-recursive alternatives have different methods, and then with
   * "Incompatible fold functions".
   */
  lemma {:induction false} GatherAllSplits(rule: Rule, children: seq<BnfAst>)
    ensures GatherAll(rule, children).Ok? ==>
      var g := GatherAll(rule, children).value;
      g.alphas == Alphas(rule, children) && g.betas == Betas(rule, children)
      && (g.fold.None? <==> NoLeftRecursion(rule, children))
      && (forall i | 0 <= i < |children| && IsLeftRecursive(rule, children[i]) :: children[i].func == g.fold.value)
      && OneFold(rule, children)
    ensures (forall i | 0 <= i < |children| :: !Malformed(children[i])) ==>
      (GatherAll(rule, children).Ok? <==> OneFold(rule, children))
      && (GatherAll(rule, children).Err? ==> GatherAll(rule, children).message == IncompatibleFolds)
  {
    GatherAllShape(rule, children);
    if forall i | 0 <= i < |children| :: !Malformed(children[i]) {
      GatherAllFailsOnFolds(rule, children);
    }
  }

  /** What a loop that succeeds has gathered. */
  lemma {:induction false} GatherAllShape(rule: Rule, children: seq<BnfAst>)
    ensures GatherAll(rule, children).Ok? ==>
      var g := GatherAll(rule, children).value;
      g.alphas == Alphas(rule, children) && g.betas == Betas(rule, children)
      && (g.fold.None? <==> NoLeftRecursion(rule, children))
      && (forall i | 0 <= i < |children| && IsLeftRecursive(rule, children[i]) :: children[i].func == g.fold.value)
      && OneFold(rule, children)
    decreases |children|
  {
    if |children| > 0 {
      var init := children[..|children| - 1];
      GatherAllShape(rule, init);
      assert forall i | 0 <= i < |init| :: init[i] == children[i];
    }
  }

  /** Without a malformed alternative, the loop fails exactly on two different fold methods. */
  lemma {:induction false} GatherAllFailsOnFolds(rule: Rule, children: seq<BnfAst>)
    requires forall i | 0 <= i < |children| :: !Malformed(children[i])
    ensures GatherAll(rule, children).Ok? <==> OneFold(rule, children)
    ensures GatherAll(rule, children).Err? ==> GatherAll(rule, children).message == IncompatibleFolds
    decreases |children|
  {
    GatherAllShape(rule, children);
    if |children| > 0 {
      var init, last := children[..|children| - 1], children[|children| - 1];
      assert forall i | 0 <= i < |init| :: init[i] == children[i];
      GatherAllFailsOnFolds(rule, init);
      GatherAllShape(rule, init);
      if GatherAll(rule, init).Ok? {
        var g := GatherAll(rule, init).value;
        if IsLeftRecursive(rule, last) && g.fold.Some? && g.fold.value != last.func {
          var k :| 0 <= k < |init| && IsLeftRecursive(rule, init[k]);
          assert children[k] == init[k];
          assert !OneFold(rule, children);
        }
      } else {
        assert !OneFold(rule, init);
        var i, j :| 0 <= i < |init| && 0 <= j < |init| && IsLeftRecursive(rule, init[i])
          && IsLeftRecursive(rule, init[j]) && init[i].func != init[j].func;
        assert children[i] == init[i] && children[j] == init[j];
      }
    }
  }

  /** Once the loop has failed on a prefix, it fails with the same error on the whole. */
  lemma {:induction false} GatherAllErrorStays(rule: Rule, children: seq<BnfAst>, i: nat)
    requires i <= |children| && GatherAll(rule, children[..i]).Err?
    ensures GatherAll(rule, children) == GatherAll(rule, children[..i])
    decreases |children| - i
  {
    if i < |children| {
      assert children[..i + 1][..i] == children[..i];
      GatherAllErrorStays(rule, children, i + 1);
    } else {
      assert children[..i] == children;
    }
  }

  /** One node for a list of alternatives: the only one, or their `Alt`. */
  function Group(nodes: seq<BnfAst>): BnfAst {
    if |nodes| == 1 then nodes[0] else Alt(nodes)
  }

  /**
   * What `EliminateLeftRecursionInAlternation` returns for an `Alt` of
   * `children`: the `Alt` itself when no alternative, or every one, is
   * left-recursive; else a `FoldLeft` of the others over the rests of the
   * left-recursive ones, with their common method.
   */
  function AlternationRewrite(rule: Rule, children: seq<BnfAst>): (r: Result<BnfAst>)
  {
    match GatherAll(rule, children)
    case Err(message) => Err(message)
    case Ok(g) =>
      if |g.alphas| == 0 || |g.betas| == 0 || g.fold.None? then Ok(Alt(children))
      else Ok(FoldLeft(Group(g.betas), Group(g.alphas), g.fold.value))
  }

  /**
   * The result in terms of the alternatives: an error only from a malformed
   * alternative or from two fold methods; the `Alt` unchanged without left
   * recursion or without anything else; otherwise the `FoldLeft` of the
   * non-recursive alternatives over the rests of the recursive ones.
   */
  lemma AlternationRewriteCases(rule: Rule, children: seq<BnfAst>)
    ensures (forall i | 0 <= i < |children| :: !Malformed(children[i])) ==>
      (AlternationRewrite(rule, children).Err? <==> !OneFold(rule, children))
    ensures AlternationRewrite(rule, children).Ok? && (|Alphas(rule, children)| == 0 || |Betas(rule, children)| == 0) ==>
      AlternationRewrite(rule, children) == Ok(Alt(children))
    ensures AlternationRewrite(rule, children).Ok? && |Alphas(rule, children)| > 0 && |Betas(rule, children)| > 0 ==>
      exists func: MethodSymbol ::
        AlternationRewrite(rule, children) == Ok(FoldLeft(Group(Betas(rule, children)), Group(Alphas(rule, children)), func))
        && forall i | 0 <= i < |children| && IsLeftRecursive(rule, children[i]) :: children[i].func == func
  {
    GatherAllSplits(rule, children);
    if GatherAll(rule, children).Ok? {
      var g := GatherAll(rule, children).value;
      if |g.alphas| > 0 && g.fold.None? {
        AlphasNeedLeftRecursion(rule, children);
      }
    }
  }

  /** A rest is there only for a left-recursive alternative. */
  lemma {:induction false} AlphasNeedLeftRecursion(rule: Rule, children: seq<BnfAst>)
    requires NoLeftRecursion(rule, children)
    ensures Alphas(rule, children) == []
    decreases |children|
  {
    if |children| > 0 {
      var init := children[..|children| - 1];
      assert forall i | 0 <= i < |init| :: init[i] == children[i];
      AlphasNeedLeftRecursion(rule, init);
    }
  }

  /**
   * `EliminateLeftRecursionInAlternation(rule, alt)`: the loop over the
   * alternatives, gathering the rests of the left-recursive ones, the
   * others, and the fold method.
   */
  method EliminateLeftRecursionInAlternation(rule: Rule, children: seq<BnfAst>) returns (r: Result<BnfAst>)
    ensures r == AlternationRewrite(rule, children)
  {
    var alphas: seq<BnfAst> := [];
    var betas: seq<BnfAst> := [];
    var fold: Option<MethodSymbol> := None;
    for i := 0 to |children|
      invariant GatherAll(rule, children[..i]) == Ok(Gathered(alphas, betas, fold))
    {
      assert children[..i + 1][..i] == children[..i];
      var child := children[i];
      if !child.Transform? {
        betas := betas + [child];
        continue;
      }
      if child.subexpr.Seq? {
        var split := TrySplitLeftRecursion(rule, child.subexpr.elements);
        if split.Err? {
          GatherAllErrorStays(rule, children, i + 1);
          return Err(split.message);
        }
        if split.value.Some? {
          if fold.None? {
            fold := Some(child.func);
          } else if fold.value != child.func {
            GatherAllErrorStays(rule, children, i + 1);
            return Err(IncompatibleFolds);
          }
          alphas := alphas + [split.value.value];
          continue;
        }
      }
      betas := betas + [child];
    }
    assert children[..|children|] == children;
    if |alphas| == 0 || |betas| == 0 || fold.None? {
      return Ok(Alt(children));
    }
    var betaNode := if |betas| == 1 then betas[0] else Alt(betas);
    var alphaNode := if |alphas| == 1 then alphas[0] else Alt(alphas);
    return Ok(FoldLeft(betaNode, alphaNode, fold.value));
  }

  /**
   * `EliminateLeftRecursion(rule)`: a rule whose tree is an `Alt` gets the
   * rewritten alternation under the same name, API flag and visual name;
   * any other rule comes back as it is.
   */
  function EliminateLeftRecursion(rule: Rule): (r: Result<Rule>)
    ensures !rule.ast.Alt? ==> r == Ok(rule)
    ensures rule.ast.Alt? ==> r.Err? == AlternationRewrite(rule, rule.ast.elements).Err?
    ensures r.Ok? ==> (r.value.name == rule.name && r.value.publicApi == rule.publicApi
                       && r.value.visualName == rule.visualName)
  {
    if rule.ast.Alt? then
      match AlternationRewrite(rule, rule.ast.elements)
      case Err(message) => Err(message)
      case Ok(newAlt) => Ok(Rule(rule.name, newAlt, rule.publicApi, rule.visualName))
    else Ok(rule)
  }

  /** Eliminating left recursion a second time changes nothing. */
  lemma EliminateLeftRecursionIdempotent(rule: Rule)
    requires EliminateLeftRecursion(rule).Ok?
    ensures EliminateLeftRecursion(EliminateLeftRecursion(rule).value) == EliminateLeftRecursion(rule)
  {
    if rule.ast.Alt? {
      var once := EliminateLeftRecursion(rule).value;
      if once.ast.Alt? {
        assert once.ast == Alt(rule.ast.elements);
        assert once == rule;
      }
    }
  }

  // Precedence tables.

  /** A decimal digit. */
  function Digit(d: nat): (c: char)
    requires d < 10
    ensures '0' <= c <= '9'
  {
    ('0' as int + d) as char
  }

  /** The decimal numeral of `n`, as string interpolation writes it. */
  function Decimal(n: nat): (s: string)
    ensures |s| >= 1 && (n >= 10 ==> |s| >= 2)
    decreases n
  {
    if n < 10 then [Digit(n)] else Decimal(n / 10) + [Digit(n % 10)]
  }

  /** Different numbers have different numerals. */
  lemma {:induction false} DecimalInjective(a: nat, b: nat)
    requires Decimal(a) == Decimal(b)
    ensures a == b
    decreases a
  {
    if a >= 10 && b >= 10 {
      var sa, sb := Decimal(a), Decimal(b);
      assert sa[|sa| - 1] == Digit(a % 10) && sb[|sb| - 1] == Digit(b % 10);
      assert sa[..|sa| - 1] == Decimal(a / 10) && sb[..|sb| - 1] == Decimal(b / 10);
      DecimalInjective(a / 10, b / 10);
    }
  }

  /** The rule of level `i`: the rule's own name at level 0, `{Name}_level{i}` above. */
  function LevelName(rule: Rule, i: nat): string {
    if i == 0 then rule.name else rule.name + "_level" + Decimal(i)
  }

  /** The atomic rule holding the original tree. */
  function AtomName(rule: Rule): string {
    rule.name + "_atomic"
  }

  /** The rule that level `i` of `n` steps down to: the next level, or the atomic rule after the last. */
  function NextName(rule: Rule, n: nat, i: nat): string {
    if i == n - 1 then AtomName(rule) else LevelName(rule, i + 1)
  }

  /** The alternative of one operator: `cur op next` when left-associative, `next op cur` otherwise. */
  function OperatorAlternative(entry: PrecedenceEntry, cur: BnfAst, next: BnfAst, op: string): BnfAst {
    Transform(Seq(if entry.left then [cur, Literal(op), next] else [next, Literal(op), cur]), entry.func)
  }

  /** The operator alternatives of a level, in the order of its operators. */
  function OperatorAlternatives(entry: PrecedenceEntry, cur: BnfAst, next: BnfAst): (alts: seq<BnfAst>)
    ensures |alts| == |entry.operators|
  {
    seq(|entry.operators|, j requires 0 <= j < |entry.operators| => OperatorAlternative(entry, cur, next, entry.operators[j]))
  }

  /** Alternatives joined from the left by two-element `Alt`s, as the loop adds them. */
  function Chain(alts: seq<BnfAst>): BnfAst
    requires |alts| > 0
    decreases |alts|
  {
    if |alts| == 1 then alts[0] else Alt([Chain(alts[..|alts| - 1]), alts[|alts| - 1]])
  }

  /** The alternatives of a chain of two-element `Alt`s, first to last. */
  function Spine(node: BnfAst): seq<BnfAst> {
    if node.Alt? && |node.elements| == 2 then Spine(node.elements[0]) + [node.elements[1]] else [node]
  }

  /** A chain of alternatives that are not themselves `Alt`s gives them back, in order. */
  lemma {:induction false} SpineOfChain(alts: seq<BnfAst>)
    requires |alts| > 0 && forall i | 0 <= i < |alts| :: !alts[i].Alt?
    ensures Spine(Chain(alts)) == alts
    decreases |alts|
  {
    if |alts| > 1 {
      SpineOfChain(alts[..|alts| - 1]);
      assert alts == alts[..|alts| - 1] + [alts[|alts| - 1]];
    }
  }

  /** Level `i` of the table as a rule: its operator alternatives, then the step down. */
  function Level(rule: Rule, table: seq<PrecedenceEntry>, i: nat): Rule
    requires i < |table|
  {
    var cur := Call(LevelName(rule, i));
    var next := Call(NextName(rule, |table|, i));
    Rule(LevelName(rule, i), Chain(OperatorAlternatives(table[i], cur, next) + [next]), i == 0, rule.visualName)
  }

  /**
   * Level `i` has one alternative per operator, `Transform` of the
   * sequence in the level's associativity with the level's method, and
   * as its last alternative the step down to the next level, or to the
   * atomic rule from the last level. Only level 0 is public, and it has
   * the rule's own name.
   */
  lemma LevelShape(rule: Rule, table: seq<PrecedenceEntry>, i: nat)
    requires i < |table|
    ensures var level, entry := Level(rule, table, i), table[i];
      var cur, next := Call(LevelName(rule, i)), Call(NextName(rule, |table|, i));
      |Spine(level.ast)| == |entry.operators| + 1
      && Spine(level.ast)[|entry.operators|] == next
      && (forall j | 0 <= j < |entry.operators| ::
            Spine(level.ast)[j] == Transform(Seq(if entry.left then [cur, Literal(entry.operators[j]), next]
                                                 else [next, Literal(entry.operators[j]), cur]), entry.func))
      && (level.publicApi <==> i == 0)
      && (i == 0 ==> level.name == rule.name)
  {
    var entry := table[i];
    var cur, next := Call(LevelName(rule, i)), Call(NextName(rule, |table|, i));
    var alts := OperatorAlternatives(entry, cur, next) + [next];
    assert forall k | 0 <= k < |alts| :: !alts[k].Alt?;
    SpineOfChain(alts);
  }

  /** The names of the generated rules are all different. */
  lemma GeneratedNamesDistinct(rule: Rule, i: nat, j: nat)
    ensures LevelName(rule, i) != AtomName(rule)
    ensures i != j ==> LevelName(rule, i) != LevelName(rule, j)
  {
    var n := |rule.name|;
    if i > 0 {
      assert LevelName(rule, i)[n + 1] == 'l' && AtomName(rule)[n + 1] == 'a';
    }
    if i != j && i > 0 && j > 0 && LevelName(rule, i) == LevelName(rule, j) {
      var p := rule.name + "_level";
      assert LevelName(rule, i)[|p|..] == Decimal(i);
      assert LevelName(rule, j)[|p|..] == Decimal(j);
      DecimalInjective(i, j);
    }
  }

  /**
   * `GeneratePrecedenceParser(rule, precedenceTable)`: the atomic rule
   * first, then one rule per level, each built by a loop over the
   * level's operators joining their alternatives with `Alt`.
   */
  method GeneratePrecedenceParser(rule: Rule, table: seq<PrecedenceEntry>) returns (result: seq<Rule>)
    ensures |result| == |table| + 1
    ensures result[0] == Rule(AtomName(rule), rule.ast, false, None)
    ensures forall i | 0 <= i < |table| :: result[i + 1] == Level(rule, table, i)
  {
    var atom := Rule(rule.name + "_atomic", rule.ast, false, None);
    result := [atom];
    for i := 0 to |table|
      invariant |result| == i + 1 && result[0] == atom
      invariant forall k | 0 <= k < i :: result[k + 1] == Level(rule, table, k)
    {
      var level := MakeLevel(rule, table, i, atom.name);
      result := result + [level];
    }
  }

  /** One turn of the outer loop: the names of the level and of the next one, and its tree. */
  method MakeLevel(rule: Rule, table: seq<PrecedenceEntry>, i: nat, atomName: string) returns (level: Rule)
    requires i < |table| && atomName == AtomName(rule)
    ensures level == Level(rule, table, i)
  {
    var prec := table[i];
    var currentCall := Call(if i == 0 then rule.name else rule.name + "_level" + Decimal(i));
    var nextCall := Call(if i == |table| - 1 then atomName else rule.name + "_level" + Decimal(i + 1));
    assert currentCall.name == LevelName(rule, i) && nextCall.name == NextName(rule, |table|, i);
    var node := LevelNode(prec, currentCall, nextCall);
    level := Rule(currentCall.name, node, i == 0, rule.visualName);
  }

  /**
   * The inner loop of `GeneratePrecedenceParser` and the default after it:
   * the operator alternatives joined by two-element `Alt`s, then the step
   * to the next level.
   */
  method LevelNode(prec: PrecedenceEntry, currentCall: BnfAst, nextCall: BnfAst) returns (node: BnfAst)
    ensures node == Chain(OperatorAlternatives(prec, currentCall, nextCall) + [nextCall])
  {
    ghost var alts := OperatorAlternatives(prec, currentCall, nextCall);
    var toAdd: Option<BnfAst> := None;
    for j := 0 to |prec.operators|
      invariant j == 0 ==> toAdd.None?
      invariant j > 0 ==> toAdd == Some(Chain(alts[..j]))
    {
      var opNode := Literal(prec.operators[j]);
      var sequence := if prec.left then [currentCall, opNode, nextCall] else [nextCall, opNode, currentCall];
      var alt := Transform(Seq(sequence), prec.func);
      assert alt == alts[j];
      if toAdd.None? {
        toAdd := Some(alt);
      } else {
        assert alts[..j + 1][..j] == alts[..j];
        toAdd := Some(Alt([toAdd.value, alt]));
      }
    }
    node := if toAdd.None? then nextCall else Alt([toAdd.value, nextCall]);
    assert alts[..|alts|] == alts && (alts + [nextCall])[..|alts|] == alts;
  }
}
