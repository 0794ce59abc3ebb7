/**
 * The regular-expression tree of Yoakke.Collections.RegEx (literal
 * characters, sequences and alternatives) and its translation into an
 * epsilon-NFA by Thompson's construction over a dense state allocator.
 */
module RegEx {

  /** What a transition fires on: the empty word or one character. */
  datatype Label = Eps | Sym(c: char)

  type Edge = (nat, Label, nat)

  /** The part of a Thompson construction one subtree contributes. */
  datatype Fragment = Fragment(start: nat, end: nat, edges: set<Edge>)

  /** A sequence: both parts, joined by an epsilon edge from the first's end to the second's start. */
  function SeqFragment(a: Fragment, b: Fragment): Fragment {
    Fragment(a.start, b.end, a.edges + b.edges + {(a.end, Eps, b.start)})
  }

  /** An alternative over the two fresh states `base` and `base + 1`. */
  function AltFragment(base: nat, a: Fragment, b: Fragment): Fragment {
    Fragment(base, base + 1, a.edges + b.edges + AltLinks(base, a, b))
  }

  /** The four epsilon edges an alternative adds around its branches. */
  function AltLinks(base: nat, a: Fragment, b: Fragment): set<Edge> {
    {(base, Eps, a.start), (base, Eps, b.start), (a.end, Eps, base + 1), (b.end, Eps, base + 1)}
  }

  datatype RegExAst =
    | Literal(c: char)
    | Seq(first: RegExAst, second: RegExAst)
    | Alt(first: RegExAst, second: RegExAst)
  {
    /** `Equals(RegExAst)`: same node kind, same character, equal children. */
    predicate Equals(other: RegExAst) {
      match this
      case Literal(c) => other.Literal? && c == other.c
      case Seq(f, s) => other.Seq? && f.Equals(other.first) && s.Equals(other.second)
      case Alt(f, s) => other.Alt? && f.Equals(other.first) && s.Equals(other.second)
    }

    /** `Desugar()`: none of these nodes is sugar, so the tree is rebuilt as it is. */
    function Desugar(): (d: RegExAst)
      ensures d == this
    {
      match this
      case Literal(_) => this
      case Seq(f, s) => Seq(f.Desugar(), s.Desugar())
      case Alt(f, s) => Alt(f.Desugar(), s.Desugar())
    }

    /** How many states the construction allocates for this subtree. */
    function Size(): nat {
      match this
      case Literal(_) => 2
      case Seq(f, s) => f.Size() + s.Size()
      case Alt(f, s) => 2 + f.Size() + s.Size()
    }

    /**
     * What `ThompsonConstruct` builds when the allocator's next free state
     * is `base`: states are numbered in allocation order, an alternative's
     * own two states before either branch.
     */
    function Build(base: nat): Fragment {
      match this
      case Literal(c) => Fragment(base, base + 1, {(base, Sym(c), base + 1)})
      case Seq(f, s) => SeqFragment(f.Build(base), s.Build(base + f.Size()))
      case Alt(f, s) => AltFragment(base, f.Build(base + 2), s.Build(base + 2 + f.Size()))
    }

    /**
     * `ThompsonConstruct(denseNfa)`: allocates this subtree's states and
     * transitions in `nfa` and returns its start and end state; each node
     * kind has its own construction.
     */
    method ThompsonConstruct(nfa: DenseNfa) returns (start: nat, end: nat)
      requires nfa.Valid()
      modifies nfa
      ensures nfa.Valid()
      ensures nfa.next == old(nfa.next) + Size()
      ensures start == Build(old(nfa.next)).start && end == Build(old(nfa.next)).end
      ensures nfa.transitions == old(nfa.transitions) + Build(old(nfa.next)).edges
      decreases this, 1
    {
      if Literal? {
        start, end := LiteralConstruct(this, nfa);
      } else if Seq? {
        start, end := SeqConstruct(this, nfa);
      } else {
        start, end := AltConstruct(this, nfa);
      }
    }
  }

  /** `Literal.ThompsonConstruct`: two fresh states joined by the character. */
  method LiteralConstruct(r: RegExAst, nfa: DenseNfa) returns (start: nat, end: nat)
    requires r.Literal? && nfa.Valid()
    modifies nfa
    ensures nfa.Valid()
    ensures nfa.next == old(nfa.next) + r.Size()
    ensures start == r.Build(old(nfa.next)).start && end == r.Build(old(nfa.next)).end
    ensures nfa.transitions == old(nfa.transitions) + r.Build(old(nfa.next)).edges
    decreases r, 0
  {
    start := nfa.NewState();
    end := nfa.NewState();
    var _ := nfa.AddTransition(start, Sym(r.c), end);
  }

  /** `Seq.ThompsonConstruct`: build the first, then the second, then link them by epsilon. */
  method SeqConstruct(r: RegExAst, nfa: DenseNfa) returns (start: nat, end: nat)
    requires r.Seq? && nfa.Valid()
    modifies nfa
    ensures nfa.Valid()
    ensures nfa.next == old(nfa.next) + r.Size()
    ensures start == r.Build(old(nfa.next)).start && end == r.Build(old(nfa.next)).end
    ensures nfa.transitions == old(nfa.transitions) + r.Build(old(nfa.next)).edges
    decreases r, 0
  {
    ghost var base, before := nfa.next, nfa.transitions;
    ghost var mid, hi := base + r.first.Size(), base + r.Size();
    ghost var a, b := r.first.Build(base), r.second.Build(mid);
    BuildIsFresh(r.first, base);
    BuildIsFresh(r.second, mid);
    var firstStart, firstEnd := r.first.ThompsonConstruct(nfa);
    assert nfa.next == mid && firstStart == a.start && firstEnd == a.end;
    assert nfa.transitions == before + a.edges;
    var secondStart, secondEnd := r.second.ThompsonConstruct(nfa);
    assert nfa.next == hi && secondStart == b.start && secondEnd == b.end;
    assert nfa.transitions == before + a.edges + b.edges;
    var _ := nfa.AddTransition(firstEnd, Eps, secondStart);
    assert r.Build(base) == SeqFragment(a, b);
    start, end := firstStart, secondEnd;
  }

  /**
   * `Alt.ThompsonConstruct`: allocate the new start and end, build both
   * branches, and add the four epsilon edges around them.
   */
  method AltConstruct(r: RegExAst, nfa: DenseNfa) returns (start: nat, end: nat)
    requires r.Alt? && nfa.Valid()
    modifies nfa
    ensures nfa.Valid()
    ensures nfa.next == old(nfa.next) + r.Size()
    ensures start == r.Build(old(nfa.next)).start && end == r.Build(old(nfa.next)).end
    ensures nfa.transitions == old(nfa.transitions) + r.Build(old(nfa.next)).edges
    decreases r, 0
  {
    ghost var base, before := nfa.next, nfa.transitions;
    ghost var mid, hi := base + 2 + r.first.Size(), base + r.Size();
    ghost var a, b := r.first.Build(base + 2), r.second.Build(mid);
    BuildIsFresh(r.first, base + 2);
    BuildIsFresh(r.second, mid);
    var newStart := nfa.NewState();
    var newEnd := nfa.NewState();
    assert nfa.next == base + 2;
    var firstStart, firstEnd := r.first.ThompsonConstruct(nfa);
    assert nfa.next == mid && firstStart == a.start && firstEnd == a.end;
    assert nfa.transitions == before + a.edges;
    var secondStart, secondEnd := r.second.ThompsonConstruct(nfa);
    assert nfa.next == hi && secondStart == b.start && secondEnd == b.end;
    assert nfa.transitions == before + a.edges + b.edges;
    LinkBranches(nfa, newStart, newEnd, firstStart, firstEnd, secondStart, secondEnd);
    assert r.Build(base) == AltFragment(base, a, b);
    start, end := newStart, newEnd;
  }

  /** The four epsilon edges of `Alt.ThompsonConstruct`, added in the order the source adds them. */
  method LinkBranches(nfa: DenseNfa, newStart: nat, newEnd: nat, firstStart: nat, firstEnd: nat, secondStart: nat, secondEnd: nat)
    requires nfa.Valid()
    requires newStart < nfa.next && newEnd < nfa.next && firstStart < nfa.next
    requires firstEnd < nfa.next && secondStart < nfa.next && secondEnd < nfa.next
    modifies nfa
    ensures nfa.Valid() && nfa.next == old(nfa.next)
    ensures nfa.transitions == old(nfa.transitions) +
      {(newStart, Eps, firstStart), (newStart, Eps, secondStart), (firstEnd, Eps, newEnd), (secondEnd, Eps, newEnd)}
  {
    var _ := nfa.AddTransition(newStart, Eps, firstStart);
    var _ := nfa.AddTransition(newStart, Eps, secondStart);
    var _ := nfa.AddTransition(firstEnd, Eps, newEnd);
    var _ := nfa.AddTransition(secondEnd, Eps, newEnd);
  }

  /** `Equals` on regex trees is structural equality. */
  lemma {:induction false} EqualsIsStructural(a: RegExAst, b: RegExAst)
    ensures a.Equals(b) <==> a == b
    decreases a
  {
    if a.Seq? && b.Seq? {
      EqualsIsStructural(a.first, b.first);
      EqualsIsStructural(a.second, b.second);
    } else if a.Alt? && b.Alt? {
      EqualsIsStructural(a.first, b.first);
      EqualsIsStructural(a.second, b.second);
    }
  }

  /** Both endpoints of `e` lie in `[lo, hi)`. */
  predicate InRange(e: Edge, lo: nat, hi: nat) {
    lo <= e.0 < hi && lo <= e.2 < hi
  }

  /**
   * A fragment over the states `[lo, hi)`: its start and end are two
   * distinct states of the range and every edge joins two of them.
   */
  ghost predicate Confined(fr: Fragment, lo: nat, hi: nat) {
    && lo <= fr.start < hi
    && lo <= fr.end < hi
    && fr.start != fr.end
    && forall e {:trigger InRange(e, lo, hi)} | e in fr.edges :: InRange(e, lo, hi)
  }

  /** A literal's fragment: its two states, one character edge. */
  lemma LiteralFragmentFacts(base: nat, c: char)
    ensures Confined(Fragment(base, base + 1, {(base, Sym(c), base + 1)}), base, base + 2)
  {
  }

  /**
   * Sequencing fragments over adjacent ranges stays within the joint range;
   * the parts share no edge and the linking edge is new.
   */
  lemma SeqFragmentFacts(a: Fragment, b: Fragment, lo: nat, mid: nat, hi: nat)
    requires Confined(a, lo, mid) && Confined(b, mid, hi)
    ensures Confined(SeqFragment(a, b), lo, hi)
    ensures a.edges * b.edges == {}
    ensures (a.end, Eps, b.start) !in a.edges + b.edges
  {
    forall e | e in SeqFragment(a, b).edges
      ensures InRange(e, lo, hi)
    {
      if e in a.edges {
        assert InRange(e, lo, mid);
      } else if e in b.edges {
        assert InRange(e, mid, hi);
      }
    }
    forall e | e in a.edges
      ensures e !in b.edges
    {
      assert InRange(e, lo, mid) && !InRange(e, mid, hi);
    }
    assert !InRange((a.end, Eps, b.start), lo, mid);
    assert !InRange((a.end, Eps, b.start), mid, hi);
  }

  /**
   * An alternative over two fresh states and branches over adjacent ranges
   * stays within the joint range; the branches share no edge and the four
   * linking edges are distinct and new.
   */
  lemma AltFragmentFacts(base: nat, a: Fragment, b: Fragment, mid: nat, hi: nat)
    requires Confined(a, base + 2, mid) && Confined(b, mid, hi)
    ensures Confined(AltFragment(base, a, b), base, hi)
    ensures a.edges * b.edges == {}
    ensures |AltLinks(base, a, b)| == 4
    ensures AltLinks(base, a, b) * (a.edges + b.edges) == {}
  {
    AltLinksAreFour(base, a, b);
    forall e | e in a.edges + b.edges
      ensures InRange(e, base + 2, hi)
    {
      if e in a.edges {
        assert InRange(e, base + 2, mid);
      } else {
        assert InRange(e, mid, hi);
      }
    }
    forall e | e in a.edges
      ensures e !in b.edges
    {
      assert InRange(e, base + 2, mid) && !InRange(e, mid, hi);
    }
    forall e | e in AltFragment(base, a, b).edges
      ensures InRange(e, base, hi)
    {
      if e in a.edges + b.edges {
        assert InRange(e, base + 2, hi);
      }
    }
    assert forall e | e in AltLinks(base, a, b) :: !InRange(e, base + 2, hi);
  }

  /** The four epsilon edges of an alternative are distinct. */
  lemma AltLinksAreFour(base: nat, a: Fragment, b: Fragment)
    requires a.start != b.start && a.end != b.end && a.end != base && b.end != base
    ensures |AltLinks(base, a, b)| == 4
  {
    var x, y, z, w := (base, Eps, a.start), (base, Eps, b.start), (a.end, Eps, base + 1), (b.end, Eps, base + 1);
    assert |{x} + {y}| == 2;
    assert |{x, y} + {z}| == 3;
    assert |{x, y, z} + {w}| == 4;
    assert AltLinks(base, a, b) == {x, y, z} + {w};
  }

  /**
   * The fragment of a tree stays within the `Size()` states numbered from
   * `base`: its start and end are two distinct ones of them and every edge
   * joins two of them. So the states of one subtree never collide with
   * those of a sibling built after it.
   */
  lemma {:induction false} BuildIsFresh(r: RegExAst, base: nat)
    ensures Confined(r.Build(base), base, base + r.Size())
    decreases r, 1
  {
    if r.Literal? {
      LiteralFragmentFacts(base, r.c);
    } else if r.Seq? {
      SeqIsFresh(r, base);
    } else {
      AltIsFresh(r, base);
    }
  }

  lemma {:induction false} SeqIsFresh(r: RegExAst, base: nat)
    requires r.Seq?
    ensures Confined(r.Build(base), base, base + r.Size())
    decreases r, 0
  {
    var mid, hi := base + r.first.Size(), base + r.Size();
    var a, b := r.first.Build(base), r.second.Build(mid);
    BuildIsFresh(r.first, base);
    BuildIsFresh(r.second, mid);
    SeqFragmentFacts(a, b, base, mid, hi);
    assert r.Build(base) == SeqFragment(a, b);
  }

  lemma {:induction false} AltIsFresh(r: RegExAst, base: nat)
    requires r.Alt?
    ensures Confined(r.Build(base), base, base + r.Size())
    decreases r, 0
  {
    var mid, hi := base + 2 + r.first.Size(), base + r.Size();
    var a, b := r.first.Build(base + 2), r.second.Build(mid);
    BuildIsFresh(r.first, base + 2);
    BuildIsFresh(r.second, mid);
    AltFragmentFacts(base, a, b, mid, hi);
    assert r.Build(base) == AltFragment(base, a, b);
  }

  /** `Seq` allocates no state of its own: two literals in sequence take 4 states, with 3 edges. */
  lemma SeqOfLiteralsShape(x: char, y: char, base: nat)
    ensures Seq(Literal(x), Literal(y)).Size() == 4
    ensures Seq(Literal(x), Literal(y)).Build(base) ==
      Fragment(base, base + 3, {(base, Sym(x), base + 1), (base + 2, Sym(y), base + 3), (base + 1, Eps, base + 2)})
  {
  }

  /** `Alt` allocates its own start and end first: two literals as alternatives take 6 states. */
  lemma AltOfLiteralsShape(x: char, y: char, base: nat)
    ensures Alt(Literal(x), Literal(y)).Size() == 6
    ensures Alt(Literal(x), Literal(y)).Build(base) ==
      Fragment(base, base + 1, {
        (base + 2, Sym(x), base + 3), (base + 4, Sym(y), base + 5),
        (base, Eps, base + 2), (base, Eps, base + 4), (base + 3, Eps, base + 1), (base + 5, Eps, base + 1)})
  {
  }

  // The language of a tree and runs of the automaton.

  /** The words a regex tree denotes. */
  ghost predicate Matches(r: RegExAst, w: string)
    decreases r
  {
    match r
    case Literal(c) => w == [c]
    case Seq(f, s) => exists i :: 0 <= i <= |w| && Matches(f, w[..i]) && Matches(s, w[i..])
    case Alt(f, s) => Matches(f, w) || Matches(s, w)
  }

  /** The characters a run reads; epsilon edges read none. */
  function Word(p: seq<Edge>): string {
    if |p| == 0 then []
    else (if p[0].1.Sym? then [p[0].1.c] else []) + Word(p[1..])
  }

  /** `p` is a run through `edges` from `from` to `to`: a chain of edges, each starting where the last ended. */
  ghost predicate Run(p: seq<Edge>, from: nat, to: nat, edges: set<Edge>)
    decreases |p|
  {
    if |p| == 0 then from == to
    else p[0].0 == from && p[0] in edges && Run(p[1..], p[0].2, to, edges)
  }

  /** A run through `small` is a run through any superset of it. */
  lemma {:induction false} RunWithin(p: seq<Edge>, from: nat, to: nat, small: set<Edge>, big: set<Edge>)
    requires small <= big && Run(p, from, to, small)
    ensures Run(p, from, to, big)
    decreases |p|
  {
    if |p| > 0 {
      RunWithin(p[1..], p[0].2, to, small, big);
    }
  }

  /** The characters of two edge sequences put together are the two words put together. */
  lemma {:induction false} WordOfConcat(p: seq<Edge>, q: seq<Edge>)
    ensures Word(p + q) == Word(p) + Word(q)
    decreases |p|
  {
    if |p| == 0 {
      assert p + q == q;
    } else {
      var rest := p[1..];
      var head := if p[0].1.Sym? then [p[0].1.c] else [];
      assert (p + q)[0] == p[0];
      assert (p + q)[1..] == rest + q;
      WordOfConcat(rest, q);
      assert Word(p + q) == head + Word(rest + q);
      assert Word(p) == head + Word(rest);
    }
  }

  /** Runs that meet compose into one run. */
  lemma {:induction false} JoinRuns(p: seq<Edge>, a: nat, b: nat, q: seq<Edge>, c: nat, edges: set<Edge>)
    requires Run(p, a, b, edges) && Run(q, b, c, edges)
    ensures Run(p + q, a, c, edges)
    decreases |p|
  {
    if |p| == 0 {
      assert p + q == q;
    } else {
      var rest := p[1..];
      assert (p + q)[0] == p[0];
      assert (p + q)[1..] == rest + q;
      JoinRuns(rest, p[0].2, b, q, c, edges);
    }
  }

  /** Three runs that meet compose into one run, which reads their three words in order. */
  lemma JoinThree(p: seq<Edge>, a: nat, b: nat, q: seq<Edge>, c: nat, t: seq<Edge>, d: nat, edges: set<Edge>)
    requires Run(p, a, b, edges) && Run(q, b, c, edges) && Run(t, c, d, edges)
    ensures Run(p + q + t, a, d, edges) && Word(p + q + t) == Word(p) + Word(q) + Word(t)
  {
    JoinRuns(p, a, b, q, c, edges);
    JoinRuns(p + q, a, c, t, d, edges);
    WordOfConcat(p, q);
    WordOfConcat(p + q, t);
  }

  /** A single edge of `edges` is a run that reads its label. */
  lemma SingleEdgeRun(e: Edge, edges: set<Edge>)
    requires e in edges
    ensures Run([e], e.0, e.2, edges)
    ensures Word([e]) == if e.1.Sym? then [e.1.c] else []
  {
    assert [e][1..] == [];
  }

  /** Some run of the fragment from its start to its end reads `w`. */
  ghost predicate Spells(fr: Fragment, w: string) {
    exists p :: Run(p, fr.start, fr.end, fr.edges) && Word(p) == w
  }

  /** A run of the fragment from its start to its end is a witness of the word it reads. */
  lemma SpellsBy(fr: Fragment, p: seq<Edge>, w: string)
    requires Run(p, fr.start, fr.end, fr.edges) && Word(p) == w
    ensures Spells(fr, w)
  {
  }

  /**
   * A sequence spells the first part's word followed by the second's: the
   * first part's run, the linking epsilon edge, the second part's run.
   */
  lemma SeqSpells(a: Fragment, b: Fragment, u: string, v: string)
    requires Spells(a, u) && Spells(b, v)
    ensures Spells(SeqFragment(a, b), u + v)
  {
    var edges := SeqFragment(a, b).edges;
    var p :| Run(p, a.start, a.end, a.edges) && Word(p) == u;
    var q :| Run(q, b.start, b.end, b.edges) && Word(q) == v;
    var link := (a.end, Eps, b.start);
    RunWithin(p, a.start, a.end, a.edges, edges);
    RunWithin(q, b.start, b.end, b.edges, edges);
    SingleEdgeRun(link, edges);
    JoinThree(p, a.start, a.end, [link], b.start, q, b.end, edges);
    var run := p + [link] + q;
    assert Word(run) == u + v by {
      assert Word([link]) == [];
      assert u + [] + v == u + v;
    }
    SpellsBy(SeqFragment(a, b), run, u + v);
  }

  /** Entering a branch by epsilon, running it and leaving by epsilon reads what the branch reads. */
  lemma AltBranchSpells(base: nat, a: Fragment, b: Fragment, branch: Fragment, w: string)
    requires branch == a || branch == b
    requires Spells(branch, w)
    ensures Spells(AltFragment(base, a, b), w)
  {
    var edges := AltFragment(base, a, b).edges;
    var p :| Run(p, branch.start, branch.end, branch.edges) && Word(p) == w;
    var i, o := (base, Eps, branch.start), (branch.end, Eps, base + 1);
    RunWithin(p, branch.start, branch.end, branch.edges, edges);
    SingleEdgeRun(i, edges);
    SingleEdgeRun(o, edges);
    JoinThree([i], base, branch.start, p, branch.end, [o], base + 1, edges);
    var run := [i] + p + [o];
    assert Word(run) == w by {
      assert Word([i]) == [] && Word([o]) == [];
      assert [] + w + [] == w;
    }
    SpellsBy(AltFragment(base, a, b), run, w);
  }

  /**
   * Every word the tree denotes is spelled by a run of its Thompson
   * fragment from the fragment's start to its end.
   */
  lemma {:induction false} BuildAcceptsLanguage(r: RegExAst, base: nat, w: string)
    requires Matches(r, w)
    ensures Spells(r.Build(base), w)
    decreases r, 2
  {
    if r.Literal? {
      var e := (base, Sym(r.c), base + 1);
      SingleEdgeRun(e, r.Build(base).edges);
    } else if r.Seq? {
      SeqAcceptsLanguage(r, base, w);
    } else {
      AltAcceptsLanguage(r, base, w);
    }
  }

  lemma {:induction false} SeqAcceptsLanguage(r: RegExAst, base: nat, w: string)
    requires r.Seq? && Matches(r, w)
    ensures Spells(r.Build(base), w)
    decreases r, 0
  {
    var mid := base + r.first.Size();
    var i :| 0 <= i <= |w| && Matches(r.first, w[..i]) && Matches(r.second, w[i..]);
    var a, b := r.first.Build(base), r.second.Build(mid);
    assert r.Build(base) == SeqFragment(a, b);
    BuildAcceptsLanguage(r.first, base, w[..i]);
    BuildAcceptsLanguage(r.second, mid, w[i..]);
    SeqSpells(a, b, w[..i], w[i..]);
    assert w[..i] + w[i..] == w;
  }

  lemma {:induction false} AltAcceptsLanguage(r: RegExAst, base: nat, w: string)
    requires r.Alt? && Matches(r, w)
    ensures Spells(r.Build(base), w)
    decreases r, 1
  {
    if Matches(r.first, w) {
      FirstBranchAccepts(r, base, w);
    } else {
      SecondBranchAccepts(r, base, w);
    }
  }

  /** A word of an alternative's first branch is spelled through that branch. */
  lemma {:induction false} FirstBranchAccepts(r: RegExAst, base: nat, w: string)
    requires r.Alt? && Matches(r.first, w)
    ensures Spells(r.Build(base), w)
    decreases r, 0
  {
    var a, b := r.first.Build(base + 2), r.second.Build(base + 2 + r.first.Size());
    assert r.Build(base) == AltFragment(base, a, b);
    BuildAcceptsLanguage(r.first, base + 2, w);
    AltBranchSpells(base, a, b, a, w);
  }

  /** A word of an alternative's second branch is spelled through that branch. */
  lemma {:induction false} SecondBranchAccepts(r: RegExAst, base: nat, w: string)
    requires r.Alt? && Matches(r.second, w)
    ensures Spells(r.Build(base), w)
    decreases r, 0
  {
    var a, b := r.first.Build(base + 2), r.second.Build(base + 2 + r.first.Size());
    assert r.Build(base) == AltFragment(base, a, b);
    BuildAcceptsLanguage(r.second, base + 2 + r.first.Size(), w);
    AltBranchSpells(base, a, b, b, w);
  }

  // Runs of a fragment read only words of its tree.

  /** Every edge of `edges` that starts in `[lo, hi)` is an edge of `inner`. */
  ghost predicate Closed(edges: set<Edge>, inner: set<Edge>, lo: nat, hi: nat) {
    forall e | e in edges :: lo <= e.0 < hi ==> e in inner
  }

  /** No edge of `edges` leaves `s`. */
  ghost predicate NoEdgeFrom(edges: set<Edge>, s: nat) {
    forall e | e in edges :: e.0 != s
  }

  /** A run from a state no edge leaves is empty. */
  lemma RunFromDeadEnd(q: seq<Edge>, s: nat, t: nat, edges: set<Edge>)
    requires Run(q, s, t, edges) && NoEdgeFrom(edges, s)
    ensures q == [] && s == t
  {
  }

  /**
   * A run that starts inside the states `[lo, hi)` of `fr` and ends
   * outside them follows `fr`'s edges up to the first edge that is not
   * one of them, which starts inside.
   */
  lemma {:induction false} LeaveRange(q: seq<Edge>, x: nat, y: nat, fr: Fragment, edges: set<Edge>, lo: nat, hi: nat)
    returns (k: nat)
    requires Run(q, x, y, edges) && Confined(fr, lo, hi)
    requires lo <= x < hi && !(lo <= y < hi)
    ensures k < |q| && q[k] in edges && q[k] !in fr.edges && lo <= q[k].0 < hi
    ensures Run(q[..k], x, q[k].0, fr.edges) && Run(q[k + 1..], q[k].2, y, edges)
    ensures Word(q) == Word(q[..k]) + Word([q[k]]) + Word(q[k + 1..])
    decreases |q|
  {
    assert |q| > 0;
    var head := if q[0].1.Sym? then [q[0].1.c] else [];
    SingleEdgeRun(q[0], edges);
    if q[0] !in fr.edges {
      k := 0;
      assert q[..0] == [] && q[1..] == q[k + 1..];
    } else {
      assert InRange(q[0], lo, hi);
      var rest := q[1..];
      var k' := LeaveRange(rest, q[0].2, y, fr, edges, lo, hi);
      k := k' + 1;
      assert q[k] == rest[k'] && q[k + 1..] == rest[k' + 1..];
      assert q[..k][0] == q[0] && q[..k][1..] == rest[..k'];
      assert Word(q[..k]) == head + Word(rest[..k']);
    }
  }

  /** A run that starts inside `[lo, hi)` and can only go on by `fr`'s edges there stays a run of `fr`. */
  lemma {:induction false} StayInRange(q: seq<Edge>, x: nat, y: nat, fr: Fragment, edges: set<Edge>, lo: nat, hi: nat)
    requires Run(q, x, y, edges) && Confined(fr, lo, hi) && Closed(edges, fr.edges, lo, hi)
    requires lo <= x < hi
    ensures Run(q, x, y, fr.edges)
    decreases |q|
  {
    if |q| > 0 {
      assert q[0] in fr.edges;
      assert InRange(q[0], lo, hi);
      StayInRange(q[1..], q[0].2, y, fr, edges, lo, hi);
    }
  }

  /** Every edge of `edges` that starts in `[lo, hi)` is an edge of `inner` or the edge `exit`. */
  ghost predicate LeavesBy(edges: set<Edge>, inner: set<Edge>, lo: nat, hi: nat, exit: Edge) {
    forall e | e in edges :: lo <= e.0 < hi ==> e in inner || e == exit
  }

  /** Every edge of `edges` starts in `[lo, hi)`. */
  ghost predicate StartsIn(edges: set<Edge>, lo: nat, hi: nat) {
    forall e | e in edges :: lo <= e.0 < hi
  }

  /** The edges of a fragment over `[lo, hi)` start there. */
  lemma ConfinedStarts(fr: Fragment, lo: nat, hi: nat)
    requires Confined(fr, lo, hi)
    ensures StartsIn(fr.edges, lo, hi)
  {
    forall e | e in fr.edges
      ensures lo <= e.0 < hi
    {
      assert InRange(e, lo, hi);
    }
  }

  /**
   * A run that starts in the part `fr` over `[lo, hi)` and ends outside it
   * leaves by the one edge `exit`: before it, it is a run of `fr`.
   */
  lemma LeaveBy(q: seq<Edge>, x: nat, y: nat, fr: Fragment, edges: set<Edge>, lo: nat, hi: nat, exit: Edge)
    returns (k: nat)
    requires Run(q, x, y, edges) && Confined(fr, lo, hi) && LeavesBy(edges, fr.edges, lo, hi, exit)
    requires lo <= x < hi && !(lo <= y < hi)
    ensures k < |q| && q[k] == exit && exit in edges
    ensures Run(q[..k], x, exit.0, fr.edges) && Run(q[k + 1..], exit.2, y, edges)
    ensures Word(q) == Word(q[..k]) + Word([exit]) + Word(q[k + 1..])
    ensures exit.1 == Eps ==> Word(q) == Word(q[..k]) + Word(q[k + 1..])
  {
    k := LeaveRange(q, x, y, fr, edges, lo, hi);
    SingleEdgeRun(exit, edges);
    if exit.1 == Eps {
      assert Word(q) == Word(q[..k]) + [] + Word(q[k + 1..]);
    }
  }

  /**
   * A run through a sequence crosses the linking edge: it is a run of the
   * first part, the link, and a run of the second part.
   */
  lemma SeqRunCrossesLink(a: Fragment, b: Fragment, lo: nat, mid: nat, hi: nat, p: seq<Edge>)
    returns (p1: seq<Edge>, p2: seq<Edge>)
    requires Confined(a, lo, mid) && Confined(b, mid, hi)
    requires Run(p, a.start, b.end, SeqFragment(a, b).edges)
    ensures Run(p1, a.start, a.end, a.edges) && Run(p2, b.start, b.end, b.edges)
    ensures Word(p) == Word(p1) + Word(p2)
  {
    SeqLeavesByLink(a, b, lo, mid, hi);
    p1, p2 := CrossByEpsilon(a, b, lo, mid, hi, SeqFragment(a, b).edges, p);
  }

  /**
   * A run from the start of `a` to the end of `b`, over edges that leave
   * `a` only by an epsilon edge into `b` and never leave `b`, is a run of
   * `a`, that edge, and a run of `b`.
   */
  lemma CrossByEpsilon(a: Fragment, b: Fragment, lo: nat, mid: nat, hi: nat, edges: set<Edge>, p: seq<Edge>)
    returns (p1: seq<Edge>, p2: seq<Edge>)
    requires Confined(a, lo, mid) && Confined(b, mid, hi)
    requires LeavesBy(edges, a.edges, lo, mid, (a.end, Eps, b.start)) && Closed(edges, b.edges, mid, hi)
    requires Run(p, a.start, b.end, edges)
    ensures Run(p1, a.start, a.end, a.edges) && Run(p2, b.start, b.end, b.edges)
    ensures Word(p) == Word(p1) + Word(p2)
  {
    var link := (a.end, Eps, b.start);
    var k := LeaveBy(p, a.start, b.end, a, edges, lo, mid, link);
    p1, p2 := p[..k], p[k + 1..];
    StayInRange(p2, b.start, b.end, b, edges, mid, hi);
  }

  /** In a sequence, the first part is left only by the link, and the second part is never left. */
  lemma SeqLeavesByLink(a: Fragment, b: Fragment, lo: nat, mid: nat, hi: nat)
    requires Confined(a, lo, mid) && Confined(b, mid, hi)
    ensures LeavesBy(SeqFragment(a, b).edges, a.edges, lo, mid, (a.end, Eps, b.start))
    ensures Closed(SeqFragment(a, b).edges, b.edges, mid, hi)
  {
    ConfinedStarts(a, lo, mid);
    ConfinedStarts(b, mid, hi);
  }

  /**
   * A run from inside an alternative's branch to the alternative's end,
   * which no edge leaves, is a run through the branch and its exit edge.
   */
  lemma ThroughBranch(branch: Fragment, lo: nat, hi: nat, end: nat, edges: set<Edge>, rest: seq<Edge>)
    returns (q: seq<Edge>)
    requires Confined(branch, lo, hi) && !(lo <= end < hi) && NoEdgeFrom(edges, end)
    requires LeavesBy(edges, branch.edges, lo, hi, (branch.end, Eps, end))
    requires Run(rest, branch.start, end, edges)
    ensures Run(q, branch.start, branch.end, branch.edges) && Word(q) == Word(rest)
  {
    var exit := (branch.end, Eps, end);
    var k := LeaveBy(rest, branch.start, end, branch, edges, lo, hi, exit);
    RunFromDeadEnd(rest[k + 1..], end, end, edges);
    SingleEdgeRun(exit, edges);
    q := rest[..k];
  }

  /**
   * A run through an alternative enters one branch by its epsilon edge,
   * runs through that branch and leaves by its epsilon edge; it reads what
   * the branch run reads.
   */
  lemma AltRunEntersBranch(base: nat, a: Fragment, b: Fragment, mid: nat, hi: nat, p: seq<Edge>)
    returns (q: seq<Edge>, first: bool)
    requires Confined(a, base + 2, mid) && Confined(b, mid, hi)
    requires Run(p, base, base + 1, AltFragment(base, a, b).edges)
    ensures first ==> Run(q, a.start, a.end, a.edges)
    ensures !first ==> Run(q, b.start, b.end, b.edges)
    ensures Word(q) == Word(p)
  {
    var edges := AltFragment(base, a, b).edges;
    ConfinedStarts(a, base + 2, mid);
    ConfinedStarts(b, mid, hi);
    assert NoEdgeFrom(edges, base + 1);
    assert |p| > 0 && p[0] in edges;
    SingleEdgeRun(p[0], edges);
    first := p[0] == (base, Eps, a.start);
    if first {
      assert LeavesBy(edges, a.edges, base + 2, mid, (a.end, Eps, base + 1));
      q := ThroughBranch(a, base + 2, mid, base + 1, edges, p[1..]);
    } else {
      assert p[0] == (base, Eps, b.start);
      assert LeavesBy(edges, b.edges, mid, hi, (b.end, Eps, base + 1));
      q := ThroughBranch(b, mid, hi, base + 1, edges, p[1..]);
    }
  }

  /** A run through the fragment of a tree reads a word of the tree. */
  lemma {:induction false} BuildSpellsOnlyLanguage(r: RegExAst, base: nat, w: string)
    requires Spells(r.Build(base), w)
    ensures Matches(r, w)
    decreases r, 1
  {
    if r.Literal? {
      var e := (base, Sym(r.c), base + 1);
      var p :| Run(p, base, base + 1, {e}) && Word(p) == w;
      RunFromDeadEnd(p[1..], base + 1, base + 1, {e});
      assert p == [e];
      SingleEdgeRun(e, {e});
    } else if r.Seq? {
      SeqSpellsOnlyLanguage(r, base, w);
    } else {
      AltSpellsOnlyLanguage(r, base, w);
    }
  }

  lemma {:induction false} SeqSpellsOnlyLanguage(r: RegExAst, base: nat, w: string)
    requires r.Seq? && Spells(r.Build(base), w)
    ensures Matches(r, w)
    decreases r, 0
  {
    var mid := base + r.first.Size();
    var a, b := r.first.Build(base), r.second.Build(mid);
    assert r.Build(base) == SeqFragment(a, b);
    var p :| Run(p, a.start, b.end, SeqFragment(a, b).edges) && Word(p) == w;
    BuildIsFresh(r.first, base);
    BuildIsFresh(r.second, mid);
    var p1, p2 := SeqRunCrossesLink(a, b, base, mid, mid + r.second.Size(), p);
    SpellsBy(a, p1, Word(p1));
    SpellsBy(b, p2, Word(p2));
    BuildSpellsOnlyLanguage(r.first, base, Word(p1));
    BuildSpellsOnlyLanguage(r.second, mid, Word(p2));
    var i := |Word(p1)|;
    assert w[..i] == Word(p1) && w[i..] == Word(p2);
  }

  lemma {:induction false} AltSpellsOnlyLanguage(r: RegExAst, base: nat, w: string)
    requires r.Alt? && Spells(r.Build(base), w)
    ensures Matches(r, w)
    decreases r, 0
  {
    var mid := base + 2 + r.first.Size();
    var a, b := r.first.Build(base + 2), r.second.Build(mid);
    assert r.Build(base) == AltFragment(base, a, b);
    var p :| Run(p, base, base + 1, AltFragment(base, a, b).edges) && Word(p) == w;
    BuildIsFresh(r.first, base + 2);
    BuildIsFresh(r.second, mid);
    var q, first := AltRunEntersBranch(base, a, b, mid, mid + r.second.Size(), p);
    if first {
      SpellsBy(a, q, w);
      BuildSpellsOnlyLanguage(r.first, base + 2, w);
    } else {
      SpellsBy(b, q, w);
      BuildSpellsOnlyLanguage(r.second, mid, w);
    }
  }

  /** The fragment of a tree spells exactly the words of the tree. */
  lemma LanguageIsExactlySpelled(r: RegExAst, base: nat, w: string)
    ensures Spells(r.Build(base), w) <==> Matches(r, w)
  {
    if Matches(r, w) {
      BuildAcceptsLanguage(r, base, w);
    }
    if Spells(r.Build(base), w) {
      BuildSpellsOnlyLanguage(r, base, w);
    }
  }

  /** `a` then `b` accepts `ab` and rejects `a`, `b` and `ba`. */
  lemma SeqOfLiteralsLanguage(base: nat)
    ensures Spells(Seq(Literal('a'), Literal('b')).Build(base), "ab")
    ensures !Spells(Seq(Literal('a'), Literal('b')).Build(base), "a")
    ensures !Spells(Seq(Literal('a'), Literal('b')).Build(base), "b")
    ensures !Spells(Seq(Literal('a'), Literal('b')).Build(base), "ba")
  {
    var r := Seq(Literal('a'), Literal('b'));
    assert "ab"[..1] == "a" && "ab"[1..] == "b";
    LanguageIsExactlySpelled(r, base, "ab");
    LanguageIsExactlySpelled(r, base, "a");
    LanguageIsExactlySpelled(r, base, "b");
    LanguageIsExactlySpelled(r, base, "ba");
  }

  /** `a` or `b` accepts `a` and `b` and rejects the empty word and `ab`. */
  lemma AltOfLiteralsLanguage(base: nat)
    ensures Spells(Alt(Literal('a'), Literal('b')).Build(base), "a")
    ensures Spells(Alt(Literal('a'), Literal('b')).Build(base), "b")
    ensures !Spells(Alt(Literal('a'), Literal('b')).Build(base), "")
    ensures !Spells(Alt(Literal('a'), Literal('b')).Build(base), "ab")
  {
    var r := Alt(Literal('a'), Literal('b'));
    LanguageIsExactlySpelled(r, base, "a");
    LanguageIsExactlySpelled(r, base, "b");
    LanguageIsExactlySpelled(r, base, "");
    LanguageIsExactlySpelled(r, base, "ab");
  }

  /**
   * The dense NFA the construction writes into: states are the numbers
   * below `next`, handed out in order by `NewState`.
   */
  class DenseNfa {
    var next: nat
    var transitions: set<Edge>

    /** Every transition joins two allocated states. */
    ghost predicate Valid()
      reads this
    {
      forall e {:trigger InRange(e, 0, next)} | e in transitions :: InRange(e, 0, next)
    }

    constructor()
      ensures Valid() && next == 0 && transitions == {}
    {
      next := 0;
      transitions := {};
    }

    /** Allocates a fresh state: the first number not yet in use. */
    method NewState() returns (s: nat)
      requires Valid()
      modifies this
      ensures Valid()
      ensures s == old(next)
      ensures next == old(next) + 1 && transitions == old(transitions)
    {
      forall e | e in transitions
        ensures InRange(e, 0, next + 1)
      {
        assert InRange(e, 0, next);
      }
      s := next;
      next := next + 1;
    }

    /** True iff the transition was new; afterwards it is present. */
    method AddTransition(from: nat, on: Label, to: nat) returns (added: bool)
      requires Valid() && from < next && to < next
      modifies this
      ensures Valid()
      ensures added <==> (from, on, to) !in old(transitions)
      ensures transitions == old(transitions) + {(from, on, to)}
      ensures next == old(next)
    {
      added := (from, on, to) !in transitions;
      transitions := transitions + {(from, on, to)};
    }
  }
}
