# Yoakke core, modelled in Dafny

Yoakke is a C# library for building compilers. This project models its core pieces and proves their properties:

- the position and severity values of its text and reporting layers;
- the tagged token;
- its binary search over a key selector;
- the equality of interval relations;
- the mutable finite automaton interface and the Thompson construction of its regex trees;
- the C lexer;
- the two grammar rewritings of the parser generator: left-recursion elimination and precedence tables;
- the `FoldLeft` grammar node;
- the class-hierarchy node of the syntax-tree generator.

Modules, one per component:

- `Wrappers`: `Option` and `Result`.
- `Numbers`: `Int32.CompareTo`, the `Int32` range and unchecked 32-bit addition.
- `Text` (position.dfy): `Position`, whose line and column are `Int32` values, and its operators, plus `Range`.
- `Reporting` (severity.dfy): `Severity`. Its identity is its priority alone.
- `Lexer` (token.dfy): `Token<TKind>` equality and hashing.
- `BinarySearchExtension`:
  - the four `BinarySearch` overloads, as methods proved equal to the function `SearchChecked`, which models every argument and reports the indexer's exception as an error;
  - `Search`, the same search on a range inside the list, where no read fails;
  - the insertion-point and exact-match properties.
- `Intervals`:
  - the seven relation shapes and their comparer-parameterised equality;
  - the classifier that the interval tests pin down.
- `Automata`: the `IFiniteAutomaton` interface as a class over sets of states and transitions, including pruning of unreachable states.
- `RegEx`:
  - literal, sequence and alternative nodes;
  - the Thompson construction over a small dense-NFA class;
  - proofs that the construction uses fresh states only and that its fragment spells exactly the tree's language: every word the tree denotes, and no other.
- `CLexerSpec`: what the C lexer reads, as functions of the source text and the lexer state. This covers:
  - the escaped-character layer: line continuations, and the trigraphs of section 5.2.1.1 of ISO/IEC 9899:2011;
  - escaped matching;
  - comments;
  - the punctuator switch with the digraphs of section 6.4.6;
  - the logical position;
  - `Next`.
- `CSyntax` (clexer.dfy): the `CLexer` class. Its fields are the cursor, `LogicalPosition` and the switches. Every method is proved equal to the function of `CLexerSpec` that it implements. `Next` runs the `goto begin` loop as a `while` loop.
- `CLexerAnchored`:
  - three places where `TryParseEscaped` reads relative to the wrong origin;
  - two inputs on which it hangs: `??/` then a newline at the cursor, and a backslash inside a comment;
  - the `+` fallback, whose logical text is `=`;
  - the read evidently intended;
  - see Findings.
- `Grammar` (bnf_ast.dfy): the grammar tree and the members of its `FoldLeft` node.
- `BnfDesugar`: `EliminateLeftRecursion` and `GeneratePrecedenceParser`. Their loops are methods proved against recursive reference definitions.
- `AstGenerator` (meta_node.dfy): the `MetaNode` class, with `Root`, the inherited `ImplementEquality` flag and `Nesting`.

Some source loops can run forever. Those loops are deterministic, so each one runs forever exactly when it returns to a loop-head state it has already been in. The model tracks the states already seen and reports such a return as an explicit hang outcome. Examples are `EscapeHangs` and `LexHangs`.

## Model

| member | source | states |
|---|---|---|
| Numbers.CompareInt | Yoakke.Text/Position.cs:36-37 | `Int32.CompareTo` is -1, 0 or 1. It is negative exactly when `a < b` and zero exactly when `a == b`. |
| Numbers.WrapInt32 | Yoakke.Text/Position.cs:54 | Unchecked `Int32` addition: an `Int32` that agrees with `x` modulo 2^32, and `x` itself when `x` is an `Int32`. |
| Text.Position.CompareTo | Yoakke.Text/Position.cs:34-38 | The result is -1, 0 or 1. It is negative exactly when this position is before the other in (line, column) order, positive exactly when it is after, and zero exactly when the two are equal. |
| Text.Position.Equals | Yoakke.Text/Position.cs:32 | True iff line and column agree. |
| Text.Position.EqualsObject | Yoakke.Text/Position.cs:30 | True iff the object is a `Position` equal to this one. |
| Text.Position.Eq | Yoakke.Text/Position.cs:40 | `==` is equality of positions. |
| Text.Position.NotEq | Yoakke.Text/Position.cs:41 | `!=` is inequality of positions. |
| Text.Position.Less | Yoakke.Text/Position.cs:42 | `<` is lexicographic "before". |
| Text.Position.Greater | Yoakke.Text/Position.cs:43 | `>` is lexicographic "after". |
| Text.Position.LessEq | Yoakke.Text/Position.cs:44 | `<=` is "before or equal". |
| Text.Position.GreaterEq | Yoakke.Text/Position.cs:45 | `>=` is "after or equal". |
| Text.Position.Advance | Yoakke.Text/Position.cs:54 | Same line. While the sum stays an `Int32` the column moves by `amount`; past `Int32.MaxValue` it wraps around by 2^32. |
| Text.Position.Newline | Yoakke.Text/Position.cs:60 | Column 0, on the next line; the last `Int32` line wraps around to `Int32.MinValue`. |
| Text.CompareToAntisymmetric | Yoakke.Text/Position.cs:34-38 | Swapping the arguments negates the comparison. |
| Text.CompareToTransitive | Yoakke.Text/Position.cs:34-38 | "Less than" is transitive. |
| Text.NewlineIsGreater | Yoakke.Text/Position.cs:60 | Below the last `Int32` line, a newline lands strictly after its start, at column 0. |
| Text.AdvanceIsGreater | Yoakke.Text/Position.cs:54 | Advancing by a positive amount that keeps the column an `Int32` lands strictly after the start, on the same line. |
| Text.NewlineWrapsOnLastLine | Yoakke.Text/Position.cs:60 | On the last `Int32` line, a newline wraps to line `Int32.MinValue`, before the start. |
| Text.AdvanceWrapsPastLastColumn | Yoakke.Text/Position.cs:54 | Advancing by an `Int32` amount past the last `Int32` column wraps to a position before the start. |
| Text.AdvanceDefaultIsOne | Yoakke.Text/Position.cs:54 | Below the last `Int32` column, the default amount moves one column. |
| Reporting.Severity.Equals | Yoakke.Reporting/Severity.cs:42 | Equal iff the priorities are equal. Two levels with different names can be equal. |
| Reporting.Severity.EqualsObject | Yoakke.Reporting/Severity.cs:41 | Only a `Severity` of the same priority is equal. |
| Reporting.Severity.GetHashCode | Yoakke.Reporting/Severity.cs:43 | The hash is the priority, as `Int32.GetHashCode` is. It carries no contract; `EqualLevelsHashEqually` and `SamePriorityIsSameLevel` state its properties. |
| Reporting.Severity.CompareTo | Yoakke.Reporting/Severity.cs:44 | Its sign is the order of the priorities. It is zero exactly when the levels are `Equals`. |
| Reporting.Severity.Eq | Yoakke.Reporting/Severity.cs:46 | `==` is `Equals`. |
| Reporting.Severity.NotEq | Yoakke.Reporting/Severity.cs:47 | `!=` is not `Equals`. |
| Reporting.Severity.Less | Yoakke.Reporting/Severity.cs:49 | `<` orders by priority. |
| Reporting.Severity.LessEq | Yoakke.Reporting/Severity.cs:50 | `<=` orders by priority. |
| Reporting.Severity.Greater | Yoakke.Reporting/Severity.cs:51 | `>` orders by priority. |
| Reporting.Severity.GreaterEq | Yoakke.Reporting/Severity.cs:52 | `>=` orders by priority. |
| Reporting.PredefinedLevelsOrdered | Yoakke.Reporting/Severity.cs:15-19 | The levels are strictly ordered: note < help < warning < error < internal error. |
| Reporting.SamePriorityIsSameLevel | Yoakke.Reporting/Severity.cs:11-13 | The name does not matter: the same priority gives an equal level with the same hash. |
| Reporting.EqualLevelsHashEqually | Yoakke.Reporting/Severity.cs:42-43 | Equal levels hash equally. |
| Reporting.OperatorsAgree | Yoakke.Reporting/Severity.cs:46-52 | The six operators are mutually consistent. |
| Lexer.Token.Equals | Yoakke.Lexer/Token.cs:36-40 | It never equals null. Otherwise it is equal iff range, text and kind all agree. |
| Lexer.Token.EqualsObject | Yoakke.Lexer/Token.cs:34-35 | Through the `as Token<TKind>` cast: equal only to the same token. |
| Lexer.Token.GetHashCode | Yoakke.Lexer/Token.cs:42 | Combines range and text with the combiner it is given. It carries no contract; `EqualTokensHashEqually` and `HashIgnoresKind` state its properties. |
| Lexer.AsToken | Yoakke.Lexer/Token.cs:34 | The cast gives a token exactly for a `Token<TKind>`. |
| Lexer.EqualTokensHashEqually | Yoakke.Lexer/Token.cs:36-42 | Equal tokens hash equally under every combiner. |
| Lexer.HashIgnoresKind | Yoakke.Lexer/Token.cs:42 | The hash does not depend on the kind. |
| Lexer.NeverEqualsNonToken | Yoakke.Lexer/Token.cs:34-37 | Null and non-token objects are never equal. |
| Lexer.EqualsIsEquivalence | Yoakke.Lexer/Token.cs:36-40 | Token equality is reflexive, symmetric and transitive. |
| BinarySearchExtension.Probe | Yoakke.Collections/BinarySearchExtension.cs:109-112 | The final probe: an exact hit iff the element compares equal. Otherwise the place after the element when the key is greater, and the element's own place when it is smaller. |
| BinarySearchExtension.Halve | Yoakke.Collections/BinarySearchExtension.cs:99-107 | The element the loop narrows the window to lies in the window. |
| BinarySearchExtension.HalveAfterGreater | Yoakke.Collections/BinarySearchExtension.cs:99-107 | When the key is greater than a prefix of the window, it is greater than every element before the one the loop narrows to. |
| BinarySearchExtension.HalveBeforeNotGreater | Yoakke.Collections/BinarySearchExtension.cs:99-107 | When the key is greater than a prefix of the window, it is not greater than any element after the one the loop narrows to. |
| BinarySearchExtension.SearchLoop | Yoakke.Collections/BinarySearchExtension.cs:98-112 | The loop and the final probe: the index stays in the range; `Exact` means the element at it compares equal; it is the insertion point when the prefix is sorted. |
| BinarySearchExtension.HalveChecked | Yoakke.Collections/BinarySearchExtension.cs:98-107 | The loop on any window, checking each index it reads: `None` when one lies outside the list. It carries no contract; `HalveCheckedInRange` relates it to `Halve`. |
| BinarySearchExtension.HalveCheckedStep | Yoakke.Collections/BinarySearchExtension.cs:101-106 | One turn of the loop, when the index it reads lies in the list. |
| BinarySearchExtension.HalveCheckedInRange | Yoakke.Collections/BinarySearchExtension.cs:98-107 | On a window inside the list, no read fails and the loop ends where `Halve` does. |
| BinarySearchExtension.SearchChecked | Yoakke.Collections/BinarySearchExtension.cs:94-113 | The search on any arguments: an empty range gives `(start, false)`. A negative length skips the loop and probes `start`, failing when it lies outside the list. An exact hit is an index of the list whose element compares equal. |
| BinarySearchExtension.SearchCheckedInRange | Yoakke.Collections/BinarySearchExtension.cs:94-113 | On a range inside the list the search never fails, and it gives `Search`. |
| BinarySearchExtension.Compare | Yoakke.Collections/BinarySearchExtension.cs:103-104 | Compares the key with the selected key of element `at`: the sign `Signs` records there. |
| BinarySearchExtension.Narrow | Yoakke.Collections/BinarySearchExtension.cs:98-107 | The `while (size > 1)` loop computes `HalveChecked`: it fails exactly when it would read outside the list. For a positive length the index it ends on, and every index it reads, lie in `[start, start+length)`. |
| BinarySearchExtension.Search | Yoakke.Collections/BinarySearchExtension.cs:94-113 | An empty range gives `(start, false)`. The index lies within `[start, start+length]`. `Exact` implies a match at the index. For a sorted range the index is the insertion point. |
| BinarySearchExtension.BinarySearchRange | Yoakke.Collections/BinarySearchExtension.cs:87-113 | On any arguments it returns `SearchChecked`: the indexer's exception is an error result. For a positive length every index it reads lies in `[start, start+length)`. |
| BinarySearchExtension.BinarySearchFrom | Yoakke.Collections/BinarySearchExtension.cs:63-69 | Searches `[start, Count)` on any `start`, as `SearchChecked` does; for `0 <= start <= Count` it never fails and gives `Search`. |
| BinarySearchExtension.BinarySearchWith | Yoakke.Collections/BinarySearchExtension.cs:41-46 | Searches the whole list. |
| BinarySearchExtension.BinarySearch | Yoakke.Collections/BinarySearchExtension.cs:21-25 | Searches the whole list with the key's `CompareTo`. |
| BinarySearchExtension.ExactMissesMatchAfterLastProbe | Yoakke.Collections/BinarySearchExtension.cs:99-112 | Searching 2 in [1, 2] gives (1, false), although element 1 is 2. |
| BinarySearchExtension.SearchExact | Yoakke.Collections/BinarySearchExtension.cs:19-20 | Same index as `Search`. On a sorted range, `Exact` holds iff some element compares equal. |
| Intervals.Equals | Yoakke.Collections/Intervals/IntervalRelation.cs:17 | Under the default int comparer, relations are equal iff they are the same shape with the same pieces. |
| Intervals.EqualsObject | Yoakke.Collections/Intervals/IntervalRelation.cs:16 | Only a relation can be equal. |
| Intervals.Eq | Yoakke.Collections/Intervals/IntervalRelation.cs:19 | `==` is equality. |
| Intervals.NotEq | Yoakke.Collections/Intervals/IntervalRelation.cs:20 | `!=` is the negation of `==`. |
| Intervals.EqualsWithIsPiecewise | Yoakke.Collections/Intervals/IntervalRelation.cs:42-204 | Each variant's `Equals(other, comparer)` holds iff both have the same shape and every named piece is equal under the comparer. |
| Intervals.IntervalEqualityIsStructural | Yoakke.Collections/Intervals/IntervalRelation.cs:42-204 | A comparer whose zero is equality makes relation equality structural. |
| Intervals.TestAssertionsAreConsistent | Yoakke.Collections.Tests/IntervalTests.cs:36-120 | Some classifier meets every assertion of the interval tests. |
| Intervals.PinnedIsOrderInsensitive | Yoakke.Collections.Tests/IntervalTests.cs:36-120 | Any classifier the tests pin down gives the same relation for both argument orders of each tested pair. |
| Intervals.PinnedPiecesMeetAtCuts | Yoakke.Collections.Tests/IntervalTests.cs:36-120 | The pieces of every pinned relation meet at their cuts. |
| Automata.ClosedHoldsReachable | Sources/Core/Yoakke.Automata/IFiniteAutomaton.cs:46-51 | A transition-closed set that holds `from` holds everything reachable from it. |
| Automata.PathStatesReachable | Sources/Core/Yoakke.Automata/IFiniteAutomaton.cs:46-51 | Every state on a walk from `from` is reachable from it. |
| Automata.PathInSubset | Sources/Core/Yoakke.Automata/IFiniteAutomaton.cs:46-51 | A walk that uses only kept transitions is a walk over the kept transitions. |
| Automata.ExtendReachable | Sources/Core/Yoakke.Automata/IFiniteAutomaton.cs:46-51 | One more transition extends reachability. |
| Automata.PruneKeepsWalks | Sources/Core/Yoakke.Automata/IFiniteAutomaton.cs:46-51 | After pruning, every kept state is still reachable. |
| Automata.FiniteAutomaton.constructor | Sources/Core/Yoakke.Automata/IFiniteAutomaton.cs:16-26 | A fresh automaton with only its initial state, no accepting states and no transitions. |
| Automata.FiniteAutomaton.SetInitialState | Sources/Core/Yoakke.Automata/IFiniteAutomaton.cs:21 | The initial state is set and becomes a state. Nothing else changes. |
| Automata.FiniteAutomaton.AddAccepting | Sources/Core/Yoakke.Automata/IFiniteAutomaton.cs:26 | The state becomes accepting. |
| Automata.FiniteAutomaton.RemoveAccepting | Sources/Core/Yoakke.Automata/IFiniteAutomaton.cs:26 | Returns true iff the state was accepting; afterwards it is not accepting. |
| Automata.FiniteAutomaton.AddTransition | Sources/Core/Yoakke.Automata/IFiniteAutomaton.cs:28-35 | Returns true iff the transition is new; afterwards it is present. |
| Automata.FiniteAutomaton.RemoveTransition | Sources/Core/Yoakke.Automata/IFiniteAutomaton.cs:37-44 | Returns true iff the transition was present; afterwards it is absent and nothing else has changed. |
| Automata.FiniteAutomaton.ReachableFrom | Sources/Core/Yoakke.Automata/IFiniteAutomaton.cs:46-51 | Exactly the states reachable from `from`. |
| Automata.FiniteAutomaton.RemoveUnreachableFrom | Sources/Core/Yoakke.Automata/IFiniteAutomaton.cs:46-51 | Keeps exactly the reachable states and the transitions between them. Returns true iff some state was removed. Afterwards every state is reachable. |
| Automata.FiniteAutomaton.RemoveUnreachable | Sources/Core/Yoakke.Automata/IFiniteAutomaton.cs:53-57 | The same, pruning from the initial state. |
| Automata.AddThenRemoveRestores | Sources/Core/Yoakke.Automata/IFiniteAutomaton.cs:28-44 | Adding an absent transition and then removing it restores the transition set. |
| Automata.AddTwice | Sources/Core/Yoakke.Automata/IFiniteAutomaton.cs:28-35 | A second add of the same transition returns false. |
| Automata.PruneTwice | Sources/Core/Yoakke.Automata/IFiniteAutomaton.cs:46-51 | A second prune finds nothing to remove. |
| RegEx.RegExAst.Equals | Yoakke.Collections/RegEx/RegExAst.Alt.cs:28-30 | Same node kind, same character, equal children. It carries no contract; `EqualsIsStructural` proves it is `==`. |
| RegEx.RegExAst.Size | Yoakke.Collections/RegEx/RegExAst.Alt.cs:37-41 | The number of states a subtree allocates: two per node, a sequence none of its own. It carries no contract; `ThompsonConstruct` proves the allocator moves on by it. |
| RegEx.RegExAst.Build | Yoakke.Collections/RegEx/RegExAst.Alt.cs:35-50 | The fragment the construction makes from a given next free state. It carries no contract; `BuildIsFresh` and `LanguageIsExactlySpelled` state its properties. |
| RegEx.RegExAst.Desugar | Yoakke.Collections/RegEx/RegExAst.Seq.cs:33 | Literal, sequence and alternative are not sugar, so desugaring gives the same tree. |
| RegEx.RegExAst.ThompsonConstruct | Yoakke.Collections/RegEx/RegExAst.Alt.cs:35-50 | Allocates `Size()` fresh states and adds exactly the edges of `Build`, returning its start and end. |
| RegEx.DenseNfa.constructor | Yoakke.Collections/RegEx/RegExAst.Alt.cs:35 | An automaton with no states and no transitions. |
| RegEx.DenseNfa.NewState | Yoakke.Collections/RegEx/RegExAst.Literal.cs:30-31 | Returns the first unused state; the counter grows by one and the transitions stay. |
| RegEx.DenseNfa.AddTransition | Yoakke.Collections/RegEx/RegExAst.Literal.cs:33 | True iff the transition was new. Afterwards it is present; no state is allocated. |
| RegEx.LiteralConstruct | Yoakke.Collections/RegEx/RegExAst.Literal.cs:28-36 | Two fresh states joined by the character. |
| RegEx.SeqConstruct | Yoakke.Collections/RegEx/RegExAst.Seq.cs:35-41 | The first part, then the second, joined by one epsilon edge. |
| RegEx.AltConstruct | Yoakke.Collections/RegEx/RegExAst.Alt.cs:35-50 | Two fresh states around both branches, with four epsilon edges. |
| RegEx.LinkBranches | Yoakke.Collections/RegEx/RegExAst.Alt.cs:43-47 | Adds the four epsilon edges. |
| RegEx.EqualsIsStructural | Yoakke.Collections/RegEx/RegExAst.Alt.cs:28-30 | `Equals` on regex trees is structural equality. |
| RegEx.LiteralFragmentFacts | Yoakke.Collections/RegEx/RegExAst.Literal.cs:30-33 | A literal's fragment stays within its two states. |
| RegEx.SeqFragmentFacts | Yoakke.Collections/RegEx/RegExAst.Seq.cs:37-40 | The two parts share no edge, and the joining epsilon edge is new. |
| RegEx.AltFragmentFacts | Yoakke.Collections/RegEx/RegExAst.Alt.cs:37-49 | The branches share no edge. The four links are distinct and new. |
| RegEx.AltLinksAreFour | Yoakke.Collections/RegEx/RegExAst.Alt.cs:43-47 | There are four links. |
| RegEx.BuildIsFresh | Yoakke.Collections/RegEx/RegExAst.Alt.cs:35-50 | Every edge of a subtree lies within the states that subtree allocated. |
| RegEx.SeqIsFresh | Yoakke.Collections/RegEx/RegExAst.Seq.cs:35-41 | The same, for sequences. |
| RegEx.AltIsFresh | Yoakke.Collections/RegEx/RegExAst.Alt.cs:35-50 | The same, for alternatives. |
| RegEx.SeqOfLiteralsShape | Yoakke.Collections/RegEx/RegExAst.Seq.cs:35-41 | Two literals in sequence give 4 states and 3 edges. |
| RegEx.AltOfLiteralsShape | Yoakke.Collections/RegEx/RegExAst.Alt.cs:35-50 | Two literals as alternatives give 6 states. |
| RegEx.RunWithin | Yoakke.Collections/RegEx/RegExAst.Seq.cs:39 | A run over a smaller edge set is a run over a larger one. |
| RegEx.WordOfConcat | Yoakke.Collections/RegEx/RegExAst.Seq.cs:39 | The word of joined runs is the joined words. |
| RegEx.JoinRuns | Yoakke.Collections/RegEx/RegExAst.Seq.cs:39 | Runs that meet compose into one run. |
| RegEx.SingleEdgeRun | Yoakke.Collections/RegEx/RegExAst.Literal.cs:33 | A single edge is a run that reads its label. |
| RegEx.JoinThree | Yoakke.Collections/RegEx/RegExAst.Alt.cs:43-47 | Three runs that meet compose into one run reading their three words in order. |
| RegEx.SpellsBy | Yoakke.Collections/RegEx/RegExAst.Alt.cs:49 | A run from a fragment's start to its end spells the word it reads. |
| RegEx.SeqSpells | Yoakke.Collections/RegEx/RegExAst.Seq.cs:37-40 | A sequence fragment reads `u + v`. |
| RegEx.AltBranchSpells | Yoakke.Collections/RegEx/RegExAst.Alt.cs:43-47 | An alternative reads what either branch reads. |
| RegEx.BuildAcceptsLanguage | Yoakke.Collections/RegEx/RegExAst.Alt.cs:35-50 | Every word the tree denotes is read by its fragment, from start to end. |
| RegEx.SeqAcceptsLanguage | Yoakke.Collections/RegEx/RegExAst.Seq.cs:35-41 | The same, for sequences. |
| RegEx.AltAcceptsLanguage | Yoakke.Collections/RegEx/RegExAst.Alt.cs:35-50 | The same, for alternatives. |
| RegEx.FirstBranchAccepts | Yoakke.Collections/RegEx/RegExAst.Alt.cs:43-46 | An alternative reads every word of its first branch. |
| RegEx.SecondBranchAccepts | Yoakke.Collections/RegEx/RegExAst.Alt.cs:44-47 | An alternative reads every word of its second branch. |
| RegEx.RunFromDeadEnd | Yoakke.Collections/RegEx/RegExAst.Alt.cs:46-49 | A run from a state no edge leaves is empty. |
| RegEx.LeaveRange | Yoakke.Collections/RegEx/RegExAst.Seq.cs:35-41 | A run that starts inside a fragment's states and ends outside them leaves by a first edge that is not the fragment's; before it, the run stays in the fragment. |
| RegEx.StayInRange | Yoakke.Collections/RegEx/RegExAst.Seq.cs:35-41 | A run that cannot leave a fragment's states uses only the fragment's edges. |
| RegEx.ConfinedStarts | Yoakke.Collections/RegEx/RegExAst.Seq.cs:35-41 | The edges of a fragment over a range of states start in that range. |
| RegEx.LeaveBy | Yoakke.Collections/RegEx/RegExAst.Alt.cs:46-47 | A run that can leave a branch only by its exit edge takes that edge, after a run of the branch; an epsilon exit adds nothing to the word. |
| RegEx.SeqRunCrossesLink | Yoakke.Collections/RegEx/RegExAst.Seq.cs:37-40 | A run through a sequence is a run of the first part, the joining edge, and a run of the second part; it reads their words joined. |
| RegEx.SeqLeavesByLink | Yoakke.Collections/RegEx/RegExAst.Seq.cs:37-40 | In a sequence, the first part is left only by the joining edge, and the second part is never left. |
| RegEx.CrossByEpsilon | Yoakke.Collections/RegEx/RegExAst.Seq.cs:37-40 | A run that can leave the first part only by an epsilon edge into a second part it never leaves is a run of each part, reading their words joined. |
| RegEx.ThroughBranch | Yoakke.Collections/RegEx/RegExAst.Alt.cs:43-47 | A run from a branch's start to the alternative's end reads what a run of the branch reads. |
| RegEx.AltRunEntersBranch | Yoakke.Collections/RegEx/RegExAst.Alt.cs:43-47 | A run through an alternative enters one branch and reads what a run of that branch reads. |
| RegEx.BuildSpellsOnlyLanguage | Yoakke.Collections/RegEx/RegExAst.Alt.cs:35-50 | Every word the fragment reads from start to end is denoted by the tree. |
| RegEx.SeqSpellsOnlyLanguage | Yoakke.Collections/RegEx/RegExAst.Seq.cs:35-41 | The same, for sequences: the word splits into words of the two parts. |
| RegEx.AltSpellsOnlyLanguage | Yoakke.Collections/RegEx/RegExAst.Alt.cs:35-50 | The same, for alternatives: the word is a word of one branch. |
| RegEx.LanguageIsExactlySpelled | Yoakke.Collections/RegEx/RegExAst.Alt.cs:35-50 | The fragment reads a word iff the tree denotes it. |
| RegEx.SeqOfLiteralsLanguage | Yoakke.Collections/RegEx/RegExAst.Seq.cs:35-41 | `a` then `b` reads `ab` and rejects `a`, `b` and `ba`. |
| RegEx.AltOfLiteralsLanguage | Yoakke.Collections/RegEx/RegExAst.Alt.cs:35-50 | `a` or `b` reads `a` and `b` and rejects the empty word and `ab`. |
| CLexerSpec.Peek | Sources/Core/Yoakke.C.Syntax/CLexer.cs:324 | The character `i` places after the cursor, or NUL past the end. |
| CLexerSpec.Trigraph | Sources/Core/Yoakke.C.Syntax/CLexer.cs:349-361 | Defined exactly for the nine trigraph characters. |
| CLexerSpec.SpacesEnd | Sources/Core/Yoakke.C.Syntax/CLexer.cs:324-327 | It gives the first non-blank at or after `i`. It is None exactly when every later `Peek` counts as a blank, which happens because NUL past the end is a blank. |
| CLexerSpec.SpliceAfter | Sources/Core/Yoakke.C.Syntax/CLexer.cs:322-338 | A splice after a backslash ends after it and within the input. |
| CLexerSpec.BackslashLength | Sources/Core/Yoakke.C.Syntax/CLexer.cs:315-317 | 0, 1 or 3. |
| CLexerSpec.EscapePass | Sources/Core/Yoakke.C.Syntax/CLexer.cs:303-374 | One pass from `begin:`: the end of input exactly when there is no character; a character ends within the input. |
| CLexerSpec.SpliceTargets | Sources/Core/Yoakke.C.Syntax/CLexer.cs:336 | The places a splice can lead to lie within the input. |
| CLexerSpec.PassSpliceTarget | Sources/Core/Yoakke.C.Syntax/CLexer.cs:336-337 | Every splice leads to one of those places. |
| CLexerSpec.EscapeFrom | Sources/Core/Yoakke.C.Syntax/CLexer.cs:303-375 | The `goto begin` loop with the places already visited; what it reads ends within the input. |
| CLexerSpec.TryParseEscaped | Sources/Core/Yoakke.C.Syntax/CLexer.cs:301-375 | At the end of input it fails with the offset unchanged. A trigraph decodes over three places. A backslash with no continuation is `\`. Any other character is returned as it is, over one place. |
| CLexerSpec.ParseEscaped | Sources/Core/Yoakke.C.Syntax/CLexer.cs:284-285 | Like `TryParseEscaped`, but gives NUL at the end of input. |
| CLexerSpec.MatchChar | Sources/Core/Yoakke.C.Syntax/CLexer.cs:257-269 | Matches iff the next escaped character is `ch`, and ends where that character ends. |
| CLexerSpec.MatchText | Sources/Core/Yoakke.C.Syntax/CLexer.cs:228-242 | A match never ends before offset 1. |
| CLexerSpec.Decode | Sources/Core/Yoakke.C.Syntax/CLexer.cs:231-239 | Decodes exactly `count` characters. |
| CLexerSpec.MatchTextIsDecoding | Sources/Core/Yoakke.C.Syntax/CLexer.cs:228-242 | Matches iff the next `\|text\|` escaped characters spell `text`, and ends where they end. On failure the offset is not moved. |
| CLexerSpec.BoundedSetSize | Sources/Core/Yoakke.C.Syntax/CLexer.cs:93-110 | The visited offsets of a comment loop are bounded, which makes the loop's hang detection finite. |
| CLexerSpec.LineCommentFrom | Sources/Core/Yoakke.C.Syntax/CLexer.cs:93-98 | The line-comment loop stops within the input. |
| CLexerSpec.BlockCommentFrom | Sources/Core/Yoakke.C.Syntax/CLexer.cs:106-110 | The block-comment loop stops within the input. |
| CLexerSpec.Punctuators | Sources/Core/Yoakke.C.Syntax/CLexer.cs:117-190 | The switch's tables and fallbacks; no entry makes `End`, and every logical text has at most four characters. |
| CLexerSpec.PunctuatorsLongestFirst | Sources/Core/Yoakke.C.Syntax/CLexer.cs:152-189 | Every table tries longer continuations before the ones they extend. |
| CLexerSpec.PlusLongestFirst | Sources/Core/Yoakke.C.Syntax/CLexer.cs:152-155 | `+` table: longest first. |
| CLexerSpec.PipeLongestFirst | Sources/Core/Yoakke.C.Syntax/CLexer.cs:156-159 | `\|` table: longest first. |
| CLexerSpec.AmpLongestFirst | Sources/Core/Yoakke.C.Syntax/CLexer.cs:160-163 | `&` table: longest first. |
| CLexerSpec.MinusLongestFirst | Sources/Core/Yoakke.C.Syntax/CLexer.cs:165-169 | `-` table: longest first. |
| CLexerSpec.GreaterLongestFirst | Sources/Core/Yoakke.C.Syntax/CLexer.cs:170-174 | `>>=` before `>>` before `>=` before `>`. |
| CLexerSpec.LessLongestFirst | Sources/Core/Yoakke.C.Syntax/CLexer.cs:176-182 | `<<=` before `<<` before `<=`. |
| CLexerSpec.PercentLongestFirst | Sources/Core/Yoakke.C.Syntax/CLexer.cs:184-189 | `%:%:` before `%:`. |
| CLexerSpec.LongestFirstByHeads | Sources/Core/Yoakke.C.Syntax/CLexer.cs:152-189 | Non-increasing lengths, with distinct heads at equal length, give prefix-freedom. |
| CLexerSpec.FirstMatch | Sources/Core/Yoakke.C.Syntax/CLexer.cs:153-155 | The `if`-chain makes a non-`End` lexeme of positive length, with a logical text from the table. |
| CLexerSpec.Punctuate | Sources/Core/Yoakke.C.Syntax/CLexer.cs:117-199 | The switch never makes `End`, takes at least one place, and makes a logical text of at most four characters. |
| CLexerSpec.Slice | Sources/Core/Yoakke.C.Syntax/CLexer.cs:391 | The physical text is at most `length` long. |
| CLexerSpec.TakeToken | Sources/Core/Yoakke.C.Syntax/CLexer.cs:384-392 | The logical range runs from the old `LogicalPosition` over `\|logicalText\|` columns, and the position moves to its end. The cursor moves over `length` characters. |
| CLexerSpec.AfterCarriageReturn | Sources/Core/Yoakke.C.Syntax/CLexer.cs:72 | After `\r`, the offset stays or moves within the input. |
| CLexerSpec.Comment | Sources/Core/Yoakke.C.Syntax/CLexer.cs:89-114 | A comment moves the logical position one column, and the cursor forward. |
| CLexerSpec.AfterLineComment | Sources/Core/Yoakke.C.Syntax/CLexer.cs:89-102 | After `//`, a comment moves the logical position one column, and the cursor forward within the input. |
| CLexerSpec.AfterBlockComment | Sources/Core/Yoakke.C.Syntax/CLexer.cs:103-114 | After the opening of a block comment, the same. |
| CLexerSpec.Round | Sources/Core/Yoakke.C.Syntax/CLexer.cs:60-199 | A skipped round moves the cursor forward, and the logical position one column, to the next line, or not at all. A token's logical text has at most four characters. A token's logical range ends where the position ends. `End` leaves the state as it is. Any other token takes input. |
| CLexerSpec.AfterPeek | Sources/Core/Yoakke.C.Syntax/CLexer.cs:69-199 | The same, once `peek` is read. |
| CLexerSpec.LexToken | Sources/Core/Yoakke.C.Syntax/CLexer.cs:89-199 | A comment moves one column. A token is not `End`, takes input and has at most four characters of logical text. |
| CLexerSpec.MatchCharIsMatchText | Sources/Core/Yoakke.C.Syntax/CLexer.cs:228-269 | `MatchesEscaped(char)` is `MatchesEscaped(string)` on the one-character string. |
| CLexerSpec.MatchesSplit | Sources/Core/Yoakke.C.Syntax/CLexer.cs:330-331 | Reading `t1 + t2` is reading `t1`, then `t2`. |
| CLexerSpec.Blanks | Sources/Core/Yoakke.C.Syntax/CLexer.cs:394 | `n` spaces. |
| CLexerSpec.SpacesEndAfterBlanks | Sources/Core/Yoakke.C.Syntax/CLexer.cs:324-327 | The blank loop stops at the first non-blank. |
| CLexerSpec.SpliceAfterContinuation | Sources/Core/Yoakke.C.Syntax/CLexer.cs:322-338 | Blanks and then a newline end a continuation just after the newline. |
| CLexerSpec.CrLfHoldsLf | Sources/Core/Yoakke.C.Syntax/CLexer.cs:329-331 | `\r\n` holds a `\n` right after its `\r`. |
| CLexerSpec.ContinuationIsSkipped | Sources/Core/Yoakke.C.Syntax/CLexer.cs:312-343 | A backslash at the cursor, then blanks, then a newline is skipped, and the character after it is returned. |
| CLexerSpec.HeadDiffers | Sources/Core/Yoakke.C.Syntax/CLexer.cs:330-331 | Text whose first character differs from the source there does not match. |
| CLexerSpec.SpliceThenPlain | Sources/Core/Yoakke.C.Syntax/CLexer.cs:333-374 | A first pass that splices to a place holding a plain character makes `TryParseEscaped` return that character. |
| CLexerSpec.PlainAfterSplice | Sources/Core/Yoakke.C.Syntax/CLexer.cs:372-374 | After a splice, a plain character is read as it is, over one place. |
| CLexerSpec.ContinuationPass | Sources/Core/Yoakke.C.Syntax/CLexer.cs:312-338 | The first pass over a continuation splices to just after its newline. |
| CLexerSpec.TrigraphAtCursor | Sources/Core/Yoakke.C.Syntax/CLexer.cs:347-368 | `??c` at the cursor decodes to the table's character over three places. |
| CLexerSpec.DecodePrefix | Sources/Core/Yoakke.C.Syntax/CLexer.cs:231-239 | Decoding fewer characters gives a prefix. |
| CLexerSpec.LongestMatch | Sources/Core/Yoakke.C.Syntax/CLexer.cs:170-182 | Of two matching choices of a prefix-free table, the earlier is longer. |
| CLexerSpec.FirstMatchPicks | Sources/Core/Yoakke.C.Syntax/CLexer.cs:153-155 | The `if`-chain picks the first choice that matches. |
| CLexerSpec.FirstMatchIsLongest | Sources/Core/Yoakke.C.Syntax/CLexer.cs:170-192 | The choice picked is longer than every other choice that matches. |
| CLexerSpec.EndOfInputGivesEnd | Sources/Core/Yoakke.C.Syntax/CLexer.cs:66 | At the end of input, `Next` is `End` with empty texts and leaves the state as it is. |
| CLexerSpec.EndIsSticky | Sources/Core/Yoakke.C.Syntax/CLexer.cs:66 | After `End`, the next token is the same `End`. |
| CLexerSpec.NextTokenAdvances | Sources/Core/Yoakke.C.Syntax/CLexer.cs:54-200 | `Next` never moves the cursor back, and a non-`End` token takes input. The token's logical range runs over its logical text. While the logical position has room for the rest of the input below `Int32.MaxValue`, it never moves back either. |
| CLexerSpec.LessEqTransitive | Yoakke.Text/Position.cs:44 | `<=` on positions is transitive. |
| CLexerSpec.HeadMismatch | Sources/Core/Yoakke.C.Syntax/CLexer.cs:233-236 | A continuation whose head is not the next escaped character does not match. |
| CLexerSpec.HeadMatch | Sources/Core/Yoakke.C.Syntax/CLexer.cs:259-262 | A one-character continuation that is the next escaped character matches. |
| CLexerSpec.PunctuateByTable | Sources/Core/Yoakke.C.Syntax/CLexer.cs:117-190 | For a character with a table, the switch is the `if`-chain over it. |
| CLexerSpec.LessTableDigraphs | Sources/Core/Yoakke.C.Syntax/CLexer.cs:176-182 | In the `<` table, `:` makes `[` and `%` makes `{`. |
| CLexerSpec.LessDigraphs | Sources/Core/Yoakke.C.Syntax/CLexer.cs:180-181 | `<:` is `[` and `<%` is `{`, whatever `AllowDigraphs` is. |
| CLexerSpec.PercentTableDigraphs | Sources/Core/Yoakke.C.Syntax/CLexer.cs:184-189 | In the `%` table, `>` makes `}`, `:%:` makes `##`, and a lone `:` makes `#`. |
| CLexerSpec.CloseDigraphs | Sources/Core/Yoakke.C.Syntax/CLexer.cs:130-132 | `:>` is `]` and `%>` is `}`. |
| CLexerSpec.ColonGreater | Sources/Core/Yoakke.C.Syntax/CLexer.cs:130-132 | `:>` is `]`. |
| CLexerSpec.PercentGreater | Sources/Core/Yoakke.C.Syntax/CLexer.cs:184-189 | `%>` is `}`. |
| CLexerSpec.HashDigraphs | Sources/Core/Yoakke.C.Syntax/CLexer.cs:185-186 | `%:%:` is `##`; otherwise `%:` is `#`. |
| CLexerSpec.HashAfterHash | Sources/Core/Yoakke.C.Syntax/CLexer.cs:148-150 | `#` followed by the escaped character `#` is `##`. |
| CLexerSpec.PlusAloneHasTextAssign | Sources/Core/Yoakke.C.Syntax/CLexer.cs:155 | A lone `+` is `Add` with logical text `=`. |
| CLexerSpec.DotCases | Sources/Core/Yoakke.C.Syntax/CLexer.cs:191-199 | `...` is `Ellipsis`. A `.` before a digit is `Unknown`. Any other `.` is `Dot`. |
| CLexerSpec.RoundSkips | Sources/Core/Yoakke.C.Syntax/CLexer.cs:69-114 | A newline (taking a following `\n` with `\r`) moves to the next line. A blank, NUL or comment moves one column. A control character moves nothing. |
| CSyntax.CLexer.constructor | Sources/Core/Yoakke.C.Syntax/CLexer.cs:27-52 | At the start of the text, logical position (0, 0), every switch on. |
| CSyntax.CLexer.SkipBlanks | Sources/Core/Yoakke.C.Syntax/CLexer.cs:324-327 | The blank loop computes `SpacesEnd`. |
| CSyntax.CLexer.EscapePassAt | Sources/Core/Yoakke.C.Syntax/CLexer.cs:303-374 | One pass computes `EscapePass`. |
| CSyntax.CLexer.TryParseEscaped | Sources/Core/Yoakke.C.Syntax/CLexer.cs:301-375 | The `goto begin` loop computes `TryParseEscaped`. |
| CSyntax.CLexer.MatchesEscapedChar | Sources/Core/Yoakke.C.Syntax/CLexer.cs:257-269 | Computes `MatchChar`. |
| CSyntax.CLexer.MatchesEscapedText | Sources/Core/Yoakke.C.Syntax/CLexer.cs:228-242 | The `for` loop computes `MatchText`. |
| CSyntax.CLexer.ParseEscaped | Sources/Core/Yoakke.C.Syntax/CLexer.cs:284-285 | Computes `ParseEscaped`. |
| CSyntax.CLexer.LineComment | Sources/Core/Yoakke.C.Syntax/CLexer.cs:93-96 | The `while` loop computes `LineCommentFrom`. |
| CSyntax.CLexer.BlockComment | Sources/Core/Yoakke.C.Syntax/CLexer.cs:106-110 | The `while (true)` loop computes `BlockCommentFrom`. |
| CSyntax.CLexer.Comment | Sources/Core/Yoakke.C.Syntax/CLexer.cs:89-114 | Computes `Comment`. |
| CSyntax.CLexer.AfterLineComment | Sources/Core/Yoakke.C.Syntax/CLexer.cs:89-102 | The line-comment branch computes `AfterLineComment`. |
| CSyntax.CLexer.AfterBlockComment | Sources/Core/Yoakke.C.Syntax/CLexer.cs:103-114 | The block-comment branch computes `AfterBlockComment`. |
| CSyntax.CLexer.FirstMatchOf | Sources/Core/Yoakke.C.Syntax/CLexer.cs:152-189 | Computes `FirstMatch`. |
| CSyntax.CLexer.Punctuate | Sources/Core/Yoakke.C.Syntax/CLexer.cs:117-199 | Computes `Punctuate`. |
| CSyntax.CLexer.TakeToken | Sources/Core/Yoakke.C.Syntax/CLexer.cs:384-392 | The token, and the new cursor and position, are `TakeToken`'s. The switches are unchanged. |
| CSyntax.CLexer.Round | Sources/Core/Yoakke.C.Syntax/CLexer.cs:60-199 | One round is `Round`, and the new state is its state. |
| CSyntax.CLexer.AfterPeek | Sources/Core/Yoakke.C.Syntax/CLexer.cs:69-199 | Computes `AfterPeek`, and the new state is its state. |
| CSyntax.CLexer.LexToken | Sources/Core/Yoakke.C.Syntax/CLexer.cs:89-199 | Computes `LexToken`, and the new state is its state. |
| CSyntax.CLexer.Next | Sources/Core/Yoakke.C.Syntax/CLexer.cs:54-200 | Runs rounds until a token: `NextToken`, and the new state is its state. |
| CLexerAnchored.ContinuationAwayFromCursor | Sources/Core/Yoakke.C.Syntax/CLexer.cs:317-342 | In `-\` newline `=`, the backslash at offset 1 reads as `\`. From a cursor on the backslash, the same input reads as the `=` after the continuation. |
| CLexerAnchored.BackslashReadAtCursor | Sources/Core/Yoakke.C.Syntax/CLexer.cs:324-342 | The backslash away from the cursor is returned as `\`, ending at 1. |
| CLexerAnchored.ContinuationReadAtBackslash | Sources/Core/Yoakke.C.Syntax/CLexer.cs:312-338 | At the cursor, the continuation is skipped. |
| CLexerAnchored.MinusBeforeContinuation | Sources/Core/Yoakke.C.Syntax/CLexer.cs:165-169 | So `-` is lexed alone, not as `-=`. |
| CLexerAnchored.TrigraphAwayFromCursor | Sources/Core/Yoakke.C.Syntax/CLexer.cs:347-368 | In `??=??(`, the second trigraph reads `#`, not `[`. |
| CLexerAnchored.TrigraphsMakeHashHash | Sources/Core/Yoakke.C.Syntax/CLexer.cs:148-150 | So the two trigraphs make `##`. |
| CLexerAnchored.BackslashAtEndHangs | Sources/Core/Yoakke.C.Syntax/CLexer.cs:324-327 | A lone final backslash hangs `TryParseEscaped` and `Next`. |
| CLexerAnchored.TrigraphContinuationHangs | Sources/Core/Yoakke.C.Syntax/CLexer.cs:312-343 | With both switches on, `??/` then a newline at the cursor makes `TryParseEscaped` hang. |
| CLexerAnchored.CommentBackslashReadsBack | Sources/Core/Yoakke.C.Syntax/CLexer.cs:317-342 | In `//\x`, the backslash at offset 2 is read as `\` but ends at offset 1, back before itself. |
| CLexerAnchored.BackslashInCommentHangs | Sources/Core/Yoakke.C.Syntax/CLexer.cs:89-96 | So `Next` hangs on a backslash inside a `//` comment. |
| CLexerAnchored.AnchoredSpacesEnd | Sources/Core/Yoakke.C.Syntax/CLexer.cs:324-327 | The intended blank loop stops at the end of input or at a non-blank. |
| CLexerAnchored.AnchoredBackslash | Sources/Core/Yoakke.C.Syntax/CLexer.cs:315-317 | 0, 1 or 3; 1 exactly for `\`. |
| CLexerAnchored.NewlineLength | Sources/Core/Yoakke.C.Syntax/CLexer.cs:329-331 | At most 2; a positive length is a newline character. |
| CLexerAnchored.AnchoredPass | Sources/Core/Yoakke.C.Syntax/CLexer.cs:303-374 | The intended pass never hangs. It is the end exactly past the input, and it always moves forward. |
| CLexerAnchored.AnchoredEscapeAt | Sources/Core/Yoakke.C.Syntax/CLexer.cs:301-375 | The intended read never hangs and moves forward within the input. |
| CLexerAnchored.AnchoredEscape | Sources/Core/Yoakke.C.Syntax/CLexer.cs:301-375 | `TryParseEscaped` as intended: it never hangs, a read ends after `offset` within the input, and the end of input is reported at or after `offset`. |
| CLexerAnchored.AnchoredAgreesAtCursor | Sources/Core/Yoakke.C.Syntax/CLexer.cs:303-374 | With no backslash at the cursor, the intended read at the cursor is the one the code makes. |
| CLexerAnchored.AnchoredSkipsAndMovesOn | Sources/Core/Yoakke.C.Syntax/CLexer.cs:312-343 | The intended read skips `??/` and a newline, returning the next character, and reads a backslash in a comment as `\`, moving past it. |
| CLexerAnchored.IntendedFallbacksSpellTheirCharacter | Sources/Core/Yoakke.C.Syntax/CLexer.cs:117-190 | In the intended switch every fallback's logical text is its own character. It differs from the code only at `+`, whose fallback text is `=` in the code. |
| CLexerAnchored.AnchoredReadsAsIntended | Sources/Core/Yoakke.C.Syntax/CLexer.cs:312-368 | On the three inputs above, the intended read gives `=`, `[` and `\`. |
| Grammar.Equals | Yoakke.Parser.Generator/Ast/BnfAst.FoldLeft.cs:24-27 | A `FoldLeft` equals only a `FoldLeft` with the same method. |
| Grammar.EqualsIsSameTree | Yoakke.Parser.Generator/Ast/BnfAst.FoldLeft.cs:24-27 | `Equals` holds iff the trees are the same, in both directions. |
| Grammar.EqualsIsEquivalence | Yoakke.Parser.Generator/Ast/BnfAst.FoldLeft.cs:24-27 | `Equals` is reflexive and symmetric. |
| Grammar.DesugarFoldLeft | Yoakke.Parser.Generator/Ast/BnfAst.FoldLeft.cs:30 | Desugaring gives a `FoldLeft` with the same method. |
| Grammar.DesugarFoldLeftKeepsDesugared | Yoakke.Parser.Generator/Ast/BnfAst.FoldLeft.cs:30 | A `FoldLeft` whose parts are desugared is left as it is. |
| Grammar.DesugarFoldLeftIdempotent | Yoakke.Parser.Generator/Ast/BnfAst.FoldLeft.cs:30 | Desugaring is idempotent when it is idempotent on the parts. |
| Grammar.GetParsedType | Yoakke.Parser.Generator/Ast/BnfAst.FoldLeft.cs:32-38 | Succeeds iff the first part's type is the method's return type, and then gives that type. Otherwise it fails with "Incompatible folded types". Errors from the first part propagate. |
| Grammar.GetParsedTypeIgnoresSecond | Yoakke.Parser.Generator/Ast/BnfAst.FoldLeft.cs:34 | The second part's type is never looked at. |
| BnfDesugar.TrySplitLeftRecursion | Yoakke.Parser.Generator/BnfDesugar.cs:110-124 | It fails exactly on an empty sequence, where the indexer throws. Otherwise it splits exactly when the sequence is headed by a call to the rule. |
| BnfDesugar.SplitRoundTrip | Yoakke.Parser.Generator/BnfDesugar.cs:112-117 | The call to the rule followed by the rest gives back the sequence. |
| BnfDesugar.SplitOfSelfCall | Yoakke.Parser.Generator/BnfDesugar.cs:112-117 | A call followed by a rest splits into that rest: the single element rest is unwrapped, otherwise it becomes a `Seq`. |
| BnfDesugar.GatherAllErrorStays | Yoakke.Parser.Generator/BnfDesugar.cs:89-98 | A failure on a prefix is the failure of the whole loop. |
| BnfDesugar.GatherAllSplits | Yoakke.Parser.Generator/BnfDesugar.cs:77-102 | The loop's alphas are the rests of the left-recursive alternatives and its betas the others, in order. The fold method is the method of every left-recursive alternative. With no malformed alternative, it fails exactly when two methods differ, and then with "Incompatible fold functions". |
| BnfDesugar.GatherAllShape | Yoakke.Parser.Generator/BnfDesugar.cs:77-102 | A loop that succeeds has gathered the rests of the left-recursive alternatives and the others, in order, with the method of every left-recursive alternative as its fold method. |
| BnfDesugar.GatherAllFailsOnFolds | Yoakke.Parser.Generator/BnfDesugar.cs:91-98 | With no malformed alternative, the loop fails exactly when two left-recursive alternatives have different methods, and then with "Incompatible fold functions". |
| BnfDesugar.AlphasNeedLeftRecursion | Yoakke.Parser.Generator/BnfDesugar.cs:89-99 | There are alphas only when some alternative is left-recursive. |
| BnfDesugar.AlternationRewriteCases | Yoakke.Parser.Generator/BnfDesugar.cs:91-107 | It fails exactly on incompatible fold methods. With no alphas or no betas the `Alt` comes back unchanged. Otherwise the result is `FoldLeft(betas, alphas, fold)`, with single-element lists unwrapped. |
| BnfDesugar.EliminateLeftRecursionInAlternation | Yoakke.Parser.Generator/BnfDesugar.cs:75-108 | The `foreach` loop computes the rewrite that `AlternationRewriteCases` describes. |
| BnfDesugar.EliminateLeftRecursion | Yoakke.Parser.Generator/BnfDesugar.cs:14-22 | A rule whose tree is not an `Alt` is kept as it is. Otherwise name, API flag and visual name are kept, and it fails exactly when the alternation does. |
| BnfDesugar.EliminateLeftRecursionIdempotent | Yoakke.Parser.Generator/BnfDesugar.cs:14-22 | Eliminating twice is eliminating once. |
| BnfDesugar.Digit | Yoakke.Parser.Generator/BnfDesugar.cs:37-38 | A decimal digit character. |
| BnfDesugar.Decimal | Yoakke.Parser.Generator/BnfDesugar.cs:37-38 | The numeral is non-empty, with two or more digits from 10 up. |
| BnfDesugar.DecimalInjective | Yoakke.Parser.Generator/BnfDesugar.cs:37-38 | Different numbers have different numerals. |
| BnfDesugar.OperatorAlternatives | Yoakke.Parser.Generator/BnfDesugar.cs:41-50 | There is one alternative per operator. |
| BnfDesugar.SpineOfChain | Yoakke.Parser.Generator/BnfDesugar.cs:48-53 | The two-element `Alt`s the loop builds give back their alternatives, in order. |
| BnfDesugar.LevelShape | Yoakke.Parser.Generator/BnfDesugar.cs:37-55 | Level `i` has these alternatives: one `Transform(Seq)` per operator (`[cur, op, next]` when left-associative, `[next, op, cur]` otherwise), with the level's method, then the step to the next level, which is the atomic rule after the last level. Only level 0 is public, and it keeps the rule's name. |
| BnfDesugar.GeneratedNamesDistinct | Yoakke.Parser.Generator/BnfDesugar.cs:32-38 | Level names differ from each other and from the atomic rule's name. |
| BnfDesugar.GeneratePrecedenceParser | Yoakke.Parser.Generator/BnfDesugar.cs:24-58 | It returns `Count + 1` rules: first the non-public `{Name}_atomic` holding the original tree, then level `i` at place `i + 1`. |
| BnfDesugar.MakeLevel | Yoakke.Parser.Generator/BnfDesugar.cs:35-55 | One turn of the outer loop builds level `i` as `LevelShape` describes it. |
| BnfDesugar.LevelNode | Yoakke.Parser.Generator/BnfDesugar.cs:40-53 | The inner loop and the default after it join the operator alternatives with two-element `Alt`s, in order, ending with the step to the next level. |
| AstGenerator.Containers | Yoakke.Ast.Generator/MetaNode.cs:39 | A symbol with no containing type has no containers. |
| AstGenerator.NestingIsOutermostFirst | Yoakke.Ast.Generator/MetaNode.cs:36-44 | `Nesting` lists the containing types' names outermost first, reversing the order the loop meets them. |
| AstGenerator.NestingOfNested | Yoakke.Ast.Generator/MetaNode.cs:36-44 | A nested type has its container's nesting followed by the container's name. A top-level type has none. |
| AstGenerator.MetaNode.Ancestors | Yoakke.Ast.Generator/MetaNode.cs:13 | Every ancestor lies higher up, and the parent is one of them. |
| AstGenerator.MetaNode.constructor | Yoakke.Ast.Generator/MetaNode.cs:29-34 | Symbol and parent are kept, `Nesting` is `GetNesting(symbol)`, and there is no equality setting. |
| AstGenerator.MetaNode.GetNesting | Yoakke.Ast.Generator/MetaNode.cs:36-44 | The loop computes `Nesting`. |
| AstGenerator.MetaNode.Root | Yoakke.Ast.Generator/MetaNode.cs:20 | The root has no parent and is this node or an ancestor. A node without a parent is its own root. |
| AstGenerator.MetaNode.RootOfChain | Yoakke.Ast.Generator/MetaNode.cs:20 | A node shares its parent's root, and the root is its own root. |
| AstGenerator.MetaNode.ImplementEquality | Yoakke.Ast.Generator/MetaNode.cs:25 | An explicit setting is returned as it is. An unset root gives false. |
| AstGenerator.MetaNode.Settings | Yoakke.Ast.Generator/MetaNode.cs:22-25 | The settings of the ancestor chain start with this node's own setting. |
| AstGenerator.MetaNode.ImplementEqualityIsFirstSetting | Yoakke.Ast.Generator/MetaNode.cs:25 | The getter is the first explicit setting on the way to the root, or false when there is none. |
| AstGenerator.MetaNode.SetImplementEquality | Yoakke.Ast.Generator/MetaNode.cs:26 | The getter then returns the value set. The parent's getter is unchanged. |
| AstGenerator.FirstSettingNone | Yoakke.Ast.Generator/MetaNode.cs:25 | With no explicit setting on the chain, the result is false. |

## Left out

- The lexer base class is not part of this model: `Skip`, `TryPeek`, `Peek`, `Matches` and the physical `Range` of tokens. The model uses a cursor into the whole source text. The physical range of a token is not modelled, only its text.
- The `CLexer(TextReader)` constructor is left out: reading is I/O.
- `char.IsWhiteSpace`, `char.IsControl` and `char.IsDigit` are parameters of the lexer (a `CharClasses` record), because the Unicode tables are not modelled.
- `CLexer.TryParseExponent`, `IsIdent`, `IsHex`, `IsE`, `IsSign`, `IsFloatSuffix` and `IsIntSuffix` are dead code and are not modelled.
- `AllowDigraphs` is a field of the class, but the lexer never reads it, so no behaviour depends on it.
- The lexer's infinite loops are reported as hang outcomes (`EscapeHangs`, `LexHangs`, …) instead of running forever.
- `CSyntax.CLexer.Next` assumes nothing about a cursor past the end; the round's cursor bound `|source| + 1` is the only one used.
- `Automata.FiniteAutomaton`: the read-only side of the interface (`IReadOnlyFiniteAutomaton`) is not shown, so states, accepting states and transitions are sets in a class that stands in for an implementation.
- `RegEx.DenseNfa` is a stand-in for the unseen `DenseNfa<char>`: a state counter and a set of edges. Determinisation is not modelled.
- RegEx: the exact number of edges each construct adds is stated at fragment level (`SeqFragmentFacts`, `AltFragmentFacts`), not as a cardinality of the whole transition set.
- `Intervals`: `Interval<T>.RelationTo` is not shown. The model states what the interval tests pin down, not an algorithm.
- Hash codes built with `HashCode.Combine` are runtime-seeded. They appear only as a combiner parameter (`Lexer.Token.GetHashCode`), and the only hash fact stated for them is consistency with equality.
- BinarySearchExtension.SearchExact: stated for ranges inside the list only, where no read fails; `SearchChecked` covers every other argument.
- BinarySearchExtension.Search: the in-range specification that `SearchChecked` reduces to there; `from + size / 2` is not computed in 32 bits, which only matters for windows near `Int32.MaxValue`.
- `Reporting.Severity.CompareTo`: does not model the 32-bit wrap-around of `Priority - other.Priority`, because priorities are small.
- The `GetHashCode` of `Position` and the `ToString` of `Position` are left out.
- The unseen grammar node classes (`Alt`, `Seq`, `Call`, `Literal`, `Transform`) are constructors of one datatype compared structurally. Their `Desugar` and `GetParsedType` are passed in as functions. The `Alt(a, b)` constructor `GeneratePrecedenceParser` uses is taken to build a two-element `Alt`, without flattening.
- The `Rule` constructor and `PrecedenceEntry` are not shown. A rule's visual name is `None` where that constructor chooses it.
- In `GetParsedType`, `RuleSet` and `TokenKindSet` are not modelled; the parsed type of the first part is a parameter.
- Roslyn symbols become `MethodSymbol` (a name and a return-type display string) and `TypeSymbol` (a name and its containing type). `SymbolEqualityComparer.Default` is `==` on them.
- `MetaNode.Children`, `Visitors` and `IsAbstract` are never updated by the class and are not modelled. Descendants of a node whose setting changes may change their inherited value; only this node's and its parent's getters are stated after the setter.

## Findings

| source | as written | input that shows it | evidently intended | confidence | as-written member | corrected member |
|---|---|---|---|---|---|---|
| Yoakke.Collections/BinarySearchExtension.cs:109-112 | `Exact` is set only when the last probed element compares equal | searching 2 in [1, 2] gives (1, false) although element 1 is 2 | `Exact` is true when the element at `Index` compares equal | not executed | BinarySearchExtension.ExactMissesMatchAfterLastProbe | BinarySearchExtension.SearchExact |
| Sources/Core/Yoakke.C.Syntax/CLexer.cs:317-342 | the blanks and newline after a backslash are read relative to the cursor, not to the offset | `-\` newline `=` with the cursor at `-`: the backslash at offset 1 is read as `\` | a continuation away from the cursor is skipped too, so the next character is `=` | not executed | CLexerAnchored.ContinuationAwayFromCursor | CLexerAnchored.AnchoredEscape |
| Sources/Core/Yoakke.C.Syntax/CLexer.cs:349-351 | the trigraph's third character is read at the cursor plus 2, not at the offset plus 2 | `??=??(`: the second trigraph reads `#` and `Next` makes `##` | the second trigraph reads `[` | not executed | CLexerAnchored.TrigraphAwayFromCursor | CLexerAnchored.AnchoredEscape |
| Sources/Core/Yoakke.C.Syntax/CLexer.cs:324-327 | the blank loop reads NUL past the end, and `IsSpace` accepts NUL | a lone `\` at the end of the input, with line continuations on: `TryParseEscaped` and `Next` never return | the loop stops at the end of input and the backslash is returned as `\` | not executed | CLexerAnchored.BackslashAtEndHangs | CLexerAnchored.AnchoredEscape |
| Sources/Core/Yoakke.C.Syntax/CLexer.cs:312-343 | `??/` is looked for at the cursor, not at the offset, so every pass after the splice finds it again and splices once more | `??/` newline `X` with both switches on: `TryParseEscaped` never returns | the continuation is skipped and `X` is returned | not executed | CLexerAnchored.TrigraphContinuationHangs | CLexerAnchored.AnchoredSkipsAndMovesOn |
| Sources/Core/Yoakke.C.Syntax/CLexer.cs:341 | a backslash away from the cursor with no continuation returns its length as the next offset, which lies before it | `//\x`: the line-comment loop (lines 93-96) reads the backslash forever, and so does the block-comment loop (lines 106-110) | the next offset is just past the backslash | not executed | CLexerAnchored.BackslashInCommentHangs | CLexerAnchored.AnchoredSkipsAndMovesOn |
| Sources/Core/Yoakke.C.Syntax/CLexer.cs:155 | the fallback of the `+` table has logical text `=` | a lone `+` lexes as `Add` with logical text `=` | the logical text `+`, as every other fallback spells its character | not executed | CLexerSpec.PlusAloneHasTextAssign | CLexerAnchored.IntendedFallbacksSpellTheirCharacter |
