/**
 * The mutable finite automaton of Yoakke.Automata: a set of states, a
 * settable initial state, a mutable collection of accepting states and a
 * set of labelled transitions, with the add, remove and prune operations
 * the interface promises.
 */
module Automata {

  /** There is a transition from `a` to `b` on some symbol. */
  ghost predicate Edge<S, L>(a: S, b: S, transitions: set<(S, L, S)>) {
    exists t | t in transitions :: t.0 == a && t.2 == b
  }

  /** `p` is a walk along transitions that starts at `from` and ends at `to`. */
  ghost predicate PathFromTo<S, L>(p: seq<S>, from: S, to: S, transitions: set<(S, L, S)>) {
    && |p| >= 1
    && p[0] == from
    && p[|p| - 1] == to
    && forall i :: 0 <= i < |p| - 1 ==> Edge(p[i], p[i + 1], transitions)
  }

  /** `to` can be reached from `from` by following transitions (in zero or more steps). */
  ghost predicate Reachable<S(!new), L>(from: S, to: S, transitions: set<(S, L, S)>) {
    exists p :: PathFromTo(p, from, to, transitions)
  }

  /** Every transition leaving a state of `x` ends in `x`. */
  ghost predicate Closed<S, L>(x: set<S>, transitions: set<(S, L, S)>) {
    forall t | t in transitions && t.0 in x :: t.2 in x
  }

  /** A set that holds `from` and is closed under transitions holds every state reachable from `from`. */
  lemma {:induction false} ClosedHoldsReachable<S, L>(x: set<S>, from: S, p: seq<S>, to: S, transitions: set<(S, L, S)>)
    requires from in x && Closed(x, transitions)
    requires PathFromTo(p, from, to, transitions)
    ensures to in x
    decreases |p|
  {
    if |p| > 1 {
      var q := p[..|p| - 1];
      assert PathFromTo(q, from, q[|q| - 1], transitions) by {
        forall i | 0 <= i < |q| - 1
          ensures Edge(q[i], q[i + 1], transitions)
        {
          assert q[i] == p[i] && q[i + 1] == p[i + 1];
        }
      }
      ClosedHoldsReachable(x, from, q, q[|q| - 1], transitions);
      assert Edge(p[|p| - 2], p[|p| - 1], transitions);
      var t :| t in transitions && t.0 == p[|p| - 2] && t.2 == p[|p| - 1];
    }
  }

  /** Every state on a walk from `from` is itself reachable from `from`. */
  lemma {:induction false} PathStatesReachable<S(!new), L>(p: seq<S>, from: S, to: S, transitions: set<(S, L, S)>, k: int)
    requires PathFromTo(p, from, to, transitions)
    requires 0 <= k < |p|
    ensures Reachable(from, p[k], transitions)
  {
    var q := p[..k + 1];
    assert PathFromTo(q, from, p[k], transitions) by {
      forall i | 0 <= i < |q| - 1
        ensures Edge(q[i], q[i + 1], transitions)
      {
        assert q[i] == p[i] && q[i + 1] == p[i + 1];
      }
    }
  }

  /** A walk that uses only transitions kept in `kept` is a walk in `kept`. */
  lemma {:induction false} PathInSubset<S, L>(p: seq<S>, from: S, to: S, transitions: set<(S, L, S)>, kept: set<(S, L, S)>)
    requires PathFromTo(p, from, to, transitions)
    requires forall i, t :: 0 <= i < |p| - 1 && t in transitions && t.0 == p[i] && t.2 == p[i + 1] ==> t in kept
    ensures PathFromTo(p, from, to, kept)
  {
    forall i | 0 <= i < |p| - 1
      ensures Edge(p[i], p[i + 1], kept)
    {
      assert Edge(p[i], p[i + 1], transitions);
      var t :| t in transitions && t.0 == p[i] && t.2 == p[i + 1];
      assert t in kept;
    }
  }

  /** One more transition extends reachability. */
  lemma ExtendReachable<S(!new), L>(from: S, x: S, y: S, transitions: set<(S, L, S)>)
    requires Reachable(from, x, transitions)
    requires exists t :: t in transitions && t.0 == x && t.2 == y
    ensures Reachable(from, y, transitions)
  {
    var p :| PathFromTo(p, from, x, transitions);
    var q := p + [y];
    forall i | 0 <= i < |q| - 1
      ensures Edge(q[i], q[i + 1], transitions)
    {
      if i < |q| - 2 {
        assert q[i] == p[i] && q[i + 1] == p[i + 1];
      }
    }
    assert PathFromTo(q, from, y, transitions);
  }

  /**
   * A state reachable from `from` is still reachable after keeping only the
   * transitions between states reachable from `from`, since every state of
   * its walk is such a state.
   */
  lemma {:induction false} PruneKeepsWalks<S(!new), L>(from: S, x: S, states: set<S>, transitions: set<(S, L, S)>, kept: set<S>)
    requires forall t | t in transitions :: t.0 in states && t.2 in states
    requires forall y :: y in kept <==> y in states && Reachable(from, y, transitions)
    requires x in kept
    ensures Reachable(from, x, set t | t in transitions && t.0 in kept && t.2 in kept)
  {
    var pruned := set t | t in transitions && t.0 in kept && t.2 in kept;
    var p :| PathFromTo(p, from, x, transitions);
    forall k | 0 <= k < |p|
      ensures p[k] in kept
    {
      PathStatesReachable(p, from, x, transitions, k);
      if k > 0 {
        assert Edge(p[k - 1], p[k], transitions);
      } else if |p| > 1 {
        assert Edge(p[0], p[1], transitions);
      }
    }
    PathInSubset(p, from, x, transitions, pruned);
  }

  class FiniteAutomaton<S(==, !new), L(==)> {
    var states: set<S>
    var initial: S
    var accepting: set<S>
    var transitions: set<(S, L, S)>

    /** Accepting states and the endpoints of every transition are states of the automaton. */
    ghost predicate Valid()
      reads this
    {
      && accepting <= states
      && forall t | t in transitions :: t.0 in states && t.2 in states
    }

    /** A fresh automaton whose only state is its initial state. */
    constructor(start: S)
      ensures Valid()
      ensures states == {start} && initial == start
      ensures accepting == {} && transitions == {}
    {
      states := {start};
      initial := start;
      accepting := {};
      transitions := {};
    }

    /** The `InitialState` setter; the new initial state becomes a state of the automaton. */
    method SetInitialState(s: S)
      requires Valid()
      modifies this
      ensures Valid()
      ensures initial == s && states == old(states) + {s}
      ensures accepting == old(accepting) && transitions == old(transitions)
    {
      initial := s;
      states := states + {s};
    }

    /** `AcceptingStates.Add`: `s` becomes an accepting state (and a state). */
    method AddAccepting(s: S)
      requires Valid()
      modifies this
      ensures Valid()
      ensures accepting == old(accepting) + {s} && states == old(states) + {s}
      ensures initial == old(initial) && transitions == old(transitions)
    {
      accepting := accepting + {s};
      states := states + {s};
    }

    /** `AcceptingStates.Remove`: true iff `s` was accepting; afterwards it is not. */
    method RemoveAccepting(s: S) returns (removed: bool)
      requires Valid()
      modifies this
      ensures Valid()
      ensures removed <==> s in old(accepting)
      ensures accepting == old(accepting) - {s}
      ensures states == old(states) && initial == old(initial) && transitions == old(transitions)
    {
      removed := s in accepting;
      accepting := accepting - {s};
    }

    /** True iff the transition was new; afterwards it is present and its endpoints are states. */
    method AddTransition(from: S, on: L, to: S) returns (added: bool)
      requires Valid()
      modifies this
      ensures Valid()
      ensures added <==> (from, on, to) !in old(transitions)
      ensures transitions == old(transitions) + {(from, on, to)}
      ensures states == old(states) + {from, to}
      ensures initial == old(initial) && accepting == old(accepting)
    {
      added := (from, on, to) !in transitions;
      transitions := transitions + {(from, on, to)};
      states := states + {from, to};
    }

    /** True iff the transition was present; afterwards it is absent and nothing else changed. */
    method RemoveTransition(from: S, on: L, to: S) returns (removed: bool)
      requires Valid()
      modifies this
      ensures Valid()
      ensures removed <==> (from, on, to) in old(transitions)
      ensures transitions == old(transitions) - {(from, on, to)}
      ensures states == old(states) && initial == old(initial) && accepting == old(accepting)
    {
      removed := (from, on, to) in transitions;
      transitions := transitions - {(from, on, to)};
    }

    /** The states reachable from `from` along the current transitions (a worklist search). */
    method ReachableFrom(from: S) returns (visited: set<S>)
      ensures forall x :: x in visited <==> Reachable(from, x, transitions)
    {
      var universe := set t | t in transitions :: t.2;
      visited := {from};
      var work := {from};
      assert PathFromTo([from], from, from, transitions);
      while work != {}
        invariant from in visited && work <= visited <= universe + {from}
        invariant forall x | x in visited :: Reachable(from, x, transitions)
        invariant forall t | t in transitions && t.0 in visited - work :: t.2 in visited
        decreases |universe + {from} - visited|, |work|
      {
        var x :| x in work;
        var found := (set t | t in transitions && t.0 == x :: t.2) - visited;
        forall y | y in found
          ensures Reachable(from, y, transitions)
        {
          ExtendReachable(from, x, y, transitions);
        }
        if found != {} {
          assert universe + {from} - (visited + found) < universe + {from} - visited;
        }
        visited := visited + found;
        work := work - {x} + found;
      }
      forall x | Reachable(from, x, transitions)
        ensures x in visited
      {
        var p :| PathFromTo(p, from, x, transitions);
        ClosedHoldsReachable(visited, from, p, x, transitions);
      }
    }

    /**
     * Keeps exactly the states reachable from `from` and the transitions
     * between kept states; true iff some state was unreachable.
     */
    method RemoveUnreachableFrom(from: S) returns (removed: bool)
      requires Valid()
      modifies this
      ensures Valid()
      ensures forall x :: x in states <==> x in old(states) && Reachable(from, x, old(transitions))
      ensures transitions == set t | t in old(transitions) && t.0 in states && t.2 in states
      ensures accepting == old(accepting) * states
      ensures initial == old(initial)
      ensures removed <==> exists x :: x in old(states) && !Reachable(from, x, old(transitions))
      ensures forall x | x in states :: Reachable(from, x, transitions)
    {
      var reach := ReachableFrom(from);
      ghost var oldStates, oldTransitions := states, transitions;
      var kept := states * reach;
      removed := kept != states;
      states := kept;
      accepting := accepting * kept;
      transitions := set t | t in transitions && t.0 in kept && t.2 in kept;
      if removed {
        ghost var x :| x in oldStates && x !in kept;
        assert !Reachable(from, x, oldTransitions);
      }
      forall x | x in states
        ensures Reachable(from, x, transitions)
      {
        PruneKeepsWalks(from, x, oldStates, oldTransitions, kept);
      }
    }

    /** `RemoveUnreachable()`: pruning from the initial state. */
    method RemoveUnreachable() returns (removed: bool)
      requires Valid()
      modifies this
      ensures Valid()
      ensures forall x :: x in states <==> x in old(states) && Reachable(old(initial), x, old(transitions))
      ensures transitions == set t | t in old(transitions) && t.0 in states && t.2 in states
      ensures accepting == old(accepting) * states
      ensures initial == old(initial)
      ensures removed <==> exists x :: x in old(states) && !Reachable(old(initial), x, old(transitions))
      ensures forall x | x in states :: Reachable(initial, x, transitions)
    {
      removed := RemoveUnreachableFrom(initial);
    }
  }

  /** Adding an absent transition and removing it again restores the transition set. */
  method AddThenRemoveRestores<S(==, !new), L(==)>(a: FiniteAutomaton<S, L>, from: S, on: L, to: S)
    requires a.Valid() && (from, on, to) !in a.transitions
    modifies a
    ensures a.Valid() && a.transitions == old(a.transitions)
  {
    var added := a.AddTransition(from, on, to);
    var removed := a.RemoveTransition(from, on, to);
    assert added && removed;
  }

  /** Adding the same transition twice: the second call returns false and changes nothing. */
  method AddTwice<S(==, !new), L(==)>(a: FiniteAutomaton<S, L>, from: S, on: L, to: S) returns (second: bool)
    requires a.Valid()
    modifies a
    ensures !second
    ensures a.transitions == old(a.transitions) + {(from, on, to)}
  {
    var first := a.AddTransition(from, on, to);
    ghost var between := a.transitions;
    second := a.AddTransition(from, on, to);
    assert a.transitions == between;
  }

  /** Pruning twice from the same state: the second call finds nothing unreachable. */
  method PruneTwice<S(==, !new), L(==)>(a: FiniteAutomaton<S, L>, from: S) returns (second: bool)
    requires a.Valid()
    modifies a
    ensures !second
  {
    var first := a.RemoveUnreachableFrom(from);
    second := a.RemoveUnreachableFrom(from);
  }
}
