/**
 * The reference definitions of `NFA::accepts`: what `parse_state` expands a list of
 * ids into, which states a step of the simulation visits, and the resulting verdict.
 *
 * The simulation visits states in queue order, but its verdict depends only on which
 * states it visits, so the frontiers here are sets.
 */
module NfaClosure {
  import opened Wrappers
  import opened NfaGraph

  predicate InRange(states: seq<State>, F: set<StateId>) {
    forall x :: x in F ==> x < |states|
  }

  function Elems(q: seq<StateId>): set<StateId> {
    set x | x in q
  }

  /** Every id of `q` names a state that is not a split. */
  predicate NoSplits(states: seq<State>, q: seq<StateId>) {
    forall k :: 0 <= k < |q| ==> q[k] < |states| && !states[q[k]].Split?
  }

  // ----- parse_state -----

  /** `parse_state` on the single id `t`: splits are replaced by the expansion of both
      their links, left first; any other state is kept as it is. */
  function ExpandOne(states: seq<State>, t: StateId, ghost rank: seq<nat>): (r: seq<StateId>)
    requires Ranked(states, rank) && t < |states|
    ensures NoSplits(states, r) && |r| > 0
    ensures !states[t].Split? ==> r == [t]
    decreases rank[t]
  {
    assert RankedAt(states, rank, t);
    match states[t]
    case Split(a, b) => ExpandOne(states, a.value, rank) + ExpandOne(states, b.value, rank)
    case _ => [t]
  }

  /** `parse_state` on a list of ids: the expansions of each id, in order. */
  function ExpandAll(states: seq<State>, ids: seq<StateId>, ghost rank: seq<nat>): (r: seq<StateId>)
    requires Ranked(states, rank) && ValidIds(states, ids)
    ensures NoSplits(states, r)
    decreases |ids|
  {
    if ids == [] then []
    else ExpandAll(states, ids[..|ids| - 1], rank) + ExpandOne(states, ids[|ids| - 1], rank)
  }

  // ----- the states one step of the simulation visits -----

  /** The states the inner loop of `accepts` visits from `t`: splits are expanded by
      `parse_state`, and a Start state is visited and then followed. */
  function Closure(states: seq<State>, t: StateId, ghost rank: seq<nat>): (r: seq<StateId>)
    requires Ranked(states, rank) && t < |states|
    ensures NoSplits(states, r) && |r| > 0
    ensures !states[t].Split? ==> r[0] == t
    decreases rank[t]
  {
    assert RankedAt(states, rank, t);
    match states[t]
    case Split(a, b) => Closure(states, a.value, rank) + Closure(states, b.value, rank)
    case Start(n) => [t] + Closure(states, n.value, rank)
    case _ => [t]
  }

  function ClosureAll(states: seq<State>, q: seq<StateId>, ghost rank: seq<nat>): (r: seq<StateId>)
    requires Ranked(states, rank) && ValidIds(states, q)
    ensures NoSplits(states, r)
    decreases |q|
  {
    if q == [] then [] else Closure(states, q[0], rank) + ClosureAll(states, q[1..], rank)
  }

  function ExpandSet(states: seq<State>, F: set<StateId>, ghost rank: seq<nat>): (r: set<StateId>)
    requires Ranked(states, rank) && InRange(states, F)
    ensures InRange(states, r)
  {
    set x, y | x in F && y in ExpandOne(states, x, rank) :: y
  }

  function ClosureSet(states: seq<State>, F: set<StateId>, ghost rank: seq<nat>): (r: set<StateId>)
    requires Ranked(states, rank) && InRange(states, F)
    ensures InRange(states, r)
  {
    set x, y | x in F && y in Closure(states, x, rank) :: y
  }

  /** The targets of the matching edges out of `C` that `ch` can take. */
  function SuccSet(states: seq<State>, C: set<StateId>, ch: char): (r: set<StateId>)
    requires Linked(states) && InRange(states, C)
    ensures InRange(states, r)
  {
    set x | x in C && states[x].Match? && Matches(states[x].on, ch) :: states[x].next.value
  }

  predicate HasEnd(states: seq<State>, X: set<StateId>)
    requires InRange(states, X)
  {
    exists x :: x in X && states[x].End?
  }

  /** The verdict of `accepts` from the frontier `F` with `s` still to read: the
      simulation answers true as soon as it visits End; after the last character it
      expands the frontier with `parse_state` alone, without following Start states. */
  function Run(states: seq<State>, F: set<StateId>, s: string, ghost rank: seq<nat>): bool
    requires Ranked(states, rank) && InRange(states, F)
    decreases |s|
  {
    if s == [] then HasEnd(states, ExpandSet(states, F, rank))
    else
      var C := ClosureSet(states, F, rank);
      HasEnd(states, C) || Run(states, SuccSet(states, C, s[0]), s[1..], rank)
  }

  /** The verdict of `accepts(s)`.  On the empty input the start state is only looked at. */
  function Accepted(states: seq<State>, start: StateId, s: string, ghost rank: seq<nat>): bool
    requires Ranked(states, rank) && start < |states|
  {
    if s == [] then states[start].End? else Run(states, {start}, s, rank)
  }

  // ----- the sequence and set views agree -----

  lemma {:induction false} ClosureAllAppend(states: seq<State>, a: seq<StateId>, b: seq<StateId>, rank: seq<nat>)
    requires Ranked(states, rank) && ValidIds(states, a) && ValidIds(states, b)
    ensures ValidIds(states, a + b)
    ensures ClosureAll(states, a + b, rank) == ClosureAll(states, a, rank) + ClosureAll(states, b, rank)
    decreases |a|
  {
    if a == [] {
      assert a + b == b;
    } else {
      assert (a + b)[1..] == a[1..] + b;
      ClosureAllAppend(states, a[1..], b, rank);
    }
  }

  /** Visiting the expansion of `t` visits what visiting `t` does. */
  lemma {:induction false} ClosureOfExpandOne(states: seq<State>, t: StateId, rank: seq<nat>)
    requires Ranked(states, rank) && t < |states|
    ensures ClosureAll(states, ExpandOne(states, t, rank), rank) == Closure(states, t, rank)
    decreases rank[t]
  {
    assert RankedAt(states, rank, t);
    if states[t].Split? {
      var a, b := states[t].first.value, states[t].second.value;
      ClosureOfExpandOne(states, a, rank);
      ClosureOfExpandOne(states, b, rank);
      ClosureAllAppend(states, ExpandOne(states, a, rank), ExpandOne(states, b, rank), rank);
    } else {
      assert ClosureAll(states, [t], rank) == Closure(states, t, rank) + ClosureAll(states, [], rank);
    }
  }

  lemma {:induction false} ClosureOfExpandAll(states: seq<State>, ids: seq<StateId>, rank: seq<nat>)
    requires Ranked(states, rank) && ValidIds(states, ids)
    ensures ClosureAll(states, ExpandAll(states, ids, rank), rank) == ClosureAll(states, ids, rank)
    decreases |ids|
  {
    if ids != [] {
      var init, last := ids[..|ids| - 1], ids[|ids| - 1];
      var ei, el := ExpandAll(states, init, rank), ExpandOne(states, last, rank);
      assert ids == init + [last];
      assert ClosureAll(states, [last], rank) == Closure(states, last, rank) + ClosureAll(states, [], rank);
      calc {
        ClosureAll(states, ExpandAll(states, ids, rank), rank);
        ClosureAll(states, ei + el, rank);
        { ClosureAllAppend(states, ei, el, rank); }
        ClosureAll(states, ei, rank) + ClosureAll(states, el, rank);
        { ClosureOfExpandAll(states, init, rank); ClosureOfExpandOne(states, last, rank); }
        ClosureAll(states, init, rank) + ClosureAll(states, [last], rank);
        { ClosureAllAppend(states, init, [last], rank); }
        ClosureAll(states, ids, rank);
      }
    }
  }

  lemma {:induction false} InClosureAll(states: seq<State>, q: seq<StateId>, rank: seq<nat>, y: StateId)
    requires Ranked(states, rank) && ValidIds(states, q)
    ensures y in ClosureAll(states, q, rank) <==> exists k :: 0 <= k < |q| && y in Closure(states, q[k], rank)
    decreases |q|
  {
    if q != [] {
      InClosureAll(states, q[1..], rank, y);
      if y in ClosureAll(states, q[1..], rank) {
        var k :| 0 <= k < |q[1..]| && y in Closure(states, q[1..][k], rank);
        assert q[k + 1] == q[1..][k];
      }
      if exists k :: 0 <= k < |q| && y in Closure(states, q[k], rank) {
        var k :| 0 <= k < |q| && y in Closure(states, q[k], rank);
        if k > 0 {
          assert q[1..][k - 1] == q[k];
        }
      }
    }
  }

  lemma ClosureAllElems(states: seq<State>, q: seq<StateId>, rank: seq<nat>)
    requires Ranked(states, rank) && ValidIds(states, q)
    ensures InRange(states, Elems(q))
    ensures Elems(ClosureAll(states, q, rank)) == ClosureSet(states, Elems(q), rank)
  {
    forall y
      ensures y in ClosureAll(states, q, rank) <==> y in ClosureSet(states, Elems(q), rank)
    {
      InClosureAll(states, q, rank, y);
    }
  }

  lemma {:induction false} InExpandAll(states: seq<State>, ids: seq<StateId>, rank: seq<nat>, y: StateId)
    requires Ranked(states, rank) && ValidIds(states, ids)
    ensures y in ExpandAll(states, ids, rank) <==> exists k :: 0 <= k < |ids| && y in ExpandOne(states, ids[k], rank)
    decreases |ids|
  {
    if ids != [] {
      var init := ids[..|ids| - 1];
      InExpandAll(states, init, rank, y);
      if y in ExpandAll(states, init, rank) {
        var k :| 0 <= k < |init| && y in ExpandOne(states, init[k], rank);
        assert ids[k] == init[k];
      }
      if exists k :: 0 <= k < |ids| && y in ExpandOne(states, ids[k], rank) {
        var k :| 0 <= k < |ids| && y in ExpandOne(states, ids[k], rank);
        if k < |ids| - 1 {
          assert init[k] == ids[k];
        }
      }
    }
  }

  lemma ExpandAllElems(states: seq<State>, ids: seq<StateId>, rank: seq<nat>)
    requires Ranked(states, rank) && ValidIds(states, ids)
    ensures InRange(states, Elems(ids))
    ensures Elems(ExpandAll(states, ids, rank)) == ExpandSet(states, Elems(ids), rank)
  {
    forall y
      ensures y in ExpandAll(states, ids, rank) <==> y in ExpandSet(states, Elems(ids), rank)
    {
      InExpandAll(states, ids, rank, y);
    }
  }

  /** The states `accepts` visits from the queue `current ++ parse_state(next)` are the
      closure of the frontier `current ∪ next`. */
  lemma QueueClosure(states: seq<State>, current: seq<StateId>, next: seq<StateId>, rank: seq<nat>)
    requires Ranked(states, rank) && ValidIds(states, current) && ValidIds(states, next)
    ensures ValidIds(states, current + ExpandAll(states, next, rank))
    ensures InRange(states, Elems(current) + Elems(next))
    ensures Elems(ClosureAll(states, current + ExpandAll(states, next, rank), rank))
         == ClosureSet(states, Elems(current) + Elems(next), rank)
  {
    var e := ExpandAll(states, next, rank);
    ClosureAllAppend(states, current, e, rank);
    ClosureOfExpandAll(states, next, rank);
    ClosureAllAppend(states, current, next, rank);
    ClosureAllElems(states, current + next, rank);
    assert Elems(current + next) == Elems(current) + Elems(next);
  }

  /** Adding one visited state to the set adds at most its matching successor. */
  lemma SuccSetAdd(states: seq<State>, C: set<StateId>, x: StateId, ch: char)
    requires Linked(states) && InRange(states, C) && x < |states|
    ensures InRange(states, C + {x})
    ensures SuccSet(states, C + {x}, ch) ==
      if states[x].Match? && Matches(states[x].on, ch) then SuccSet(states, C, ch) + {states[x].next.value}
      else SuccSet(states, C, ch)
  {
  }
}
