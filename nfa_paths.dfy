/**
 * The textbook meaning of the graph, independent of the simulation: walks along
 * epsilon edges and matching edges, and the states they reach.  The simulation of
 * `NFA::accepts` is proved against it.
 */
module NfaPaths {
  import opened Wrappers
  import opened NfaGraph
  import opened NfaClosure

  /** An epsilon edge: the link of a Start state or either link of a Split state. */
  predicate EpsEdge(states: seq<State>, x: StateId, y: StateId) {
    x < |states| && (states[x].Start? || states[x].Split?) && Targets(states[x], y)
  }

  /** A matching edge out of a Match state that the character `ch` can take. */
  predicate MatchEdge(states: seq<State>, x: StateId, ch: char, y: StateId) {
    x < |states| && states[x].Match? && states[x].next == Some(y) && Matches(states[x].on, ch)
  }

  /** `p` is a walk through the graph whose matching edges read `w`. */
  predicate Trace(states: seq<State>, p: seq<StateId>, w: string)
    decreases |p|
  {
    |p| > 0 && p[0] < |states| &&
    if |p| == 1 then w == []
    else
      (EpsEdge(states, p[0], p[1]) && Trace(states, p[1..], w)) ||
      (w != [] && MatchEdge(states, p[0], w[0], p[1]) && Trace(states, p[1..], w[1..]))
  }

  /** Some walk from `x` to `y` reads `w`. */
  ghost predicate Reaches(states: seq<State>, x: StateId, w: string, y: StateId) {
    exists p :: Trace(states, p, w) && p[0] == x && p[|p| - 1] == y
  }

  /** Some walk from `x` to an End state reads `w`. */
  ghost predicate ReachesEnd(states: seq<State>, x: StateId, w: string) {
    exists y :: 0 <= y < |states| && states[y].End? && Reaches(states, x, w, y)
  }

  /** Some walk from a state of `F` to an End state reads `w`. */
  ghost predicate ReachesEndFrom(states: seq<State>, F: set<StateId>, w: string) {
    exists x :: x in F && ReachesEnd(states, x, w)
  }

  // ----- walks -----

  lemma {:induction false} TraceInRange(states: seq<State>, p: seq<StateId>, w: string)
    requires Trace(states, p, w)
    ensures forall k :: 0 <= k < |p| ==> p[k] < |states|
    decreases |p|
  {
    if |p| > 1 {
      var w' :| Trace(states, p[1..], w');
      TraceInRange(states, p[1..], w');
      forall k | 1 <= k < |p|
        ensures p[k] < |states|
      {
        assert p[k] == p[1..][k - 1];
      }
    }
  }

  lemma TraceEpsCons(states: seq<State>, x: StateId, q: seq<StateId>, w: string)
    requires Trace(states, q, w) && EpsEdge(states, x, q[0])
    ensures Trace(states, [x] + q, w)
  {
    assert ([x] + q)[1..] == q;
  }

  lemma TraceMatchCons(states: seq<State>, x: StateId, ch: char, q: seq<StateId>, w: string)
    requires Trace(states, q, w) && MatchEdge(states, x, ch, q[0])
    ensures Trace(states, [x] + q, [ch] + w)
  {
    assert ([x] + q)[1..] == q;
    assert ([ch] + w)[1..] == w;
  }

  /** An epsilon walk followed by a matching edge and another walk is one walk. */
  lemma {:induction false} TraceEpsThenMatch(states: seq<State>, p: seq<StateId>, ch: char, q: seq<StateId>, v: string)
    requires Trace(states, p, []) && Trace(states, q, v) && MatchEdge(states, p[|p| - 1], ch, q[0])
    ensures Trace(states, p + q, [ch] + v)
    decreases |p|
  {
    if |p| == 1 {
      assert p + q == [p[0]] + q;
      TraceMatchCons(states, p[0], ch, q, v);
    } else {
      TraceEpsThenMatch(states, p[1..], ch, q, v);
      assert p + q == [p[0]] + (p[1..] + q);
      TraceEpsCons(states, p[0], p[1..] + q, [ch] + v);
    }
  }

  /** A walk reading `ch` then `u` splits at its first matching edge. */
  lemma {:induction false} FirstMatch(states: seq<State>, p: seq<StateId>, ch: char, u: string) returns (k: nat)
    requires Trace(states, p, [ch] + u)
    ensures k + 1 < |p|
    ensures Trace(states, p[..k + 1], []) && MatchEdge(states, p[k], ch, p[k + 1]) && Trace(states, p[k + 1..], u)
    decreases |p|
  {
    assert ([ch] + u)[0] == ch && ([ch] + u)[1..] == u;
    if EpsEdge(states, p[0], p[1]) && Trace(states, p[1..], [ch] + u) {
      var k' := FirstMatch(states, p[1..], ch, u);
      k := k' + 1;
      var head := p[1..][..k' + 1];
      assert p[..k + 1] == [p[0]] + head;
      TraceEpsCons(states, p[0], head, []);
      assert p[k + 1..] == p[1..][k' + 1..];
    } else {
      k := 0;
      assert p[..1] == [p[0]];
    }
  }

  // ----- the closure is the set of non-split states reachable by epsilon edges -----

  lemma {:induction false} ClosurePath(states: seq<State>, x: StateId, y: StateId, rank: seq<nat>) returns (p: seq<StateId>)
    requires Ranked(states, rank) && x < |states| && y in Closure(states, x, rank)
    ensures Trace(states, p, []) && p[0] == x && p[|p| - 1] == y
    decreases rank[x]
  {
    assert RankedAt(states, rank, x);
    match states[x]
    case Split(a, b) =>
      var q;
      if y in Closure(states, a.value, rank) {
        q := ClosurePath(states, a.value, y, rank);
      } else {
        q := ClosurePath(states, b.value, y, rank);
      }
      TraceEpsCons(states, x, q, []);
      p := [x] + q;
    case Start(n) =>
      if y == x {
        p := [x];
      } else {
        var q := ClosurePath(states, n.value, y, rank);
        TraceEpsCons(states, x, q, []);
        p := [x] + q;
      }
    case _ =>
      p := [x];
  }

  lemma {:induction false} TraceInClosure(states: seq<State>, p: seq<StateId>, rank: seq<nat>)
    requires Ranked(states, rank) && Trace(states, p, [])
    requires p[|p| - 1] < |states| && !states[p[|p| - 1]].Split?
    ensures p[|p| - 1] in Closure(states, p[0], rank)
    decreases |p|
  {
    assert RankedAt(states, rank, p[0]);
    if |p| > 1 {
      assert p[1..][|p[1..]| - 1] == p[|p| - 1];
      TraceInClosure(states, p[1..], rank);
    }
  }

  /** `y` is visited from `x` by one step of the simulation exactly when it is a
      non-split state some epsilon walk from `x` reaches. */
  lemma ReachesEps(states: seq<State>, x: StateId, y: StateId, rank: seq<nat>)
    requires Ranked(states, rank) && x < |states|
    ensures y in Closure(states, x, rank) <==> Reaches(states, x, [], y) && y < |states| && !states[y].Split?
  {
    if y in Closure(states, x, rank) {
      var p := ClosurePath(states, x, y, rank);
    }
    if Reaches(states, x, [], y) && y < |states| && !states[y].Split? {
      var p :| Trace(states, p, []) && p[0] == x && p[|p| - 1] == y;
      TraceInClosure(states, p, rank);
    }
  }

  /** An End state can be reached from `x` reading nothing exactly when the closure of
      `x` holds one. */
  lemma ReachesEndEps(states: seq<State>, x: StateId, rank: seq<nat>)
    requires Ranked(states, rank) && x < |states|
    ensures ReachesEnd(states, x, []) <==> exists y :: y in Closure(states, x, rank) && states[y].End?
  {
    if ReachesEnd(states, x, []) {
      var y :| 0 <= y < |states| && states[y].End? && Reaches(states, x, [], y);
      ReachesEps(states, x, y, rank);
    }
    if exists y :: y in Closure(states, x, rank) && states[y].End? {
      var y :| y in Closure(states, x, rank) && states[y].End?;
      ReachesEps(states, x, y, rank);
    }
  }

  /** Reading `ch` then `u` from `x`: first epsilon edges to a Match state of the
      closure, then its matching edge, then `u`. */
  lemma ReachesEndStep(states: seq<State>, x: StateId, ch: char, u: string, rank: seq<nat>)
    requires Ranked(states, rank) && x < |states|
    ensures ReachesEnd(states, x, [ch] + u) <==>
      ReachesEndFrom(states, SuccSet(states, Elems(Closure(states, x, rank)), ch), u)
  {
    var C := Elems(Closure(states, x, rank));
    if ReachesEnd(states, x, [ch] + u) {
      var y :| 0 <= y < |states| && states[y].End? && Reaches(states, x, [ch] + u, y);
      var p :| Trace(states, p, [ch] + u) && p[0] == x && p[|p| - 1] == y;
      var k := FirstMatch(states, p, ch, u);
      var head, tail := p[..k + 1], p[k + 1..];
      assert head[|head| - 1] == p[k];
      TraceInClosure(states, head, rank);
      assert p[k] in C;
      assert tail[|tail| - 1] == y;
      assert Reaches(states, p[k + 1], u, y);
      assert p[k + 1] in SuccSet(states, C, ch);
    }
    if ReachesEndFrom(states, SuccSet(states, C, ch), u) {
      var z :| z in SuccSet(states, C, ch) && ReachesEnd(states, z, u);
      var x' :| x' in C && states[x'].Match? && Matches(states[x'].on, ch) && states[x'].next.value == z;
      var y :| 0 <= y < |states| && states[y].End? && Reaches(states, z, u, y);
      var q :| Trace(states, q, u) && q[0] == z && q[|q| - 1] == y;
      var p := ClosurePath(states, x, x', rank);
      TraceEpsThenMatch(states, p, ch, q, u);
      assert (p + q)[0] == x && (p + q)[|p + q| - 1] == y;
    }
  }

  // ----- from one state to a frontier -----

  /** What `parse_state` keeps of `x` is among the states a step visits from `x`. */
  lemma {:induction false} ExpandInClosure(states: seq<State>, x: StateId, rank: seq<nat>)
    requires Ranked(states, rank) && x < |states|
    ensures forall y :: y in ExpandOne(states, x, rank) ==> y in Closure(states, x, rank)
    decreases rank[x]
  {
    assert RankedAt(states, rank, x);
    if states[x].Split? {
      ExpandInClosure(states, states[x].first.value, rank);
      ExpandInClosure(states, states[x].second.value, rank);
    }
  }

  /** Without links into Start states, the two coincide on any state but a Start. */
  lemma {:induction false} ExpandIsClosure(states: seq<State>, x: StateId, rank: seq<nat>)
    requires Ranked(states, rank) && NoStartTargets(states) && x < |states| && !states[x].Start?
    ensures ExpandOne(states, x, rank) == Closure(states, x, rank)
    decreases rank[x]
  {
    assert RankedAt(states, rank, x);
    if states[x].Split? {
      var a, b := states[x].first.value, states[x].second.value;
      assert Targets(states[x], a) && Targets(states[x], b);
      ExpandIsClosure(states, a, rank);
      ExpandIsClosure(states, b, rank);
    }
  }

  lemma ReachesEndFromEps(states: seq<State>, F: set<StateId>, rank: seq<nat>)
    requires Ranked(states, rank) && InRange(states, F)
    ensures ReachesEndFrom(states, F, []) <==> HasEnd(states, ClosureSet(states, F, rank))
  {
    if ReachesEndFrom(states, F, []) {
      var x :| x in F && ReachesEnd(states, x, []);
      ReachesEndEps(states, x, rank);
    }
    if HasEnd(states, ClosureSet(states, F, rank)) {
      var y :| y in ClosureSet(states, F, rank) && states[y].End?;
      var x :| x in F && y in Closure(states, x, rank);
      ReachesEndEps(states, x, rank);
    }
  }

  lemma ReachesEndFromStep(states: seq<State>, F: set<StateId>, ch: char, u: string, rank: seq<nat>)
    requires Ranked(states, rank) && InRange(states, F)
    ensures ReachesEndFrom(states, F, [ch] + u) <==>
      ReachesEndFrom(states, SuccSet(states, ClosureSet(states, F, rank), ch), u)
  {
    var C := ClosureSet(states, F, rank);
    if ReachesEndFrom(states, F, [ch] + u) {
      var x :| x in F && ReachesEnd(states, x, [ch] + u);
      ReachesEndStep(states, x, ch, u, rank);
      var z :| z in SuccSet(states, Elems(Closure(states, x, rank)), ch) && ReachesEnd(states, z, u);
      assert z in SuccSet(states, C, ch);
    }
    if ReachesEndFrom(states, SuccSet(states, C, ch), u) {
      var z :| z in SuccSet(states, C, ch) && ReachesEnd(states, z, u);
      var x' :| x' in C && states[x'].Match? && Matches(states[x'].on, ch) && states[x'].next.value == z;
      var x :| x in F && x' in Closure(states, x, rank);
      assert z in SuccSet(states, Elems(Closure(states, x, rank)), ch);
      ReachesEndStep(states, x, ch, u, rank);
    }
  }

  // ----- the verdict of the simulation -----

  /** Whatever the simulation accepts from `F`, some prefix of the input leads from
      `F` to an End state. */
  lemma {:induction false} RunSound(states: seq<State>, F: set<StateId>, s: string, rank: seq<nat>)
    requires Ranked(states, rank) && InRange(states, F)
    requires Run(states, F, s, rank)
    ensures exists i :: 0 <= i <= |s| && ReachesEndFrom(states, F, s[..i])
    decreases |s|
  {
    assert s[..0] == [];
    if s == [] {
      var y :| y in ExpandSet(states, F, rank) && states[y].End?;
      var x :| x in F && y in ExpandOne(states, x, rank);
      ExpandInClosure(states, x, rank);
      ReachesEndFromEps(states, F, rank);
    } else if HasEnd(states, ClosureSet(states, F, rank)) {
      ReachesEndFromEps(states, F, rank);
    } else {
      var G := SuccSet(states, ClosureSet(states, F, rank), s[0]);
      RunSound(states, G, s[1..], rank);
      var j :| 0 <= j <= |s[1..]| && ReachesEndFrom(states, G, s[1..][..j]);
      assert s[..j + 1] == [s[0]] + s[1..][..j];
      ReachesEndFromStep(states, F, s[0], s[1..][..j], rank);
    }
  }

  /** Without links into Start states the converse holds, provided the frontier holds no
      Start state when the input is used up. */
  lemma {:induction false} RunComplete(states: seq<State>, F: set<StateId>, s: string, i: nat, rank: seq<nat>)
    requires Ranked(states, rank) && NoStartTargets(states) && InRange(states, F)
    requires s == [] ==> forall x :: x in F ==> !states[x].Start?
    requires i <= |s| && ReachesEndFrom(states, F, s[..i])
    ensures Run(states, F, s, rank)
    decreases |s|
  {
    assert s[..0] == [];
    if i == 0 {
      ReachesEndFromEps(states, F, rank);
      if s == [] {
        var y :| y in ClosureSet(states, F, rank) && states[y].End?;
        var x :| x in F && y in Closure(states, x, rank);
        ExpandIsClosure(states, x, rank);
        assert y in ExpandSet(states, F, rank);
      }
    } else {
      var C := ClosureSet(states, F, rank);
      var G := SuccSet(states, C, s[0]);
      forall z | z in G
        ensures !states[z].Start?
      {
        var x' :| x' in C && states[x'].Match? && Matches(states[x'].on, s[0]) && states[x'].next.value == z;
        assert Targets(states[x'], z);
      }
      assert s[..i] == [s[0]] + s[1..][..i - 1];
      ReachesEndFromStep(states, F, s[0], s[1..][..i - 1], rank);
      RunComplete(states, G, s[1..], i - 1, rank);
    }
  }

  /** Every input the simulation accepts has a prefix that leads from the start state to
      an End state.  This holds for any graph, the sum of two NFAs included. */
  lemma AcceptedSound(states: seq<State>, start: StateId, s: string, rank: seq<nat>)
    requires Ranked(states, rank) && start < |states|
    requires Accepted(states, start, s, rank)
    ensures exists i :: 0 <= i <= |s| && ReachesEnd(states, start, s[..i])
  {
    if s == [] {
      assert s[..0] == [];
      assert Trace(states, [start], []);
      assert Reaches(states, start, s[..0], start);
    } else {
      RunSound(states, {start}, s, rank);
      var i :| 0 <= i <= |s| && ReachesEndFrom(states, {start}, s[..i]);
    }
  }

  /** `accepts` decides "some prefix of a non-empty input leads from Start to End", for
      a graph without links into Start states, as `NFA::from` builds them. */
  lemma AcceptedIff(states: seq<State>, start: StateId, s: string, rank: seq<nat>)
    requires Ranked(states, rank) && NoStartTargets(states) && start < |states| && states[start].Start?
    ensures Accepted(states, start, s, rank) <==>
      s != [] && exists i :: 0 <= i <= |s| && ReachesEnd(states, start, s[..i])
  {
    if Accepted(states, start, s, rank) {
      AcceptedSound(states, start, s, rank);
    }
    if s != [] && exists i :: 0 <= i <= |s| && ReachesEnd(states, start, s[..i]) {
      var i :| 0 <= i <= |s| && ReachesEnd(states, start, s[..i]);
      assert ReachesEndFrom(states, {start}, s[..i]);
      RunComplete(states, {start}, s, i, rank);
    }
  }

  /** Acceptance is kept by extending the input: the simulation accepts as soon as it
      reaches End, whatever follows. */
  lemma AcceptedExtends(states: seq<State>, start: StateId, s: string, t: string, rank: seq<nat>)
    requires Ranked(states, rank) && NoStartTargets(states) && start < |states| && states[start].Start?
    requires Accepted(states, start, s, rank)
    ensures Accepted(states, start, s + t, rank)
  {
    AcceptedIff(states, start, s, rank);
    var i :| 0 <= i <= |s| && ReachesEnd(states, start, s[..i]);
    assert (s + t)[..i] == s[..i];
    AcceptedIff(states, start, s + t, rank);
  }
}
