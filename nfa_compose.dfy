/**
 * `impl Add for NFA`: the sum of two NFAs runs the left one and continues with the
 * right one, by dropping the left End state and placing the right arena after it.
 */
module NfaCompose {
  import opened Wrappers
  import opened NfaGraph
  import opened NfaPaths

  /** Every link of `s` is bound (what `unwrap` demands of each state of the right operand). */
  predicate Bound(s: State) {
    match s
    case Start(x) => x.Some?
    case Match(_, x) => x.Some?
    case Split(a, b) => a.Some? && b.Some?
    case End => true
  }

  predicate AllBound(states: seq<State>) {
    forall i :: 0 <= i < |states| ==> Bound(states[i])
  }

  /** A state of the right operand with its links moved up by `k`. */
  function Shift(s: State, k: nat): (r: State)
    requires Bound(s)
    ensures r.Start? == s.Start? && r.Match? == s.Match? && r.Split? == s.Split? && r.End? == s.End?
    ensures s.Match? ==> r.on == s.on
  {
    match s
    case Start(x) => Start(Some(x.value + k))
    case Match(c, x) => Match(c, Some(x.value + k))
    case Split(a, b) => Split(Some(a.value + k), Some(b.value + k))
    case End => End
  }

  /** The links of a shifted state are the original links, moved up by `k`. */
  lemma ShiftTargets(s: State, k: nat, y: StateId)
    requires Bound(s)
    ensures Targets(Shift(s, k), y) <==> y >= k && Targets(s, y - k)
  {
  }

  /** The first loop of `+`: the left operand's states, End states left out. */
  function DropEnds(states: seq<State>): (r: seq<State>)
    ensures |r| <= |states|
    ensures forall i :: 0 <= i < |r| ==> !r[i].End?
    decreases |states|
  {
    if states == [] then []
    else
      var last := states[|states| - 1];
      DropEnds(states[..|states| - 1]) + (if last.End? then [] else [last])
  }

  /** The second loop of `+`: the right operand's states, shifted past the left ones. */
  function ShiftAll(states: seq<State>, k: nat): (r: seq<State>)
    requires AllBound(states)
    ensures |r| == |states|
    ensures forall i :: 0 <= i < |r| ==> r[i] == Shift(states[i], k)
    decreases |states|
  {
    if states == [] then [] else ShiftAll(states[..|states| - 1], k) + [Shift(states[|states| - 1], k)]
  }

  /** The arena of `lhs + rhs`; its start state is state 0. */
  function Splice(lhs: seq<State>, rhs: seq<State>): seq<State>
    requires AllBound(rhs)
  {
    var left := DropEnds(lhs);
    left + ShiftAll(rhs, |left|)
  }

  lemma LinkedIsBound(states: seq<State>)
    requires Linked(states)
    ensures AllBound(states)
  {
  }

  lemma {:induction false} DropNoEnds(states: seq<State>)
    requires forall i :: 0 <= i < |states| ==> !states[i].End?
    ensures DropEnds(states) == states
    decreases |states|
  {
    if states != [] {
      DropNoEnds(states[..|states| - 1]);
    }
  }

  /** `sp` is laid out as the sum of `lhs` and `rhs`: the left operand keeps its indices
      below `|lhs| - 1`, where its End state was, and the right operand follows from there,
      shifted. */
  predicate Spliced(sp: seq<State>, lhs: seq<State>, rhs: seq<State>)
    requires |lhs| > 0 && AllBound(rhs)
  {
    var off := |lhs| - 1;
    |sp| == off + |rhs| &&
    (forall i :: 0 <= i < off ==> sp[i] == lhs[i]) &&
    (forall j :: 0 <= j < |rhs| ==> sp[off + j] == Shift(rhs[j], off))
  }

  lemma SpliceAt(lhs: seq<State>, rhs: seq<State>)
    requires WellFormed(lhs) && AllBound(rhs)
    ensures |DropEnds(lhs)| == |lhs| - 1
    ensures Spliced(Splice(lhs, rhs), lhs, rhs)
  {
    var init := lhs[..|lhs| - 1];
    DropNoEnds(init);
    assert DropEnds(lhs) == init + [];
  }

  /** The sum of two well-formed NFAs is well-formed. */
  lemma SpliceWellFormed(lhs: seq<State>, rhs: seq<State>)
    requires WellFormed(lhs) && WellFormed(rhs)
    ensures AllBound(rhs) && WellFormed(Splice(lhs, rhs))
  {
    LinkedIsBound(rhs);
    SpliceAt(lhs, rhs);
    var sp, off := Splice(lhs, rhs), |lhs| - 1;
    forall i | 0 <= i < |sp|
      ensures LinksWithin(sp[i], |sp|) && ForwardAt(sp, i) && (i < |sp| - 1 ==> !sp[i].End?)
    {
      if i < off {
        SplicedLeftAt(sp, lhs, rhs, i);
      } else {
        SplicedRightAt(sp, lhs, rhs, i - off);
      }
    }
  }

  lemma SplicedLeftAt(sp: seq<State>, lhs: seq<State>, rhs: seq<State>, i: nat)
    requires WellFormed(lhs) && AllBound(rhs) && |rhs| > 0 && Spliced(sp, lhs, rhs) && i < |lhs| - 1
    ensures LinksWithin(sp[i], |sp|) && ForwardAt(sp, i) && !sp[i].End?
  {
    assert sp[i] == lhs[i];
    assert LinksWithin(lhs[i], |lhs|) && ForwardAt(lhs, i);
  }

  lemma SplicedRightAt(sp: seq<State>, lhs: seq<State>, rhs: seq<State>, j: nat)
    requires |lhs| > 0 && WellFormed(rhs) && Spliced(sp, lhs, rhs) && j < |rhs|
    ensures |lhs| - 1 + j < |sp|
    ensures LinksWithin(sp[|lhs| - 1 + j], |sp|) && ForwardAt(sp, |lhs| - 1 + j)
    ensures j < |rhs| - 1 ==> !sp[|lhs| - 1 + j].End?
  {
    var off := |lhs| - 1;
    assert sp[off + j] == Shift(rhs[j], off);
    assert LinksWithin(rhs[j], |rhs|) && ForwardAt(rhs, j);
  }

  // ----- walks in the sum -----

  /** Two walks that meet make one walk. */
  lemma {:induction false} TraceConcat(states: seq<State>, p: seq<StateId>, u: string, q: seq<StateId>, v: string)
    requires Trace(states, p, u) && Trace(states, q, v) && p[|p| - 1] == q[0]
    ensures Trace(states, p + q[1..], u + v)
    decreases |p|
  {
    if |p| == 1 {
      assert p + q[1..] == q;
      assert u == [] && u + v == v;
    } else {
      TraceConcat(states, p[1..], if EpsEdge(states, p[0], p[1]) && Trace(states, p[1..], u) then u else u[1..], q, v);
      assert p + q[1..] == [p[0]] + (p[1..] + q[1..]);
      if EpsEdge(states, p[0], p[1]) && Trace(states, p[1..], u) {
        TraceEpsCons(states, p[0], p[1..] + q[1..], u + v);
      } else {
        assert u + v == [u[0]] + (u[1..] + v);
        TraceMatchCons(states, p[0], u[0], p[1..] + q[1..], u[1..] + v);
      }
    }
  }

  /** A walk can be cut at any of its states. */
  lemma {:induction false} TraceSplit(states: seq<State>, p: seq<StateId>, w: string, k: nat) returns (j: nat)
    requires Trace(states, p, w) && k < |p|
    ensures j <= |w| && Trace(states, p[..k + 1], w[..j]) && Trace(states, p[k..], w[j..])
    decreases k
  {
    if k == 0 {
      j := 0;
      assert p[..1] == [p[0]] && p[0..] == p && w[0..] == w;
    } else if EpsEdge(states, p[0], p[1]) && Trace(states, p[1..], w) {
      var j' := TraceSplit(states, p[1..], w, k - 1);
      j := j';
      assert p[..k + 1] == [p[0]] + p[1..][..k];
      TraceEpsCons(states, p[0], p[1..][..k], w[..j]);
      assert p[k..] == p[1..][k - 1..];
    } else {
      var j' := TraceSplit(states, p[1..], w[1..], k - 1);
      j := j' + 1;
      assert p[..k + 1] == [p[0]] + p[1..][..k];
      assert w[..j] == [w[0]] + w[1..][..j'];
      TraceMatchCons(states, p[0], w[0], p[1..][..k], w[1..][..j']);
      assert p[k..] == p[1..][k - 1..];
      assert w[j..] == w[1..][j'..];
    }
  }

  /** Each step of a walk follows a link. */
  lemma {:induction false} TraceEdge(states: seq<State>, p: seq<StateId>, w: string, i: nat)
    requires Trace(states, p, w) && i + 1 < |p|
    ensures p[i] < |states| && Targets(states[p[i]], p[i + 1])
    decreases i
  {
    if i > 0 {
      TraceEdge(states, p[1..], if EpsEdge(states, p[0], p[1]) && Trace(states, p[1..], w) then w else w[1..], i - 1);
    }
  }

  /** The rest of a walk after its first step. */
  function TraceRest(states: seq<State>, p: seq<StateId>, w: string): (r: string)
    requires Trace(states, p, w) && |p| > 1
    ensures Trace(states, p[1..], r)
    ensures (EpsEdge(states, p[0], p[1]) && r == w) || (w != [] && MatchEdge(states, p[0], w[0], p[1]) && r == w[1..])
  {
    if EpsEdge(states, p[0], p[1]) && Trace(states, p[1..], w) then w else w[1..]
  }

  /** A walk whose steps all leave states that two arenas share, and stays within both,
      is a walk of either. */
  lemma {:induction false} TraceTransfer(a: seq<State>, b: seq<State>, p: seq<StateId>, w: string)
    requires Trace(a, p, w) && p[|p| - 1] < |b|
    requires forall m :: 0 <= m < |p| - 1 ==> p[m] < |a| && p[m] < |b| && a[p[m]] == b[p[m]]
    ensures Trace(b, p, w)
    decreases |p|
  {
    if |p| > 1 {
      assert p[1..][|p[1..]| - 1] == p[|p| - 1];
      TraceTransfer(a, b, p[1..], TraceRest(a, p, w));
    }
  }

  function ShiftIds(q: seq<StateId>, k: nat): (r: seq<StateId>)
    ensures |r| == |q| && forall m :: 0 <= m < |q| ==> r[m] == q[m] + k
  {
    seq(|q|, m requires 0 <= m < |q| => q[m] + k)
  }

  /** A walk of the right operand, shifted, is a walk of the sum. */
  lemma {:induction false} RightTrace(sp: seq<State>, lhs: seq<State>, rhs: seq<State>, q: seq<StateId>, w: string)
    requires |lhs| > 0 && AllBound(rhs) && Spliced(sp, lhs, rhs) && Trace(rhs, q, w)
    ensures Trace(sp, ShiftIds(q, |lhs| - 1), w)
    decreases |q|
  {
    var off := |lhs| - 1;
    var q' := ShiftIds(q, off);
    assert sp[off + q[0]] == Shift(rhs[q[0]], off);
    if |q| > 1 {
      ShiftTargets(rhs[q[0]], off, q'[1]);
      RightTrace(sp, lhs, rhs, q[1..], TraceRest(rhs, q, w));
      assert ShiftIds(q[1..], off) == q'[1..];
    }
  }

  /** A walk of the sum that reaches the right operand never leaves it. */
  lemma {:induction false} StaysRight(sp: seq<State>, lhs: seq<State>, rhs: seq<State>, r: seq<StateId>, w: string)
    requires |lhs| > 0 && AllBound(rhs) && Spliced(sp, lhs, rhs)
    requires Trace(sp, r, w) && r[0] >= |lhs| - 1
    ensures forall m :: 0 <= m < |r| ==> r[m] >= |lhs| - 1
    decreases |r|
  {
    var off := |lhs| - 1;
    if |r| > 1 {
      TraceEdge(sp, r, w, 0);
      assert sp[off + (r[0] - off)] == Shift(rhs[r[0] - off], off);
      ShiftTargets(rhs[r[0] - off], off, r[1]);
      StaysRight(sp, lhs, rhs, r[1..], TraceRest(sp, r, w));
      forall m | 0 <= m < |r|
        ensures r[m] >= off
      {
        if m > 0 {
          assert r[m] == r[1..][m - 1];
        }
      }
    }
  }

  /** A shifted walk of the sum in the right operand is a walk of the right operand. */
  lemma {:induction false} BackRight(sp: seq<State>, lhs: seq<State>, rhs: seq<State>, q: seq<StateId>, w: string)
    requires |lhs| > 0 && AllBound(rhs) && Spliced(sp, lhs, rhs) && Trace(sp, ShiftIds(q, |lhs| - 1), w)
    ensures Trace(rhs, q, w)
    decreases |q|
  {
    var off := |lhs| - 1;
    var q' := ShiftIds(q, off);
    assert sp[off + q[0]] == Shift(rhs[q[0]], off);
    if |q| > 1 {
      TraceEdge(sp, q', w, 0);
      ShiftTargets(rhs[q[0]], off, q'[1]);
      assert ShiftIds(q[1..], off) == q'[1..];
      BackRight(sp, lhs, rhs, q[1..], TraceRest(sp, q', w));
    }
  }

  lemma {:induction false} FirstAtLeast(p: seq<StateId>, off: nat) returns (k: nat)
    requires exists m :: 0 <= m < |p| && p[m] >= off
    ensures k < |p| && p[k] >= off && forall m :: 0 <= m < k ==> p[m] < off
    decreases |p|
  {
    if p[0] >= off {
      k := 0;
    } else {
      var m :| 0 <= m < |p| && p[m] >= off;
      assert p[1..][m - 1] == p[m];
      var k' := FirstAtLeast(p[1..], off);
      k := k' + 1;
      forall m | 0 <= m < k
        ensures p[m] < off
      {
        if m > 0 {
          assert p[m] == p[1..][m - 1];
        }
      }
    }
  }

  /** The sum reads `u + v` from Start to End when the left operand reads `u` and the
      right one `v`. */
  lemma SpliceConcat(lhs: seq<State>, rhs: seq<State>, u: string, v: string)
    requires WellFormed(lhs) && WellFormed(rhs)
    requires ReachesEnd(lhs, 0, u) && ReachesEnd(rhs, 0, v)
    ensures AllBound(rhs) && ReachesEnd(Splice(lhs, rhs), 0, u + v)
  {
    LinkedIsBound(rhs);
    SpliceAt(lhs, rhs);
    SplicedConcat(Splice(lhs, rhs), lhs, rhs, u, v);
  }

  /** A walk of the left operand that ends at its End state is a walk of the sum, ending
      where the right operand starts. */
  lemma LeftTrace(sp: seq<State>, lhs: seq<State>, rhs: seq<State>, p: seq<StateId>, u: string)
    requires WellFormed(lhs) && AllBound(rhs) && Spliced(sp, lhs, rhs)
    requires Trace(lhs, p, u) && p[|p| - 1] == |lhs| - 1 && |rhs| > 0
    ensures Trace(sp, p, u)
  {
    var off := |lhs| - 1;
    forall m | 0 <= m < |p| - 1
      ensures p[m] < |lhs| && p[m] < |sp| && lhs[p[m]] == sp[p[m]]
    {
      TraceEdge(lhs, p, u, m);
      assert p[m] < off by {
        assert !lhs[p[m]].End?;
      }
    }
    TraceTransfer(lhs, sp, p, u);
  }

  lemma SplicedConcat(sp: seq<State>, lhs: seq<State>, rhs: seq<State>, u: string, v: string)
    requires WellFormed(lhs) && AllBound(rhs) && Spliced(sp, lhs, rhs)
    requires ReachesEnd(lhs, 0, u) && ReachesEnd(rhs, 0, v)
    ensures ReachesEnd(sp, 0, u + v)
  {
    var off := |lhs| - 1;
    var y :| 0 <= y < |lhs| && lhs[y].End? && Reaches(lhs, 0, u, y);
    var p :| Trace(lhs, p, u) && p[0] == 0 && p[|p| - 1] == y;
    var z :| 0 <= z < |rhs| && rhs[z].End? && Reaches(rhs, 0, v, z);
    var q :| Trace(rhs, q, v) && q[0] == 0 && q[|q| - 1] == z;
    assert y == off;
    GlueWalks(sp, lhs, rhs, p, u, q, v, z);
  }

  /** A walk of the left operand to its End, then a walk of the right operand to its End,
      make a walk of the sum to its End. */
  lemma GlueWalks(sp: seq<State>, lhs: seq<State>, rhs: seq<State>, p: seq<StateId>, u: string, q: seq<StateId>, v: string, z: StateId)
    requires WellFormed(lhs) && AllBound(rhs) && Spliced(sp, lhs, rhs)
    requires Trace(lhs, p, u) && p[0] == 0 && p[|p| - 1] == |lhs| - 1
    requires Trace(rhs, q, v) && q[0] == 0 && q[|q| - 1] == z && z < |rhs| && rhs[z].End?
    ensures ReachesEnd(sp, 0, u + v)
  {
    var off := |lhs| - 1;
    LeftTrace(sp, lhs, rhs, p, u);
    RightTrace(sp, lhs, rhs, q, v);
    var q' := ShiftIds(q, off);
    assert q'[|q| - 1] == off + z;
    SplicedEnd(sp, lhs, rhs, z);
    ConcatToEnd(sp, p, u, q', v);
  }

  /** A walk that meets a second walk ending at an End reaches that End. */
  lemma ConcatToEnd(states: seq<State>, p: seq<StateId>, u: string, q: seq<StateId>, v: string)
    requires Trace(states, p, u) && Trace(states, q, v) && p[|p| - 1] == q[0]
    requires q[|q| - 1] < |states| && states[q[|q| - 1]].End?
    ensures ReachesEnd(states, p[0], u + v)
  {
    JoinedEnds(p, q);
    TraceConcat(states, p, u, q, v);
    WalkToEnd(states, p + q[1..], u + v);
  }

  /** The End of the right operand is an End of the sum, moved up past the left operand. */
  lemma SplicedEnd(sp: seq<State>, lhs: seq<State>, rhs: seq<State>, z: StateId)
    requires |lhs| > 0 && AllBound(rhs) && Spliced(sp, lhs, rhs) && z < |rhs| && rhs[z].End?
    ensures |lhs| - 1 + z < |sp| && sp[|lhs| - 1 + z].End?
  {
    assert sp[|lhs| - 1 + z] == Shift(rhs[z], |lhs| - 1);
  }

  /** A walk that ends at an End state shows its first state reaches End. */
  lemma WalkToEnd(states: seq<State>, p: seq<StateId>, w: string)
    requires Trace(states, p, w) && p[|p| - 1] < |states| && states[p[|p| - 1]].End?
    ensures ReachesEnd(states, p[0], w)
  {
    assert Reaches(states, p[0], w, p[|p| - 1]);
  }

  /** Gluing two walks that meet keeps the first one's start and the second one's end. */
  lemma JoinedEnds(p: seq<StateId>, q: seq<StateId>)
    requires |p| > 0 && |q| > 0 && p[|p| - 1] == q[0]
    ensures (p + q[1..])[0] == p[0] && (p + q[1..])[|p + q[1..]| - 1] == q[|q| - 1]
  {
    if |q| == 1 {
      assert p + q[1..] == p;
    }
  }

  /** Every string the sum reads from Start to End splits into one the left operand
      reads and one the right operand reads. */
  lemma SpliceSplit(lhs: seq<State>, rhs: seq<State>, w: string) returns (k: nat)
    requires WellFormed(lhs) && WellFormed(rhs)
    requires AllBound(rhs) && ReachesEnd(Splice(lhs, rhs), 0, w)
    ensures k <= |w| && ReachesEnd(lhs, 0, w[..k]) && ReachesEnd(rhs, 0, w[k..])
  {
    SpliceWellFormed(lhs, rhs);
    SpliceAt(lhs, rhs);
    var sp := Splice(lhs, rhs);
    var y :| 0 <= y < |sp| && sp[y].End? && Reaches(sp, 0, w, y);
    assert y == |sp| - 1;
    k := SplicedSplit(sp, lhs, rhs, w, y);
  }

  lemma SplicedSplit(sp: seq<State>, lhs: seq<State>, rhs: seq<State>, w: string, y: StateId) returns (k: nat)
    requires WellFormed(lhs) && AllBound(rhs) && Spliced(sp, lhs, rhs)
    requires y == |sp| - 1 && sp[y].End? && Reaches(sp, 0, w, y)
    ensures k <= |w| && ReachesEnd(lhs, 0, w[..k]) && ReachesEnd(rhs, 0, w[k..])
  {
    var off := |lhs| - 1;
    var p :| Trace(sp, p, w) && p[0] == 0 && p[|p| - 1] == y;
    var i := FirstAtLeast(p, off);
    assert i > 0;
    TraceEdge(sp, p, w, i - 1);
    assert sp[p[i - 1]] == lhs[p[i - 1]];
    assert LinksWithin(lhs[p[i - 1]], |lhs|);
    assert p[i] == off;
    var j := TraceSplit(sp, p, w, i);
    SplitLeft(sp, lhs, rhs, p[..i + 1], w[..j]);
    SplitRight(sp, lhs, rhs, p[i..], w[j..]);
    k := j;
  }

  /** The part of a walk of the sum before it first enters the right operand is a walk
      of the left operand to its End state. */
  lemma SplitLeft(sp: seq<State>, lhs: seq<State>, rhs: seq<State>, head: seq<StateId>, u: string)
    requires WellFormed(lhs) && AllBound(rhs) && Spliced(sp, lhs, rhs)
    requires Trace(sp, head, u) && head[0] == 0 && head[|head| - 1] == |lhs| - 1
    requires forall m :: 0 <= m < |head| - 1 ==> head[m] < |lhs| - 1
    ensures ReachesEnd(lhs, 0, u)
  {
    TraceTransfer(sp, lhs, head, u);
    WalkToEnd(lhs, head, u);
  }

  /** The rest of the walk, from where the right operand starts to End, is a walk of the
      right operand, shifted. */
  lemma SplitRight(sp: seq<State>, lhs: seq<State>, rhs: seq<State>, tail: seq<StateId>, v: string)
    requires |lhs| > 0 && AllBound(rhs) && Spliced(sp, lhs, rhs)
    requires Trace(sp, tail, v) && tail[0] == |lhs| - 1 && tail[|tail| - 1] == |sp| - 1 && sp[|sp| - 1].End?
    ensures ReachesEnd(rhs, 0, v)
  {
    var off := |lhs| - 1;
    var y := |sp| - 1;
    StaysRight(sp, lhs, rhs, tail, v);
    var q := seq(|tail|, m requires 0 <= m < |tail| => tail[m] - off);
    assert ShiftIds(q, off) == tail;
    BackRight(sp, lhs, rhs, q, v);
    assert q[0] == 0 && q[|q| - 1] == y - off;
    assert sp[off + (y - off)] == Shift(rhs[y - off], off);
    WalkToEnd(rhs, q, v);
  }

  /** The language equation of `+`: a string leads from Start to End in the sum exactly
      when it is a string of the left operand followed by one of the right operand. */
  lemma SpliceReaches(lhs: seq<State>, rhs: seq<State>, w: string)
    requires WellFormed(lhs) && WellFormed(rhs)
    ensures AllBound(rhs)
    ensures ReachesEnd(Splice(lhs, rhs), 0, w) <==>
      exists k :: 0 <= k <= |w| && ReachesEnd(lhs, 0, w[..k]) && ReachesEnd(rhs, 0, w[k..])
  {
    LinkedIsBound(rhs);
    if ReachesEnd(Splice(lhs, rhs), 0, w) {
      var k := SpliceSplit(lhs, rhs, w);
    }
    if exists k :: 0 <= k <= |w| && ReachesEnd(lhs, 0, w[..k]) && ReachesEnd(rhs, 0, w[k..]) {
      var k :| 0 <= k <= |w| && ReachesEnd(lhs, 0, w[..k]) && ReachesEnd(rhs, 0, w[k..]);
      SpliceConcat(lhs, rhs, w[..k], w[k..]);
      assert w[..k] + w[k..] == w;
    }
  }
}
