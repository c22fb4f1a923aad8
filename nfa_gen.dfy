/**
 * `NFA::gen` as a function of its random draws: a single walk from the start state
 * to End that takes one link of each split it meets.
 */
module NfaGen {
  import opened Wrappers
  import opened NfaGraph
  import opened NfaClosure
  import opened NfaPaths

  /** The string `gen` builds from state `cur`.  `choices` are the coin flips at splits
      (true takes the first link) and `letters` the characters drawn for `.`; the walk
      has no result when it needs more draws than are supplied. */
  function Walk(states: seq<State>, cur: StateId, choices: seq<bool>, letters: seq<char>): Option<string>
    requires Linked(states) && Forward(states) && cur < |states|
    decreases |choices|, |states| - cur
  {
    assert ForwardAt(states, cur);
    match states[cur]
    case End => Some([])
    case Start(n) => Walk(states, n.value, choices, letters)
    case Match(on, n) =>
      if on.Any? && letters == [] then None
      else
        var ch := if on.Any? then letters[0] else on.c;
        var rest := Walk(states, n.value, choices, if on.Any? then letters[1..] else letters);
        if rest.None? then None else Some([ch] + rest.value)
    case Split(a, b) =>
      if choices == [] then None
      else Walk(states, if choices[0] then a.value else b.value, choices[1..], letters)
  }

  /** Every string `gen` produces is read along some walk from `cur` to an End state. */
  lemma {:induction false} WalkPath(states: seq<State>, cur: StateId, choices: seq<bool>, letters: seq<char>)
    returns (p: seq<StateId>)
    requires Linked(states) && Forward(states) && cur < |states|
    requires Walk(states, cur, choices, letters).Some?
    ensures var w := Walk(states, cur, choices, letters).value;
      Trace(states, p, w) && p[0] == cur && p[|p| - 1] < |states| && states[p[|p| - 1]].End?
    decreases |choices|, |states| - cur
  {
    assert ForwardAt(states, cur);
    var w := Walk(states, cur, choices, letters).value;
    match states[cur]
    case End =>
      p := [cur];
    case Start(n) =>
      var q := WalkPath(states, n.value, choices, letters);
      TraceEpsCons(states, cur, q, w);
      p := [cur] + q;
    case Match(on, n) =>
      var rest := if on.Any? then letters[1..] else letters;
      var q := WalkPath(states, n.value, choices, rest);
      TraceMatchCons(states, cur, w[0], q, Walk(states, n.value, choices, rest).value);
      p := [cur] + q;
    case Split(a, b) =>
      var next := if choices[0] then a.value else b.value;
      var q := WalkPath(states, next, choices[1..], letters);
      TraceEpsCons(states, cur, q, w);
      p := [cur] + q;
  }

  /** The draws that make `gen` follow a given walk to End (End has no links, so the
      walk meets End only at its last state). */
  lemma {:induction false} PathDraws(states: seq<State>, p: seq<StateId>, w: string)
    returns (choices: seq<bool>, letters: seq<char>)
    requires Linked(states) && Forward(states)
    requires Trace(states, p, w) && p[|p| - 1] < |states| && states[p[|p| - 1]].End?
    ensures Walk(states, p[0], choices, letters) == Some(w)
    decreases |p|
  {
    assert ForwardAt(states, p[0]);
    if |p| == 1 {
      choices, letters := [], [];
    } else {
      var q := p[1..];
      assert q[|q| - 1] == p[|p| - 1];
      match states[p[0]]
      case Start(n) =>
        choices, letters := PathDraws(states, q, w);
      case Split(a, b) =>
        var c', l' := PathDraws(states, q, w);
        choices, letters := [q[0] == a.value] + c', l';
        assert choices[1..] == c';
      case Match(on, n) =>
        var c', l' := PathDraws(states, q, w[1..]);
        choices := c';
        letters := if on.Any? then [w[0]] + l' else l';
        assert on.Any? ==> letters[1..] == l';
        assert w == [w[0]] + w[1..];
    }
  }

  /** The strings `gen` can produce from `cur`, over all draws, are exactly the strings
      read along walks from `cur` to an End state. */
  lemma GenIff(states: seq<State>, cur: StateId, w: string)
    requires Linked(states) && Forward(states) && cur < |states|
    ensures (exists choices, letters :: Walk(states, cur, choices, letters) == Some(w)) <==> ReachesEnd(states, cur, w)
  {
    if exists choices, letters :: Walk(states, cur, choices, letters) == Some(w) {
      var choices, letters :| Walk(states, cur, choices, letters) == Some(w);
      var p := WalkPath(states, cur, choices, letters);
      assert Reaches(states, cur, w, p[|p| - 1]);
    }
    if ReachesEnd(states, cur, w) {
      var y :| 0 <= y < |states| && states[y].End? && Reaches(states, cur, w, y);
      var p :| Trace(states, p, w) && p[0] == cur && p[|p| - 1] == y;
      var choices, letters := PathDraws(states, p, w);
    }
  }

  /** What `gen` produces, `accepts` takes back, unless it is empty: `accepts` rejects
      the empty input outright.  The graph must have no links into Start states, as the
      graphs `NFA::from` builds. */
  lemma GenAccepted(states: seq<State>, start: StateId, rank: seq<nat>, choices: seq<bool>, letters: seq<char>)
    requires Ranked(states, rank) && Forward(states) && NoStartTargets(states)
    requires start < |states| && states[start].Start?
    requires Walk(states, start, choices, letters).Some? && Walk(states, start, choices, letters).value != []
    ensures Accepted(states, start, Walk(states, start, choices, letters).value, rank)
  {
    var w := Walk(states, start, choices, letters).value;
    GenIff(states, start, w);
    assert w[..|w|] == w;
    AcceptedIff(states, start, w, rank);
  }
}
