/**
 * The NFA as an arena: a sequence of states addressed by their index, with links
 * between them.  A link that is not yet bound is `None`.
 */
module NfaGraph {
  import opened Wrappers

  /** An index into the state arena (`usize` in Rust). */
  type StateId = nat

  /** The label of a matching edge: one character, or any character (`.`). */
  datatype Char = Literal(c: char) | Any

  datatype State =
    | Start(next: Option<StateId>)
    | Match(on: Char, next: Option<StateId>)
    | Split(first: Option<StateId>, second: Option<StateId>)
    | End

  /** A piece of NFA under construction: its entry state and its unbound exits. */
  datatype Fragment = Fragment(start: StateId, ends: seq<StateId>)

  predicate Matches(on: Char, ch: char) {
    match on
    case Any => true
    case Literal(c) => c == ch
  }

  /** `join` on one state: binds the loose end of `s` to `to`; for a split, its second link. */
  function Patch(s: State, to: StateId): (r: State)
    ensures r.Start? == s.Start? && r.Match? == s.Match? && r.Split? == s.Split? && r.End? == s.End?
    ensures s.Split? ==> r == Split(s.first, Some(to))
    ensures s.Start? || s.Match? ==> r.next == Some(to)
    ensures s.Match? ==> r.on == s.on
  {
    match s
    case Start(_) => Start(Some(to))
    case Match(c, _) => Match(c, Some(to))
    case Split(a, _) => Split(a, Some(to))
    case End => End
  }

  /** `join`: patches the state `from` and leaves every other state alone. */
  function Join(states: seq<State>, from: StateId, to: StateId): (r: seq<State>)
    requires from < |states|
    ensures |r| == |states| && r[from] == Patch(states[from], to)
    ensures forall i :: 0 <= i < |r| && i != from ==> r[i] == states[i]
  {
    states[from := Patch(states[from], to)]
  }

  predicate ValidIds(states: seq<State>, ids: seq<StateId>) {
    forall k :: 0 <= k < |ids| ==> ids[k] < |states|
  }

  /** `join_fragment`: joins every end in `ends`, in order, to `to`. */
  function JoinAll(states: seq<State>, ends: seq<StateId>, to: StateId): (r: seq<State>)
    requires ValidIds(states, ends)
    ensures |r| == |states|
    ensures forall i :: 0 <= i < |r| ==> r[i] == if i in ends then Patch(states[i], to) else states[i]
    decreases |ends|
  {
    if ends == [] then states
    else Join(JoinAll(states, ends[..|ends| - 1], to), ends[|ends| - 1], to)
  }

  /** `s` has every link it owns bound, to a state below `n`. */
  predicate LinksWithin(s: State, n: nat) {
    match s
    case Start(x) => x.Some? && x.value < n
    case Match(_, x) => x.Some? && x.value < n
    case Split(a, b) => a.Some? && a.value < n && b.Some? && b.value < n
    case End => true
  }

  predicate Linked(states: seq<State>) {
    forall i :: 0 <= i < |states| ==> LinksWithin(states[i], |states|)
  }

  /** `s` has a link to `y`. */
  predicate Targets(s: State, y: StateId) {
    match s
    case Start(x) => x == Some(y)
    case Match(_, x) => x == Some(y)
    case Split(a, b) => a == Some(y) || b == Some(y)
    case End => false
  }

  /** No link leads into a `Start` state. */
  predicate NoStartTargets(states: seq<State>) {
    forall i, j :: 0 <= i < |states| && 0 <= j < |states| && Targets(states[i], j) ==> !states[j].Start?
  }

  /** Start and Match links point to a later state. */
  predicate ForwardAt(states: seq<State>, i: nat)
    requires i < |states|
  {
    (states[i].Start? || states[i].Match?) && states[i].next.Some? ==> i < states[i].next.value
  }

  predicate Forward(states: seq<State>) {
    forall i :: 0 <= i < |states| ==> ForwardAt(states, i)
  }

  /** The epsilon links of state `i` (Start and Split) lead to a state of lower rank. */
  predicate RankedAt(states: seq<State>, rank: seq<nat>, i: nat)
    requires |rank| == |states| && Linked(states) && i < |states|
  {
    match states[i]
    case Start(x) => rank[x.value] < rank[i]
    case Split(a, b) => rank[a.value] < rank[i] && rank[b.value] < rank[i]
    case _ => true
  }

  /** `rank` witnesses that the epsilon links have no cycle, so that following them ends. */
  predicate Ranked(states: seq<State>, rank: seq<nat>) {
    |rank| == |states| && Linked(states) &&
    forall i :: 0 <= i < |states| ==> RankedAt(states, rank, i)
  }

  /** The shape `NFA::from` and `+` produce: a Start first, the only End last, every
      link bound, and Start and Match links forward. */
  predicate WellFormed(states: seq<State>) {
    |states| >= 2 && states[0].Start? && states[|states| - 1].End? &&
    (forall i :: 0 <= i < |states| - 1 ==> !states[i].End?) &&
    Linked(states) && Forward(states)
  }
}
