/**
 * The `NFA` structure of `src/nfa.rs`: an arena of states and a start id, built by
 * mutation (`add_state`, `join`, `gen_fragment`), simulated (`accepts`, `parse_state`),
 * walked (`gen`) and spliced (`+`).  Each method is proved to compute the function
 * that specifies it in the other NFA modules.
 */
module NfaEngine {
  import opened Wrappers
  import opened NfaGraph
  import opened NfaClosure
  import opened NfaPaths
  import opened NfaBuild
  import opened NfaGen
  import opened NfaCompose
  import Tok = Tokenizing
  import Parsing

  /** One more than the largest rank among `ids`; 0 for no ids.  It bounds the depth
      of the recursion of `parse_state`. */
  ghost function Height(rank: seq<nat>, ids: seq<StateId>): (h: nat)
    requires forall k :: 0 <= k < |ids| ==> ids[k] < |rank|
    ensures forall k :: 0 <= k < |ids| ==> rank[ids[k]] < h
    decreases |ids|
  {
    if ids == [] then 0
    else
      var rest := Height(rank, ids[1..]);
      assert forall k :: 1 <= k < |ids| ==> ids[k] == ids[1..][k - 1];
      if rank[ids[0]] + 1 < rest then rest else rank[ids[0]] + 1
  }

  lemma ExpandAllStep(states: seq<State>, ids: seq<StateId>, k: nat, rank: seq<nat>)
    requires Ranked(states, rank) && ValidIds(states, ids) && k < |ids|
    ensures ValidIds(states, ids[..k]) && ValidIds(states, ids[..k + 1])
    ensures ExpandAll(states, ids[..k + 1], rank) == ExpandAll(states, ids[..k], rank) + ExpandOne(states, ids[k], rank)
  {
    assert ids[..k + 1][..k] == ids[..k];
  }

  lemma SeqAssoc<T>(a: seq<T>, b: seq<T>, c: seq<T>)
    ensures a + b + c == a + (b + c)
  {
  }

  lemma SeqAssoc4<T>(a: seq<T>, b: seq<T>, c: seq<T>, d: seq<T>)
    ensures a + b + c + d == a + (b + c + d)
  {
  }

  /** `parse_state` on a split: the expansion so far, then that of each link. */
  lemma SplitStep(states: seq<State>, ids: seq<StateId>, k: nat, rank: seq<nat>)
    requires Ranked(states, rank) && ValidIds(states, ids) && k < |ids| && states[ids[k]].Split?
    ensures var a, b := states[ids[k]].first.value, states[ids[k]].second.value;
      ValidIds(states, ids[..k]) && ValidIds(states, ids[..k + 1]) &&
      ValidIds(states, [a]) && ValidIds(states, [b]) &&
      Height(rank, [a]) < Height(rank, ids) && Height(rank, [b]) < Height(rank, ids) &&
      ExpandAll(states, ids[..k + 1], rank) ==
        ExpandAll(states, ids[..k], rank) + ExpandAll(states, [a], rank) + ExpandAll(states, [b], rank)
  {
    var t := ids[k];
    var a, b := states[t].first.value, states[t].second.value;
    ExpandAllStep(states, ids, k, rank);
    SplitLower(states, ids, k, rank);
    ExpandSplit(states, t, rank);
    ExpandAllSingle(states, a, rank);
    ExpandAllSingle(states, b, rank);
    SeqAssoc(ExpandAll(states, ids[..k], rank), ExpandOne(states, a, rank), ExpandOne(states, b, rank));
  }

  /** `parse_state` on any other state keeps it. */
  lemma OtherStep(states: seq<State>, ids: seq<StateId>, k: nat, rank: seq<nat>)
    requires Ranked(states, rank) && ValidIds(states, ids) && k < |ids| && !states[ids[k]].Split?
    ensures ValidIds(states, ids[..k]) && ValidIds(states, ids[..k + 1])
    ensures ExpandAll(states, ids[..k + 1], rank) == ExpandAll(states, ids[..k], rank) + [ids[k]]
  {
    ExpandAllStep(states, ids, k, rank);
  }

  lemma HeightOne(rank: seq<nat>, x: StateId)
    requires x < |rank|
    ensures Height(rank, [x]) == rank[x] + 1
  {
    assert [x][1..] == [];
  }

  /** Both links of a split among `ids` are lower than every rank among `ids`. */
  lemma SplitLower(states: seq<State>, ids: seq<StateId>, k: nat, rank: seq<nat>)
    requires Ranked(states, rank) && ValidIds(states, ids) && k < |ids| && states[ids[k]].Split?
    ensures Height(rank, [states[ids[k]].first.value]) < Height(rank, ids)
    ensures Height(rank, [states[ids[k]].second.value]) < Height(rank, ids)
  {
    var t := ids[k];
    assert RankedAt(states, rank, t);
    assert rank[t] < Height(rank, ids);
    HeightOne(rank, states[t].first.value);
    HeightOne(rank, states[t].second.value);
  }

  lemma ExpandSplit(states: seq<State>, t: StateId, rank: seq<nat>)
    requires Ranked(states, rank) && t < |states| && states[t].Split?
    ensures ExpandOne(states, t, rank) ==
        ExpandOne(states, states[t].first.value, rank) + ExpandOne(states, states[t].second.value, rank)
  {
  }

  lemma ExpandAllSingle(states: seq<State>, x: StateId, rank: seq<nat>)
    requires Ranked(states, rank) && x < |states|
    ensures ValidIds(states, [x])
    ensures ExpandAll(states, [x], rank) == ExpandOne(states, x, rank)
  {
    assert [x][..0] == [];
  }

  /** Popping a Start state from the queue of `accepts`: the state is visited and its
      link is expanded onto the queue, so the rest of the visit is the closure of its link. */
  lemma PopStart(states: seq<State>, current: seq<StateId>, rank: seq<nat>)
    requires Ranked(states, rank) && ValidIds(states, current) && current != [] && states[current[0]].Start?
    requires NoSplits(states, current)
    ensures var n := states[current[0]].next.value;
      var q := current[1..] + ExpandAll(states, [n], rank);
      n < |states| && ValidIds(states, [n]) && ValidIds(states, q) && NoSplits(states, q) &&
      Elems(ClosureAll(states, current, rank)) == {current[0]} + Elems(ClosureAll(states, q, rank)) &&
      |ClosureAll(states, q, rank)| < |ClosureAll(states, current, rank)|
  {
    var id, rest := current[0], current[1..];
    var n := states[id].next.value;
    ExpandAllSingle(states, n, rank);
    var e := ExpandAll(states, [n], rank);
    ClosureAllAppend(states, rest, e, rank);
    ClosureOfExpandOne(states, n, rank);
    assert ClosureAll(states, current, rank) == Closure(states, id, rank) + ClosureAll(states, rest, rank);
    assert Closure(states, id, rank) == [id] + Closure(states, n, rank);
  }

  /** Popping a Match or End state: it is visited and nothing is added to the queue. */
  lemma PopOther(states: seq<State>, current: seq<StateId>, rank: seq<nat>)
    requires Ranked(states, rank) && ValidIds(states, current) && current != []
    requires !states[current[0]].Start? && !states[current[0]].Split?
    ensures ValidIds(states, current[1..])
    ensures Elems(ClosureAll(states, current, rank)) == {current[0]} + Elems(ClosureAll(states, current[1..], rank))
    ensures |ClosureAll(states, current[1..], rank)| < |ClosureAll(states, current, rank)|
  {
    assert ClosureAll(states, current, rank) == Closure(states, current[0], rank) + ClosureAll(states, current[1..], rank);
  }

  /** After the last character `accepts` looks at the expansion of the frontier. */
  lemma FinalFrontier(states: seq<State>, current: seq<StateId>, nextStates: seq<StateId>, rank: seq<nat>)
    requires Ranked(states, rank) && ValidIds(states, nextStates) && current == []
    ensures InRange(states, Elems(current) + Elems(nextStates))
    ensures var q := current + ExpandAll(states, nextStates, rank);
      ValidIds(states, q) &&
      (Run(states, Elems(current) + Elems(nextStates), [], rank) <==>
        exists k :: 0 <= k < |q| && states[q[k]].End?)
  {
    ExpandAllElems(states, nextStates, rank);
    assert Elems(current) + Elems(nextStates) == Elems(nextStates);
    var q := current + ExpandAll(states, nextStates, rank);
    assert q == ExpandAll(states, nextStates, rank);
    if exists k :: 0 <= k < |q| && states[q[k]].End? {
      var k :| 0 <= k < |q| && states[q[k]].End?;
      assert q[k] in Elems(q);
    }
  }

  /** The state of the inner loop of `accepts` on the character `ch`: the states visited
      so far (`popped`), none of them End, and the queue still to visit (`current`) make up
      the closure `C` of the frontier, and `nextStates` holds the successors on `ch` of the
      visited states. */
  ghost predicate Visiting(states: seq<State>, rank: seq<nat>, ch: char, C: set<StateId>,
                           current: seq<StateId>, popped: seq<StateId>, nextStates: seq<StateId>)
    requires Ranked(states, rank)
  {
    ValidIds(states, current) && NoSplits(states, current) &&
    ValidIds(states, nextStates) && ValidIds(states, popped) &&
    InRange(states, Elems(popped)) &&
    Elems(popped) + Elems(ClosureAll(states, current, rank)) == C &&
    Elems(nextStates) == SuccSet(states, Elems(popped), ch) &&
    forall k :: 0 <= k < |popped| ==> !states[popped[k]].End?
  }

  lemma VisitStart(states: seq<State>, rank: seq<nat>, ch: char, C: set<StateId>,
                   current: seq<StateId>, popped: seq<StateId>, nextStates: seq<StateId>)
    requires Ranked(states, rank) && Visiting(states, rank, ch, C, current, popped, nextStates)
    requires current != [] && states[current[0]].Start?
    ensures var n := states[current[0]].next.value;
      var q := current[1..] + ExpandAll(states, [n], rank);
      n < |states| && ValidIds(states, [n]) && ValidIds(states, q) &&
      Visiting(states, rank, ch, C, q, popped + [current[0]], nextStates) &&
      |ClosureAll(states, q, rank)| < |ClosureAll(states, current, rank)|
  {
    var id := current[0];
    PopStart(states, current, rank);
    SuccSetAdd(states, Elems(popped), id, ch);
    assert Elems(popped + [id]) == Elems(popped) + {id};
  }

  lemma VisitMatch(states: seq<State>, rank: seq<nat>, ch: char, C: set<StateId>,
                   current: seq<StateId>, popped: seq<StateId>, nextStates: seq<StateId>)
    requires Ranked(states, rank) && Visiting(states, rank, ch, C, current, popped, nextStates)
    requires current != [] && states[current[0]].Match?
    ensures var s := states[current[0]];
      s.next.value < |states| &&
      Visiting(states, rank, ch, C, current[1..], popped + [current[0]],
               if Matches(s.on, ch) then nextStates + [s.next.value] else nextStates) &&
      |ClosureAll(states, current[1..], rank)| < |ClosureAll(states, current, rank)|
  {
    var id := current[0];
    PopOther(states, current, rank);
    SuccSetAdd(states, Elems(popped), id, ch);
    assert Elems(popped + [id]) == Elems(popped) + {id};
    assert Elems(nextStates + [states[id].next.value]) == Elems(nextStates) + {states[id].next.value};
  }

  /** Visiting an End state decides `accepts`. */
  lemma VisitEnd(states: seq<State>, rank: seq<nat>, ch: char, F: set<StateId>, s: string, i: nat,
                 current: seq<StateId>, popped: seq<StateId>, nextStates: seq<StateId>)
    requires Ranked(states, rank) && InRange(states, F) && i < |s| && s[i] == ch
    requires Visiting(states, rank, ch, ClosureSet(states, F, rank), current, popped, nextStates)
    requires current != [] && states[current[0]].End?
    ensures Run(states, F, s[i..], rank)
  {
    var C := ClosureSet(states, F, rank);
    PopOther(states, current, rank);
    assert current[0] in C;
    assert s[i..] != [];
  }

  /** One character step of `accepts` when no End was visited: the frontier moves to the
      successors of the visited states. */
  lemma RunStep(states: seq<State>, rank: seq<nat>, F: set<StateId>, s: string, i: nat,
                popped: seq<StateId>, nextStates: seq<StateId>)
    requires Ranked(states, rank) && InRange(states, F) && i < |s|
    requires Visiting(states, rank, s[i], ClosureSet(states, F, rank), [], popped, nextStates)
    ensures InRange(states, Elems([]) + Elems(nextStates))
    ensures Run(states, F, s[i..], rank) == Run(states, Elems([]) + Elems(nextStates), s[i + 1..], rank)
  {
    var C := ClosureSet(states, F, rank);
    assert ClosureAll(states, [], rank) == [];
    assert Elems(popped) == C;
    forall x | x in C
      ensures !states[x].End?
    {
      assert x in popped;
    }
    assert Elems([]) + Elems(nextStates) == SuccSet(states, C, s[i]);
    assert s[i..][0] == s[i] && s[i..][1..] == s[i + 1..];
  }

  /** `gen`'s partial string in front of the rest of the walk. */
  function Prepend(prefix: string, rest: Option<string>): Option<string> {
    if rest.None? then None else Some(prefix + rest.value)
  }

  lemma PrependEmpty(rest: Option<string>)
    ensures Prepend([], rest) == rest
  {
    if rest.Some? {
      assert [] + rest.value == rest.value;
    }
  }

  /** Reading one more character moves it from the rest of the walk to the prefix. */
  lemma PrependCons(prefix: string, ch: char, rest: Option<string>)
    ensures Prepend(prefix, if rest.None? then None else Some([ch] + rest.value)) == Prepend(prefix + [ch], rest)
  {
    if rest.Some? {
      assert prefix + ([ch] + rest.value) == prefix + [ch] + rest.value;
    }
  }

  class Nfa {
    var start: StateId
    var states: seq<State>

    /** `NFA::new`: no states, start 0. */
    constructor ()
      ensures states == [] && start == 0
    {
      states := [];
      start := 0;
    }

    /** `add_state`: appends `s` and returns its index, the old length. */
    method AddState(s: State) returns (id: StateId)
      modifies this
      ensures id == |old(states)| && states == old(states) + [s]
      ensures states[id] == s && states[..id] == old(states)
      ensures start == old(start)
    {
      id := |states|;
      states := states + [s];
    }

    /** `join`: binds the loose end of state `from` to `to`; nothing else changes. */
    method Join(from: StateId, to: StateId)
      requires from < |states|
      modifies this
      ensures states == NfaGraph.Join(old(states), from, to) && start == old(start)
    {
      states := states[from := Patch(states[from], to)];
    }

    /** `join_fragment`: joins every loose end of `frag`, in order, to `to`. */
    method JoinFragment(frag: Fragment, to: StateId)
      requires ValidIds(states, frag.ends)
      modifies this
      ensures states == JoinAll(old(states), frag.ends, to) && start == old(start)
    {
      for k := 0 to |frag.ends|
        invariant |states| == |old(states)| && start == old(start)
        invariant states == JoinAll(old(states), frag.ends[..k], to)
      {
        assert frag.ends[..k + 1][..k] == frag.ends[..k];
        Join(frag.ends[k], to);
      }
      assert frag.ends[..|frag.ends|] == frag.ends;
    }

    /** `gen_fragment`: appends the states of `ast` to the arena and returns their fragment. */
    method GenFragment(ast: Parsing.AST) returns (frag: Fragment)
      modifies this
      ensures Compiled(states, frag) == Compile(ast, old(states)) && start == old(start)
      decreases ast
    {
      match ast {
        case AnyChar =>
          var state := AddState(Match(Any, None));
          frag := Fragment(state, [state]);
        case Char(c) =>
          var state := AddState(Match(Literal(c), None));
          frag := Fragment(state, [state]);
        case Catenation(lhs, rhs) =>
          var left := GenFragment(lhs);
          var right := GenFragment(rhs);
          JoinFragment(left, right.start);
          frag := Fragment(left.start, right.ends);
        case Alternation(lhs, rhs) =>
          var left := GenFragment(lhs);
          var right := GenFragment(rhs);
          var split := AddState(Split(Some(left.start), Some(right.start)));
          frag := Fragment(split, left.ends + right.ends);
        case Closure(e) =>
          var body := GenFragment(e);
          var split := AddState(Split(Some(body.start), None));
          JoinFragment(body, split);
          frag := Fragment(split, [split]);
        case OneOrMore(e) =>
          var body := GenFragment(e);
          var split := AddState(Split(Some(body.start), None));
          JoinFragment(body, split);
          frag := Fragment(body.start, [split]);
      }
    }

    /** `NFA::from`: parses the pattern and builds its NFA; the parse error otherwise. */
    static method From(pattern: string) returns (r: Result<Nfa, Parsing.ParseError>)
      ensures r.Ok? <==> FromPattern(pattern).Ok?
      ensures r.Ok? ==> fresh(r.value) && r.value.states == FromPattern(pattern).value && r.value.start == 0
      ensures r.Err? ==> r.error == FromPattern(pattern).error
    {
      var nfa := new Nfa();
      var s := nfa.AddState(Start(None));
      nfa.start := s;
      var tokenizer := new Tok.Tokenizer(pattern);
      var parsed := Parsing.Parser.Parse(tokenizer);
      if parsed.Err? {
        return Err(parsed.error);
      }
      var ast := parsed.value;
      var body := nfa.GenFragment(ast);
      nfa.Join(nfa.start, body.start);
      var end := nfa.AddState(End);
      nfa.JoinFragment(body, end);
      r := Ok(nfa);
    }

    /** `parse_state`: appends the expansion of `nextStates` to `current` (splits are
        replaced by what their links expand to, left first) and empties `nextStates`. */
    method ParseState(current: seq<StateId>, nextStates: seq<StateId>, ghost rank: seq<nat>)
      returns (current': seq<StateId>, nextStates': seq<StateId>)
      requires Ranked(states, rank) && ValidIds(states, nextStates)
      ensures current' == current + ExpandAll(states, nextStates, rank) && nextStates' == []
      decreases Height(rank, nextStates)
    {
      current' := current;
      for k := 0 to |nextStates|
        invariant current' == current + ExpandAll(states, nextStates[..k], rank)
      {
        var id := nextStates[k];
        if states[id].Split? {
          var a, b := states[id].first.value, states[id].second.value;
          SplitStep(states, nextStates, k, rank);
          ghost var done := ExpandAll(states, nextStates[..k], rank);
          var left, emptied := ParseState(current', [a], rank);
          current', emptied := ParseState(left, [b], rank);
          SeqAssoc4(current, done, ExpandAll(states, [a], rank), ExpandAll(states, [b], rank));
        } else {
          OtherStep(states, nextStates, k, rank);
          SeqAssoc(current, ExpandAll(states, nextStates[..k], rank), [id]);
          current' := current' + [id];
        }
      }
      assert nextStates[..|nextStates|] == nextStates;
      nextStates' := [];
    }

    /** `accepts`: simulates the NFA on `input`.  The rank witnesses that the simulation
        ends; the start state is not a split (it is a Start state in every NFA `from`
        and `+` build). */
    method Accepts(input: string, ghost rank: seq<nat>) returns (b: bool)
      requires Ranked(states, rank) && start < |states| && !states[start].Split?
      ensures b == Accepted(states, start, input, rank)
    {
      var current: seq<StateId> := [start];
      var nextStates: seq<StateId> := [];
      var i := 0;
      assert Elems(current) + Elems(nextStates) == {start};
      assert input[0..] == input;
      while i < |input|
        invariant i <= |input|
        invariant ValidIds(states, current) && ValidIds(states, nextStates)
        invariant i == 0 ==> current == [start] && nextStates == []
        invariant i > 0 ==> current == []
        invariant InRange(states, Elems(current) + Elems(nextStates))
        invariant input != [] ==>
          Accepted(states, start, input, rank) == Run(states, Elems(current) + Elems(nextStates), input[i..], rank)
      {
        var ch := input[i];
        ghost var F := Elems(current) + Elems(nextStates);
        QueueClosure(states, current, nextStates, rank);
        current, nextStates := ParseState(current, nextStates, rank);
        ghost var C := ClosureSet(states, F, rank);
        ghost var popped: seq<StateId> := [];
        while current != []
          invariant Visiting(states, rank, ch, C, current, popped, nextStates)
          decreases |ClosureAll(states, current, rank)|
        {
          var id := current[0];
          if states[id].Start? {
            VisitStart(states, rank, ch, C, current, popped, nextStates);
            var emptied;
            current, emptied := ParseState(current[1..], [states[id].next.value], rank);
          } else if states[id].Match? {
            VisitMatch(states, rank, ch, C, current, popped, nextStates);
            current := current[1..];
            match states[id].on {
              case Literal(c) =>
                if c == ch {
                  nextStates := nextStates + [states[id].next.value];
                }
              case Any =>
                nextStates := nextStates + [states[id].next.value];
            }
          } else if states[id].End? {
            VisitEnd(states, rank, ch, F, input, i, current, popped, nextStates);
            return true;
          }
          popped := popped + [id];
        }
        RunStep(states, rank, F, input, i, popped, nextStates);
        i := i + 1;
      }
      // the final look at the frontier
      ghost var F := Elems(current) + Elems(nextStates);
      if input != [] {
        FinalFrontier(states, current, nextStates, rank);
        assert input[i..] == [];
      }
      var emptied;
      current, emptied := ParseState(current, nextStates, rank);
      if input == [] {
        assert ExpandAll(states, [], rank) == [];
        assert current == [start];
      }
      b := AnyEnd(current);
    }

    /** The last loop of `accepts`: pops the ids one by one and answers true at the first
        End state. */
    method AnyEnd(ids: seq<StateId>) returns (b: bool)
      requires ValidIds(states, ids)
      ensures b <==> exists k :: 0 <= k < |ids| && states[ids[k]].End?
    {
      var current := ids;
      while current != []
        invariant ValidIds(states, current)
        invariant (exists k :: 0 <= k < |ids| && states[ids[k]].End?) <==>
                  exists k :: 0 <= k < |current| && states[current[k]].End?
      {
        var id := current[0];
        current := current[1..];
        if states[id].End? {
          return true;
        }
      }
      return false;
    }

    /** `gen`: walks from the start state to End, reading the label of each Match state
        it passes; `choices` stands in for the coin flips at splits and `letters` for the
        random alphanumeric characters drawn for `.`.  No result when the draws run out. */
    method Gen(choices: seq<bool>, letters: seq<char>) returns (r: Option<string>)
      requires Linked(states) && Forward(states) && start < |states|
      ensures r == Walk(states, start, choices, letters)
    {
      var genStr: string := [];
      var nextStates: seq<StateId> := [start];
      var cs, ls := choices, letters;
      PrependEmpty(Walk(states, start, choices, letters));
      while nextStates != []
        invariant |nextStates| == 1 && nextStates[0] < |states|
        invariant Walk(states, start, choices, letters) == Prepend(genStr, Walk(states, nextStates[0], cs, ls))
        decreases |cs|, |states| - nextStates[0]
      {
        var cur := nextStates[0];
        assert ForwardAt(states, cur);
        match states[cur] {
          case Start(id) =>
            nextStates := nextStates + [id.value];
          case Match(on, id) =>
            nextStates := nextStates + [id.value];
            match on {
              case Literal(c) =>
                PrependCons(genStr, c, Walk(states, id.value, cs, ls));
                genStr := genStr + [c];
              case Any =>
                if ls == [] {
                  return None;
                }
                PrependCons(genStr, ls[0], Walk(states, id.value, cs, ls[1..]));
                genStr := genStr + [ls[0]];
                ls := ls[1..];
            }
          case Split(id1, id2) =>
            if cs == [] {
              return None;
            }
            var path := cs[0];
            cs := cs[1..];
            if path {
              nextStates := nextStates + [id1.value];
            } else {
              nextStates := nextStates + [id2.value];
            }
          case End =>
            assert genStr + [] == genStr;
            break;
        }
        nextStates := nextStates[1..];
      }
      r := Some(genStr);
    }

    /** `lhs + rhs`: the left arena without its End states, then the right arena with
        every link moved past them; the start state is state 0. */
    static method Add(lhs: Nfa, rhs: Nfa) returns (sum: Nfa)
      requires AllBound(rhs.states)
      ensures fresh(sum) && sum.states == Splice(lhs.states, rhs.states) && sum.start == 0
    {
      var addedStates: seq<State> := [];
      for k := 0 to |lhs.states|
        invariant addedStates == DropEnds(lhs.states[..k])
      {
        assert lhs.states[..k + 1][..k] == lhs.states[..k];
        var state := lhs.states[k];
        match state {
          case Start(id) => addedStates := addedStates + [Start(id)];
          case Match(c, id) => addedStates := addedStates + [Match(c, id)];
          case Split(id1, id2) => addedStates := addedStates + [Split(id1, id2)];
          case End =>
        }
      }
      assert lhs.states[..|lhs.states|] == lhs.states;
      var endId := |addedStates|;
      for k := 0 to |rhs.states|
        invariant addedStates == DropEnds(lhs.states) + ShiftAll(rhs.states[..k], endId)
      {
        assert rhs.states[..k + 1][..k] == rhs.states[..k];
        match rhs.states[k] {
          case Start(id) =>
            addedStates := addedStates + [Start(Some(id.value + endId))];
          case Match(c, id) =>
            addedStates := addedStates + [Match(c, Some(id.value + endId))];
          case Split(id1, id2) =>
            addedStates := addedStates + [Split(Some(id1.value + endId), Some(id2.value + endId))];
          case End =>
            addedStates := addedStates + [End];
        }
      }
      assert rhs.states[..|rhs.states|] == rhs.states;
      sum := new Nfa();
      sum.states := addedStates;
      sum.start := 0;
    }
  }

  // ----- what the pieces add up to -----

  /** For an NFA built by `from`, `accepts` answers exactly whether some prefix of a
      non-empty input leads from Start to End. */
  lemma FromAccepts(pattern: string, rank: seq<nat>, s: string)
    requires FromPattern(pattern).Ok? && Ranked(FromPattern(pattern).value, rank)
    ensures var t := FromPattern(pattern).value;
      Accepted(t, 0, s, rank) <==> s != [] && exists i :: 0 <= i <= |s| && ReachesEnd(t, 0, s[..i])
  {
    BuildWellFormed(Parsing.ParsePattern(pattern).value);
    AcceptedIff(FromPattern(pattern).value, 0, s, rank);
  }

  /** For an NFA built by `from`, `accepts` accepts every non-empty string `gen` produces. */
  lemma FromGenAccepted(pattern: string, rank: seq<nat>, choices: seq<bool>, letters: seq<char>)
    requires FromPattern(pattern).Ok? && Ranked(FromPattern(pattern).value, rank)
    ensures var t := FromPattern(pattern).value;
      Forward(t) && var w := Walk(t, 0, choices, letters);
      w.Some? && w.value != [] ==> Accepted(t, 0, w.value, rank)
  {
    var t := FromPattern(pattern).value;
    BuildWellFormed(Parsing.ParsePattern(pattern).value);
    var w := Walk(t, 0, choices, letters);
    if w.Some? && w.value != [] {
      GenAccepted(t, 0, rank, choices, letters);
    }
  }
}
