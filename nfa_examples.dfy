/**
 * The verdicts of `NFA::accepts` in the NFA's unit tests, evaluated on the arenas
 * `NFA::from` builds for the tested patterns.
 */
module NfaExamples {
  import opened Wrappers
  import opened NfaGraph
  import opened NfaClosure
  import opened NfaBuild
  import opened NfaBuildExamples

  // ----- evaluating the simulation one character at a time -----

  lemma ClosureSingle(states: seq<State>, x: StateId, rank: seq<nat>)
    requires Ranked(states, rank) && x < |states|
    ensures ClosureSet(states, {x}, rank) == Elems(Closure(states, x, rank))
  {
  }

  lemma ExpandSingle(states: seq<State>, x: StateId, rank: seq<nat>)
    requires Ranked(states, rank) && x < |states|
    ensures ExpandSet(states, {x}, rank) == Elems(ExpandOne(states, x, rank))
  {
  }

  /** One step of `accepts` from a single state: the states it visits are the closure of
      that state. */
  lemma RunSingle(states: seq<State>, x: StateId, s: string, rank: seq<nat>)
    requires Ranked(states, rank) && x < |states|
    ensures Run(states, {x}, s, rank) ==
      if s == [] then HasEnd(states, Elems(ExpandOne(states, x, rank)))
      else HasEnd(states, Elems(Closure(states, x, rank))) ||
           Run(states, SuccSet(states, Elems(Closure(states, x, rank)), s[0]), s[1..], rank)
  {
    ClosureSingle(states, x, rank);
    ExpandSingle(states, x, rank);
  }

  /** A step of `accepts` from a single state that visits no End state: the input's
      first character takes the simulation to the frontier `G`. */
  lemma RunThrough(states: seq<State>, x: StateId, s: string, C: set<StateId>, G: set<StateId>, rank: seq<nat>)
    requires Ranked(states, rank) && x < |states| && s != [] && InRange(states, C)
    requires Elems(Closure(states, x, rank)) == C && !HasEnd(states, C) && SuccSet(states, C, s[0]) == G
    ensures InRange(states, G) && (Run(states, {x}, s, rank) <==> Run(states, G, s[1..], rank))
  {
    RunSingle(states, x, s, rank);
  }

  /** The empty frontier accepts nothing. */
  lemma {:induction false} RunEmpty(states: seq<State>, s: string, rank: seq<nat>)
    requires Ranked(states, rank)
    ensures !Run(states, {}, s, rank)
    decreases |s|
  {
    assert ExpandSet(states, {}, rank) == {};
    if s != [] {
      assert ClosureSet(states, {}, rank) == {};
      assert SuccSet(states, {}, s[0]) == {};
      RunEmpty(states, s[1..], rank);
    }
  }

  // ----- `.....` -----

  function DotsRank(): seq<nat> {
    [1, 0, 0, 0, 0, 0, 0]
  }

  lemma DotsRanked()
    ensures Ranked(Dots(), DotsRank())
  {
    assert RankedAt(Dots(), DotsRank(), 0);
  }

  /** From the `i`-th matching state the simulation accepts once `6 - i` more characters
      are read, End being state 6. */
  lemma {:induction false} DotsRun(i: nat, s: string)
    requires 1 <= i <= 6
    ensures Ranked(Dots(), DotsRank()) && (Run(Dots(), {i}, s, DotsRank()) <==> |s| >= 6 - i)
    decreases 6 - i
  {
    var t, r := Dots(), DotsRank();
    DotsRanked();
    RunSingle(t, i, s, r);
    if i < 6 && s != [] {
      assert Elems([i]) == {i};
      assert SuccSet(t, {i}, s[0]) == {i + 1};
      DotsRun(i + 1, s[1..]);
    }
  }

  /** `.....` accepts exactly the inputs of at least five characters: the simulation
      stops at End whatever follows. */
  lemma DotsAccepted(s: string)
    ensures Ranked(Dots(), DotsRank()) && (Accepted(Dots(), 0, s, DotsRank()) <==> |s| >= 5)
  {
    var t, r := Dots(), DotsRank();
    DotsRanked();
    if s != [] {
      RunSingle(t, 0, s, r);
      assert Closure(t, 0, r) == [0, 1];
      assert Elems([0, 1]) == {0, 1};
      assert !HasEnd(t, {0, 1});
      assert SuccSet(t, {0, 1}, s[0]) == {2};
      DotsRun(2, s[1..]);
    }
  }

  /** The source's test of `.....`: "yikes", "zoned" and "alimony" are accepted,
      "yay" and "oreo" are not. */
  lemma DotsTests()
    ensures FromPattern(".....") == Ok(Dots())
    ensures Ranked(Dots(), DotsRank())
    ensures var t, r := Dots(), DotsRank();
      Accepted(t, 0, "yikes", r) && Accepted(t, 0, "zoned", r) && Accepted(t, 0, "alimony", r) &&
      !Accepted(t, 0, "yay", r) && !Accepted(t, 0, "oreo", r)
  {
    DotsAccepted("yikes");
    DotsAccepted("zoned");
    DotsAccepted("alimony");
    DotsAccepted("yay");
    DotsAccepted("oreo");
    FromDots();
  }

  // ----- `hel+o` -----

  function HelloRank(): seq<nat> {
    [1, 0, 0, 0, 1, 0, 0]
  }

  lemma HelloRanked()
    ensures Ranked(Hello(), HelloRank())
  {
    assert RankedAt(Hello(), HelloRank(), 0);
    assert RankedAt(Hello(), HelloRank(), 4);
  }

  /** After the first `l`, any further run of `l` followed by `o` is accepted. */
  lemma {:induction false} HelloLoop(s: string)
    requires |s| > 0 && s[|s| - 1] == 'o' && forall k :: 0 <= k < |s| - 1 ==> s[k] == 'l'
    ensures Ranked(Hello(), HelloRank()) && Run(Hello(), {4}, s, HelloRank())
    decreases |s|
  {
    var t, r := Hello(), HelloRank();
    HelloRanked();
    RunSingle(t, 4, s, r);
    assert Closure(t, 4, r) == [3, 5];
    assert Elems([3, 5]) == {3, 5};
    if |s| == 1 {
      assert SuccSet(t, {3, 5}, 'o') == {6};
      RunSingle(t, 6, [], r);
    } else {
      assert SuccSet(t, {3, 5}, 'l') == {4};
      HelloLoop(s[1..]);
    }
  }

  /** `hel+o` accepts "he", then one or more `l`, then `o`. */
  lemma HelloAccepts(s: string)
    requires |s| >= 4 && s[0] == 'h' && s[1] == 'e' && s[2] == 'l' && s[|s| - 1] == 'o'
    requires forall k :: 3 <= k < |s| - 1 ==> s[k] == 'l'
    ensures Ranked(Hello(), HelloRank()) && Accepted(Hello(), 0, s, HelloRank())
  {
    var t, r := Hello(), HelloRank();
    HelloRanked();
    var s1 := s[1..];
    var s2 := s1[1..];
    var s3 := s2[1..];
    assert Closure(t, 0, r) == [0, 1] && Elems([0, 1]) == {0, 1};
    assert Closure(t, 2, r) == [2] && Elems([2]) == {2};
    assert Closure(t, 3, r) == [3] && Elems([3]) == {3};
    RunThrough(t, 0, s, {0, 1}, {2}, r);
    RunThrough(t, 2, s1, {2}, {3}, r);
    RunThrough(t, 3, s2, {3}, {4}, r);
    HelloLoop(s3);
  }

  /** `hel+o` rejects "he" when no `l` follows. */
  lemma HelloRejects(s: string)
    requires |s| >= 2 && s[0] == 'h' && s[1] == 'e' && (|s| == 2 || s[2] != 'l')
    ensures Ranked(Hello(), HelloRank()) && !Accepted(Hello(), 0, s, HelloRank())
  {
    var t, r := Hello(), HelloRank();
    HelloRanked();
    var s1 := s[1..];
    var s2 := s1[1..];
    assert Closure(t, 0, r) == [0, 1] && Elems([0, 1]) == {0, 1};
    assert Closure(t, 2, r) == [2] && Elems([2]) == {2};
    assert Closure(t, 3, r) == [3] && Elems([3]) == {3};
    RunThrough(t, 0, s, {0, 1}, {2}, r);
    RunThrough(t, 2, s1, {2}, {3}, r);
    if s2 == [] {
      RunSingle(t, 3, s2, r);
      assert ExpandOne(t, 3, r) == [3];
    } else {
      RunThrough(t, 3, s2, {3}, {}, r);
      RunEmpty(t, s2[1..], r);
    }
  }

  /** The source's test of `hel+o`: "helllllllllo" is accepted and "heo" is not. */
  lemma HelloTests()
    ensures FromPattern("hel+o") == Ok(Hello())
    ensures Ranked(Hello(), HelloRank())
    ensures Accepted(Hello(), 0, "helllllllllo", HelloRank()) && !Accepted(Hello(), 0, "heo", HelloRank())
  {
    HelloAccepts("helllllllllo");
    HelloRejects("heo");
    FromHello();
  }
}
