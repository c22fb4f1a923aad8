/**
 * The tests of `impl Add for NFA`, and two arenas that mark the edges of what is proved
 * in general: a sum whose End state lies behind a Start state, a pattern whose epsilon
 * links have a cycle, and the empty string `gen` can produce.
 */
module NfaSumExamples {
  import opened Wrappers
  import opened NfaGraph
  import opened NfaClosure
  import opened NfaPaths
  import opened NfaBuild
  import opened NfaGen
  import opened NfaCompose
  import opened NfaBuildExamples
  import opened NfaExamples

  // ----- single steps of the simulation -----

  /** A step from an End state accepts. */
  lemma EndRun(states: seq<State>, x: StateId, s: string, rank: seq<nat>)
    requires Ranked(states, rank) && x < |states| && states[x].End?
    ensures Run(states, {x}, s, rank)
  {
    RunSingle(states, x, s, rank);
    assert Elems([x]) == {x};
  }

  /** A step from a matching state reads one character and moves on, or rejects. */
  lemma MatchRun(states: seq<State>, x: StateId, c: char, y: StateId, s: string, rank: seq<nat>)
    requires Ranked(states, rank) && x < |states| && states[x] == Match(Literal(c), Some(y))
    ensures y < |states|
    ensures Run(states, {x}, s, rank) <==> s != [] && s[0] == c && Run(states, {y}, s[1..], rank)
  {
    RunSingle(states, x, s, rank);
    assert Elems([x]) == {x};
    if s != [] {
      if s[0] == c {
        assert SuccSet(states, {x}, s[0]) == {y};
      } else {
        assert SuccSet(states, {x}, s[0]) == {};
        RunEmpty(states, s[1..], rank);
      }
    }
  }

  /** A Start state in front of a matching state is stepped over, except at the end of
      the input, where `parse_state` does not follow it. */
  lemma StartRun(states: seq<State>, x: StateId, y: StateId, s: string, rank: seq<nat>)
    requires Ranked(states, rank) && x < |states| && states[x] == Start(Some(y))
    requires y < |states| && states[y].Match?
    ensures Run(states, {x}, s, rank) <==> s != [] && Run(states, {y}, s, rank)
  {
    RunSingle(states, x, s, rank);
    RunSingle(states, y, s, rank);
    assert Elems([x]) == {x};
    if s != [] {
      assert Closure(states, x, rank) == [x, y];
      assert Elems([x, y]) == {x, y} && Elems([y]) == {y};
      assert SuccSet(states, {x, y}, s[0]) == SuccSet(states, {y}, s[0]);
    }
  }

  // ----- `ab` + `cd` -----

  function TwoChars(x: char, y: char): seq<State> {
    [Start(Some(1)), Match(Literal(x), Some(2)), Match(Literal(y), Some(3)), End]
  }

  function AbCd(): seq<State> {
    [Start(Some(1)), Match(Literal('a'), Some(2)), Match(Literal('b'), Some(3)),
     Start(Some(4)), Match(Literal('c'), Some(5)), Match(Literal('d'), Some(6)), End]
  }

  function AbCdRank(): seq<nat> {
    [1, 0, 0, 1, 0, 0, 0]
  }

  lemma AbCdRanked()
    ensures Ranked(AbCd(), AbCdRank())
  {
    assert RankedAt(AbCd(), AbCdRank(), 0);
    assert RankedAt(AbCd(), AbCdRank(), 3);
  }

  /** The sum of two two-character arenas: the left End is dropped and the right arena,
      its Start state included, follows shifted by three. */
  lemma SpliceTwoChars(lhs: seq<State>, rhs: seq<State>)
    requires lhs == TwoChars('a', 'b') && rhs == TwoChars('c', 'd')
    ensures AllBound(rhs) && Splice(lhs, rhs) == AbCd()
  {
    var init := lhs[..3];
    DropNoEnds(init);
    assert lhs[..|lhs| - 1] == init;
    assert DropEnds(lhs) == init;
    assert ShiftAll(rhs, 3) == [Start(Some(4)), Match(Literal('c'), Some(5)), Match(Literal('d'), Some(6)), End];
  }

  /** `ab` + `cd` accepts exactly the inputs that begin with "abcd". */
  lemma AbCdAccepted(s: string)
    ensures Ranked(AbCd(), AbCdRank())
    ensures Accepted(AbCd(), 0, s, AbCdRank()) <==>
      |s| >= 4 && s[0] == 'a' && s[1] == 'b' && s[2] == 'c' && s[3] == 'd'
  {
    var t, r := AbCd(), AbCdRank();
    AbCdRanked();
    StartRun(t, 0, 1, s, r);
    MatchRun(t, 1, 'a', 2, s, r);
    if s != [] && s[0] == 'a' {
      var s1 := s[1..];
      MatchRun(t, 2, 'b', 3, s1, r);
      if s1 != [] && s1[0] == 'b' {
        var s2 := s1[1..];
        StartRun(t, 3, 4, s2, r);
        MatchRun(t, 4, 'c', 5, s2, r);
        if s2 != [] && s2[0] == 'c' {
          var s3 := s2[1..];
          MatchRun(t, 5, 'd', 6, s3, r);
          if s3 != [] && s3[0] == 'd' {
            EndRun(t, 6, s3[1..], r);
          }
        }
      }
    }
  }

  /** The operands of the source's test of `+`. */
  lemma AddOverloadOperands()
    ensures FromPattern("ab") == Ok(TwoChars('a', 'b')) && FromPattern("cd") == Ok(TwoChars('c', 'd'))
  {
    FromTwo('a', 'b');
    FromTwo('c', 'd');
  }

  /** The source's test of `+`: the sum of those operands accepts "abcd". */
  lemma AddOverloadTest()
    ensures AllBound(TwoChars('c', 'd')) && Splice(TwoChars('a', 'b'), TwoChars('c', 'd')) == AbCd()
    ensures Ranked(AbCd(), AbCdRank()) && Accepted(AbCd(), 0, "abcd", AbCdRank())
  {
    AbCdAccepted("abcd");
    SpliceTwoChars(TwoChars('a', 'b'), TwoChars('c', 'd'));
  }

  // ----- `a*` + `b*` -----

  function StarOf(x: char): seq<State> {
    [Start(Some(2)), Match(Literal(x), Some(2)), Split(Some(1), Some(3)), End]
  }

  function StarSum(): seq<State> {
    [Start(Some(2)), Match(Literal('a'), Some(2)), Split(Some(1), Some(3)),
     Start(Some(5)), Match(Literal('b'), Some(5)), Split(Some(4), Some(6)), End]
  }

  function StarSumRank(): seq<nat> {
    [4, 0, 3, 2, 0, 1, 0]
  }

  lemma StarSumRanked()
    ensures Ranked(StarSum(), StarSumRank())
  {
    assert RankedAt(StarSum(), StarSumRank(), 0);
    assert RankedAt(StarSum(), StarSumRank(), 2);
    assert RankedAt(StarSum(), StarSumRank(), 3);
    assert RankedAt(StarSum(), StarSumRank(), 5);
  }

  lemma SpliceStars(lhs: seq<State>, rhs: seq<State>)
    requires lhs == StarOf('a') && rhs == StarOf('b')
    ensures AllBound(rhs) && Splice(lhs, rhs) == StarSum()
  {
    var init := lhs[..3];
    DropNoEnds(init);
    assert lhs[..|lhs| - 1] == init;
    assert DropEnds(lhs) == init;
    assert ShiftAll(rhs, 3) == [Start(Some(5)), Match(Literal('b'), Some(5)), Split(Some(4), Some(6)), End];
  }

  /** `a*` + `b*` accepts every non-empty input: the first step of the simulation already
      reaches End through both splits. */
  lemma StarSumAccepted(s: string)
    ensures Ranked(StarSum(), StarSumRank())
    ensures Accepted(StarSum(), 0, s, StarSumRank()) <==> s != []
  {
    var t, r := StarSum(), StarSumRank();
    StarSumRanked();
    if s != [] {
      RunSingle(t, 0, s, r);
      assert Closure(t, 0, r) == [0, 1, 3, 4, 6];
      assert 6 in Elems([0, 1, 3, 4, 6]);
    }
  }

  /** The operands of the source's second test of `+`. */
  lemma OverloadKleeneOperands()
    ensures FromPattern("a*") == Ok(StarOf('a')) && FromPattern("b*") == Ok(StarOf('b'))
  {
    FromStar('a');
    FromStar('b');
  }

  /** The source's second test of `+`: the sum of `a*` and `b*` accepts "a", "b", "ab"
      and "aabbb". */
  lemma OverloadKleeneTest()
    ensures AllBound(StarOf('b')) && Splice(StarOf('a'), StarOf('b')) == StarSum()
    ensures var t, r := StarSum(), StarSumRank();
      Ranked(t, r) && Accepted(t, 0, "a", r) && Accepted(t, 0, "b", r) &&
      Accepted(t, 0, "ab", r) && Accepted(t, 0, "aabbb", r)
  {
    StarSumAccepted("a");
    StarSumAccepted("b");
    StarSumAccepted("ab");
    StarSumAccepted("aabbb");
    SpliceStars(StarOf('a'), StarOf('b'));
  }

  // ----- `a` + `b*`: the last step does not follow Start -----

  function OneChar(x: char): seq<State> {
    [Start(Some(1)), Match(Literal(x), Some(2)), End]
  }

  function CharStar(): seq<State> {
    [Start(Some(1)), Match(Literal('a'), Some(2)),
     Start(Some(4)), Match(Literal('b'), Some(4)), Split(Some(3), Some(5)), End]
  }

  function CharStarRank(): seq<nat> {
    [1, 0, 2, 0, 1, 0]
  }

  lemma CharStarRanked()
    ensures Ranked(CharStar(), CharStarRank())
  {
    assert RankedAt(CharStar(), CharStarRank(), 0);
    assert RankedAt(CharStar(), CharStarRank(), 2);
    assert RankedAt(CharStar(), CharStarRank(), 4);
  }

  lemma SpliceCharStar(lhs: seq<State>, rhs: seq<State>)
    requires lhs == OneChar('a') && rhs == StarOf('b')
    ensures AllBound(rhs) && Splice(lhs, rhs) == CharStar()
  {
    var init := lhs[..2];
    DropNoEnds(init);
    assert lhs[..|lhs| - 1] == init;
    assert DropEnds(lhs) == init;
    assert ShiftAll(rhs, 2) == [Start(Some(4)), Match(Literal('b'), Some(4)), Split(Some(3), Some(5)), End];
  }

  /** `a` + `b*` accepts an input only once a second character follows the `a`: after
      the last character the simulation stops at the right operand's Start state. */
  lemma CharStarAccepted(s: string)
    ensures Ranked(CharStar(), CharStarRank())
    ensures Accepted(CharStar(), 0, s, CharStarRank()) <==> |s| >= 2 && s[0] == 'a'
  {
    var t, r := CharStar(), CharStarRank();
    CharStarRanked();
    StartRun(t, 0, 1, s, r);
    MatchRun(t, 1, 'a', 2, s, r);
    if s != [] && s[0] == 'a' {
      var s1 := s[1..];
      RunSingle(t, 2, s1, r);
      if s1 == [] {
        assert Elems([2]) == {2};
      } else {
        assert Closure(t, 2, r) == [2, 3, 5];
        assert 5 in Elems([2, 3, 5]);
      }
    }
  }

  /** The walk 0, 1, 2, 4, 5 of `a` + `b*` reads "a" and ends at End. */
  lemma CharStarTrace(t: seq<State>, p: seq<StateId>, w: string)
    requires t == CharStar() && p == [0, 1, 2, 4, 5] && w == "a"
    ensures Trace(t, p, w) && t[5].End?
  {
    assert Trace(t, p[4..], []);
    assert Trace(t, p[3..], []);
    assert Trace(t, p[2..], []);
    assert MatchEdge(t, 1, w[0], 2) && w[1..] == [];
    assert Trace(t, p[1..], w);
  }

  lemma CharStarReaches()
    ensures ReachesEnd(CharStar(), 0, "a")
  {
    var t, p := CharStar(), [0, 1, 2, 4, 5];
    CharStarTrace(t, p, "a");
    assert Reaches(t, 0, "a", 5);
  }

  /** The matching state of `a` links to the Start state of `b*`. */
  lemma CharStarLinksStart(t: seq<State>)
    requires t == CharStar()
    ensures !NoStartTargets(t)
  {
    assert Targets(t[1], 2) && t[2].Start?;
  }

  /** Yet "a" is read from Start to End of `a` + `b*`, as the language equation of `+`
      says it must be; the sum has a link into a Start state, which is exactly where the
      general equivalence of `accepts` and paths does not apply. */
  lemma CharStarReachesA()
    ensures AllBound(StarOf('b')) && Splice(OneChar('a'), StarOf('b')) == CharStar()
    ensures ReachesEnd(CharStar(), 0, "a") && !NoStartTargets(CharStar())
    ensures Ranked(CharStar(), CharStarRank()) && !Accepted(CharStar(), 0, "a", CharStarRank())
  {
    CharStarAccepted("a");
    CharStarReaches();
    CharStarLinksStart(CharStar());
    SpliceCharStar(OneChar('a'), StarOf('b'));
  }

  /** The operands of `a` + `b*`, as `NFA::from` builds them. */
  lemma CharStarOperands()
    ensures FromPattern("a") == Ok(OneChar('a')) && FromPattern("b*") == Ok(StarOf('b'))
  {
    FromChar('a');
    FromStar('b');
  }

  // ----- `(a*)*`: no rank -----

  /** The splits of `(a*)*` link to each other, so no rank orders its epsilon links and
      `parse_state` would never finish expanding them. */
  lemma StarStarUnranked(rank: seq<nat>)
    ensures FromPattern("(a*)*") == Ok(StarStar())
    ensures !Ranked(StarStar(), rank)
  {
    if |rank| == |StarStar()| {
      StarStarCycle(rank);
    }
    FromStarStar();
  }

  lemma StarStarCycle(rank: seq<nat>)
    requires |rank| == |StarStar()|
    ensures !(RankedAt(StarStar(), rank, 2) && RankedAt(StarStar(), rank, 3))
  {
  }

  // ----- `gen` on `a*` -----

  function StarRank(): seq<nat> {
    [2, 0, 1, 0]
  }

  /** The walks of `gen` on `a*` for the coin flips "leave" and "loop, then leave". */
  lemma StarWalks(t: seq<State>)
    requires t == StarOf('a')
    ensures Linked(t) && Forward(t)
    ensures Walk(t, 0, [false], []) == Some([]) && Walk(t, 0, [true, false], []) == Some("a")
  {
    assert ForwardAt(t, 0) && ForwardAt(t, 1) && ForwardAt(t, 2);
    assert Walk(t, 3, [], []) == Some([]);
    assert Walk(t, 2, [false], []) == Some([]);
    assert Walk(t, 1, [false], []) == Some(['a'] + []);
    assert Walk(t, 2, [true, false], []) == Walk(t, 1, [false], []);
    assert Walk(t, 0, [true, false], []) == Walk(t, 2, [true, false], []);
    assert ['a'] + [] == "a";
  }

  /** `a*` accepts "a" but not "", whatever follows the loop. */
  lemma StarAccepts(t: seq<State>, r: seq<nat>)
    requires t == StarOf('a') && r == StarRank()
    ensures Ranked(t, r) && !Accepted(t, 0, [], r) && Accepted(t, 0, "a", r)
  {
    assert RankedAt(t, r, 0) && RankedAt(t, r, 2);
    RunSingle(t, 0, "a", r);
    assert Closure(t, 0, r) == [0, 1, 3];
    assert 3 in Elems([0, 1, 3]);
  }

  /** `gen` on `a*` produces "" when its first coin flip leaves the loop, and `accepts`
      rejects "": the empty input is never accepted. */
  lemma GenEmptyStar()
    ensures FromPattern("a*") == Ok(StarOf('a'))
    ensures Linked(StarOf('a')) && Forward(StarOf('a'))
    ensures Walk(StarOf('a'), 0, [false], []) == Some([])
    ensures Walk(StarOf('a'), 0, [true, false], []) == Some("a")
    ensures Ranked(StarOf('a'), StarRank())
    ensures !Accepted(StarOf('a'), 0, [], StarRank()) && Accepted(StarOf('a'), 0, "a", StarRank())
  {
    StarWalks(StarOf('a'));
    StarAccepts(StarOf('a'), StarRank());
    FromStar('a');
  }
}
