/**
 * Thompson-style construction of the NFA from a syntax tree (`gen_fragment`) and the
 * whole `NFA::from` pipeline, as functions on the state arena.
 */
module NfaBuild {
  import opened Wrappers
  import opened NfaGraph
  import opened Parsing

  /** The arena after compiling a subtree, and the fragment that subtree became. */
  datatype Compiled = Compiled(states: seq<State>, frag: Fragment)

  /** `gen_fragment(ast)` run on the arena `s`: new states are only appended, and only
      the new states are joined. */
  function Compile(ast: AST, s: seq<State>): (r: Compiled)
    ensures |r.states| > |s| && r.states[..|s|] == s
    ensures |s| <= r.frag.start < |r.states|
    ensures forall k :: 0 <= k < |r.frag.ends| ==> |s| <= r.frag.ends[k] < |r.states|
    decreases ast
  {
    match ast
    case AnyChar =>
      Compiled(s + [Match(Any, None)], Fragment(|s|, [|s|]))
    case Char(c) =>
      Compiled(s + [Match(Literal(c), None)], Fragment(|s|, [|s|]))
    case Catenation(lhs, rhs) =>
      var left := Compile(lhs, s);
      var right := Compile(rhs, left.states);
      assert right.states[..|s|] == s by {
        assert right.states[..|s|] == right.states[..|left.states|][..|s|];
      }
      Compiled(JoinAll(right.states, left.frag.ends, right.frag.start), Fragment(left.frag.start, right.frag.ends))
    case Alternation(lhs, rhs) =>
      var left := Compile(lhs, s);
      var right := Compile(rhs, left.states);
      assert right.states[..|s|] == s by {
        assert right.states[..|s|] == right.states[..|left.states|][..|s|];
      }
      var split := |right.states|;
      Compiled(right.states + [Split(Some(left.frag.start), Some(right.frag.start))],
               Fragment(split, left.frag.ends + right.frag.ends))
    case Closure(e) =>
      var body := Compile(e, s);
      var split := |body.states|;
      Compiled(JoinAll(body.states + [Split(Some(body.frag.start), None)], body.frag.ends, split),
               Fragment(split, [split]))
    case OneOrMore(e) =>
      var body := Compile(e, s);
      var split := |body.states|;
      Compiled(JoinAll(body.states + [Split(Some(body.frag.start), None)], body.frag.ends, split),
               Fragment(body.frag.start, [split]))
  }

  /** The pipeline of `NFA::from` after parsing: a Start state, the body joined to it,
      an End state, and the body's loose ends joined to End. */
  function Build(ast: AST): seq<State> {
    var body := Compile(ast, [Start(None)]);
    var joined := Join(body.states, 0, body.frag.start);
    JoinAll(joined + [End], body.frag.ends, |joined|)
  }

  /** `NFA::from`: the states of the NFA for a pattern, or the parse error.  The start
      state is always state 0. */
  function FromPattern(pattern: string): Result<seq<State>, ParseError> {
    match ParsePattern(pattern)
    case Ok(ast) => Ok(Build(ast))
    case Err(e) => Err(e)
  }

  // ----- the shape of a compiled fragment -----

  /** State `i` of a fragment occupying `[lo, |t|)`: a Match or a Split whose links stay
      inside the fragment, Match links pointing forward; a loose end has its last link
      unbound and its other links bound. */
  predicate Shaped(t: seq<State>, lo: nat, i: nat, loose: bool)
    requires i < |t|
  {
    match t[i]
    case Match(_, n) => if loose then n.None? else n.Some? && i < n.value < |t|
    case Split(a, b) =>
      a.Some? && lo <= a.value < |t| && (if loose then b.None? else b.Some? && lo <= b.value < |t|)
    case _ => false
  }

  /** `f` is a fragment occupying `[lo, |t|)` whose loose ends are exactly `f.ends`. */
  predicate FragShape(t: seq<State>, lo: nat, f: Fragment) {
    lo <= f.start < |t| &&
    (forall k :: 0 <= k < |f.ends| ==> lo <= f.ends[k] < |t|) &&
    (forall i :: lo <= i < |t| ==> Shaped(t, lo, i, i in f.ends))
  }

  /** Appending states or lowering the fragment's floor keeps a state's shape. */
  lemma ShapedWiden(t: seq<State>, t': seq<State>, lo: nat, lo': nat, i: nat, loose: bool)
    requires i < |t| <= |t'| && t'[..|t|] == t && lo' <= lo
    requires Shaped(t, lo, i, loose)
    ensures Shaped(t', lo', i, loose)
  {
    assert t'[i] == t[i];
  }

  /** Joining a loose end to a later state inside the fragment ties it off. */
  lemma ShapedPatch(t: seq<State>, lo: nat, i: nat, to: StateId)
    requires lo <= i < |t| && Shaped(t, lo, i, true) && i < to < |t|
    ensures Shaped(t[i := Patch(t[i], to)], lo, i, false)
  {
  }

  lemma CatenationShape(s: seq<State>, left: Compiled, right: Compiled)
    requires |s| < |left.states| < |right.states| && right.states[..|left.states|] == left.states
    requires FragShape(left.states, |s|, left.frag) && FragShape(right.states, |left.states|, right.frag)
    ensures ValidIds(right.states, left.frag.ends)
    ensures FragShape(JoinAll(right.states, left.frag.ends, right.frag.start), |s|, Fragment(left.frag.start, right.frag.ends))
  {
    var lo, m := |s|, |left.states|;
    var t := JoinAll(right.states, left.frag.ends, right.frag.start);
    forall i | lo <= i < |t|
      ensures Shaped(t, lo, i, i in right.frag.ends)
    {
      if i < m {
        assert right.states[i] == left.states[i];
        ShapedWiden(left.states, right.states, lo, lo, i, i in left.frag.ends);
        if i in left.frag.ends {
          ShapedPatch(right.states, lo, i, right.frag.start);
          assert t[i] == right.states[i := Patch(right.states[i], right.frag.start)][i];
        }
      } else {
        ShapedWiden(right.states, right.states, m, lo, i, i in right.frag.ends);
      }
    }
  }

  lemma AlternationShape(s: seq<State>, left: Compiled, right: Compiled)
    requires |s| < |left.states| < |right.states| && right.states[..|left.states|] == left.states
    requires FragShape(left.states, |s|, left.frag) && FragShape(right.states, |left.states|, right.frag)
    ensures FragShape(right.states + [Split(Some(left.frag.start), Some(right.frag.start))], |s|,
                      Fragment(|right.states|, left.frag.ends + right.frag.ends))
  {
    var lo, m := |s|, |left.states|;
    var t := right.states + [Split(Some(left.frag.start), Some(right.frag.start))];
    var ends := left.frag.ends + right.frag.ends;
    assert t[..|right.states|] == right.states;
    forall i | lo <= i < |t|
      ensures Shaped(t, lo, i, i in ends)
    {
      if i < m {
        assert right.states[i] == left.states[i];
        ShapedWiden(left.states, t, lo, lo, i, i in left.frag.ends);
      } else if i < |right.states| {
        ShapedWiden(right.states, t, m, lo, i, i in right.frag.ends);
      }
    }
  }

  /** The shared part of Closure and OneOrMore: a split after the body, the body's
      loose ends joined to it, and the split's second link left loose. */
  lemma StarShape(s: seq<State>, body: Compiled, start: StateId)
    requires |s| < |body.states| && FragShape(body.states, |s|, body.frag)
    requires start == |body.states| || start == body.frag.start
    ensures ValidIds(body.states + [Split(Some(body.frag.start), None)], body.frag.ends)
    ensures FragShape(JoinAll(body.states + [Split(Some(body.frag.start), None)], body.frag.ends, |body.states|), |s|,
                      Fragment(start, [|body.states|]))
  {
    var lo, n := |s|, |body.states|;
    var u := body.states + [Split(Some(body.frag.start), None)];
    var t := JoinAll(u, body.frag.ends, n);
    assert u[..n] == body.states;
    forall i | lo <= i < |t|
      ensures Shaped(t, lo, i, i in [n])
    {
      if i < n {
        ShapedWiden(body.states, u, lo, lo, i, i in body.frag.ends);
        if i in body.frag.ends {
          ShapedPatch(u, lo, i, n);
          assert t[i] == u[i := Patch(u[i], n)][i];
        }
      }
    }
  }

  lemma {:induction false} CompileShape(ast: AST, s: seq<State>)
    ensures FragShape(Compile(ast, s).states, |s|, Compile(ast, s).frag)
    decreases ast
  {
    match ast
    case AnyChar =>
    case Char(c) =>
    case Catenation(lhs, rhs) =>
      var left := Compile(lhs, s);
      CompileShape(lhs, s);
      CompileShape(rhs, left.states);
      CatenationShape(s, left, Compile(rhs, left.states));
    case Alternation(lhs, rhs) =>
      var left := Compile(lhs, s);
      CompileShape(lhs, s);
      CompileShape(rhs, left.states);
      AlternationShape(s, left, Compile(rhs, left.states));
    case Closure(e) =>
      CompileShape(e, s);
      StarShape(s, Compile(e, s), |Compile(e, s).states|);
    case OneOrMore(e) =>
      CompileShape(e, s);
      StarShape(s, Compile(e, s), Compile(e, s).frag.start);
  }

  /** The arena `NFA::from` builds: Start first, linked to the body; End last; every
      state between them a Match or Split with its links bound, inside `[1, |t|)`. */
  lemma BuildShape(ast: AST)
    ensures var t := Build(ast);
      |t| >= 3 && t[0].Start? && t[0].next.Some? && 1 <= t[0].next.value < |t| - 1 && t[|t| - 1] == End &&
      forall i :: 1 <= i < |t| - 1 ==> Shaped(t, 1, i, false)
  {
    var body := Compile(ast, [Start(None)]);
    CompileShape(ast, [Start(None)]);
    var t := Build(ast);
    forall i | 1 <= i < |t| - 1
      ensures Shaped(t, 1, i, false)
    {
      BuildShapeAt(ast, i);
    }
  }

  /** State `i` of the body, once its loose end is joined to End. */
  lemma BuildShapeAt(ast: AST, i: nat)
    requires 1 <= i < |Compile(ast, [Start(None)]).states|
    ensures i < |Build(ast)| && Shaped(Build(ast), 1, i, false)
  {
    var body := Compile(ast, [Start(None)]);
    CompileShape(ast, [Start(None)]);
    var joined := Join(body.states, 0, body.frag.start);
    var n := |joined|;
    var u := joined + [End];
    var t := Build(ast);
    assert t == JoinAll(u, body.frag.ends, n);
    assert u[i] == body.states[i];
    assert u[..|body.states|] == body.states[0 := Patch(body.states[0], body.frag.start)];
    ShapedWiden(body.states, body.states + [End], 1, 1, i, i in body.frag.ends);
    if i in body.frag.ends {
      assert Shaped(u, 1, i, true);
      ShapedPatch(u, 1, i, n);
      assert t[i] == u[i := Patch(u[i], n)][i];
    } else {
      assert Shaped(u, 1, i, false);
      assert t[i] == u[i];
    }
  }

  /** `NFA::from` builds a well-formed NFA whose only Start state is state 0 and into
      which no link leads. */
  lemma BuildWellFormed(ast: AST)
    ensures WellFormed(Build(ast)) && NoStartTargets(Build(ast))
    ensures forall i :: 0 < i < |Build(ast)| ==> !Build(ast)[i].Start?
  {
    BuildShape(ast);
    var t := Build(ast);
    forall i | 0 <= i < |t|
      ensures LinksWithin(t[i], |t|) && ForwardAt(t, i)
    {
      if 1 <= i < |t| - 1 {
        assert Shaped(t, 1, i, false);
      }
    }
    forall i, j | 0 <= i < |t| && 0 <= j < |t| && Targets(t[i], j)
      ensures !t[j].Start?
    {
      if 1 <= i < |t| - 1 {
        assert Shaped(t, 1, i, false);
      }
      if 1 <= j < |t| - 1 {
        assert Shaped(t, 1, j, false);
      }
    }
    forall i | 0 < i < |t|
      ensures !t[i].Start? && (i < |t| - 1 ==> !t[i].End?)
    {
      if i < |t| - 1 {
        assert Shaped(t, 1, i, false);
      }
    }
  }
}
