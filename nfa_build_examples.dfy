/**
 * The patterns of the NFA's unit tests, through `NFA::from`: how each one lexes and
 * parses, and the state arena `gen_fragment` and `from` build for it.
 */
module NfaBuildExamples {
  import opened Wrappers
  import opened NfaGraph
  import opened NfaBuild
  import Tok = Tokenizing
  import P = Parsing

  /** `NFA::from` once the body is compiled. */
  lemma BuildOf(ast: P.AST, body: seq<State>, f: Fragment)
    requires Compile(ast, [Start(None)]) == Compiled(body, f)
    ensures ValidIds(Join(body, 0, f.start) + [End], f.ends)
    ensures Build(ast) == JoinAll(Join(body, 0, f.start) + [End], f.ends, |body|)
  {
  }

  // ----- `.....` -----

  function Dots(): seq<State> {
    [Start(Some(1)), Match(Any, Some(2)), Match(Any, Some(3)), Match(Any, Some(4)),
     Match(Any, Some(5)), Match(Any, Some(6)), End]
  }

  lemma DotsTokens(s: string, t: seq<Tok.Token>)
    requires s == "....."
    requires |t| == |s| && forall k :: 0 <= k < |s| ==> t[k] == Tok.TokenOf(s[k])
    ensures t == [Tok.AnyChar, Tok.AnyChar, Tok.AnyChar, Tok.AnyChar, Tok.AnyChar]
  {
  }

  function DotsAst(): P.AST {
    P.Catenation(P.AnyChar, P.Catenation(P.AnyChar, P.Catenation(P.AnyChar, P.Catenation(P.AnyChar, P.AnyChar))))
  }

  lemma ParseDotsTokens(toks: seq<Tok.Token>)
    requires toks == [Tok.AnyChar, Tok.AnyChar, Tok.AnyChar, Tok.AnyChar, Tok.AnyChar]
    ensures P.ParseTokens(toks) == Ok(DotsAst())
  {
    var a := P.AnyChar;
    var c4 := P.Catenation(a, a);
    var c3 := P.Catenation(a, c4);
    var c2 := P.Catenation(a, c3);
    assert P.ClosureAt(toks, 4) == P.Outcome(Ok(a), 5);
    assert P.CatenationAt(toks, 4) == P.Outcome(Ok(a), 5);
    assert P.ClosureAt(toks, 3) == P.Outcome(Ok(a), 4);
    assert P.CatenationAt(toks, 3) == P.Outcome(Ok(c4), 5);
    assert P.ClosureAt(toks, 2) == P.Outcome(Ok(a), 3);
    assert P.CatenationAt(toks, 2) == P.Outcome(Ok(c3), 5);
    assert P.ClosureAt(toks, 1) == P.Outcome(Ok(a), 2);
    assert P.CatenationAt(toks, 1) == P.Outcome(Ok(c2), 5);
    assert P.ClosureAt(toks, 0) == P.Outcome(Ok(a), 1);
    assert P.CatenationAt(toks, 0) == P.Outcome(Ok(DotsAst()), 5);
    assert P.RegExprAt(toks, 0) == P.Outcome(Ok(DotsAst()), 5);
  }

  lemma ParseDots()
    ensures P.ParsePattern(".....") == Ok(DotsAst())
  {
    var s := ".....";
    Tok.PlainTokens(s);
    DotsTokens(s, Tok.Tokens(s));
    ParseDotsTokens(Tok.Tokens(s));
  }

  // `gen_fragment` on the tails of `.....`, innermost first; `m` is a matching state
  // for `.` whose link is still loose.

  const m := Match(Any, None)

  /** The last two dots, pushed after Start and three loose dots. */
  lemma CompileDots2(e: P.AST, s: seq<State>)
    requires e == P.Catenation(P.AnyChar, P.AnyChar)
    requires s == [Start(None), m, m, m]
    ensures Compile(e, s) == Compiled(s + ([Match(Any, Some(5))] + [m]), Fragment(4, [5]))
  {
    var l := Compile(e.lhs, s);
    assert l == Compiled(s + [m], Fragment(4, [4]));
    var u := s + [m, m];
    assert Compile(e.rhs, l.states) == Compiled(u, Fragment(5, [5]));
    assert JoinAll(u, [4], 5) == Join(u, 4, 5);
  }

  lemma CompileDots3(e: P.AST, s: seq<State>)
    requires e == P.Catenation(P.AnyChar, P.Catenation(P.AnyChar, P.AnyChar))
    requires s == [Start(None), m, m]
    ensures Compile(e, s) == Compiled(s + ([Match(Any, Some(4))] + ([Match(Any, Some(5))] + [m])), Fragment(3, [5]))
  {
    var l := Compile(e.lhs, s);
    assert l == Compiled(s + [m], Fragment(3, [3]));
    CompileDots2(e.rhs, l.states);
    var r := Compile(e.rhs, l.states);
    var rest := [Match(Any, Some(5))] + [m];
    assert r.states == s + [m] + rest;
    assert Compile(e, s) == Compiled(JoinAll(r.states, [3], 4), Fragment(3, r.frag.ends));
    JoinOne(r.states, 3, 4);
    JoinAt(s, m, Match(Any, Some(|s| + 1)), rest, |s| + 1);
  }

  lemma CompileDots4(e: P.AST, s: seq<State>)
    requires e == P.Catenation(P.AnyChar, P.Catenation(P.AnyChar, P.Catenation(P.AnyChar, P.AnyChar)))
    requires s == [Start(None), m]
    ensures Compile(e, s) == Compiled(s + ([Match(Any, Some(3))] + ([Match(Any, Some(4))] + ([Match(Any, Some(5))] + [m]))), Fragment(2, [5]))
  {
    var l := Compile(e.lhs, s);
    assert l == Compiled(s + [m], Fragment(2, [2]));
    CompileDots3(e.rhs, l.states);
    var r := Compile(e.rhs, l.states);
    var rest := [Match(Any, Some(4))] + ([Match(Any, Some(5))] + [m]);
    assert r.states == s + [m] + rest;
    assert Compile(e, s) == Compiled(JoinAll(r.states, [2], 3), Fragment(2, r.frag.ends));
    JoinOne(r.states, 2, 3);
    JoinAt(s, m, Match(Any, Some(|s| + 1)), rest, |s| + 1);
  }

  lemma CompileDots5(e: P.AST, s: seq<State>)
    requires e == P.Catenation(P.AnyChar, P.Catenation(P.AnyChar, P.Catenation(P.AnyChar, P.Catenation(P.AnyChar, P.AnyChar))))
    requires s == [Start(None)]
    ensures Compile(e, s) == Compiled(s + ([Match(Any, Some(2))] + ([Match(Any, Some(3))] + ([Match(Any, Some(4))] + ([Match(Any, Some(5))] + [m])))), Fragment(1, [5]))
  {
    var l := Compile(e.lhs, s);
    assert l == Compiled(s + [m], Fragment(1, [1]));
    CompileDots4(e.rhs, l.states);
    var r := Compile(e.rhs, l.states);
    var rest := [Match(Any, Some(3))] + ([Match(Any, Some(4))] + ([Match(Any, Some(5))] + [m]));
    assert r.states == s + [m] + rest;
    assert Compile(e, s) == Compiled(JoinAll(r.states, [1], 2), Fragment(1, r.frag.ends));
    JoinOne(r.states, 1, 2);
    JoinAt(s, m, Match(Any, Some(|s| + 1)), rest, |s| + 1);
  }

  /** Linking the state `x` that follows `s` to `to`. */
  lemma JoinAt(s: seq<State>, x: State, y: State, rest: seq<State>, to: StateId)
    requires y == Patch(x, to)
    ensures Join(s + [x] + rest, |s|, to) == s + ([y] + rest)
  {
    var u := s + [x] + rest;
    assert Join(u, |s|, to) == u[|s| := y];
    UpdateAt(s, x, y, rest);
  }

  lemma UpdateAt<T>(s: seq<T>, x: T, y: T, rest: seq<T>)
    ensures (s + [x] + rest)[|s| := y] == s + ([y] + rest)
  {
    var u := (s + [x] + rest)[|s| := y];
    assert forall k :: 0 <= k < |u| ==> u[k] == (s + ([y] + rest))[k];
  }

  /** `join_fragment` with a single loose end is one `join`. */
  lemma JoinOne(t: seq<State>, x: StateId, to: StateId)
    requires x < |t|
    ensures JoinAll(t, [x], to) == Join(t, x, to)
  {
    assert [x][..0] == [];
  }

  lemma CompileDots(e: P.AST, s: seq<State>)
    requires e == DotsAst() && s == [Start(None)]
    ensures Compile(e, s)
      == Compiled([Start(None), Match(Any, Some(2)), Match(Any, Some(3)), Match(Any, Some(4)), Match(Any, Some(5)), m], Fragment(1, [5]))
  {
    CompileDots5(e, s);
    DotsBody(s + ([Match(Any, Some(2))] + ([Match(Any, Some(3))] + ([Match(Any, Some(4))] + ([Match(Any, Some(5))] + [m])))));
  }

  lemma DotsBody(body: seq<State>)
    requires body == [Start(None)] + ([Match(Any, Some(2))] + ([Match(Any, Some(3))] + ([Match(Any, Some(4))] + ([Match(Any, Some(5))] + [m]))))
    ensures body == [Start(None), Match(Any, Some(2)), Match(Any, Some(3)), Match(Any, Some(4)), Match(Any, Some(5)), m]
  {
  }

  /** `.....` parses as a right-nested catenation of five `.` and becomes a chain of five
      matching states between Start and End. */
  lemma FromDots()
    ensures FromPattern(".....") == Ok(Dots())
  {
    ParseDots();
    CompileDots(DotsAst(), [Start(None)]);
    BuildDots(DotsAst());
  }

  lemma BuildDots(ast: P.AST)
    requires Compile(ast, [Start(None)])
      == Compiled([Start(None), Match(Any, Some(2)), Match(Any, Some(3)), Match(Any, Some(4)), Match(Any, Some(5)), m], Fragment(1, [5]))
    ensures Build(ast) == Dots()
  {
    var body := [Start(None), Match(Any, Some(2)), Match(Any, Some(3)), Match(Any, Some(4)), Match(Any, Some(5)), m];
    BuildOf(ast, body, Fragment(1, [5]));
    CloseDots(body);
  }

  lemma CloseDots(body: seq<State>)
    requires body == [Start(None), Match(Any, Some(2)), Match(Any, Some(3)), Match(Any, Some(4)), Match(Any, Some(5)), m]
    ensures JoinAll(Join(body, 0, 1) + [End], [5], 6) == Dots()
  {
    var t := Join(body, 0, 1) + [End];
    assert t == [Start(Some(1)), Match(Any, Some(2)), Match(Any, Some(3)), Match(Any, Some(4)), Match(Any, Some(5)), m, End];
    assert JoinAll(t, [5], 6) == Join(t, 5, 6);
  }

  // ----- `hel+o` -----

  function HelloAst(): P.AST {
    P.Catenation(P.Char('h'), P.Catenation(P.Char('e'), P.Catenation(P.OneOrMore(P.Char('l')), P.Char('o'))))
  }

  /** The arena of `hel+o`: the `+` is a split after the `l` that leads back to it. */
  function Hello(): seq<State> {
    [Start(Some(1)), Match(Literal('h'), Some(2)), Match(Literal('e'), Some(3)), Match(Literal('l'), Some(4)),
     Split(Some(3), Some(5)), Match(Literal('o'), Some(6)), End]
  }

  lemma HelloTokens(s: string, t: seq<Tok.Token>)
    requires s == "hel+o"
    requires |t| == |s| && forall k :: 0 <= k < |s| ==> t[k] == Tok.TokenOf(s[k])
    ensures t == [Tok.Char('h'), Tok.Char('e'), Tok.Char('l'), Tok.KleenePlus, Tok.Char('o')]
  {
  }

  lemma ParseHelloTokens(toks: seq<Tok.Token>)
    requires toks == [Tok.Char('h'), Tok.Char('e'), Tok.Char('l'), Tok.KleenePlus, Tok.Char('o')]
    ensures P.ParseTokens(toks) == Ok(HelloAst())
  {
    var lo := P.Catenation(P.OneOrMore(P.Char('l')), P.Char('o'));
    assert P.ClosureAt(toks, 4) == P.Outcome(Ok(P.Char('o')), 5);
    assert P.CatenationAt(toks, 4) == P.Outcome(Ok(P.Char('o')), 5);
    assert P.ClosureAt(toks, 2) == P.Outcome(Ok(P.OneOrMore(P.Char('l'))), 4);
    assert P.CatenationAt(toks, 2) == P.Outcome(Ok(lo), 5);
    assert P.ClosureAt(toks, 1) == P.Outcome(Ok(P.Char('e')), 2);
    assert P.CatenationAt(toks, 1) == P.Outcome(Ok(P.Catenation(P.Char('e'), lo)), 5);
    assert P.ClosureAt(toks, 0) == P.Outcome(Ok(P.Char('h')), 1);
    assert P.CatenationAt(toks, 0) == P.Outcome(Ok(HelloAst()), 5);
    assert P.RegExprAt(toks, 0) == P.Outcome(Ok(HelloAst()), 5);
  }

  lemma ParseHello()
    ensures P.ParsePattern("hel+o") == Ok(HelloAst())
  {
    var s := "hel+o";
    Tok.PlainTokens(s);
    HelloTokens(s, Tok.Tokens(s));
    ParseHelloTokens(Tok.Tokens(s));
  }

  // `gen_fragment` on the tails of `hel+o`, innermost first.

  lemma CompileHelloPlus(e: P.AST, s: seq<State>)
    requires e == P.Catenation(P.OneOrMore(P.Char('l')), P.Char('o'))
    requires s == [Start(None), Match(Literal('h'), None), Match(Literal('e'), None)]
    ensures Compile(e, s) == Compiled(s + ([Match(Literal('l'), Some(4))] + ([Split(Some(3), Some(5))] + [Match(Literal('o'), None)])),
                                      Fragment(3, [5]))
  {
    var l := Match(Literal('l'), None);
    var body := Compile(e.lhs.expr, s);
    assert body == Compiled(s + [l], Fragment(3, [3]));
    var loop := Split(Some(3), None);
    JoinOne(s + [l] + [loop], 3, 4);
    JoinAt(s, l, Match(Literal('l'), Some(4)), [loop], 4);
    var plus := Compile(e.lhs, s);
    assert plus == Compiled(s + ([Match(Literal('l'), Some(4))] + [loop]), Fragment(3, [4]));
    var p := s + [Match(Literal('l'), Some(4))];
    assert plus.states == p + [loop];
    var o := Compile(e.rhs, plus.states);
    assert o == Compiled(p + [loop] + [Match(Literal('o'), None)], Fragment(5, [5]));
    JoinOne(o.states, 4, 5);
    JoinAt(p, loop, Split(Some(3), Some(5)), [Match(Literal('o'), None)], 5);
    assert Compile(e, s) == Compiled(JoinAll(o.states, [4], 5), Fragment(3, [5]));
  }

  lemma CompileHelloE(e: P.AST, s: seq<State>)
    requires e == P.Catenation(P.Char('e'), P.Catenation(P.OneOrMore(P.Char('l')), P.Char('o')))
    requires s == [Start(None), Match(Literal('h'), None)]
    ensures Compile(e, s) == Compiled(s + ([Match(Literal('e'), Some(3))] + ([Match(Literal('l'), Some(4))]
                                      + ([Split(Some(3), Some(5))] + [Match(Literal('o'), None)]))), Fragment(2, [5]))
  {
    var ee := Match(Literal('e'), None);
    var l := Compile(e.lhs, s);
    assert l == Compiled(s + [ee], Fragment(2, [2]));
    CompileHelloPlus(e.rhs, l.states);
    var r := Compile(e.rhs, l.states);
    var rest := [Match(Literal('l'), Some(4))] + ([Split(Some(3), Some(5))] + [Match(Literal('o'), None)]);
    assert r.states == s + [ee] + rest;
    assert Compile(e, s) == Compiled(JoinAll(r.states, [2], 3), Fragment(2, r.frag.ends));
    JoinOne(r.states, 2, 3);
    JoinAt(s, ee, Match(Literal('e'), Some(3)), rest, 3);
  }

  lemma CompileHello(e: P.AST, s: seq<State>)
    requires e == HelloAst() && s == [Start(None)]
    ensures Compile(e, s) == Compiled([Start(None), Match(Literal('h'), Some(2)), Match(Literal('e'), Some(3)),
                                       Match(Literal('l'), Some(4)), Split(Some(3), Some(5)), Match(Literal('o'), None)],
                                      Fragment(1, [5]))
  {
    var h := Match(Literal('h'), None);
    var l := Compile(e.lhs, s);
    assert l == Compiled(s + [h], Fragment(1, [1]));
    CompileHelloE(e.rhs, l.states);
    var r := Compile(e.rhs, l.states);
    var rest := [Match(Literal('e'), Some(3))] + ([Match(Literal('l'), Some(4))]
                + ([Split(Some(3), Some(5))] + [Match(Literal('o'), None)]));
    assert r.states == s + [h] + rest;
    assert Compile(e, s) == Compiled(JoinAll(r.states, [1], 2), Fragment(1, r.frag.ends));
    JoinOne(r.states, 1, 2);
    JoinAt(s, h, Match(Literal('h'), Some(2)), rest, 2);
    HelloBody(s + ([Match(Literal('h'), Some(2))] + rest));
  }

  lemma HelloBody(body: seq<State>)
    requires body == [Start(None)] + ([Match(Literal('h'), Some(2))] + ([Match(Literal('e'), Some(3))] + ([Match(Literal('l'), Some(4))]
                     + ([Split(Some(3), Some(5))] + [Match(Literal('o'), None)]))))
    ensures body == [Start(None), Match(Literal('h'), Some(2)), Match(Literal('e'), Some(3)),
                     Match(Literal('l'), Some(4)), Split(Some(3), Some(5)), Match(Literal('o'), None)]
  {
  }

  lemma BuildHello(ast: P.AST)
    requires Compile(ast, [Start(None)]) ==
      Compiled([Start(None), Match(Literal('h'), Some(2)), Match(Literal('e'), Some(3)),
                Match(Literal('l'), Some(4)), Split(Some(3), Some(5)), Match(Literal('o'), None)], Fragment(1, [5]))
    ensures Build(ast) == Hello()
  {
    var body := [Start(None), Match(Literal('h'), Some(2)), Match(Literal('e'), Some(3)),
                 Match(Literal('l'), Some(4)), Split(Some(3), Some(5)), Match(Literal('o'), None)];
    BuildOf(ast, body, Fragment(1, [5]));
    CloseHello(body);
  }

  lemma CloseHello(body: seq<State>)
    requires body == [Start(None), Match(Literal('h'), Some(2)), Match(Literal('e'), Some(3)),
                      Match(Literal('l'), Some(4)), Split(Some(3), Some(5)), Match(Literal('o'), None)]
    ensures JoinAll(Join(body, 0, 1) + [End], [5], 6) == Hello()
  {
    var t := Join(body, 0, 1) + [End];
    assert t == [Start(Some(1))] + body[1..] + [End];
    assert JoinAll(t, [5], 6) == Join(t, 5, 6);
  }

  lemma FromHello()
    ensures FromPattern("hel+o") == Ok(Hello())
  {
    ParseHello();
    CompileHello(HelloAst(), [Start(None)]);
    BuildHello(HelloAst());
  }

  // ----- one- and two-character patterns, for any plain characters -----

  /** A character the tokenizer turns into a `Char` token. */
  predicate Plain(x: char) {
    x !in "()|*.+" && !Tok.IsSkipped(x)
  }

  lemma ParseChar(x: char)
    requires Plain(x)
    ensures P.ParsePattern([x]) == Ok(P.Char(x))
  {
    Tok.PlainTokens([x]);
    var toks := Tok.Tokens([x]);
    assert toks == [Tok.Char(x)];
    assert P.ClosureAt(toks, 0) == P.Outcome(Ok(P.Char(x)), 1);
    assert P.CatenationAt(toks, 0) == P.Outcome(Ok(P.Char(x)), 1);
    assert P.RegExprAt(toks, 0) == P.Outcome(Ok(P.Char(x)), 1);
  }

  lemma ParseTwo(x: char, y: char)
    requires Plain(x) && Plain(y)
    ensures P.ParsePattern([x, y]) == Ok(P.Catenation(P.Char(x), P.Char(y)))
  {
    Tok.PlainTokens([x, y]);
    var toks := Tok.Tokens([x, y]);
    assert toks == [Tok.Char(x), Tok.Char(y)];
    var ast := P.Catenation(P.Char(x), P.Char(y));
    assert P.ClosureAt(toks, 1) == P.Outcome(Ok(P.Char(y)), 2);
    assert P.CatenationAt(toks, 1) == P.Outcome(Ok(P.Char(y)), 2);
    assert P.ClosureAt(toks, 0) == P.Outcome(Ok(P.Char(x)), 1);
    assert P.CatenationAt(toks, 0) == P.Outcome(Ok(ast), 2);
    assert P.RegExprAt(toks, 0) == P.Outcome(Ok(ast), 2);
  }

  lemma ParseStar(x: char)
    requires Plain(x)
    ensures P.ParsePattern([x, '*']) == Ok(P.Closure(P.Char(x)))
  {
    Tok.PlainTokens([x, '*']);
    var toks := Tok.Tokens([x, '*']);
    assert toks == [Tok.Char(x), Tok.KleeneStar];
    var ast := P.Closure(P.Char(x));
    assert P.ClosureAt(toks, 0) == P.Outcome(Ok(ast), 2);
    assert P.CatenationAt(toks, 0) == P.Outcome(Ok(ast), 2);
    assert P.RegExprAt(toks, 0) == P.Outcome(Ok(ast), 2);
  }

  lemma CompileChar(x: char, s: seq<State>)
    requires s == [Start(None)]
    ensures Compile(P.Char(x), s) == Compiled([Start(None), Match(Literal(x), None)], Fragment(1, [1]))
  {
  }

  lemma CloseChar(x: char, body: seq<State>)
    requires body == [Start(None), Match(Literal(x), None)]
    ensures JoinAll(Join(body, 0, 1) + [End], [1], 2) == [Start(Some(1)), Match(Literal(x), Some(2)), End]
  {
    var u := Join(body, 0, 1) + [End];
    assert u == [Start(Some(1)), Match(Literal(x), None), End];
    assert JoinAll(u, [1], 2) == Join(u, 1, 2);
  }

  lemma FromChar(x: char)
    requires Plain(x)
    ensures FromPattern([x]) == Ok([Start(Some(1)), Match(Literal(x), Some(2)), End])
  {
    ParseChar(x);
    var body := [Start(None), Match(Literal(x), None)];
    CompileChar(x, [Start(None)]);
    BuildOf(P.Char(x), body, Fragment(1, [1]));
    CloseChar(x, body);
  }

  lemma CompileTwo(x: char, y: char, s: seq<State>)
    requires s == [Start(None)]
    ensures Compile(P.Catenation(P.Char(x), P.Char(y)), s)
         == Compiled([Start(None), Match(Literal(x), Some(2)), Match(Literal(y), None)], Fragment(1, [2]))
  {
    var left := Compile(P.Char(x), s);
    assert left == Compiled(s + [Match(Literal(x), None)], Fragment(1, [1]));
    var right := Compile(P.Char(y), left.states);
    var v := [Start(None), Match(Literal(x), None), Match(Literal(y), None)];
    assert right == Compiled(v, Fragment(2, [2]));
    assert JoinAll(v, [1], 2) == Join(v, 1, 2);
  }

  lemma CloseTwo(x: char, y: char, body: seq<State>)
    requires body == [Start(None), Match(Literal(x), Some(2)), Match(Literal(y), None)]
    ensures JoinAll(Join(body, 0, 1) + [End], [2], 3)
         == [Start(Some(1)), Match(Literal(x), Some(2)), Match(Literal(y), Some(3)), End]
  {
    var u := Join(body, 0, 1) + [End];
    assert u == [Start(Some(1)), Match(Literal(x), Some(2)), Match(Literal(y), None), End];
    assert JoinAll(u, [2], 3) == Join(u, 2, 3);
  }

  lemma FromTwo(x: char, y: char)
    requires Plain(x) && Plain(y)
    ensures FromPattern([x, y]) == Ok([Start(Some(1)), Match(Literal(x), Some(2)), Match(Literal(y), Some(3)), End])
  {
    ParseTwo(x, y);
    var body := [Start(None), Match(Literal(x), Some(2)), Match(Literal(y), None)];
    CompileTwo(x, y, [Start(None)]);
    BuildOf(P.Catenation(P.Char(x), P.Char(y)), body, Fragment(1, [2]));
    CloseTwo(x, y, body);
  }

  lemma CompileStar(x: char, s: seq<State>)
    requires s == [Start(None)]
    ensures Compile(P.Closure(P.Char(x)), s)
         == Compiled([Start(None), Match(Literal(x), Some(2)), Split(Some(1), None)], Fragment(2, [2]))
  {
    var inner := Compile(P.Char(x), s);
    assert inner == Compiled(s + [Match(Literal(x), None)], Fragment(1, [1]));
    var v := [Start(None), Match(Literal(x), None), Split(Some(1), None)];
    assert inner.states + [Split(Some(1), None)] == v;
    assert JoinAll(v, [1], 2) == Join(v, 1, 2);
  }

  lemma CloseStar(x: char, body: seq<State>)
    requires body == [Start(None), Match(Literal(x), Some(2)), Split(Some(1), None)]
    ensures JoinAll(Join(body, 0, 2) + [End], [2], 3)
         == [Start(Some(2)), Match(Literal(x), Some(2)), Split(Some(1), Some(3)), End]
  {
    var u := Join(body, 0, 2) + [End];
    assert u == [Start(Some(2)), Match(Literal(x), Some(2)), Split(Some(1), None), End];
    assert JoinAll(u, [2], 3) == Join(u, 2, 3);
  }

  lemma FromStar(x: char)
    requires Plain(x)
    ensures FromPattern([x, '*']) == Ok([Start(Some(2)), Match(Literal(x), Some(2)), Split(Some(1), Some(3)), End])
  {
    ParseStar(x);
    var body := [Start(None), Match(Literal(x), Some(2)), Split(Some(1), None)];
    CompileStar(x, [Start(None)]);
    BuildOf(P.Closure(P.Char(x)), body, Fragment(2, [2]));
    CloseStar(x, body);
  }

  // ----- `(a*)*` -----

  /** The arena of `(a*)*`: the inner split (state 2) and the outer one (state 3) link
      to each other. */
  function StarStar(): seq<State> {
    [Start(Some(3)), Match(Literal('a'), Some(2)), Split(Some(1), Some(3)), Split(Some(2), Some(4)), End]
  }

  function StarStarAst(): P.AST {
    P.Closure(P.Closure(P.Char('a')))
  }

  lemma StarStarTokens(s: string, t: seq<Tok.Token>)
    requires s == "(a*)*"
    requires |t| == |s| && forall k :: 0 <= k < |s| ==> t[k] == Tok.TokenOf(s[k])
    ensures t == [Tok.LParen, Tok.Char('a'), Tok.KleeneStar, Tok.RParen, Tok.KleeneStar]
  {
  }

  lemma ParseStarStarTokens(toks: seq<Tok.Token>)
    requires toks == [Tok.LParen, Tok.Char('a'), Tok.KleeneStar, Tok.RParen, Tok.KleeneStar]
    ensures P.ParseTokens(toks) == Ok(StarStarAst())
  {
    var inner := P.Closure(P.Char('a'));
    assert P.AtomAt(toks, 1) == P.Outcome(Ok(P.Char('a')), 2);
    assert P.ClosureAt(toks, 1) == P.Outcome(Ok(inner), 3);
    assert P.CatenationAt(toks, 1) == P.Outcome(Ok(inner), 3);
    assert P.RegExprAt(toks, 1) == P.Outcome(Ok(inner), 3);
    assert P.AtomAt(toks, 0) == P.Outcome(Ok(inner), 4);
    assert P.ClosureAt(toks, 0) == P.Outcome(Ok(StarStarAst()), 5);
    assert P.CatenationAt(toks, 0) == P.Outcome(Ok(StarStarAst()), 5);
    assert P.RegExprAt(toks, 0) == P.Outcome(Ok(StarStarAst()), 5);
  }

  lemma ParseStarStar()
    ensures P.ParsePattern("(a*)*") == Ok(StarStarAst())
  {
    var s := "(a*)*";
    Tok.PlainTokens(s);
    StarStarTokens(s, Tok.Tokens(s));
    ParseStarStarTokens(Tok.Tokens(s));
  }

  lemma CompileStarStar(e: P.AST, s: seq<State>)
    requires e == StarStarAst() && s == [Start(None)]
    ensures Compile(e, s)
         == Compiled([Start(None), Match(Literal('a'), Some(2)), Split(Some(1), Some(3)), Split(Some(2), None)], Fragment(3, [3]))
  {
    CompileStar('a', s);
    var v := [Start(None), Match(Literal('a'), Some(2)), Split(Some(1), None), Split(Some(2), None)];
    assert JoinAll(v, [2], 3) == Join(v, 2, 3);
  }

  lemma CloseStarStar(body: seq<State>)
    requires body == [Start(None), Match(Literal('a'), Some(2)), Split(Some(1), Some(3)), Split(Some(2), None)]
    ensures JoinAll(Join(body, 0, 3) + [End], [3], 4) == StarStar()
  {
    var u := Join(body, 0, 3) + [End];
    assert u == [Start(Some(3)), Match(Literal('a'), Some(2)), Split(Some(1), Some(3)), Split(Some(2), None), End];
    assert JoinAll(u, [3], 4) == Join(u, 3, 4);
  }

  lemma FromStarStar()
    ensures FromPattern("(a*)*") == Ok(StarStar())
  {
    ParseStarStar();
    var body := [Start(None), Match(Literal('a'), Some(2)), Split(Some(1), Some(3)), Split(Some(2), None)];
    CompileStarStar(StarStarAst(), [Start(None)]);
    BuildOf(StarStarAst(), body, Fragment(3, [3]));
    CloseStarStar(body);
  }
}
