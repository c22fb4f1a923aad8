/** The parser's unit tests, as lemmas about the parsing functions. */
module ParserExamples {
  import opened Wrappers
  import Tok = Tokenizing
  import opened Parsing
  import ParserProperties

  lemma TokensOfParseAll(s: string, t: seq<Tok.Token>)
    requires s == "ab|c+d*(e.)"
    requires |t| == |s| && forall k :: 0 <= k < |s| ==> t[k] == Tok.TokenOf(s[k])
    ensures t == [Tok.Char('a'), Tok.Char('b'), Tok.UnionBar, Tok.Char('c'), Tok.KleenePlus,
                  Tok.Char('d'), Tok.KleeneStar, Tok.LParen, Tok.Char('e'), Tok.AnyChar, Tok.RParen]
  {
  }

  /** The right operand of the union in `ab|c+d*(e.)`, from token 3 to the end. */
  lemma ParseAllRight(toks: seq<Tok.Token>)
    requires toks == [Tok.Char('a'), Tok.Char('b'), Tok.UnionBar, Tok.Char('c'), Tok.KleenePlus,
                      Tok.Char('d'), Tok.KleeneStar, Tok.LParen, Tok.Char('e'), Tok.AnyChar, Tok.RParen]
    ensures RegExprAt(toks, 3) ==
      Outcome(Ok(Catenation(OneOrMore(Char('c')), Catenation(Closure(Char('d')), Catenation(Char('e'), AnyChar)))), 11)
  {
    var ea := Catenation(Char('e'), AnyChar);
    assert ClosureAt(toks, 9) == Outcome(Ok(AnyChar), 10);
    assert CatenationAt(toks, 9) == Outcome(Ok(AnyChar), 10);
    assert ClosureAt(toks, 8) == Outcome(Ok(Char('e')), 9);
    assert CatenationAt(toks, 8) == Outcome(Ok(ea), 10);
    assert RegExprAt(toks, 8) == Outcome(Ok(ea), 10);
    assert AtomAt(toks, 7) == Outcome(Ok(ea), 11);
    assert CatenationAt(toks, 7) == Outcome(Ok(ea), 11);
    assert ClosureAt(toks, 5) == Outcome(Ok(Closure(Char('d'))), 7);
    assert CatenationAt(toks, 5) == Outcome(Ok(Catenation(Closure(Char('d')), ea)), 11);
    assert ClosureAt(toks, 3) == Outcome(Ok(OneOrMore(Char('c'))), 5);
    var rhs := Catenation(OneOrMore(Char('c')), Catenation(Closure(Char('d')), ea));
    assert CatenationAt(toks, 3) == Outcome(Ok(rhs), 11);
  }

  lemma ParseAllTokens(toks: seq<Tok.Token>)
    requires toks == [Tok.Char('a'), Tok.Char('b'), Tok.UnionBar, Tok.Char('c'), Tok.KleenePlus,
                      Tok.Char('d'), Tok.KleeneStar, Tok.LParen, Tok.Char('e'), Tok.AnyChar, Tok.RParen]
    ensures ParseTokens(toks) ==
      Ok(Alternation(Catenation(Char('a'), Char('b')),
                     Catenation(OneOrMore(Char('c')), Catenation(Closure(Char('d')), Catenation(Char('e'), AnyChar)))))
  {
    ParseAllRight(toks);
    assert ClosureAt(toks, 1) == Outcome(Ok(Char('b')), 2);
    assert CatenationAt(toks, 1) == Outcome(Ok(Char('b')), 2);
    assert ClosureAt(toks, 0) == Outcome(Ok(Char('a')), 1);
    assert CatenationAt(toks, 0) == Outcome(Ok(Catenation(Char('a'), Char('b'))), 2);
  }

  /** `ab|c+d*(e.)` parses as `(ab)|(c+(d*(e.)))`. */
  lemma ParseAll(s: string)
    requires s == "ab|c+d*(e.)"
    ensures ParsePattern(s) ==
      Ok(Alternation(Catenation(Char('a'), Char('b')),
                     Catenation(OneOrMore(Char('c')), Catenation(Closure(Char('d')), Catenation(Char('e'), AnyChar)))))
  {
    Tok.PlainTokens(s);
    TokensOfParseAll(s, Tok.Tokens(s));
    ParseAllTokens(Tok.Tokens(s));
  }

  /** `a.*` parses as `a(.*)`: the star binds tighter than catenation. */
  lemma ParseClosure(toks: seq<Tok.Token>)
    requires toks == [Tok.Char('a'), Tok.AnyChar, Tok.KleeneStar]
    ensures ParseTokens(toks) == Ok(Catenation(Char('a'), Closure(AnyChar)))
  {
    assert ClosureAt(toks, 1) == Outcome(Ok(Closure(AnyChar)), 3);
    assert ClosureAt(toks, 0) == Outcome(Ok(Char('a')), 1);
    assert CatenationAt(toks, 0) == Outcome(Ok(Catenation(Char('a'), Closure(AnyChar))), 3);
  }

  /** `a*cb` as a catenation: `(a*)(cb)`. */
  lemma CatenationOfClosure(toks: seq<Tok.Token>)
    requires toks == [Tok.Char('a'), Tok.KleeneStar, Tok.Char('c'), Tok.Char('b')]
    ensures CatenationAt(toks, 0) == Outcome(Ok(Catenation(Closure(Char('a')), Catenation(Char('c'), Char('b')))), 4)
  {
    assert ClosureAt(toks, 3) == Outcome(Ok(Char('b')), 4);
    assert ClosureAt(toks, 2) == Outcome(Ok(Char('c')), 3);
    assert CatenationAt(toks, 2) == Outcome(Ok(Catenation(Char('c'), Char('b'))), 4);
    assert ClosureAt(toks, 0) == Outcome(Ok(Closure(Char('a'))), 2);
  }

  /** `(ab)` as an atom is the catenation itself, without a group node. */
  lemma AtomParenthesised(toks: seq<Tok.Token>)
    requires toks == [Tok.LParen, Tok.Char('a'), Tok.Char('b'), Tok.RParen]
    ensures AtomAt(toks, 0) == Outcome(Ok(Catenation(Char('a'), Char('b'))), 4)
  {
    assert ClosureAt(toks, 2) == Outcome(Ok(Char('b')), 3);
    assert ClosureAt(toks, 1) == Outcome(Ok(Char('a')), 2);
    assert CatenationAt(toks, 1) == Outcome(Ok(Catenation(Char('a'), Char('b'))), 3);
    assert RegExprAt(toks, 1) == Outcome(Ok(Catenation(Char('a'), Char('b'))), 3);
  }

  /** `a|` runs out of input after the bar. */
  lemma UnionBarFail(toks: seq<Tok.Token>)
    requires toks == [Tok.Char('a'), Tok.UnionBar]
    ensures RegExprAt(toks, 0).result == Err(UnexpectedEndOfInput)
  {
    assert AtomAt(toks, 2) == Outcome(Err(UnexpectedEndOfInput), 2);
    assert CatenationAt(toks, 2) == Outcome(Err(UnexpectedEndOfInput), 2);
    assert ClosureAt(toks, 0) == Outcome(Ok(Char('a')), 1);
    assert CatenationAt(toks, 0) == Outcome(Ok(Char('a')), 1);
  }

  /** `(a` runs out of input where the `)` should be. */
  lemma RParenFail(toks: seq<Tok.Token>)
    requires toks == [Tok.LParen, Tok.Char('a')]
    ensures AtomAt(toks, 0).result == Err(UnexpectedEndOfInput)
  {
    assert ClosureAt(toks, 1) == Outcome(Ok(Char('a')), 2);
    assert CatenationAt(toks, 1) == Outcome(Ok(Char('a')), 2);
    assert RegExprAt(toks, 1) == Outcome(Ok(Char('a')), 2);
  }

  /** In `a**b` the second star is an unexpected atom, but `parse` reports the
      leftover `b` instead: the leftover check hides the inner error. */
  lemma LeftoverHidesError(toks: seq<Tok.Token>)
    requires toks == [Tok.Char('a'), Tok.KleeneStar, Tok.KleeneStar, Tok.Char('b')]
    ensures RegExprAt(toks, 0) == Outcome(Err(UnexpectedAtom), 3)
    ensures ParseTokens(toks) == Err(ExpectedEndOfInput(Tok.Char('b')))
  {
    assert AtomAt(toks, 2) == Outcome(Err(UnexpectedAtom), 3);
    assert CatenationAt(toks, 2) == Outcome(Err(UnexpectedAtom), 3);
    assert ClosureAt(toks, 0) == Outcome(Ok(Closure(Char('a'))), 2);
    assert CatenationAt(toks, 0) == Outcome(Err(UnexpectedAtom), 3);
  }

  /** `a|b|c` nests to the right. */
  lemma AlternationNestsRight(toks: seq<Tok.Token>)
    requires toks == [Tok.Char('a'), Tok.UnionBar, Tok.Char('b'), Tok.UnionBar, Tok.Char('c')]
    ensures ParseTokens(toks) == Ok(Alternation(Char('a'), Alternation(Char('b'), Char('c'))))
  {
    ParserProperties.ParseAlternatives(toks);
    assert ParserProperties.AlternativeChain(toks, 4) == Char('c');
    assert ParserProperties.AlternativeChain(toks, 2) == Alternation(Char('b'), Char('c'));
  }
}
