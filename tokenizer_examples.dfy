/** The tokenizer's unit tests, as lemmas about `Tokens`. */
module TokenizerExamples {
  import opened Tokenizing

  lemma SignificantPieces(a: string, b: string, c: string)
    requires a == "(2.\n" && b == "*a)\n" && c == "|b+"
    ensures Significant(a) == "(2." && Significant(b) == "*a)" && Significant(c) == "|b+"
  {
    SignificantNewline(a);
    SignificantNewline(b);
    SignificantOfPlain(c);
  }

  /** Three plain characters and a newline: the newline is dropped. */
  lemma SignificantNewline(a: string)
    requires |a| == 4 && a[3] == '\n' && !IsSkipped(a[0]) && !IsSkipped(a[1]) && !IsSkipped(a[2])
    ensures Significant(a) == a[..3]
  {
    var nl := a[3..];
    assert a == a[..3] + nl;
    SignificantAppend(a[..3], nl);
    SignificantOfPlain(a[..3]);
    assert nl[1..] == [];
  }

  lemma SignificantOfPhrase(s: string)
    requires s == "(2.\n*a)\n|b+"
    ensures Significant(s) == "(2.*a)|b+"
  {
    var a, b, c := "(2.\n", "*a)\n", "|b+";
    SignificantPieces(a, b, c);
    assert s == a + b + c;
    SignificantAppend(a + b, c);
    SignificantAppend(a, b);
  }

  lemma TokensOfPhraseChars(s: seq<char>, t: seq<Token>)
    requires s == "(2.*a)|b+"
    requires |t| == |s| && forall k :: 0 <= k < |s| ==> t[k] == TokenOf(s[k])
    ensures t == [LParen, Char('2'), AnyChar, KleeneStar, Char('a'), RParen, UnionBar, Char('b'), KleenePlus]
  {
  }

  /** The phrase `"(2.\n*a)\n|b+"` lexes to the nine tokens of the source's test. */
  lemma LexPhrase(s: string)
    requires s == "(2.\n*a)\n|b+"
    ensures Tokens(s) == [LParen, Char('2'), AnyChar, KleeneStar, Char('a'), RParen, UnionBar, Char('b'), KleenePlus]
  {
    SignificantOfPhrase(s);
    TokensAreSignificantChars(s);
    TokensOfPhraseChars(Significant(s), Tokens(s));
  }
}
