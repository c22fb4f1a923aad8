/**
 * The lexer of the pattern language: one token per character of the pattern,
 * after skipping tabs and newlines.  The Rust `Peekable<Chars>` cursor is the
 * field `chars`, the characters it has not yet yielded.
 */
module Tokenizing {
  import opened Wrappers

  datatype Token =
    | LParen
    | RParen
    | UnionBar
    | KleeneStar
    | AnyChar
    | Char(c: char)
    | KleenePlus

  /** The only characters `lex_endline` skips. */
  predicate IsSkipped(c: char) {
    c == '\t' || c == '\n'
  }

  /** The character a token was lexed from. */
  function Lexeme(t: Token): char {
    match t
    case LParen => '('
    case RParen => ')'
    case UnionBar => '|'
    case KleeneStar => '*'
    case AnyChar => '.'
    case Char(c) => c
    case KleenePlus => '+'
  }

  /** The token `next` produces for a non-skipped character: the six metacharacters
      have their own tokens, every other character is a `Char`. */
  function TokenOf(c: char): (t: Token)
    ensures Lexeme(t) == c
    ensures t.Char? <==> c !in "()|*.+"
  {
    match c
    case '(' => LParen
    case ')' => RParen
    case '|' => UnionBar
    case '*' => KleeneStar
    case '.' => AnyChar
    case '+' => KleenePlus
    case _ => Char(c)
  }

  /** What is left of `s` once `lex_endline` has run: it starts with neither a tab nor a newline. */
  function SkipEndlines(s: seq<char>): (r: seq<char>)
    ensures |r| <= |s|
    ensures r != [] ==> !IsSkipped(r[0])
  {
    if s != [] && IsSkipped(s[0]) then SkipEndlines(s[1..]) else s
  }

  /** `lex_endline` drops a prefix of tabs and newlines and nothing else. */
  lemma {:induction false} SkipEndlinesDropsOnlySkipped(s: seq<char>)
    ensures SkipEndlines(s) == s[|s| - |SkipEndlines(s)|..]
    ensures forall j :: 0 <= j < |s| - |SkipEndlines(s)| ==> IsSkipped(s[j])
    decreases |s|
  {
    if s != [] && IsSkipped(s[0]) {
      SkipEndlinesDropsOnlySkipped(s[1..]);
    }
  }

  /** The whole sequence of tokens the tokenizer yields for `s`, one call of `next` per token. */
  function Tokens(s: seq<char>): seq<Token>
    decreases |s|
  {
    var r := SkipEndlines(s);
    if r == [] then [] else [TokenOf(r[0])] + Tokens(r[1..])
  }

  /** The characters of `s` other than tabs and newlines, in order. */
  function Significant(s: seq<char>): (r: seq<char>)
    ensures forall k :: 0 <= k < |r| ==> !IsSkipped(r[k])
  {
    if s == [] then []
    else if IsSkipped(s[0]) then Significant(s[1..])
    else [s[0]] + Significant(s[1..])
  }

  lemma {:induction false} SignificantAppend(s: seq<char>, t: seq<char>)
    ensures Significant(s + t) == Significant(s) + Significant(t)
    decreases |s|
  {
    if s == [] {
      assert s + t == t;
    } else {
      assert (s + t)[0] == s[0];
      assert (s + t)[1..] == s[1..] + t;
      SignificantAppend(s[1..], t);
    }
  }

  /** A string without tabs and newlines is all significant. */
  lemma {:induction false} SignificantOfPlain(s: seq<char>)
    requires forall k :: 0 <= k < |s| ==> !IsSkipped(s[k])
    ensures Significant(s) == s
    decreases |s|
  {
    if s != [] {
      SignificantOfPlain(s[1..]);
    }
  }

  lemma {:induction false} SkippedPrefixIsInsignificant(s: seq<char>)
    ensures Significant(s) == Significant(SkipEndlines(s))
    decreases |s|
  {
    if s != [] && IsSkipped(s[0]) {
      SkippedPrefixIsInsignificant(s[1..]);
    }
  }

  /** Every token consumes exactly one character that is neither a tab nor a newline:
      the token sequence is the significant characters, each mapped by `TokenOf`. */
  lemma {:induction false} TokensAreSignificantChars(s: seq<char>)
    ensures |Tokens(s)| == |Significant(s)|
    ensures forall k :: 0 <= k < |Tokens(s)| ==> Tokens(s)[k] == TokenOf(Significant(s)[k])
    decreases |s|
  {
    var r := SkipEndlines(s);
    SkippedPrefixIsInsignificant(s);
    if r != [] {
      var rest := r[1..];
      TokensAreSignificantChars(rest);
      assert Significant(r) == [r[0]] + Significant(rest);
      assert Tokens(s) == [TokenOf(r[0])] + Tokens(rest);
      forall k | 0 <= k < |Tokens(s)|
        ensures Tokens(s)[k] == TokenOf(Significant(s)[k])
      {
        if k > 0 {
          assert Tokens(s)[k] == Tokens(rest)[k - 1];
          assert Significant(s)[k] == Significant(rest)[k - 1];
        }
      }
    }
  }

  /** Without tabs and newlines every character is one token. */
  lemma PlainTokens(s: seq<char>)
    requires forall k :: 0 <= k < |s| ==> !IsSkipped(s[k])
    ensures |Tokens(s)| == |s|
    ensures forall k :: 0 <= k < |s| ==> Tokens(s)[k] == TokenOf(s[k])
  {
    SignificantOfPlain(s);
    TokensAreSignificantChars(s);
  }

  /** Lexing back: the lexemes of the tokens are exactly the significant characters. */
  lemma LexemesOfTokens(s: seq<char>)
    ensures |Tokens(s)| == |Significant(s)|
    ensures forall k :: 0 <= k < |Tokens(s)| ==> Lexeme(Tokens(s)[k]) == Significant(s)[k]
  {
    TokensAreSignificantChars(s);
  }

  class Tokenizer {
    /** The characters the cursor has not yet yielded. */
    var chars: seq<char>

    constructor (input: string)
      ensures chars == input
    {
      chars := input;
    }

    /** Consumes every leading tab and newline, and nothing else. */
    method LexEndline()
      modifies this
      ensures chars == SkipEndlines(old(chars))
    {
      while chars != [] && IsSkipped(chars[0])
        invariant SkipEndlines(chars) == SkipEndlines(old(chars))
        decreases |chars|
      {
        chars := chars[1..];
      }
    }

    // The `lex_*` helpers each consume one character.  The source panics when the
    // character is not the expected one; `Next` only calls a helper after peeking
    // that very character, so here that is a precondition, and `Next` verifying
    // shows the panic arms are unreachable.

    method LexLParen() returns (t: Token)
      requires chars != [] && chars[0] == '('
      modifies this
      ensures t == LParen && chars == old(chars)[1..]
    {
      chars := chars[1..];
      t := LParen;
    }

    method LexRParen() returns (t: Token)
      requires chars != [] && chars[0] == ')'
      modifies this
      ensures t == RParen && chars == old(chars)[1..]
    {
      chars := chars[1..];
      t := RParen;
    }

    method LexUnionBar() returns (t: Token)
      requires chars != [] && chars[0] == '|'
      modifies this
      ensures t == UnionBar && chars == old(chars)[1..]
    {
      chars := chars[1..];
      t := UnionBar;
    }

    method LexKleeneStar() returns (t: Token)
      requires chars != [] && chars[0] == '*'
      modifies this
      ensures t == KleeneStar && chars == old(chars)[1..]
    {
      chars := chars[1..];
      t := KleeneStar;
    }

    method LexAnyChar() returns (t: Token)
      requires chars != [] && chars[0] == '.'
      modifies this
      ensures t == AnyChar && chars == old(chars)[1..]
    {
      chars := chars[1..];
      t := AnyChar;
    }

    method LexKleenePlus() returns (t: Token)
      requires chars != [] && chars[0] == '+'
      modifies this
      ensures t == KleenePlus && chars == old(chars)[1..]
    {
      chars := chars[1..];
      t := KleenePlus;
    }

    /** Consumes one character, whatever it is, as a literal. */
    method LexChar() returns (t: Token)
      requires chars != []
      modifies this
      ensures t == Char(old(chars)[0]) && chars == old(chars)[1..]
    {
      t := Char(chars[0]);
      chars := chars[1..];
    }

    /** Skips tabs and newlines, then lexes one token; `None` once the input is exhausted,
        and the input then stays exhausted. */
    method Next() returns (t: Option<Token>)
      modifies this
      ensures var r := SkipEndlines(old(chars));
              if r == [] then t == None && chars == []
              else t == Some(TokenOf(r[0])) && chars == r[1..]
      ensures t == None <==> Tokens(old(chars)) == []
      ensures t.Some? ==> Tokens(old(chars)) == [t.value] + Tokens(chars)
    {
      LexEndline();
      if chars == [] {
        t := None;
      } else {
        var tok: Token;
        match chars[0] {
          case '(' => tok := LexLParen();
          case ')' => tok := LexRParen();
          case '|' => tok := LexUnionBar();
          case '*' => tok := LexKleeneStar();
          case '.' => tok := LexAnyChar();
          case '+' => tok := LexKleenePlus();
          case _ => tok := LexChar();
        }
        t := Some(tok);
      }
    }
  }

  /** Once exhausted, `next` keeps returning `None`. */
  method NextAfterExhausted(tokenizer: Tokenizer) returns (first: Option<Token>, second: Option<Token>)
    requires Tokens(tokenizer.chars) == []
    modifies tokenizer
    ensures first == None && second == None
  {
    first := tokenizer.Next();
    second := tokenizer.Next();
  }
}
