/**
 * The recursive-descent parser of the pattern language.
 *
 *   RegExpr    -> Catenation (UnionBar RegExpr)?
 *   Catenation -> Closure Catenation?
 *   Closure    -> Atom (KleeneStar | KleenePlus)?
 *   Atom       -> LParen RegExpr RParen | AnyChar | Char
 *
 * The Rust parser advances a shared `Peekable` token cursor; here the cursor is
 * the position `pos` into the token sequence.  Each parsing routine has a pure
 * counterpart (`RegExprAt`, ...) that gives its result and the position the
 * cursor is left at, on success and on failure alike.
 */
module Parsing {
  import opened Wrappers
  import Tok = Tokenizing

  /** The syntax tree.  The source's `create_*` factories are these constructors. */
  datatype AST =
    | Alternation(lhs: AST, rhs: AST)
    | Catenation(lhs: AST, rhs: AST)
    | Closure(expr: AST)
    | OneOrMore(expr: AST)
    | Char(c: char)
    | AnyChar

  /** The parser's error strings, one constructor per message; the tokens stand for
      the `{:?}` parts of the two formatted messages. */
  datatype ParseError =
    | UnexpectedEndOfInput                             // "Unexpected end of input"
    | UnexpectedInput                                  // "Unexpected input"
    | UnexpectedAtom                                   // "Unexpected atom encountered"
    | MissingRightParenthesis                          // "Missing right parenthesis"
    | KleeneStarNotFound                               // "KleeneStar not found."
    | ExpectedToken(expected: Tok.Token, found: Tok.Token) // "Expected: .. - Found .."
    | ExpectedEndOfInput(found: Tok.Token)             // "Expected end of input, found .."

  /** What a parsing routine returns, together with where it leaves the cursor. */
  datatype Outcome<+T> = Outcome(result: Result<T, ParseError>, pos: nat)

  /** The only errors the four grammar routines can actually produce. */
  predicate Raisable(e: ParseError) {
    e == UnexpectedEndOfInput || e == UnexpectedAtom
  }

  predicate IsKleene(t: Tok.Token) {
    t == Tok.KleeneStar || t == Tok.KleenePlus
  }

  // ----- the token helpers -----

  /** `take_next_token`: the next token, or "Unexpected end of input" at the end. */
  function TakeNextTokenAt(toks: seq<Tok.Token>, p: nat): (o: Outcome<Tok.Token>)
    requires p <= |toks|
    ensures o.result.Ok? <==> p < |toks|
    ensures o.result.Ok? ==> o.result.value == toks[p] && o.pos == p + 1
    ensures o.result.Err? ==> o.result.error == UnexpectedEndOfInput && o.pos == p
  {
    if p < |toks| then Outcome(Ok(toks[p]), p + 1) else Outcome(Err(UnexpectedEndOfInput), p)
  }

  /** `peek_token`: '*' or '+' when the next token is a Kleene operator, without consuming it. */
  function PeekTokenAt(toks: seq<Tok.Token>, p: nat): (r: Option<char>)
    requires p <= |toks|
    ensures r.Some? <==> p < |toks| && IsKleene(toks[p])
    ensures r == Some('*') <==> p < |toks| && toks[p] == Tok.KleeneStar
  {
    if p < |toks| && toks[p] == Tok.KleeneStar then Some('*')
    else if p < |toks| && toks[p] == Tok.KleenePlus then Some('+')
    else None
  }

  /** `take_token`: consumes a Kleene operator, or fails with "KleeneStar not found." */
  function TakeTokenAt(toks: seq<Tok.Token>, p: nat): (o: Outcome<char>)
    requires p <= |toks|
    ensures o.result.Ok? <==> p < |toks| && IsKleene(toks[p])
    ensures o.result.Ok? ==> o.pos == p + 1 && Some(o.result.value) == PeekTokenAt(toks, p)
    ensures o.result.Err? ==> o == Outcome(Err(KleeneStarNotFound), p)
  {
    if p < |toks| && toks[p] == Tok.KleeneStar then Outcome(Ok('*'), p + 1)
    else if p < |toks| && toks[p] == Tok.KleenePlus then Outcome(Ok('+'), p + 1)
    else Outcome(Err(KleeneStarNotFound), p)
  }

  /** `consume_token`: the next token when it is `expected`; a mismatch is consumed and reported. */
  function ConsumeTokenAt(toks: seq<Tok.Token>, p: nat, expected: Tok.Token): (o: Outcome<Tok.Token>)
    requires p <= |toks|
    ensures o.result.Ok? <==> p < |toks| && toks[p] == expected
    ensures o.result.Ok? ==> o.result.value == expected && o.pos == p + 1
    ensures p == |toks| ==> o == Outcome(Err(UnexpectedEndOfInput), p)
    ensures p < |toks| && toks[p] != expected ==> o == Outcome(Err(ExpectedToken(expected, toks[p])), p + 1)
  {
    if p < |toks| then
      if toks[p] != expected then Outcome(Err(ExpectedToken(expected, toks[p])), p + 1)
      else Outcome(Ok(toks[p]), p + 1)
    else Outcome(Err(UnexpectedEndOfInput), p)
  }

  // ----- the grammar routines -----

  /** `reg_expr`.  On success it has consumed at least one token and stops at a `)`
      or at the end; it never reports "Unexpected input". */
  function RegExprAt(toks: seq<Tok.Token>, p: nat): (o: Outcome<AST>)
    requires p <= |toks|
    ensures p <= o.pos <= |toks|
    ensures o.result.Ok? ==> p < o.pos && (o.pos == |toks| || toks[o.pos] == Tok.RParen)
    ensures o.result.Err? ==> Raisable(o.result.error)
    decreases |toks| - p, 3
  {
    var l := CatenationAt(toks, p);
    if l.result.Err? || l.pos == |toks| then l
    else if toks[l.pos] == Tok.UnionBar then
      var r := RegExprAt(toks, l.pos + 1);
      if r.result.Err? then r else Outcome(Ok(Alternation(l.result.value, r.result.value)), r.pos)
    else if toks[l.pos] == Tok.RParen then l
    else Outcome(Err(UnexpectedInput), l.pos)
  }

  /** `catenation`.  On success it stops only at a `|`, a `)` or the end. */
  function CatenationAt(toks: seq<Tok.Token>, p: nat): (o: Outcome<AST>)
    requires p <= |toks|
    ensures p <= o.pos <= |toks|
    ensures o.result.Ok? ==> p < o.pos && (o.pos == |toks| || toks[o.pos] == Tok.UnionBar || toks[o.pos] == Tok.RParen)
    ensures o.result.Err? ==> Raisable(o.result.error)
    decreases |toks| - p, 2
  {
    var c := ClosureAt(toks, p);
    if c.result.Err? || c.pos == |toks| || toks[c.pos] == Tok.UnionBar || toks[c.pos] == Tok.RParen then c
    else
      var r := CatenationAt(toks, c.pos);
      if r.result.Err? then r else Outcome(Ok(Catenation(c.result.value, r.result.value)), r.pos)
  }

  /** `closure`: an atom followed by at most one Kleene operator. */
  function ClosureAt(toks: seq<Tok.Token>, p: nat): (o: Outcome<AST>)
    requires p <= |toks|
    ensures p <= o.pos <= |toks|
    ensures o.result.Ok? ==> p < o.pos
    ensures o.result.Err? ==> Raisable(o.result.error)
    decreases |toks| - p, 1
  {
    var e := AtomAt(toks, p);
    if e.result.Err? then e
    else
      match PeekTokenAt(toks, e.pos)
      case Some('*') =>
        var t := TakeTokenAt(toks, e.pos);
        if t.result.Err? then Outcome(Err(KleeneStarNotFound), t.pos) else Outcome(Ok(Closure(e.result.value)), t.pos)
      case Some('+') =>
        var t := TakeTokenAt(toks, e.pos);
        if t.result.Err? then Outcome(Err(KleeneStarNotFound), t.pos) else Outcome(Ok(OneOrMore(e.result.value)), t.pos)
      case _ => e
  }

  /** `atom`: a parenthesised expression (returned without a wrapper node), `.` or a character. */
  function AtomAt(toks: seq<Tok.Token>, p: nat): (o: Outcome<AST>)
    requires p <= |toks|
    ensures p <= o.pos <= |toks|
    ensures o.result.Ok? ==> p < o.pos
    ensures o.result.Err? ==> Raisable(o.result.error)
    decreases |toks| - p, 0
  {
    var t := TakeNextTokenAt(toks, p);
    if t.result.Err? then Outcome(Err(t.result.error), t.pos)
    else
      match t.result.value
      case AnyChar => Outcome(Ok(AnyChar), t.pos)
      case Char(v) => Outcome(Ok(Char(v)), t.pos)
      case LParen =>
        var e := RegExprAt(toks, t.pos);
        if e.result.Err? then e
        else
          var r := ConsumeTokenAt(toks, e.pos, Tok.RParen);
          if r.result.Err? then Outcome(Err(r.result.error), r.pos)
          else if r.result.value == Tok.RParen then Outcome(Ok(e.result.value), r.pos)
          else Outcome(Err(MissingRightParenthesis), r.pos)
      case _ => Outcome(Err(UnexpectedAtom), t.pos)
  }

  /** `Parser::parse` on a token sequence: the expression must use every token.  The
      leftover check comes first, so leftover tokens hide an error of `reg_expr`. */
  function ParseTokens(toks: seq<Tok.Token>): (r: Result<AST, ParseError>)
    ensures r.Ok? <==> RegExprAt(toks, 0).result.Ok? && RegExprAt(toks, 0).pos == |toks|
    ensures r.Ok? ==> r == RegExprAt(toks, 0).result
    ensures RegExprAt(toks, 0).pos < |toks| ==> r == Err(ExpectedEndOfInput(toks[RegExprAt(toks, 0).pos]))
    ensures r.Err? ==> Raisable(r.error) || r.error.ExpectedEndOfInput?
  {
    var o := RegExprAt(toks, 0);
    if o.pos < |toks| then Err(ExpectedEndOfInput(toks[o.pos])) else o.result
  }

  /** Parsing a pattern string: tokenize, then parse. */
  function ParsePattern(pattern: string): Result<AST, ParseError> {
    ParseTokens(Tok.Tokens(pattern))
  }

  class Parser {
    /** Every token the tokenizer yields. */
    var tokens: seq<Tok.Token>
    /** The cursor: the index of the next token `peek` would see. */
    var pos: nat

    ghost predicate Valid()
      reads this
    {
      pos <= |tokens|
    }

    constructor (toks: seq<Tok.Token>)
      ensures Valid() && tokens == toks && pos == 0
    {
      tokens := toks;
      pos := 0;
    }

    /** `Parser::parse`. */
    static method Parse(tokenizer: Tok.Tokenizer) returns (r: Result<AST, ParseError>)
      ensures r == ParseTokens(Tok.Tokens(tokenizer.chars))
    {
      var parser := new Parser(Tok.Tokens(tokenizer.chars));
      var p := parser.RegExpr();
      if parser.pos < |parser.tokens| {
        r := Err(ExpectedEndOfInput(parser.tokens[parser.pos]));
      } else {
        r := p;
      }
    }

    method RegExpr() returns (r: Result<AST, ParseError>)
      requires Valid()
      modifies this
      ensures Valid() && tokens == old(tokens)
      ensures Outcome(r, pos) == RegExprAt(tokens, old(pos))
      decreases |tokens| - pos, 3
    {
      var l := Catenation();
      if l.Err? {
        return l;
      }
      if pos == |tokens| {
        return l;
      }
      if tokens[pos] == Tok.UnionBar {
        pos := pos + 1;
        var rhs := RegExpr();
        if rhs.Err? {
          return rhs;
        }
        return Ok(Alternation(l.value, rhs.value));
      } else if tokens[pos] == Tok.RParen {
        return l;
      } else {
        return Err(UnexpectedInput);
      }
    }

    method Catenation() returns (r: Result<AST, ParseError>)
      requires Valid()
      modifies this
      ensures Valid() && tokens == old(tokens)
      ensures Outcome(r, pos) == CatenationAt(tokens, old(pos))
      decreases |tokens| - pos, 2
    {
      var c := Closure();
      if c.Err? || pos == |tokens| || tokens[pos] == Tok.UnionBar || tokens[pos] == Tok.RParen {
        return c;
      }
      var rhs := Catenation();
      if rhs.Err? {
        return rhs;
      }
      return Ok(AST.Catenation(c.value, rhs.value));
    }

    method Closure() returns (r: Result<AST, ParseError>)
      requires Valid()
      modifies this
      ensures Valid() && tokens == old(tokens)
      ensures Outcome(r, pos) == ClosureAt(tokens, old(pos))
      decreases |tokens| - pos, 1
    {
      var expr := Atom();
      if expr.Err? {
        return expr;
      }
      var kleene := PeekToken();
      match kleene {
        case Some('*') =>
          var closure := AST.Closure(expr.value);
          var t := TakeToken();
          if t.Err? {
            return Err(t.error);
          }
          return Ok(closure);
        case Some('+') =>
          var oneMore := OneOrMore(expr.value);
          var t := TakeToken();
          if t.Err? {
            return Err(t.error);
          }
          return Ok(oneMore);
        case _ =>
          return expr;
      }
    }

    method Atom() returns (r: Result<AST, ParseError>)
      requires Valid()
      modifies this
      ensures Valid() && tokens == old(tokens)
      ensures Outcome(r, pos) == AtomAt(tokens, old(pos))
      decreases |tokens| - pos, 0
    {
      var t := TakeNextToken();
      if t.Err? {
        return Err(t.error);
      }
      match t.value {
        case AnyChar => return Ok(AST.AnyChar);
        case Char(value) => return Ok(AST.Char(value));
        case LParen =>
          var expr := RegExpr();
          if expr.Err? {
            return Err(expr.error);
          }
          var rparen := ConsumeToken(Tok.RParen);
          if rparen.Err? {
            return Err(rparen.error);
          }
          if rparen.value == Tok.RParen {
            return Ok(expr.value);
          }
          return Err(MissingRightParenthesis);
        case _ => return Err(UnexpectedAtom);
      }
    }

    method TakeNextToken() returns (r: Result<Tok.Token, ParseError>)
      requires Valid()
      modifies this
      ensures Valid() && tokens == old(tokens)
      ensures Outcome(r, pos) == TakeNextTokenAt(tokens, old(pos))
    {
      if pos < |tokens| {
        r := Ok(tokens[pos]);
        pos := pos + 1;
      } else {
        r := Err(UnexpectedEndOfInput);
      }
    }

    method PeekToken() returns (r: Option<char>)
      requires Valid()
      ensures r == PeekTokenAt(tokens, pos)
    {
      if pos < |tokens| && tokens[pos] == Tok.KleeneStar {
        r := Some('*');
      } else if pos < |tokens| && tokens[pos] == Tok.KleenePlus {
        r := Some('+');
      } else {
        r := None;
      }
    }

    method TakeToken() returns (r: Result<char, ParseError>)
      requires Valid()
      modifies this
      ensures Valid() && tokens == old(tokens)
      ensures Outcome(r, pos) == TakeTokenAt(tokens, old(pos))
    {
      if pos < |tokens| && tokens[pos] == Tok.KleeneStar {
        pos := pos + 1;
        r := Ok('*');
      } else if pos < |tokens| && tokens[pos] == Tok.KleenePlus {
        pos := pos + 1;
        r := Ok('+');
      } else {
        r := Err(KleeneStarNotFound);
      }
    }

    method ConsumeToken(expected: Tok.Token) returns (r: Result<Tok.Token, ParseError>)
      requires Valid()
      modifies this
      ensures Valid() && tokens == old(tokens)
      ensures Outcome(r, pos) == ConsumeTokenAt(tokens, old(pos), expected)
    {
      if pos < |tokens| {
        var next := tokens[pos];
        pos := pos + 1;
        if next != expected {
          r := Err(ExpectedToken(expected, next));
        } else {
          r := Ok(next);
        }
      } else {
        r := Err(UnexpectedEndOfInput);
      }
    }
  }
}
