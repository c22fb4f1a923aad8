/**
 * Properties of the parser that relate several of its routines.
 */
module ParserProperties {
  import opened Wrappers
  import Tok = Tokenizing
  import opened Parsing

  // ----- parsing is a left inverse of a fully parenthesised printer -----

  /** The tokens a tree can start with. */
  predicate StartsAtom(t: Tok.Token) {
    t == Tok.LParen || t.Char? || t == Tok.AnyChar
  }

  /** Renders a tree as tokens, every operator inside its own parentheses. */
  function Show(a: AST): (w: seq<Tok.Token>)
    ensures |w| > 0 && StartsAtom(w[0])
  {
    match a
    case Alternation(l, r) => [Tok.LParen] + Show(l) + [Tok.UnionBar] + Show(r) + [Tok.RParen]
    case Catenation(l, r) => [Tok.LParen] + Show(l) + Show(r) + [Tok.RParen]
    case Closure(e) => [Tok.LParen] + Show(e) + [Tok.KleeneStar, Tok.RParen]
    case OneOrMore(e) => [Tok.LParen] + Show(e) + [Tok.KleenePlus, Tok.RParen]
    case Char(c) => [Tok.Char(c)]
    case AnyChar => [Tok.AnyChar]
  }

  /** `w` occurs in `toks` at position `p`. */
  predicate At(toks: seq<Tok.Token>, p: nat, w: seq<Tok.Token>) {
    p + |w| <= |toks| && toks[p..p + |w|] == w
  }

  lemma AtAppend(toks: seq<Tok.Token>, p: nat, u: seq<Tok.Token>, v: seq<Tok.Token>)
    requires At(toks, p, u + v)
    ensures At(toks, p, u) && At(toks, p + |u|, v)
  {
    assert toks[p..p + |u|] == (u + v)[..|u|];
    assert toks[p + |u|..p + |u| + |v|] == (u + v)[|u|..];
  }

  /** An atom followed by a `|`, a `)` or the end is also a whole closure and catenation. */
  lemma AtomEndsCatenation(toks: seq<Tok.Token>, p: nat, a: AST, q: nat)
    requires p <= |toks| && AtomAt(toks, p) == Outcome(Ok(a), q)
    requires q == |toks| || toks[q] == Tok.UnionBar || toks[q] == Tok.RParen
    ensures ClosureAt(toks, p) == Outcome(Ok(a), q)
    ensures CatenationAt(toks, p) == Outcome(Ok(a), q)
    ensures q == |toks| || toks[q] == Tok.RParen ==> RegExprAt(toks, p) == Outcome(Ok(a), q)
  {
  }

  /** An atom followed by the start of another atom is a whole closure. */
  lemma AtomBeforeAtom(toks: seq<Tok.Token>, p: nat, a: AST, q: nat)
    requires p <= |toks| && AtomAt(toks, p) == Outcome(Ok(a), q)
    requires q < |toks| && StartsAtom(toks[q])
    ensures ClosureAt(toks, p) == Outcome(Ok(a), q)
  {
  }

  /** `( l | r )` parses as an alternation once `l` and `r` parse as atoms. */
  lemma AlternationAtom(toks: seq<Tok.Token>, p: nat, l: AST, q1: nat, r: AST, q2: nat)
    requires p < |toks| && toks[p] == Tok.LParen
    requires AtomAt(toks, p + 1) == Outcome(Ok(l), q1) && q1 < |toks| && toks[q1] == Tok.UnionBar
    requires AtomAt(toks, q1 + 1) == Outcome(Ok(r), q2) && q2 < |toks| && toks[q2] == Tok.RParen
    ensures AtomAt(toks, p) == Outcome(Ok(Alternation(l, r)), q2 + 1)
  {
    AtomEndsCatenation(toks, p + 1, l, q1);
    AtomEndsCatenation(toks, q1 + 1, r, q2);
    assert RegExprAt(toks, p + 1) == Outcome(Ok(Alternation(l, r)), q2);
  }

  /** `( l r )` parses as a catenation once `l` and `r` parse as atoms. */
  lemma CatenationAtom(toks: seq<Tok.Token>, p: nat, l: AST, q1: nat, r: AST, q2: nat)
    requires p < |toks| && toks[p] == Tok.LParen
    requires AtomAt(toks, p + 1) == Outcome(Ok(l), q1) && q1 < |toks| && StartsAtom(toks[q1])
    requires AtomAt(toks, q1) == Outcome(Ok(r), q2) && q2 < |toks| && toks[q2] == Tok.RParen
    ensures AtomAt(toks, p) == Outcome(Ok(Catenation(l, r)), q2 + 1)
  {
    AtomBeforeAtom(toks, p + 1, l, q1);
    AtomEndsCatenation(toks, q1, r, q2);
    assert CatenationAt(toks, p + 1) == Outcome(Ok(Catenation(l, r)), q2);
    assert RegExprAt(toks, p + 1) == Outcome(Ok(Catenation(l, r)), q2);
  }

  /** `( e * )` and `( e + )` parse as a closure once `e` parses as an atom. */
  lemma KleeneAtom(toks: seq<Tok.Token>, p: nat, e: AST, q: nat)
    requires p < |toks| && toks[p] == Tok.LParen
    requires AtomAt(toks, p + 1) == Outcome(Ok(e), q) && q + 1 < |toks| && IsKleene(toks[q]) && toks[q + 1] == Tok.RParen
    ensures toks[q] == Tok.KleeneStar ==> AtomAt(toks, p) == Outcome(Ok(Closure(e)), q + 2)
    ensures toks[q] == Tok.KleenePlus ==> AtomAt(toks, p) == Outcome(Ok(OneOrMore(e)), q + 2)
  {
    var k := if toks[q] == Tok.KleeneStar then Closure(e) else OneOrMore(e);
    assert ClosureAt(toks, p + 1) == Outcome(Ok(k), q + 1);
    assert CatenationAt(toks, p + 1) == Outcome(Ok(k), q + 1);
    assert RegExprAt(toks, p + 1) == Outcome(Ok(k), q + 1);
  }

  lemma AtHead(toks: seq<Tok.Token>, p: nat, w: seq<Tok.Token>)
    requires At(toks, p, w) && w != []
    ensures toks[p] == w[0]
  {
    assert toks[p..p + |w|][0] == toks[p];
  }

  /** The rendering of `a`, wherever it occurs, parses back as the atom `a`. */
  lemma {:induction false} ShowParsesAsAtom(a: AST, toks: seq<Tok.Token>, p: nat)
    requires At(toks, p, Show(a))
    ensures AtomAt(toks, p) == Outcome(Ok(a), p + |Show(a)|)
    decreases a, 1
  {
    AtHead(toks, p, Show(a));
    match a
    case Char(c) =>
    case AnyChar =>
    case Alternation(l, r) => ShowAlternation(l, r, toks, p);
    case Catenation(l, r) => ShowCatenation(l, r, toks, p);
    case Closure(e) => ShowKleene(e, Tok.KleeneStar, toks, p);
    case OneOrMore(e) => ShowKleene(e, Tok.KleenePlus, toks, p);
  }

  lemma {:induction false} ShowAlternation(l: AST, r: AST, toks: seq<Tok.Token>, p: nat)
    requires At(toks, p, Show(Alternation(l, r)))
    ensures AtomAt(toks, p) == Outcome(Ok(Alternation(l, r)), p + |Show(Alternation(l, r))|)
    decreases Alternation(l, r), 0
  {
    var sl, sr := Show(l), Show(r);
    assert Show(Alternation(l, r)) == [Tok.LParen] + sl + [Tok.UnionBar] + sr + [Tok.RParen];
    var q1 := p + 1 + |sl|;
    var q2 := q1 + 1 + |sr|;
    AtAlternation(toks, p, sl, sr, q1, q2);
    ShowParsesAsAtom(l, toks, p + 1);
    ShowParsesAsAtom(r, toks, q1 + 1);
    AlternationAtom(toks, p, l, q1, r, q2);
  }

  /** The pieces of `( sl | sr )` where it occurs, the bar at `q1` and the closing
      parenthesis at `q2`. */
  lemma AtAlternation(toks: seq<Tok.Token>, p: nat, sl: seq<Tok.Token>, sr: seq<Tok.Token>, q1: nat, q2: nat)
    requires q1 == p + 1 + |sl| && q2 == q1 + 1 + |sr|
    requires At(toks, p, [Tok.LParen] + sl + [Tok.UnionBar] + sr + [Tok.RParen])
    ensures p < |toks| && toks[p] == Tok.LParen && At(toks, p + 1, sl)
    ensures q1 < |toks| && toks[q1] == Tok.UnionBar && At(toks, q1 + 1, sr)
    ensures q2 < |toks| && toks[q2] == Tok.RParen
  {
    var w := [Tok.LParen] + sl + [Tok.UnionBar] + sr + [Tok.RParen];
    AtHead(toks, p, w);
    AtAppend(toks, p, [Tok.LParen] + sl + [Tok.UnionBar] + sr, [Tok.RParen]);
    AtAppend(toks, p, [Tok.LParen] + sl + [Tok.UnionBar], sr);
    AtAppend(toks, p, [Tok.LParen] + sl, [Tok.UnionBar]);
    AtAppend(toks, p, [Tok.LParen], sl);
    AtHead(toks, q1, [Tok.UnionBar]);
    AtHead(toks, q2, [Tok.RParen]);
  }

  lemma {:induction false} ShowCatenation(l: AST, r: AST, toks: seq<Tok.Token>, p: nat)
    requires At(toks, p, Show(Catenation(l, r)))
    ensures AtomAt(toks, p) == Outcome(Ok(Catenation(l, r)), p + |Show(Catenation(l, r))|)
    decreases Catenation(l, r), 0
  {
    var sl, sr := Show(l), Show(r);
    assert Show(Catenation(l, r)) == [Tok.LParen] + sl + sr + [Tok.RParen];
    var q1 := p + 1 + |sl|;
    var q2 := q1 + |sr|;
    AtCatenation(toks, p, sl, sr, q1, q2);
    ShowParsesAsAtom(l, toks, p + 1);
    ShowParsesAsAtom(r, toks, q1);
    CatenationAtom(toks, p, l, q1, r, q2);
  }

  /** The pieces of `( sl sr )` where it occurs, `sr` from `q1` and the closing
      parenthesis at `q2`. */
  lemma AtCatenation(toks: seq<Tok.Token>, p: nat, sl: seq<Tok.Token>, sr: seq<Tok.Token>, q1: nat, q2: nat)
    requires sr != [] && q1 == p + 1 + |sl| && q2 == q1 + |sr|
    requires At(toks, p, [Tok.LParen] + sl + sr + [Tok.RParen])
    ensures p < |toks| && toks[p] == Tok.LParen && At(toks, p + 1, sl)
    ensures q1 < |toks| && toks[q1] == sr[0] && At(toks, q1, sr)
    ensures q2 < |toks| && toks[q2] == Tok.RParen
  {
    var w := [Tok.LParen] + sl + sr + [Tok.RParen];
    AtHead(toks, p, w);
    AtAppend(toks, p, [Tok.LParen] + sl + sr, [Tok.RParen]);
    AtAppend(toks, p, [Tok.LParen] + sl, sr);
    AtAppend(toks, p, [Tok.LParen], sl);
    AtHead(toks, q1, sr);
    AtHead(toks, q2, [Tok.RParen]);
  }

  lemma {:induction false} ShowKleene(e: AST, k: Tok.Token, toks: seq<Tok.Token>, p: nat)
    requires IsKleene(k)
    requires At(toks, p, [Tok.LParen] + Show(e) + [k, Tok.RParen])
    ensures k == Tok.KleeneStar ==> AtomAt(toks, p) == Outcome(Ok(Closure(e)), p + |Show(e)| + 3)
    ensures k == Tok.KleenePlus ==> AtomAt(toks, p) == Outcome(Ok(OneOrMore(e)), p + |Show(e)| + 3)
    decreases e, 2
  {
    var se := Show(e);
    AtHead(toks, p, [Tok.LParen] + se + [k, Tok.RParen]);
    AtAppend(toks, p, [Tok.LParen] + se, [k, Tok.RParen]);
    AtAppend(toks, p, [Tok.LParen], se);
    var q := p + 1 + |se|;
    AtHead(toks, q, [k, Tok.RParen]);
    assert toks[q + 1] == Tok.RParen by {
      assert toks[q..q + 2][1] == toks[q + 1];
    }
    ShowParsesAsAtom(e, toks, p + 1);
    KleeneAtom(toks, p, e, q);
  }

  /** Every tree is the parse of its rendering. */
  lemma ParseShow(a: AST)
    ensures ParseTokens(Show(a)) == Ok(a)
  {
    var w := Show(a);
    assert w[0..|w|] == w;
    ShowParsesAsAtom(a, w, 0);
    AtomEndsCatenation(w, 0, a, |w|);
  }

  // ----- at most one Kleene operator per atom -----

  /** No two adjacent Kleene operators among `toks[p..q]`. */
  predicate NoDoubleKleene(toks: seq<Tok.Token>, p: nat, q: nat)
    requires p <= q <= |toks|
  {
    forall i :: p <= i && i + 1 < q ==> !(IsKleene(toks[i]) && IsKleene(toks[i + 1]))
  }

  /** Joins two stretches whose common boundary is not a pair of Kleene operators. */
  lemma NoDoubleKleeneJoin(toks: seq<Tok.Token>, p: nat, m: nat, q: nat)
    requires p <= m < q <= |toks|
    requires NoDoubleKleene(toks, p, m) && NoDoubleKleene(toks, m, q)
    requires m == p || !IsKleene(toks[m - 1]) || !IsKleene(toks[m])
    ensures NoDoubleKleene(toks, p, q)
  {
    forall i | p <= i && i + 1 < q
      ensures !(IsKleene(toks[i]) && IsKleene(toks[i + 1]))
    {
      if i + 1 == m {
      } else if i + 1 < m {
        assert i + 1 < m;
      } else {
        assert m <= i;
      }
    }
  }

  lemma {:induction false} RegExprNoDoubleKleene(toks: seq<Tok.Token>, p: nat)
    requires p <= |toks|
    ensures var o := RegExprAt(toks, p);
      o.result.Ok? ==> !IsKleene(toks[p]) && NoDoubleKleene(toks, p, o.pos)
    decreases |toks| - p, 3
  {
    var l := CatenationAt(toks, p);
    CatenationNoDoubleKleene(toks, p);
    if l.result.Ok? && l.pos < |toks| && toks[l.pos] == Tok.UnionBar {
      var r := RegExprAt(toks, l.pos + 1);
      RegExprNoDoubleKleene(toks, l.pos + 1);
      if r.result.Ok? {
        NoDoubleKleeneJoin(toks, p, l.pos, l.pos + 1);
        NoDoubleKleeneJoin(toks, p, l.pos + 1, r.pos);
      }
    }
  }

  lemma {:induction false} CatenationNoDoubleKleene(toks: seq<Tok.Token>, p: nat)
    requires p <= |toks|
    ensures var o := CatenationAt(toks, p);
      o.result.Ok? ==> !IsKleene(toks[p]) && NoDoubleKleene(toks, p, o.pos)
    decreases |toks| - p, 2
  {
    var c := ClosureAt(toks, p);
    ClosureNoDoubleKleene(toks, p);
    if c.result.Ok? && c.pos < |toks| && toks[c.pos] != Tok.UnionBar && toks[c.pos] != Tok.RParen {
      var r := CatenationAt(toks, c.pos);
      CatenationNoDoubleKleene(toks, c.pos);
      if r.result.Ok? {
        NoDoubleKleeneJoin(toks, p, c.pos, r.pos);
      }
    }
  }

  lemma {:induction false} ClosureNoDoubleKleene(toks: seq<Tok.Token>, p: nat)
    requires p <= |toks|
    ensures var o := ClosureAt(toks, p);
      o.result.Ok? ==> !IsKleene(toks[p]) && NoDoubleKleene(toks, p, o.pos)
    decreases |toks| - p, 1
  {
    var e := AtomAt(toks, p);
    AtomNoDoubleKleene(toks, p);
    if e.result.Ok? && e.pos < |toks| && IsKleene(toks[e.pos]) {
      NoDoubleKleeneJoin(toks, p, e.pos, e.pos + 1);
    }
  }

  lemma {:induction false} AtomNoDoubleKleene(toks: seq<Tok.Token>, p: nat)
    requires p <= |toks|
    ensures var o := AtomAt(toks, p);
      o.result.Ok? ==> !IsKleene(toks[p]) && !IsKleene(toks[o.pos - 1]) && NoDoubleKleene(toks, p, o.pos)
    decreases |toks| - p, 0
  {
    if p < |toks| && toks[p] == Tok.LParen {
      var e := RegExprAt(toks, p + 1);
      RegExprNoDoubleKleene(toks, p + 1);
      if e.result.Ok? && e.pos < |toks| && toks[e.pos] == Tok.RParen {
        NoDoubleKleeneJoin(toks, p, p + 1, e.pos);
        NoDoubleKleeneJoin(toks, p, e.pos, e.pos + 1);
      }
    }
  }

  /** A `)`, `|`, `*` or `+` where an atom must start is "Unexpected atom encountered",
      and the error travels up through `closure`, `catenation` and `reg_expr`. */
  lemma AtomRejectsOperator(toks: seq<Tok.Token>, p: nat)
    requires p < |toks| && (toks[p] == Tok.RParen || toks[p] == Tok.UnionBar || IsKleene(toks[p]))
    ensures AtomAt(toks, p) == Outcome(Err(UnexpectedAtom), p + 1)
    ensures RegExprAt(toks, p) == Outcome(Err(UnexpectedAtom), p + 1)
  {
    assert ClosureAt(toks, p) == Outcome(Err(UnexpectedAtom), p + 1);
    assert CatenationAt(toks, p) == Outcome(Err(UnexpectedAtom), p + 1);
  }

  /** A pattern with two Kleene operators in a row (`a**`, `a+*`) never parses. */
  lemma AdjacentKleeneRejected(toks: seq<Tok.Token>, i: nat)
    requires i + 1 < |toks| && IsKleene(toks[i]) && IsKleene(toks[i + 1])
    ensures ParseTokens(toks).Err?
  {
    RegExprNoDoubleKleene(toks, 0);
  }

  // ----- catenation nests to the right -----

  predicate AllLiterals(toks: seq<Tok.Token>) {
    forall k :: 0 <= k < |toks| ==> toks[k].Char?
  }

  /** `Catenation(c0, Catenation(c1, ... cn))` for the literals from position `p` on. */
  function LiteralChain(toks: seq<Tok.Token>, p: nat): AST
    requires AllLiterals(toks) && p < |toks|
    decreases |toks| - p
  {
    if p + 1 == |toks| then Char(toks[p].c)
    else Catenation(Char(toks[p].c), LiteralChain(toks, p + 1))
  }

  lemma {:induction false} LiteralsNestRight(toks: seq<Tok.Token>, p: nat)
    requires AllLiterals(toks) && p < |toks|
    ensures CatenationAt(toks, p) == Outcome(Ok(LiteralChain(toks, p)), |toks|)
    decreases |toks| - p
  {
    assert ClosureAt(toks, p) == Outcome(Ok(Char(toks[p].c)), p + 1);
    if p + 1 < |toks| {
      LiteralsNestRight(toks, p + 1);
    }
  }

  /** A run of literals parses as a right-nested catenation of them. */
  lemma ParseLiterals(toks: seq<Tok.Token>)
    requires AllLiterals(toks) && toks != []
    ensures ParseTokens(toks) == Ok(LiteralChain(toks, 0))
  {
    LiteralsNestRight(toks, 0);
  }

  // ----- alternation nests to the right -----

  /** Literals at the even positions, a `|` between each two of them. */
  predicate BarredLiterals(toks: seq<Tok.Token>) {
    |toks| % 2 == 1 &&
    forall k :: 0 <= k < |toks| ==> if k % 2 == 0 then toks[k].Char? else toks[k] == Tok.UnionBar
  }

  /** `Alternation(c0, Alternation(c1, ... cn))` for the literals from position `p` on. */
  function AlternativeChain(toks: seq<Tok.Token>, p: nat): AST
    requires BarredLiterals(toks) && p < |toks| && p % 2 == 0
    decreases |toks| - p
  {
    if p + 1 == |toks| then Char(toks[p].c)
    else Alternation(Char(toks[p].c), AlternativeChain(toks, p + 2))
  }

  lemma {:induction false} AlternativesNestRight(toks: seq<Tok.Token>, p: nat)
    requires BarredLiterals(toks) && p < |toks| && p % 2 == 0
    ensures RegExprAt(toks, p) == Outcome(Ok(AlternativeChain(toks, p)), |toks|)
    decreases |toks| - p
  {
    assert AtomAt(toks, p) == Outcome(Ok(Char(toks[p].c)), p + 1);
    if p + 1 < |toks| {
      assert toks[p + 1] == Tok.UnionBar;
      AtomEndsCatenation(toks, p, Char(toks[p].c), p + 1);
      AlternativesNestRight(toks, p + 2);
    } else {
      AtomEndsCatenation(toks, p, Char(toks[p].c), p + 1);
    }
  }

  /** Literals separated by `|` parse as a right-nested alternation of them. */
  lemma ParseAlternatives(toks: seq<Tok.Token>)
    requires BarredLiterals(toks)
    ensures ParseTokens(toks) == Ok(AlternativeChain(toks, 0))
  {
    AlternativesNestRight(toks, 0);
  }
}
