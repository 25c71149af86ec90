/** The calculator's expression grammar, as a declarative notion of derivation and as the
    recursive-descent parser. A derivation (`Cst`) keeps the parentheses; `Strip` forgets them. */
module Grammar {

  datatype Token = Num(v: real) | Const(v: real) | Op(id: int) | LParen | RParen | Func(id: int)

  const ADD := 0
  const SUB := 1
  const MUL := 2
  const DIV := 3
  const POW := 4
  const MOD := 6

  datatype Tree = Value(v: real) | Minus(t: Tree) | Binary(op: int, l: Tree, r: Tree) | Apply(f: int, t: Tree)

  datatype Cst = Lit(tok: Token) | Neg(c: Cst) | Bin(op: int, l: Cst, r: Cst) | Paren(c: Cst) | Call(f: int, c: Cst)

  /** Grammar level at which a binary operator is introduced: expr 0, term 1, power 2. */
  function LevelOf(op: int): int {
    if op == ADD || op == SUB then 0
    else if op == MUL || op == DIV || op == MOD then 1
    else if op == POW then 2
    else -1
  }

  /** c is a derivation of level lv: expr 0, term 1, power 2, unary 3, atom 4. */
  predicate Derives(c: Cst, lv: nat) {
    match c
    case Lit(tok) => tok.Num? || tok.Const?
    case Paren(e) => Derives(e, 0)
    case Call(_, e) => Derives(e, 0)
    case Neg(e) => lv <= 3 && Derives(e, 3)
    case Bin(op, l, r) =>
      if op == POW then lv <= 2 && Derives(l, 3) && Derives(r, 2)
      else LevelOf(op) >= lv && Derives(l, LevelOf(op)) && Derives(r, LevelOf(op) + 1)
  }

  /** The tokens of a derivation. */
  function Yield(c: Cst): (ts: seq<Token>)
    ensures |ts| > 0
  {
    match c
    case Lit(tok) => [tok]
    case Paren(e) => [LParen] + Yield(e) + [RParen]
    case Call(f, e) => [Func(f), LParen] + Yield(e) + [RParen]
    case Neg(e) => [Op(SUB)] + Yield(e)
    case Bin(op, l, r) => Yield(l) + [Op(op)] + Yield(r)
  }

  function Strip(c: Cst): Tree {
    match c
    case Lit(tok) => if tok.Num? || tok.Const? then Value(tok.v) else Value(0.0)
    case Paren(e) => Strip(e)
    case Call(f, e) => Apply(f, Strip(e))
    case Neg(e) => Minus(Strip(e))
    case Bin(op, l, r) => Binary(op, Strip(l), Strip(r))
  }

  // ---------- the parser ----------

  datatype Parse = Fail | Ok(c: Cst, pos: nat)

  predicate OpAt(toks: seq<Token>, p: nat, lv: int) {
    p < |toks| && toks[p].Op? && LevelOf(toks[p].id) == lv
  }

  /** The parse function of level lv, at position pos. */
  function P(toks: seq<Token>, lv: nat, pos: nat): (r: Parse)
    requires lv <= 4 && pos <= |toks|
    ensures r.Ok? ==> pos < r.pos <= |toks|
    decreases |toks| - pos, 5 - lv, 1
  {
    if lv <= 1 then Chain(toks, lv, pos)
    else if lv == 2 then Power(toks, pos)
    else if lv == 3 then Unary(toks, pos)
    else Atom(toks, pos)
  }

  /** The parse functions by name. */
  lemma Dispatch(toks: seq<Token>, pos: nat)
    requires pos <= |toks|
    ensures P(toks, 0, pos) == Chain(toks, 0, pos) && P(toks, 1, pos) == Chain(toks, 1, pos)
    ensures P(toks, 2, pos) == Power(toks, pos) && P(toks, 3, pos) == Unary(toks, pos)
    ensures P(toks, 4, pos) == Atom(toks, pos)
  {
  }

  /** Levels 0 and 1: an operand of the next level, then the loop. */
  function Chain(toks: seq<Token>, lv: nat, pos: nat): (r: Parse)
    requires lv <= 1 && pos <= |toks|
    ensures r.Ok? ==> pos < r.pos <= |toks|
    decreases |toks| - pos, 5 - lv, 0
  {
    var m := P(toks, lv + 1, pos);
    if m.Ok? then Loop(toks, lv, m.c, m.pos) else Fail
  }

  /** The loop of levels 0 and 1: c has been read, more operators of the level may follow. */
  function Loop(toks: seq<Token>, lv: nat, c: Cst, p: nat): (r: Parse)
    requires lv <= 1 && p <= |toks|
    ensures r.Ok? ==> p <= r.pos <= |toks|
    decreases |toks| - p, 5 - lv, 0
  {
    if OpAt(toks, p, lv) then
      var m := P(toks, lv + 1, p + 1);
      if m.Ok? then Loop(toks, lv, Bin(toks[p].id, c, m.c), m.pos) else Fail
    else Ok(c, p)
  }

  function Power(toks: seq<Token>, pos: nat): (r: Parse)
    requires pos <= |toks|
    ensures r.Ok? ==> pos < r.pos <= |toks|
    decreases |toks| - pos, 3, 0
  {
    var l := P(toks, 3, pos);
    if l.Fail? || !OpAt(toks, l.pos, 2) then l
    else
      var r := P(toks, 2, l.pos + 1);
      if r.Ok? then Ok(Bin(POW, l.c, r.c), r.pos) else Fail
  }

  function Unary(toks: seq<Token>, pos: nat): (r: Parse)
    requires pos <= |toks|
    ensures r.Ok? ==> pos < r.pos <= |toks|
    decreases |toks| - pos, 2, 0
  {
    if pos < |toks| && toks[pos] == Op(SUB) then
      var m := P(toks, 3, pos + 1);
      if m.Ok? then Ok(Neg(m.c), m.pos) else Fail
    else P(toks, 4, pos)
  }

  function Atom(toks: seq<Token>, pos: nat): (r: Parse)
    requires pos <= |toks|
    ensures r.Ok? ==> pos < r.pos <= |toks|
    decreases |toks| - pos, 1, 0
  {
    if pos == |toks| then Fail
    else
      match toks[pos]
      case Num(_) => Ok(Lit(toks[pos]), pos + 1)
      case Const(_) => Ok(Lit(toks[pos]), pos + 1)
      case LParen =>
        var m := P(toks, 0, pos + 1);
        if Closed(toks, m) then Ok(Paren(m.c), m.pos + 1) else Fail
      case Func(f) =>
        if pos + 1 < |toks| && toks[pos + 1] == LParen then
          var m := P(toks, 0, pos + 2);
          if Closed(toks, m) then Ok(Call(f, m.c), m.pos + 1) else Fail
        else Fail
      case _ => Fail
  }

  /** An inner expression was read and a closing parenthesis follows. */
  predicate Closed(toks: seq<Token>, m: Parse) {
    m.Ok? && m.pos < |toks| && toks[m.pos] == RParen
  }

  // ---------- what is read where ----------

  ghost predicate Reads(toks: seq<Token>, pos: nat, ts: seq<Token>) {
    pos + |ts| <= |toks| && toks[pos..pos + |ts|] == ts
  }

  lemma ReadsSplit(toks: seq<Token>, pos: nat, a: seq<Token>, b: seq<Token>)
    ensures Reads(toks, pos, a + b) <==> Reads(toks, pos, a) && Reads(toks, pos + |a|, b)
  {
    if Reads(toks, pos, a + b) {
      assert a == (a + b)[..|a|] && b == (a + b)[|a|..];
    }
    if Reads(toks, pos, a) && Reads(toks, pos + |a|, b) {
      assert toks[pos..pos + |a + b|] == toks[pos..pos + |a|] + toks[pos + |a|..pos + |a| + |b|];
    }
  }

  lemma ReadsOne(toks: seq<Token>, pos: nat, t: Token)
    ensures Reads(toks, pos, [t]) <==> pos < |toks| && toks[pos] == t
  {
    if pos < |toks| {
      assert toks[pos..pos + 1] == [toks[pos]];
    }
  }

  lemma ReadsBin(toks: seq<Token>, pos: nat, c: Cst, q: nat)
    requires c.Bin? && q == pos + |Yield(c.l)|
    ensures Reads(toks, pos, Yield(c)) <==>
              Reads(toks, pos, Yield(c.l)) && q < |toks| && toks[q] == Op(c.op) && Reads(toks, q + 1, Yield(c.r))
    ensures q + 1 + |Yield(c.r)| == pos + |Yield(c)|
  {
    ReadsSplit(toks, pos, Yield(c.l) + [Op(c.op)], Yield(c.r));
    ReadsSplit(toks, pos, Yield(c.l), [Op(c.op)]);
    ReadsOne(toks, q, Op(c.op));
  }

  lemma ReadsNeg(toks: seq<Token>, pos: nat, c: Cst)
    requires c.Neg?
    ensures Reads(toks, pos, Yield(c)) <==> pos < |toks| && toks[pos] == Op(SUB) && Reads(toks, pos + 1, Yield(c.c))
  {
    ReadsSplit(toks, pos, [Op(SUB)], Yield(c.c));
    ReadsOne(toks, pos, Op(SUB));
  }

  lemma ReadsParen(toks: seq<Token>, pos: nat, c: Cst, q: nat)
    requires c.Paren? && q == pos + 1 + |Yield(c.c)|
    ensures Reads(toks, pos, Yield(c)) <==>
              && pos < |toks| && toks[pos] == LParen && Reads(toks, pos + 1, Yield(c.c))
              && q < |toks| && toks[q] == RParen
    ensures q + 1 == pos + |Yield(c)|
  {
    ReadsSplit(toks, pos, [LParen] + Yield(c.c), [RParen]);
    ReadsSplit(toks, pos, [LParen], Yield(c.c));
    ReadsOne(toks, pos, LParen);
    ReadsOne(toks, q, RParen);
  }

  lemma ReadsCall(toks: seq<Token>, pos: nat, c: Cst, q: nat)
    requires c.Call? && q == pos + 2 + |Yield(c.c)|
    ensures Reads(toks, pos, Yield(c)) <==>
              && pos + 1 < |toks| && toks[pos] == Func(c.f) && toks[pos + 1] == LParen
              && Reads(toks, pos + 2, Yield(c.c))
              && q < |toks| && toks[q] == RParen
    ensures q + 1 == pos + |Yield(c)|
  {
    ReadsSplit(toks, pos, [Func(c.f), LParen] + Yield(c.c), [RParen]);
    ReadsSplit(toks, pos, [Func(c.f), LParen], Yield(c.c));
    ReadsSplit(toks, pos, [Func(c.f)], [LParen]);
    assert [Func(c.f)] + [LParen] == [Func(c.f), LParen];
    ReadsOne(toks, pos, Func(c.f));
    ReadsOne(toks, pos + 1, LParen);
    ReadsOne(toks, q, RParen);
  }

  // ---------- soundness ----------

  /** The result is a derivation of level lv of exactly the tokens from start to its end. */
  ghost predicate Found(toks: seq<Token>, lv: nat, start: nat, r: Parse) {
    r.Ok? ==> Derives(r.c, lv) && Reads(toks, start, Yield(r.c)) && r.pos == start + |Yield(r.c)|
  }

  /** Whatever the parser accepts is a derivation of its level, of exactly the tokens consumed. */
  lemma {:induction false} Sound(toks: seq<Token>, lv: nat, pos: nat)
    requires lv <= 4 && pos <= |toks|
    ensures Found(toks, lv, pos, P(toks, lv, pos))
    decreases |toks| - pos, 5 - lv, 1
  {
    if lv <= 1 {
      Sound(toks, lv + 1, pos);
      var m := P(toks, lv + 1, pos);
      if m.Ok? {
        DerivesLower(m.c, lv);
        LoopSound(toks, lv, m.c, pos, m.pos);
      }
    } else if lv == 2 {
      PowerSound(toks, pos);
    } else if lv == 3 {
      UnarySound(toks, pos);
    } else {
      AtomSound(toks, pos);
    }
  }

  lemma {:induction false} LoopSound(toks: seq<Token>, lv: nat, c: Cst, start: nat, p: nat)
    requires lv <= 1 && start <= p <= |toks|
    requires Found(toks, lv, start, Ok(c, p))
    ensures Found(toks, lv, start, Loop(toks, lv, c, p))
    decreases |toks| - p, 5 - lv, 0
  {
    if OpAt(toks, p, lv) {
      Sound(toks, lv + 1, p + 1);
      var m := P(toks, lv + 1, p + 1);
      if m.Ok? {
        var c' := Bin(toks[p].id, c, m.c);
        ReadsBin(toks, start, c', p);
        LoopSound(toks, lv, c', start, m.pos);
      }
    }
  }

  lemma {:induction false} PowerSound(toks: seq<Token>, pos: nat)
    requires pos <= |toks|
    ensures Found(toks, 2, pos, Power(toks, pos))
    decreases |toks| - pos, 3, 0
  {
    Sound(toks, 3, pos);
    var l := P(toks, 3, pos);
    if l.Ok? {
      DerivesLower(l.c, 2);
      if OpAt(toks, l.pos, 2) {
        Sound(toks, 2, l.pos + 1);
        var r := P(toks, 2, l.pos + 1);
        if r.Ok? {
          ReadsBin(toks, pos, Bin(POW, l.c, r.c), l.pos);
        }
      }
    }
  }

  lemma {:induction false} UnarySound(toks: seq<Token>, pos: nat)
    requires pos <= |toks|
    ensures Found(toks, 3, pos, Unary(toks, pos))
    decreases |toks| - pos, 2, 0
  {
    if pos < |toks| && toks[pos] == Op(SUB) {
      Sound(toks, 3, pos + 1);
      var m := P(toks, 3, pos + 1);
      if m.Ok? {
        ReadsNeg(toks, pos, Neg(m.c));
      }
    } else {
      Sound(toks, 4, pos);
      var m := P(toks, 4, pos);
      if m.Ok? {
        DerivesLower(m.c, 3);
      }
    }
  }

  lemma {:induction false} AtomSound(toks: seq<Token>, pos: nat)
    requires pos <= |toks|
    ensures Found(toks, 4, pos, Atom(toks, pos))
    decreases |toks| - pos, 1, 0
  {
    if pos < |toks| {
      ReadsOne(toks, pos, toks[pos]);
      if toks[pos] == LParen {
        Sound(toks, 0, pos + 1);
        var m := P(toks, 0, pos + 1);
        if Closed(toks, m) {
          ReadsParen(toks, pos, Paren(m.c), m.pos);
        }
      } else if toks[pos].Func? && pos + 1 < |toks| && toks[pos + 1] == LParen {
        Sound(toks, 0, pos + 2);
        var m := P(toks, 0, pos + 2);
        if Closed(toks, m) {
          ReadsCall(toks, pos, Call(toks[pos].id, m.c), m.pos);
        }
      }
    }
  }

  /** A derivation of one level is one of the level below it. */
  lemma DerivesLower(c: Cst, lv: nat)
    requires Derives(c, lv + 1)
    ensures Derives(c, lv)
  {
  }

  // ---------- completeness ----------

  /** No operator of level lv or tighter follows. */
  predicate Quiet(toks: seq<Token>, p: nat, lv: int) {
    p < |toks| && toks[p].Op? ==> LevelOf(toks[p].id) < lv
  }

  /** c stands at pos, and nothing that follows would make a parse function of level lv go on. */
  ghost predicate Stands(toks: seq<Token>, lv: nat, pos: nat, c: Cst) {
    Derives(c, lv) && Reads(toks, pos, Yield(c)) && Quiet(toks, pos + |Yield(c)|, lv)
  }

  /** Every derivation is what the parser finds at its tokens, provided no operator follows that the
      level would go on with. */
  lemma {:induction false} Complete(toks: seq<Token>, lv: nat, pos: nat, c: Cst, end: nat)
    requires lv <= 4 && Stands(toks, lv, pos, c) && end == pos + |Yield(c)|
    ensures P(toks, lv, pos) == Ok(c, end)
    decreases c, 5 - lv, 1
  {
    if lv <= 1 {
      LoopComplete(toks, lv, pos, c, end);
    } else if lv == 2 {
      PowerComplete(toks, pos, c, end);
    } else if lv == 3 {
      UnaryComplete(toks, pos, c, end);
    } else {
      AtomComplete(toks, pos, c, end);
    }
  }

  lemma {:induction false} LoopComplete(toks: seq<Token>, lv: nat, pos: nat, c: Cst, end: nat)
    requires lv <= 1 && Derives(c, lv) && Reads(toks, pos, Yield(c)) && end == pos + |Yield(c)| && Quiet(toks, end, lv + 1)
    ensures Chain(toks, lv, pos) == Loop(toks, lv, c, end)
    decreases c, 5 - lv, 0
  {
    if Derives(c, lv + 1) {
      Complete(toks, lv + 1, pos, c, end);
      ChainStart(toks, lv, pos, c, end);
    } else {
      LoopCase(c, lv);
      var q := pos + |Yield(c.l)|;
      BinSpread(toks, lv, pos, c, q, end);
      LoopComplete(toks, lv, pos, c.l, q);
      Complete(toks, lv + 1, q + 1, c.r, end);
      LoopStep(toks, lv, c.l, q, c.r, end);
    }
  }

  /** Where the parts of an operator of level lv stand, each with nothing after it that its level would go on with. */
  lemma BinSpread(toks: seq<Token>, lv: nat, pos: nat, c: Cst, q: nat, end: nat)
    requires lv <= 1 && c.Bin? && LevelOf(c.op) == lv && q == pos + |Yield(c.l)|
    requires Reads(toks, pos, Yield(c)) && end == pos + |Yield(c)|
    ensures Reads(toks, pos, Yield(c.l)) && q < |toks| && toks[q] == Op(c.op) && Reads(toks, q + 1, Yield(c.r))
    ensures end == q + 1 + |Yield(c.r)| <= |toks|
    ensures OpAt(toks, q, lv) && Quiet(toks, q, lv + 1)
  {
    ReadsBin(toks, pos, c, q);
  }

  /** What belongs to level lv and not to the next one is an operator of level lv. */
  lemma LoopCase(c: Cst, lv: nat)
    requires lv <= 1 && Derives(c, lv) && !Derives(c, lv + 1)
    ensures c.Bin? && LevelOf(c.op) == lv && Derives(c.l, lv) && Derives(c.r, lv + 1)
  {
  }

  lemma ChainStart(toks: seq<Token>, lv: nat, pos: nat, c: Cst, q: nat)
    requires lv <= 1 && pos <= |toks| && q <= |toks| && P(toks, lv + 1, pos) == Ok(c, q)
    ensures Chain(toks, lv, pos) == Loop(toks, lv, c, q)
  {
  }

  /** One turn of the loop. */
  lemma LoopStep(toks: seq<Token>, lv: nat, l: Cst, p: nat, r: Cst, q: nat)
    requires lv <= 1 && p < |toks| && q <= |toks| && OpAt(toks, p, lv) && P(toks, lv + 1, p + 1) == Ok(r, q)
    ensures Loop(toks, lv, l, p) == Loop(toks, lv, Bin(toks[p].id, l, r), q)
  {
  }

  lemma {:induction false} PowerComplete(toks: seq<Token>, pos: nat, c: Cst, end: nat)
    requires Stands(toks, 2, pos, c) && end == pos + |Yield(c)|
    ensures Power(toks, pos) == Ok(c, end)
    decreases c, 3, 0
  {
    if c.Bin? {
      var q := pos + |Yield(c.l)|;
      ReadsBin(toks, pos, c, q);
      Complete(toks, 3, pos, c.l, q);
      Complete(toks, 2, q + 1, c.r, end);
    } else {
      Complete(toks, 3, pos, c, end);
    }
  }

  lemma {:induction false} UnaryComplete(toks: seq<Token>, pos: nat, c: Cst, end: nat)
    requires Stands(toks, 3, pos, c) && end == pos + |Yield(c)|
    ensures Unary(toks, pos) == Ok(c, end)
    decreases c, 2, 0
  {
    if c.Neg? {
      ReadsNeg(toks, pos, c);
      Complete(toks, 3, pos + 1, c.c, end);
    } else {
      FirstOfAtom(toks, pos, c);
      Complete(toks, 4, pos, c, end);
    }
  }

  lemma {:induction false} AtomComplete(toks: seq<Token>, pos: nat, c: Cst, end: nat)
    requires Stands(toks, 4, pos, c) && end == pos + |Yield(c)|
    ensures Atom(toks, pos) == Ok(c, end)
    decreases c, 1, 0
  {
    match c
    case Lit(t) => ReadsOne(toks, pos, t);
    case Paren(e) =>
      ReadsParen(toks, pos, c, end - 1);
      Complete(toks, 0, pos + 1, e, end - 1);
    case Call(f, e) =>
      ReadsCall(toks, pos, c, end - 1);
      Complete(toks, 0, pos + 2, e, end - 1);
  }

  /** An atom does not start with a minus sign. */
  lemma FirstOfAtom(toks: seq<Token>, pos: nat, c: Cst)
    requires Derives(c, 4) && Reads(toks, pos, Yield(c))
    ensures pos < |toks| && !toks[pos].Op?
  {
    match c
    case Lit(t) => ReadsOne(toks, pos, t);
    case Paren(e) => ReadsParen(toks, pos, c, pos + 1 + |Yield(e)|);
    case Call(f, e) => ReadsCall(toks, pos, c, pos + 2 + |Yield(e)|);
  }

  // ---------- the grammar and the parser are the same thing ----------

  /** A token list that the grammar derives as an expression with this tree. */
  ghost predicate Derivable(toks: seq<Token>, t: Tree) {
    exists c :: Derives(c, 0) && Yield(c) == toks && Strip(c) == t
  }

  /** What `evaluate` accepts: a parse that ends at the last token. */
  predicate Accepted(toks: seq<Token>) {
    P(toks, 0, 0).Ok? && P(toks, 0, 0).pos == |toks|
  }

  /** The parser succeeds with all tokens consumed exactly on the derivable token lists, and finds the
      tree they derive; so no token list derives two trees. */
  lemma ParserIsGrammar(toks: seq<Token>, t: Tree)
    ensures Derivable(toks, t) <==> Accepted(toks) && Strip(P(toks, 0, 0).c) == t
  {
    if Derivable(toks, t) {
      var c :| Derives(c, 0) && Yield(c) == toks && Strip(c) == t;
      assert toks[0..0 + |toks|] == toks;
      Complete(toks, 0, 0, c, |toks|);
    }
    if Accepted(toks) && Strip(P(toks, 0, 0).c) == t {
      Sound(toks, 0, 0);
      assert toks[0..0 + |toks|] == toks;
    }
  }

  lemma Unambiguous(toks: seq<Token>, t: Tree, u: Tree)
    requires Derivable(toks, t) && Derivable(toks, u)
    ensures t == u
  {
    ParserIsGrammar(toks, t);
    ParserIsGrammar(toks, u);
  }

  // ---------- printing ----------

  /** A tree built from the calculator's operators. */
  predicate Printable(t: Tree) {
    match t
    case Value(_) => true
    case Minus(u) => Printable(u)
    case Binary(op, l, r) => LevelOf(op) >= 0 && Printable(l) && Printable(r)
    case Apply(_, u) => Printable(u)
  }

  /** The tightest level a tree fits without parentheses. */
  function Fits(t: Tree): int {
    match t
    case Value(_) => 4
    case Apply(_, _) => 4
    case Minus(_) => 3
    case Binary(op, _, _) => LevelOf(op)
  }

  /** The tree as a derivation of level lv, with parentheses only where the level asks for them. */
  function Unparse(t: Tree, lv: nat): Cst
    decreases t, lv
  {
    if Fits(t) < lv && lv > 0 then Paren(Unparse(t, 0))
    else
      match t
      case Value(v) => Lit(Num(v))
      case Apply(f, u) => Call(f, Unparse(u, 0))
      case Minus(u) => Neg(Unparse(u, 3))
      case Binary(op, l, r) =>
        if op == POW then Bin(op, Unparse(l, 3), Unparse(r, 2))
        else if LevelOf(op) == 1 then Bin(op, Unparse(l, 1), Unparse(r, 2))
        else Bin(op, Unparse(l, 0), Unparse(r, 1))
  }

  function Show(t: Tree): seq<Token> {
    Yield(Unparse(t, 0))
  }

  lemma {:induction false} UnparseDerives(t: Tree, lv: nat)
    requires Printable(t) && lv <= 4
    ensures Derives(Unparse(t, lv), lv) && Strip(Unparse(t, lv)) == t
    decreases t, lv
  {
    if Fits(t) < lv && lv > 0 {
      UnparseDerives(t, 0);
    } else {
      match t
      case Value(_) =>
      case Apply(f, u) => UnparseDerives(u, 0);
      case Minus(u) => UnparseDerives(u, 3);
      case Binary(op, l, r) =>
        if op == POW {
          UnparseDerives(l, 3);
          UnparseDerives(r, 2);
        } else {
          UnparseDerives(l, LevelOf(op));
          UnparseDerives(r, LevelOf(op) + 1);
        }
    }
  }

  /** Parsing inverts printing: the printed tokens of any tree parse back to it, all consumed. */
  lemma ParsePrint(t: Tree)
    requires Printable(t)
    ensures Accepted(Show(t)) && Strip(P(Show(t), 0, 0).c) == t
  {
    UnparseDerives(t, 0);
    ParserIsGrammar(Show(t), t);
  }

  /** The print is the shortest of all token lists that parse to the tree. */
  lemma {:induction false} PrintIsMinimal(t: Tree, lv: nat, c: Cst)
    requires lv <= 4 && Derives(c, lv) && Strip(c) == t
    ensures |Yield(Unparse(t, lv))| <= |Yield(c)|
    decreases c
  {
    match c
    case Lit(tok) =>
    case Paren(e) =>
      PrintIsMinimal(t, 0, e);
      UnparseLevels(t, lv);
    case Call(f, e) => PrintIsMinimal(t.t, 0, e);
    case Neg(e) => PrintIsMinimal(t.t, 3, e);
    case Bin(op, l, r) =>
      if op == POW {
        PrintIsMinimal(t.l, 3, l);
        PrintIsMinimal(t.r, 2, r);
      } else {
        PrintIsMinimal(t.l, LevelOf(op), l);
        PrintIsMinimal(t.r, LevelOf(op) + 1, r);
      }
  }

  /** Asking for a tighter level costs at most one pair of parentheses. */
  lemma UnparseLevels(t: Tree, lv: nat)
    ensures |Yield(Unparse(t, lv))| <= |Yield(Unparse(t, 0))| + 2
  {
  }

  lemma ShowIsShortest(t: Tree, toks: seq<Token>)
    requires Derivable(toks, t)
    ensures |Show(t)| <= |toks|
  {
    var c :| Derives(c, 0) && Yield(c) == toks && Strip(c) == t;
    PrintIsMinimal(t, 0, c);
  }

  // ---------- which operator is inside which ----------

  /** Two operators, the second one inside. */
  lemma InnerRight(a: real, b: real, c: real, op: int, inner: int, lv: nat)
    requires LevelOf(op) == lv && (if op == POW then inner == POW else LevelOf(inner) > lv)
    ensures Derivable([Num(a), Op(op), Num(b), Op(inner), Num(c)], Binary(op, Value(a), Binary(inner, Value(b), Value(c))))
  {
    var x, y, z := Lit(Num(a)), Lit(Num(b)), Lit(Num(c));
    var r := Bin(inner, y, z);
    assert forall k: nat :: Derives(x, k) && Derives(y, k) && Derives(z, k);
    assert Derives(r, lv + 1) || (op == POW && Derives(r, 2));
    assert Yield(r) == [Num(b), Op(inner), Num(c)];
    var d := Bin(op, x, r);
    assert Yield(d) == [Num(a)] + [Op(op)] + [Num(b), Op(inner), Num(c)];
    assert Derives(d, 0) && Yield(d) == [Num(a), Op(op), Num(b), Op(inner), Num(c)];
    assert Strip(r) == Binary(inner, Strip(y), Strip(z)) && Strip(d) == Binary(op, Strip(x), Strip(r));
  }

  /** Two operators, the first one inside. */
  lemma InnerLeft(a: real, b: real, c: real, inner: int, op: int, lv: nat)
    requires op != POW && LevelOf(op) == lv && LevelOf(inner) >= lv
    ensures Derivable([Num(a), Op(inner), Num(b), Op(op), Num(c)], Binary(op, Binary(inner, Value(a), Value(b)), Value(c)))
  {
    var x, y, z := Lit(Num(a)), Lit(Num(b)), Lit(Num(c));
    var l := Bin(inner, x, y);
    assert forall k: nat :: Derives(x, k) && Derives(y, k) && Derives(z, k);
    assert Yield(x) == [Num(a)] && Yield(y) == [Num(b)] && Yield(z) == [Num(c)];
    assert Derives(l, lv);
    assert Yield(l) == Yield(x) + [Op(inner)] + Yield(y);
    var d := Bin(op, l, z);
    assert Yield(d) == [Num(a), Op(inner), Num(b)] + [Op(op)] + [Num(c)];
    assert Derives(d, 0) && Yield(d) == [Num(a), Op(inner), Num(b), Op(op), Num(c)];
    assert Strip(l) == Binary(inner, Strip(x), Strip(y)) && Strip(d) == Binary(op, Strip(l), Strip(z));
  }

  /** A product is inside the sum beside it, whichever comes first, and there is no other reading. */
  lemma ProductInside(a: real, b: real, c: real, sum: int, product: int, t: Tree)
    requires sum in {ADD, SUB} && product in {MUL, DIV, MOD}
    ensures Derivable([Num(a), Op(sum), Num(b), Op(product), Num(c)], t)
            <==> t == Binary(sum, Value(a), Binary(product, Value(b), Value(c)))
    ensures Derivable([Num(a), Op(product), Num(b), Op(sum), Num(c)], t)
            <==> t == Binary(sum, Binary(product, Value(a), Value(b)), Value(c))
  {
    InnerRight(a, b, c, sum, product, 0);
    InnerLeft(a, b, c, product, sum, 0);
    OnlyReading([Num(a), Op(sum), Num(b), Op(product), Num(c)], Binary(sum, Value(a), Binary(product, Value(b), Value(c))), t);
    OnlyReading([Num(a), Op(product), Num(b), Op(sum), Num(c)], Binary(sum, Binary(product, Value(a), Value(b)), Value(c)), t);
  }

  /** A power is inside the sum or product beside it. */
  lemma PowerInside(a: real, b: real, c: real, op: int, t: Tree)
    requires op in {ADD, SUB, MUL, DIV, MOD}
    ensures Derivable([Num(a), Op(op), Num(b), Op(POW), Num(c)], t)
            <==> t == Binary(op, Value(a), Binary(POW, Value(b), Value(c)))
    ensures Derivable([Num(a), Op(POW), Num(b), Op(op), Num(c)], t)
            <==> t == Binary(op, Binary(POW, Value(a), Value(b)), Value(c))
  {
    InnerRight(a, b, c, op, POW, LevelOf(op));
    InnerLeft(a, b, c, POW, op, LevelOf(op));
    OnlyReading([Num(a), Op(op), Num(b), Op(POW), Num(c)], Binary(op, Value(a), Binary(POW, Value(b), Value(c))), t);
    OnlyReading([Num(a), Op(POW), Num(b), Op(op), Num(c)], Binary(op, Binary(POW, Value(a), Value(b)), Value(c)), t);
  }

  lemma OnlyReading(toks: seq<Token>, u: Tree, t: Tree)
    requires Derivable(toks, u)
    ensures Derivable(toks, t) <==> t == u
  {
    if Derivable(toks, t) {
      Unambiguous(toks, t, u);
    }
  }

  /** Sums group to the left, and products do; powers group to the right. */
  lemma Associativity(a: real, b: real, c: real, op: int, op': int, t: Tree)
    requires (op in {ADD, SUB} && op' in {ADD, SUB}) || (op in {MUL, DIV, MOD} && op' in {MUL, DIV, MOD}) || op == op' == POW
    ensures Derivable([Num(a), Op(op), Num(b), Op(op'), Num(c)], t)
            <==> t == if op == POW then Binary(op, Value(a), Binary(op', Value(b), Value(c)))
                      else Binary(op', Binary(op, Value(a), Value(b)), Value(c))
  {
    if op == POW {
      InnerRight(a, b, c, op, op', 2);
      OnlyReading([Num(a), Op(op), Num(b), Op(op'), Num(c)], Binary(op, Value(a), Binary(op', Value(b), Value(c))), t);
    } else {
      InnerLeft(a, b, c, op, op', LevelOf(op'));
      OnlyReading([Num(a), Op(op), Num(b), Op(op'), Num(c)], Binary(op', Binary(op, Value(a), Value(b)), Value(c)), t);
    }
  }

  /** A sign binds tighter than a power. */
  lemma SignedPower(a: real, b: real, t: Tree)
    ensures Derivable([Op(SUB), Num(a), Op(POW), Num(b)], t) <==> t == Binary(POW, Minus(Value(a)), Value(b))
  {
    var x, y := Lit(Num(a)), Lit(Num(b));
    var m := Neg(x);
    assert Derives(x, 3) && Derives(y, 2);
    assert Derives(m, 3) && Yield(m) == [Op(SUB), Num(a)];
    var e := Bin(POW, m, y);
    assert Derives(e, 0) && Yield(e) == [Op(SUB), Num(a), Op(POW), Num(b)];
    assert Strip(m) == Minus(Strip(x)) && Strip(e) == Binary(POW, Strip(m), Strip(y));
    OnlyReading([Op(SUB), Num(a), Op(POW), Num(b)], Binary(POW, Minus(Value(a)), Value(b)), t);
  }
}
