/** The calculator's working state: the token list, the parser's position and error flag, the syntax tree
    in five parallel arrays, and the evaluator's sticky error flag. */
module Calculator {
  import opened Options
  import opened Reals
  import opened Grammar
  import opened Lexer

  /** One entry of the five parallel arrays. */
  datatype Node = Node(kind: int, num: real, op: int, left: int, right: int)

  const VALUE := 0
  const BINARY := 1
  const MINUS := 2
  const APPLY := 3

  // ---------- the arena of a tree ----------

  /** The segment of a one-operand node: its operand's segment, then its own entry. */
  function Wrap(kind: int, op: int, a: seq<Node>, base: nat): seq<Node> {
    a + [Node(kind, 0.0, op, base + |a| - 1, -1)]
  }

  /** The segment of a two-operand node: both operands' segments, then its own entry. */
  function Join(op: int, a: seq<Node>, b: seq<Node>, base: nat): seq<Node> {
    a + b + [Node(BINARY, 0.0, op, base + |a| - 1, base + |a| + |b| - 1)]
  }

  /** A tree laid out in post-order from index `base`; the last entry is its root. */
  function Encode(t: Tree, base: nat): (a: seq<Node>)
    ensures |a| > 0
  {
    match t
    case Value(v) => [Node(VALUE, v, 0, -1, -1)]
    case Minus(u) => Wrap(MINUS, 5, Encode(u, base), base)
    case Apply(f, u) => Wrap(APPLY, f, Encode(u, base), base)
    case Binary(op, l, r) =>
      var a := Encode(l, base);
      Join(op, a, Encode(r, base + |a|), base)
  }

  /** How often an entry of `a` names index i as a child. */
  function References(a: seq<Node>, i: int): nat {
    if a == [] then 0
    else References(a[..|a| - 1], i) + (if a[|a| - 1].left == i then 1 else 0) + (if a[|a| - 1].right == i then 1 else 0)
  }

  lemma {:induction false} ReferencesConcat(a: seq<Node>, b: seq<Node>, i: int)
    ensures References(a + b, i) == References(a, i) + References(b, i)
  {
    if b == [] {
      assert a + b == a;
    } else {
      var n := |b| - 1;
      assert (a + b)[..|a + b| - 1] == a + b[..n];
      ReferencesConcat(a, b[..n], i);
    }
  }

  lemma ReferencesOne(n: Node, i: int)
    ensures References([n], i) == (if n.left == i then 1 else 0) + (if n.right == i then 1 else 0)
  {
    assert [n][..0] == [];
  }

  /** A segment from `base` shaped like a tree: entries refer only to earlier entries of the segment, the
      last one is referred to by none of them and every other one by exactly one. */
  ghost predicate TreeShaped(a: seq<Node>, base: nat) {
    && (forall i | 0 <= i < |a| :: a[i].left == -1 || base <= a[i].left < base + i)
    && (forall i | 0 <= i < |a| :: a[i].right == -1 || base <= a[i].right < base + i)
    && (forall i: nat :: References(a, i) == if base <= i < base + |a| - 1 then 1 else 0)
  }

  /** The arena is the tree. */
  lemma {:induction false} ArenaIsTree(t: Tree, base: nat)
    ensures TreeShaped(Encode(t, base), base)
    decreases t
  {
    var a := Encode(t, base);
    var root := a[|a| - 1];
    match t
    case Value(v) =>
      forall i: nat ensures References(a, i) == 0 {
        ReferencesOne(root, i);
      }
    case Minus(u) =>
      ArenaIsTree(u, base);
      UnaryShaped(Encode(u, base), base, root);
    case Apply(f, u) =>
      ArenaIsTree(u, base);
      UnaryShaped(Encode(u, base), base, root);
    case Binary(op, l, r) =>
      var x := Encode(l, base);
      ArenaIsTree(l, base);
      ArenaIsTree(r, base + |x|);
      BinaryShaped(x, Encode(r, base + |x|), base, root);
  }

  lemma UnaryShaped(x: seq<Node>, base: nat, root: Node)
    requires |x| > 0 && TreeShaped(x, base) && root.left == base + |x| - 1 && root.right == -1
    ensures TreeShaped(x + [root], base)
  {
    forall i: nat
      ensures References(x + [root], i) == if base <= i < base + |x| then 1 else 0
    {
      ReferencesConcat(x, [root], i);
      ReferencesOne(root, i);
    }
  }

  lemma BinaryShaped(x: seq<Node>, y: seq<Node>, base: nat, root: Node)
    requires |x| > 0 && |y| > 0 && TreeShaped(x, base) && TreeShaped(y, base + |x|)
    requires root.left == base + |x| - 1 && root.right == base + |x| + |y| - 1
    ensures TreeShaped(x + y + [root], base)
  {
    forall i: nat
      ensures References(x + y + [root], i) == if base <= i < base + |x| + |y| then 1 else 0
    {
      ReferencesConcat(x + y, [root], i);
      ReferencesConcat(x, y, i);
      ReferencesOne(root, i);
    }
  }

  /** Entry idx of the arena, with what it refers to, is the tree t. */
  ghost predicate Stored(a: seq<Node>, idx: int, t: Tree)
    decreases t
  {
    0 <= idx < |a| &&
    match t
    case Value(v) => a[idx].kind == VALUE && a[idx].num == v
    case Minus(u) => a[idx].kind == MINUS && a[idx].left < idx && Stored(a, a[idx].left, u)
    case Apply(f, u) => a[idx].kind == APPLY && a[idx].op == f && a[idx].left < idx && Stored(a, a[idx].left, u)
    case Binary(op, l, r) =>
      && a[idx].kind == BINARY && a[idx].op == op && a[idx].left < idx && a[idx].right < idx
      && Stored(a, a[idx].left, l) && Stored(a, a[idx].right, r)
  }

  /** The entries of `s` stand in `a` from index `base`. */
  ghost predicate Segment(a: seq<Node>, base: nat, s: seq<Node>) {
    base + |s| <= |a| && forall k | 0 <= k < |s| :: a[base + k] == s[k]
  }

  lemma SegmentSplit(a: seq<Node>, base: nat, x: seq<Node>, y: seq<Node>)
    requires Segment(a, base, x + y)
    ensures Segment(a, base, x) && Segment(a, base + |x|, y)
  {
    forall k | 0 <= k < |x| ensures a[base + k] == x[k] {
      assert (x + y)[k] == x[k];
    }
    forall k | 0 <= k < |y| ensures a[base + |x| + k] == y[k] {
      assert a[base + (|x| + k)] == (x + y)[|x| + k];
    }
  }

  /** A segment appended by the parser stores its tree, whatever surrounds it. */
  lemma {:induction false} EncodedIsStored(a: seq<Node>, base: nat, t: Tree)
    requires Segment(a, base, Encode(t, base))
    ensures Stored(a, base + |Encode(t, base)| - 1, t)
    decreases t
  {
    var s := Encode(t, base);
    var root := s[|s| - 1];
    assert a[base + (|s| - 1)] == root;
    match t
    case Value(v) =>
    case Minus(u) =>
      SegmentSplit(a, base, Encode(u, base), [root]);
      EncodedIsStored(a, base, u);
    case Apply(f, u) =>
      SegmentSplit(a, base, Encode(u, base), [root]);
      EncodedIsStored(a, base, u);
    case Binary(op, l, r) =>
      var x := Encode(l, base);
      SegmentSplit(a, base, x + Encode(r, base + |x|), [root]);
      SegmentSplit(a, base, x, Encode(r, base + |x|));
      EncodedIsStored(a, base, l);
      EncodedIsStored(a, base + |x|, r);
  }

  /** An entry stores one tree only. */
  lemma {:induction false} StoredIsUnique(a: seq<Node>, idx: int, t: Tree, u: Tree)
    requires Stored(a, idx, t) && Stored(a, idx, u)
    ensures t == u
    decreases t
  {
    match t
    case Value(v) =>
    case Minus(x) => StoredIsUnique(a, a[idx].left, x, u.t);
    case Apply(f, x) => StoredIsUnique(a, a[idx].left, x, u.t);
    case Binary(op, l, r) =>
      StoredIsUnique(a, a[idx].left, l, u.l);
      StoredIsUnique(a, a[idx].right, r, u.r);
  }

  // ---------- meaning ----------

  /** The mathematical functions the evaluator calls. */
  datatype MathLib = MathLib(pow: (real, real) -> real, sin: real -> real, cos: real -> real, tan: real -> real,
                             log: real -> real, sqrt: real -> real, exp: real -> real,
                             asin: real -> real, acos: real -> real, atan: real -> real)

  function Trunc(x: real): real {
    if x < 0.0 then -((-x).Floor as real) else x.Floor as real
  }

  function Remainder(a: real, b: real): real
    requires b != 0.0
  {
    a - Trunc(a / b) * b
  }

  /** The value of a tree: undefined on a zero divisor, a logarithm of nothing, a root of a negative. */
  function Denote(m: MathLib, t: Tree): Option<real>
    requires m.log(10.0) != 0.0
  {
    match t
    case Value(v) => Some(v)
    case Minus(u) => (match Denote(m, u) case None => None case Some(v) => Some(-v))
    case Apply(f, u) => (match Denote(m, u) case None => None case Some(v) => Call1(m, f, v))
    case Binary(op, l, r) =>
      match (Denote(m, l), Denote(m, r))
      case (Some(a), Some(b)) => Call2(m, op, a, b)
      case _ => None
  }

  function Call2(m: MathLib, op: int, a: real, b: real): Option<real> {
    if op == ADD then Some(a + b)
    else if op == SUB then Some(a - b)
    else if op == MUL then Some(a * b)
    else if op == DIV then if b == 0.0 then None else Some(a / b)
    else if op == POW then Some(m.pow(a, b))
    else if op == MOD then if b == 0.0 then None else Some(Remainder(a, b))
    else None
  }

  function Call1(m: MathLib, f: int, a: real): Option<real>
    requires m.log(10.0) != 0.0
  {
    if f == 0 then Some(m.sin(a))
    else if f == 1 then Some(m.cos(a))
    else if f == 2 then Some(m.tan(a))
    else if f == 3 then if a <= 0.0 then None else Some(m.log(a))
    else if f == 4 then if a <= 0.0 then None else Some(m.log(a) / m.log(10.0))
    else if f == 5 then if a < 0.0 then None else Some(m.sqrt(a))
    else if f == 6 then Some(m.exp(a))
    else if f == 7 then Some(m.asin(a))
    else if f == 8 then Some(m.acos(a))
    else if f == 9 then Some(m.atan(a))
    else if f == 10 then Some(Abs(a))
    else None
  }

  /** The remainder of the code keeps the sign of the dividend and is smaller than the divisor. */
  lemma RemainderSign(m: MathLib, a: real, b: real, r: real)
    requires b != 0.0 && Call2(m, MOD, a, b) == Some(r)
    ensures Abs(r) < Abs(b) && (a >= 0.0 ==> r >= 0.0) && (a <= 0.0 ==> r <= 0.0)
  {
    QuotientTimes(a, b);
    RemainderForm(a / b, a, b, r);
  }

  lemma QuotientTimes(a: real, b: real)
    requires b != 0.0
    ensures a / b * b == a
  {
  }

  lemma RemainderForm(q: real, a: real, b: real, r: real)
    requires b != 0.0 && q * b == a && r == a - Trunc(q) * b
    ensures Abs(r) < Abs(b) && (a >= 0.0 ==> r >= 0.0) && (a <= 0.0 ==> r <= 0.0)
  {
    var f := q - Trunc(q);
    assert f * b == r;
    if q >= 0.0 {
      assert 0.0 <= f < 1.0;
    } else {
      assert -1.0 < f <= 0.0;
    }
    FractionTimes(f, b);
    SameSign(q, b, a);
  }

  lemma SameSign(q: real, b: real, a: real)
    requires a == q * b && b != 0.0
    ensures (a > 0.0 <==> (q > 0.0 && b > 0.0) || (q < 0.0 && b < 0.0)) && (a == 0.0 <==> q == 0.0)
  {
  }

  lemma FractionTimes(f: real, b: real)
    requires -1.0 < f < 1.0 && b != 0.0
    ensures Abs(f * b) < Abs(b)
    ensures (f >= 0.0) == (f * b >= 0.0) || f == 0.0 || b < 0.0
    ensures f == 0.0 || ((f > 0.0) == (b > 0.0) <==> f * b > 0.0)
  {
    if b > 0.0 {
      assert -b < f * b < b;
    } else {
      assert b < f * b < -b;
    }
  }

  // ---------- the machine ----------

  /** Appending the segments of two operands and their operator's entry appends the operator's segment. */
  lemma JoinGrows(w: seq<Node>, mid: seq<Node>, after: seq<Node>, a: seq<Node>, b: seq<Node>, op: int)
    requires mid == w + a && after == mid + b
    ensures after + [Node(BINARY, 0.0, op, |mid| - 1, |after| - 1)] == w + Join(op, a, b, |w|)
  {
    var n := [Node(BINARY, 0.0, op, |w| + |a| - 1, |w| + |a| + |b| - 1)];
    assert w + a + b + n == w + (a + b + n);
  }

  /** `after` is `before` followed by the segment of t. */
  ghost predicate Extends(before: seq<Node>, t: Tree, after: seq<Node>) {
    after == before + Encode(t, |before|)
  }

  lemma GrownBinary(before: seq<Node>, mid: seq<Node>, after: seq<Node>, op: int, t: Tree, u: Tree)
    requires mid == before + Encode(t, |before|)
    requires after == mid + Encode(u, |mid|)
    ensures after + [Node(BINARY, 0.0, op, |mid| - 1, |after| - 1)] == before + Encode(Binary(op, t, u), |before|)
  {
    var a, b := Encode(t, |before|), Encode(u, |mid|);
    JoinGrows(before, mid, after, a, b, op);
    EncodeBinary(op, t, u, |before|, |mid|);
    var whole := Encode(Binary(op, t, u), |before|);
    assert whole == Join(op, a, b, |before|);
  }

  lemma StripBin(op: int, l: Cst, r: Cst)
    ensures Strip(Bin(op, l, r)) == Binary(op, Strip(l), Strip(r))
  {
  }

  /** An application in parentheses, once its argument is found and the closing one stands. */
  lemma CallStrip(toks: seq<Token>, p0: nat, c: Cst, q: nat)
    requires p0 + 1 < |toks| && toks[p0].Func? && toks[p0 + 1] == LParen
    requires Chain(toks, 0, p0 + 2) == Ok(c, q) && q < |toks| && toks[q] == RParen
    ensures Atom(toks, p0) == Ok(Call(toks[p0].id, c), q + 1)
    ensures Strip(Call(toks[p0].id, c)) == Apply(toks[p0].id, Strip(c))
  {
    Dispatch(toks, p0 + 2);
  }

  lemma EncodeBinary(op: int, l: Tree, r: Tree, base: nat, next: nat)
    requires next == base + |Encode(l, base)|
    ensures Encode(Binary(op, l, r), base) == Join(op, Encode(l, base), Encode(r, next), base)
  {
  }

  lemma GrownUnary(before: seq<Node>, after: seq<Node>, kind: int, op: int, u: Tree)
    requires after == before + Encode(u, |before|)
    ensures after + [Node(kind, 0.0, op, |after| - 1, -1)] == before + Wrap(kind, op, Encode(u, |before|), |before|)
  {
  }

  /** Five parallel arrays as one sequence of entries. */
  ghost function Zip(kinds: seq<int>, nums: seq<real>, ops: seq<int>, lefts: seq<int>, rights: seq<int>): (a: seq<Node>)
    requires |kinds| == |nums| == |ops| == |lefts| == |rights|
    ensures |a| == |kinds|
  {
    seq(|kinds|, i requires 0 <= i < |kinds| => Node(kinds[i], nums[i], ops[i], lefts[i], rights[i]))
  }

  class Machine {
    var toks: seq<Token>
    var pos: nat
    var parseError: int
    var nKind: seq<int>
    var nNum: seq<real>
    var nOp: seq<int>
    var nLeft: seq<int>
    var nRight: seq<int>
    var evalError: int

    /** The five arrays keep one length, and the position stays in the token list. */
    ghost predicate Shaped()
      reads this
    {
      |nNum| == |nKind| && |nOp| == |nKind| && |nLeft| == |nKind| && |nRight| == |nKind| && pos <= |toks|
    }

    /** The five arrays as one sequence of entries. */
    ghost function Arena(): (a: seq<Node>)
      requires Shaped()
      reads this
    {
      Zip(nKind, nNum, nOp, nLeft, nRight)
    }

    /** The arena has grown by exactly the segment of tree t, and idx is its root. */
    ghost predicate Grown(before: seq<Node>, t: Tree, idx: int)
      requires Shaped()
      reads this
    {
      Extends(before, t, Arena()) && idx == |Arena()| - 1
    }

    /** The outcome of a parse function, against the grammar's parser; earlier entries are never changed. */
    ghost predicate Parsed(r: Parse, before: seq<Node>, idx: int)
      reads this
    {
      Shaped() &&
      match r
      case Ok(c, q) => parseError == 0 && pos == q && Grown(before, Strip(c), idx)
      case Fail => parseError != 0 && idx == -1 && before <= Arena()
    }

    constructor ()
      ensures Shaped() && toks == [] && Arena() == []
    {
      toks, pos, parseError, evalError := [], 0, 0, 0;
      nKind, nNum, nOp, nLeft, nRight := [], [], [], [], [];
    }

    /** A new entry over the last two segments makes one segment of them. */
    method NewBinary(op: int, lhs: int, rhs: int, ghost before: seq<Node>, ghost mid: seq<Node>, ghost t: Tree, ghost u: Tree)
      returns (idx: int)
      requires Shaped() && Extends(before, t, mid) && lhs == |mid| - 1 && Grown(mid, u, rhs)
      modifies `nKind, `nNum, `nOp, `nLeft, `nRight
      ensures Shaped() && Grown(before, Binary(op, t, u), idx)
    {
      GrownBinary(before, mid, Arena(), op, t, u);
      idx := NewNode(BINARY, 0.0, op, lhs, rhs);
    }

    /** A new entry over the last segment. */
    method NewUnary(kind: int, op: int, child: int, ghost before: seq<Node>, ghost u: Tree, ghost t: Tree) returns (idx: int)
      requires Shaped() && Grown(before, u, child)
      requires (kind == MINUS && op == 5 && t == Minus(u)) || (kind == APPLY && t == Apply(op, u))
      modifies `nKind, `nNum, `nOp, `nLeft, `nRight
      ensures Shaped() && Grown(before, t, idx)
    {
      GrownUnary(before, Arena(), kind, op, u);
      idx := NewNode(kind, 0.0, op, child, -1);
    }

    method NewNode(kind: int, num: real, op: int, left: int, right: int) returns (idx: int)
      requires Shaped()
      modifies `nKind, `nNum, `nOp, `nLeft, `nRight
      ensures Shaped() && Arena() == old(Arena()) + [Node(kind, num, op, left, right)] && idx == |Arena()| - 1
    {
      nKind := nKind + [kind];
      nNum := nNum + [num];
      nOp := nOp + [op];
      nLeft := nLeft + [left];
      nRight := nRight + [right];
      return |nKind| - 1;
    }

    /** expr := term (('+' | '-') term)* */
    method ParseExpr() returns (lhs: int)
      requires Shaped() && parseError == 0
      modifies `pos, `parseError, `nKind, `nNum, `nOp, `nLeft, `nRight
      ensures Parsed(Chain(toks, 0, old(pos)), old(Arena()), lhs)
      decreases |toks| - pos, 5
    {
      ghost var p0, before, tk := pos, Arena(), toks;
      Dispatch(tk, pos);
      lhs := ParseTerm();
      if parseError != 0 { return -1; }
      ghost var c := Chain(tk, 1, p0).c;
      while pos < |toks| && toks[pos].Op? && toks[pos].id in {ADD, SUB}
        invariant Shaped() && before <= Arena() && toks == tk
        invariant Chain(tk, 0, p0) == Loop(tk, 0, c, pos)
        invariant parseError == 0 && p0 < pos && Grown(before, Strip(c), lhs)
        decreases |toks| - pos
      {
        ghost var at := pos;
        lhs := AddTerm(lhs, before, Strip(c), c);
        if parseError != 0 { return; }
        StripBin(tk[at].id, c, Chain(tk, 1, at + 1).c);
        c := Bin(tk[at].id, c, Chain(tk, 1, at + 1).c);
      }
    }

    /** One turn of the loop of level 0: an operator and its right operand, joined to what was read so far. */
    method AddTerm(lhs: int, ghost before: seq<Node>, ghost t: Tree, ghost c: Cst) returns (idx: int)
      requires Shaped() && parseError == 0 && pos < |toks| && OpAt(toks, pos, 0)
      requires t == Strip(c) && Grown(before, t, lhs)
      modifies `pos, `parseError, `nKind, `nNum, `nOp, `nLeft, `nRight
      ensures Shaped() && before <= Arena()
      ensures var at := old(pos);
              match Chain(toks, 1, at + 1)
              case Ok(r, q) =>
                && parseError == 0 && pos == q > at && Grown(before, Binary(toks[at].id, t, Strip(r)), idx)
                && Loop(toks, 0, c, at) == Loop(toks, 0, Bin(toks[at].id, c, r), q)
              case Fail => parseError != 0 && idx == -1 && Loop(toks, 0, c, at) == Fail
      decreases |toks| - pos, 5
    {
      ghost var tk, at, mid := toks, pos, Arena();
      var op := toks[pos].id;
      pos := pos + 1;
      Dispatch(tk, pos);
      idx := ParseTerm();
      if parseError != 0 { return -1; }
      ghost var r := Chain(tk, 1, at + 1).c;
      idx := NewBinary(op, lhs, idx, before, mid, t, Strip(r));
      LoopStep(tk, 0, c, at, r, pos);
    }

    /** term := power (('*' | '/' | '%') power)* */
    method ParseTerm() returns (lhs: int)
      requires Shaped() && parseError == 0
      modifies `pos, `parseError, `nKind, `nNum, `nOp, `nLeft, `nRight
      ensures Parsed(Chain(toks, 1, old(pos)), old(Arena()), lhs)
      decreases |toks| - pos, 4
    {
      ghost var p0, before, tk := pos, Arena(), toks;
      Dispatch(tk, pos);
      lhs := ParsePower();
      if parseError != 0 { return -1; }
      ghost var c := Power(tk, p0).c;
      while pos < |toks| && toks[pos].Op? && toks[pos].id in {MUL, DIV, MOD}
        invariant Shaped() && before <= Arena() && toks == tk
        invariant Chain(tk, 1, p0) == Loop(tk, 1, c, pos)
        invariant parseError == 0 && p0 < pos && Grown(before, Strip(c), lhs)
        decreases |toks| - pos
      {
        ghost var at := pos;
        lhs := MultiplyPower(lhs, before, Strip(c), c);
        if parseError != 0 { return; }
        StripBin(tk[at].id, c, Power(tk, at + 1).c);
        c := Bin(tk[at].id, c, Power(tk, at + 1).c);
      }
    }

    /** One turn of the loop of level 1: an operator and its right operand, joined to what was read so far. */
    method MultiplyPower(lhs: int, ghost before: seq<Node>, ghost t: Tree, ghost c: Cst) returns (idx: int)
      requires Shaped() && parseError == 0 && pos < |toks| && OpAt(toks, pos, 1)
      requires t == Strip(c) && Grown(before, t, lhs)
      modifies `pos, `parseError, `nKind, `nNum, `nOp, `nLeft, `nRight
      ensures Shaped() && before <= Arena()
      ensures var at := old(pos);
              match Power(toks, at + 1)
              case Ok(r, q) =>
                && parseError == 0 && pos == q > at && Grown(before, Binary(toks[at].id, t, Strip(r)), idx)
                && Loop(toks, 1, c, at) == Loop(toks, 1, Bin(toks[at].id, c, r), q)
              case Fail => parseError != 0 && idx == -1 && Loop(toks, 1, c, at) == Fail
      decreases |toks| - pos, 4
    {
      ghost var tk, at, mid := toks, pos, Arena();
      var op := toks[pos].id;
      pos := pos + 1;
      Dispatch(tk, pos);
      idx := ParsePower();
      if parseError != 0 { return -1; }
      ghost var r := Power(tk, at + 1).c;
      idx := NewBinary(op, lhs, idx, before, mid, t, Strip(r));
      LoopStep(tk, 1, c, at, r, pos);
    }

    /** power := unary ('^' power)? */
    method ParsePower() returns (idx: int)
      requires Shaped() && parseError == 0
      modifies `pos, `parseError, `nKind, `nNum, `nOp, `nLeft, `nRight
      ensures Parsed(Power(toks, old(pos)), old(Arena()), idx)
      decreases |toks| - pos, 3
    {
      ghost var p0, before, tk := pos, Arena(), toks;
      Dispatch(tk, pos);
      var lhs := ParseUnary();
      if parseError != 0 { return -1; }
      if pos < |toks| && toks[pos] == Op(POW) {
        idx := Raise(lhs, before, Unary(tk, p0).c);
        return;
      }
      return lhs;
    }

    /** The operator of a power and its exponent, joined to the base. */
    method Raise(lhs: int, ghost before: seq<Node>, ghost l: Cst) returns (idx: int)
      requires Shaped() && parseError == 0 && pos < |toks| && toks[pos] == Op(POW)
      requires Grown(before, Strip(l), lhs)
      modifies `pos, `parseError, `nKind, `nNum, `nOp, `nLeft, `nRight
      ensures var r := Power(toks, old(pos) + 1);
              Parsed(if r.Ok? then Ok(Bin(POW, l, r.c), r.pos) else Fail, before, idx)
      decreases |toks| - pos, 3
    {
      ghost var tk, mid := toks, Arena();
      pos := pos + 1;
      Dispatch(tk, pos);
      ghost var r := Power(tk, pos);
      var rhs := ParsePower();
      if parseError != 0 { return -1; }
      StripBin(POW, l, r.c);
      idx := NewBinary(POW, lhs, rhs, before, mid, Strip(l), Strip(r.c));
    }

    /** unary := '-' unary | atom */
    method ParseUnary() returns (idx: int)
      requires Shaped() && parseError == 0
      modifies `pos, `parseError, `nKind, `nNum, `nOp, `nLeft, `nRight
      ensures Parsed(Unary(toks, old(pos)), old(Arena()), idx)
      decreases |toks| - pos, 2
    {
      Dispatch(toks, pos);
      if pos < |toks| && toks[pos] == Op(SUB) {
        idx := Negate();
      } else {
        idx := ParseAtom();
      }
    }

    /** A minus sign and what it negates. */
    method Negate() returns (idx: int)
      requires Shaped() && parseError == 0 && pos < |toks| && toks[pos] == Op(SUB)
      modifies `pos, `parseError, `nKind, `nNum, `nOp, `nLeft, `nRight
      ensures Parsed(Unary(toks, old(pos)), old(Arena()), idx)
      decreases |toks| - pos, 1
    {
      ghost var before, r := Arena(), Unary(toks, pos + 1);
      pos := pos + 1;
      Dispatch(toks, pos);
      var child := ParseUnary();
      if parseError != 0 { return -1; }
      idx := NewUnary(MINUS, 5, child, before, Strip(r.c), Minus(Strip(r.c)));
    }

    /** atom := number | const | '(' expr ')' | func '(' expr ')' */
    method ParseAtom() returns (idx: int)
      requires Shaped() && parseError == 0
      modifies `pos, `parseError, `nKind, `nNum, `nOp, `nLeft, `nRight
      ensures Parsed(Atom(toks, old(pos)), old(Arena()), idx)
      decreases |toks| - pos, 1
    {
      ghost var p0, before, tk := pos, Arena(), toks;
      if pos < |toks| && (toks[pos].Num? || toks[pos].Const?) {
        var v := toks[pos].v;
        pos := pos + 1;
        idx := NewNode(VALUE, v, 0, -1, -1);
        return;
      }
      if pos < |toks| && toks[pos] == LParen {
        pos := pos + 1;
        Dispatch(tk, pos);
        idx := ParseInner();
        return;
      }
      if pos < |toks| && toks[pos].Func? {
        idx := ParseCall();
        return;
      }
      parseError := 1;
      return -1;
    }

    /** func '(' expr ')' */
    method ParseCall() returns (idx: int)
      requires Shaped() && parseError == 0 && pos < |toks| && toks[pos].Func?
      modifies `pos, `parseError, `nKind, `nNum, `nOp, `nLeft, `nRight
      ensures Parsed(Atom(toks, old(pos)), old(Arena()), idx)
      decreases |toks| - pos, 0
    {
      ghost var p0, before, tk := pos, Arena(), toks;
      var fid := toks[pos].id;
      pos := pos + 1;
      if pos >= |toks| || toks[pos] != LParen {
        parseError := 1;
        return -1;
      }
      pos := pos + 1;
      Dispatch(tk, pos);
      var arg := ParseInner();
      if parseError != 0 { return -1; }
      ghost var m := Chain(tk, 0, p0 + 2);
      CallStrip(tk, p0, m.c, m.pos);
      idx := NewUnary(APPLY, fid, arg, before, Strip(m.c), Apply(fid, Strip(m.c)));
    }

    /** expr ')' */
    method ParseInner() returns (idx: int)
      requires Shaped() && parseError == 0
      modifies `pos, `parseError, `nKind, `nNum, `nOp, `nLeft, `nRight
      ensures var m := Chain(toks, 0, old(pos));
              Parsed(if Closed(toks, m) then Ok(m.c, m.pos + 1) else Fail, old(Arena()), idx)
      decreases |toks| - pos, 6
    {
      idx := ParseExpr();
      if parseError != 0 { return -1; }
      if pos >= |toks| || toks[pos] != RParen {
        parseError := 1;
        return -1;
      }
      pos := pos + 1;
    }

    /** Evaluates entry idx. The flag is sticky: it is raised exactly when the tree has no value, never
        lowered, and when it has one that value is returned. */
    method EvalNode(m: MathLib, idx: int, ghost t: Tree) returns (r: real)
      requires Shaped() && Stored(Arena(), idx, t) && m.log(10.0) != 0.0
      modifies `evalError
      ensures evalError == if Denote(m, t).None? then 1 else old(evalError)
      ensures Denote(m, t).Some? ==> r == Denote(m, t).value
      decreases idx
    {
      ghost var a := Arena();
      assert a[idx] == Node(nKind[idx], nNum[idx], nOp[idx], nLeft[idx], nRight[idx]);
      var k := nKind[idx];
      if k == VALUE {
        return nNum[idx];
      }
      if k == MINUS {
        var v := EvalNode(m, nLeft[idx], t.t);
        return -v;
      }
      if k == BINARY {
        var x := EvalNode(m, nLeft[idx], t.l);
        var y := EvalNode(m, nRight[idx], t.r);
        r := Operate(m, nOp[idx], x, y);
        return;
      }
      var x := EvalNode(m, nLeft[idx], t.t);
      r := CallFunction(m, nOp[idx], x);
    }

    /** The operators of a binary entry. */
    method Operate(m: MathLib, op: int, a: real, b: real) returns (r: real)
      modifies `evalError
      ensures evalError == if Call2(m, op, a, b).None? then 1 else old(evalError)
      ensures Call2(m, op, a, b).Some? ==> r == Call2(m, op, a, b).value
    {
      if op == ADD { return a + b; }
      if op == SUB { return a - b; }
      if op == MUL { return a * b; }
      if op == DIV {
        if b == 0.0 {
          evalError := 1;
          return 0.0;
        }
        return a / b;
      }
      if op == POW { return m.pow(a, b); }
      if op == MOD {
        if b == 0.0 {
          evalError := 1;
          return 0.0;
        }
        return a - Trunc(a / b) * b;
      }
      evalError := 1;
      return 0.0;
    }

    /** The functions of a call entry. */
    method CallFunction(m: MathLib, fid: int, a: real) returns (r: real)
      requires m.log(10.0) != 0.0
      modifies `evalError
      ensures evalError == if Call1(m, fid, a).None? then 1 else old(evalError)
      ensures Call1(m, fid, a).Some? ==> r == Call1(m, fid, a).value
    {
      if fid == 0 { return m.sin(a); }
      if fid == 1 { return m.cos(a); }
      if fid == 2 { return m.tan(a); }
      if fid == 3 || fid == 4 {
        if a <= 0.0 {
          evalError := 1;
          return 0.0;
        }
        return if fid == 3 then m.log(a) else m.log(a) / m.log(10.0);
      }
      if fid == 5 {
        if a < 0.0 {
          evalError := 1;
          return 0.0;
        }
        return m.sqrt(a);
      }
      if fid == 6 { return m.exp(a); }
      if fid == 7 { return m.asin(a); }
      if fid == 8 { return m.acos(a); }
      if fid == 9 { return m.atan(a); }
      if fid == 10 { return Abs(a); }
      evalError := 1;
      return 0.0;
    }

    method ResetAst()
      modifies `nKind, `nNum, `nOp, `nLeft, `nRight
      ensures nKind == [] && nNum == [] && nOp == [] && nLeft == [] && nRight == []
    {
      nKind, nNum, nOp, nLeft, nRight := [], [], [], [], [];
    }

    /** Parses a token list into an empty arena; the tree derived, if any, is stored at the root returned. */
    method ReadTree(ts: seq<Token>) returns (root: int)
      modifies this
      ensures toks == ts && (parseError == 0 && pos == |toks| <==> Accepted(ts))
      ensures Accepted(ts) ==> Shaped() && Stored(Arena(), root, Strip(P(ts, 0, 0).c))
    {
      toks := ts;
      ResetAst();
      pos, parseError := 0, 0;
      root := ParseExpr();
      Dispatch(ts, 0);
      if parseError == 0 && pos == |ts| {
        StoredAlone(Arena(), Strip(P(ts, 0, 0).c));
      }
    }

    /** The equals key: text in, value or one of the three errors out. */
    method Evaluate(m: MathLib, num: string -> real, src: string) returns (out: Answer)
      requires m.log(10.0) != 0.0
      modifies this
      ensures out == AnswerOf(m, num, src)
    {
      if src == "" { return Nothing; }
      var ts, ok := Tokenize(num, src);
      if !ok { return ErrToken; }
      var root := ReadTree(ts);
      if parseError != 0 || pos != |toks| { return ErrParse; }
      evalError := 0;
      var v := EvalNode(m, root, Strip(P(ts, 0, 0).c));
      if evalError != 0 { return ErrMath; }
      return Result(v);
    }
  }

  lemma StoredAlone(a: seq<Node>, t: Tree)
    requires Extends([], t, a)
    ensures Stored(a, |a| - 1, t)
  {
    assert a == Encode(t, 0);
    EncodedIsStored(a, 0, t);
  }

  // ---------- what the equals key answers ----------

  datatype Answer = Nothing | ErrToken | ErrParse | ErrMath | Result(v: real)

  /** The answer by definition: derive the tokens of the text, then take the value of the tree. */
  function AnswerOf(m: MathLib, num: string -> real, src: string): Answer
    requires m.log(10.0) != 0.0
  {
    if src == "" then Nothing
    else
      match Lex(num, src)
      case None => ErrToken
      case Some(ts) =>
        if !Accepted(ts) then ErrParse
        else
          match Denote(m, Strip(P(ts, 0, 0).c))
          case None => ErrMath
          case Some(v) => Result(v)
  }

  /** The answer against the grammar alone: which error, if any, depends on derivability and on the value of
      the one tree derived. */
  lemma AnswerByGrammar(m: MathLib, num: string -> real, src: string, ts: seq<Token>, t: Tree)
    requires m.log(10.0) != 0.0 && src != "" && Lex(num, src) == Some(ts)
    ensures AnswerOf(m, num, src) == ErrParse <==> !exists u :: Derivable(ts, u)
    ensures Derivable(ts, t) ==>
              AnswerOf(m, num, src) == if Denote(m, t).Some? then Result(Denote(m, t).value) else ErrMath
  {
    ParserIsGrammar(ts, t);
    if Accepted(ts) {
      ParserIsGrammar(ts, Strip(P(ts, 0, 0).c));
    }
    forall u | Derivable(ts, u)
      ensures Accepted(ts)
    {
      ParserIsGrammar(ts, u);
    }
  }

  /** Typing the text of the shortest token list of an expression and pressing equals answers its value. */
  lemma AnswersItsValue(m: MathLib, write: real -> string, num: string -> real, t: Tree)
    requires m.log(10.0) != 0.0 && Writable(write, num, t)
    ensures forall k | k in Show(t) :: Known(k)
    ensures AnswerOf(m, num, Text(write, Show(t)))
         == if Denote(m, t).Some? then Result(Denote(m, t).value) else ErrMath
  {
    ReadBack(write, num, t);
    assert Lex(num, "") == Some([]);
  }
}
