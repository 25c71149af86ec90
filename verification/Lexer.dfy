/** The calculator's tokenizer: as a function of the text still to be read, as the code's scanning loops,
    and as the inverse of spelling. */
module Lexer {
  import opened Options
  import opened Grammar

  predicate IsDigit(c: char) {
    '0' <= c <= '9'
  }

  predicate IsAlpha(c: char) {
    'a' <= c <= 'z' || 'A' <= c <= 'Z'
  }

  predicate IsBlank(c: char) {
    c == ' ' || c == '\t'
  }

  const FUNCTIONS: seq<string> := ["sin", "cos", "tan", "ln", "log", "sqrt", "exp", "asin", "acos", "atan", "abs"]

  function FnId(name: string): int {
    if name == "sin" then 0
    else if name == "cos" then 1
    else if name == "tan" then 2
    else if name == "ln" then 3
    else if name == "log" then 4
    else if name == "sqrt" then 5
    else if name == "exp" then 6
    else if name == "asin" then 7
    else if name == "acos" then 8
    else if name == "atan" then 9
    else if name == "abs" then 10
    else -1
  }

  function OpId(c: char): int {
    if c == '+' then ADD
    else if c == '-' then SUB
    else if c == '*' then MUL
    else if c == '/' then DIV
    else if c == '^' then POW
    else if c == '%' then MOD
    else -1
  }

  const PI := 3.141592653589793
  const E := 2.718281828459045

  /** A word of letters: a constant, a function, or nothing the calculator knows. */
  function Word(name: string): Option<Token> {
    if name == "pi" then Some(Const(PI))
    else if name == "e" then Some(Const(E))
    else if FnId(name) < 0 then None
    else Some(Func(FnId(name)))
  }

  /** Length of the digits, with at most one dot, at the start of s. */
  function NumSpan(s: string, sawDot: bool): (n: nat)
    ensures n <= |s|
  {
    if s == "" then 0
    else if IsDigit(s[0]) then 1 + NumSpan(s[1..], sawDot)
    else if s[0] == '.' && !sawDot then 1 + NumSpan(s[1..], true)
    else 0
  }

  function WordSpan(s: string): (n: nat)
    ensures n <= |s|
  {
    if s != "" && IsAlpha(s[0]) then 1 + WordSpan(s[1..]) else 0
  }

  predicate StartsNumber(s: string) {
    s != "" && (IsDigit(s[0]) || s[0] == '.')
  }

  function Prepend(t: Option<Token>, rest: Option<seq<Token>>): Option<seq<Token>> {
    if t.Some? && rest.Some? then Some([t.value] + rest.value) else None
  }

  /** The token of a character that is not a blank, a letter or the beginning of a number. */
  function Sign(c: char): Option<Token> {
    if c == '(' then Some(LParen)
    else if c == ')' then Some(RParen)
    else if OpId(c) < 0 then None
    else Some(Op(OpId(c)))
  }

  /** The tokens of a text, or None where the code reports a token error. `num` reads a numeral. */
  function Lex(num: string -> real, s: string): Option<seq<Token>>
    decreases |s|
  {
    if s == "" then Some([])
    else if IsBlank(s[0]) then Lex(num, s[1..])
    else if StartsNumber(s) then
      var n := NumSpan(s, false);
      Prepend(Some(Num(num(s[..n]))), Lex(num, s[n..]))
    else if IsAlpha(s[0]) then
      var n := WordSpan(s);
      Prepend(Word(s[..n]), Lex(num, s[n..]))
    else Prepend(Sign(s[0]), Lex(num, s[1..]))
  }

  // ---------- the scanning loops ----------

  method ScanNumber(src: string, start: nat) returns (j: nat)
    requires start <= |src|
    ensures j == start + NumSpan(src[start..], false)
  {
    j := start;
    var sawDot := false;
    while j < |src|
      invariant start <= j <= |src|
      invariant NumSpan(src[start..], false) == j - start + NumSpan(src[j..], sawDot)
    {
      assert src[j..][1..] == src[j + 1..];
      if IsDigit(src[j]) {
        j := j + 1;
      } else if src[j] == '.' && !sawDot {
        sawDot := true;
        j := j + 1;
      } else {
        return;
      }
    }
  }

  method ScanIdent(src: string, start: nat) returns (j: nat)
    requires start <= |src|
    ensures j == start + WordSpan(src[start..])
  {
    j := start;
    while j < |src| && IsAlpha(src[j])
      invariant start <= j <= |src|
      invariant WordSpan(src[start..]) == j - start + WordSpan(src[j..])
    {
      assert src[j..][1..] == src[j + 1..];
      j := j + 1;
    }
  }

  /** The tokens read so far, then those of the rest. */
  function After(done: seq<Token>, rest: Option<seq<Token>>): Option<seq<Token>> {
    if rest.Some? then Some(done + rest.value) else None
  }

  lemma AfterNothing(rest: Option<seq<Token>>)
    ensures After([], rest) == rest
  {
    if rest.Some? {
      assert [] + rest.value == rest.value;
    }
  }

  lemma AfterPrepend(done: seq<Token>, t: Token, rest: Option<seq<Token>>)
    ensures After(done, Prepend(Some(t), rest)) == After(done + [t], rest)
  {
    if rest.Some? {
      assert done + ([t] + rest.value) == done + [t] + rest.value;
    }
  }

  /** One token read: it joins those before it. */
  lemma TokenRead(num: string -> real, toks: seq<Token>, t: Option<Token>, here: string, rest: string,
                  whole: Option<seq<Token>>)
    requires whole == After(toks, Lex(num, here)) && Lex(num, here) == Prepend(t, Lex(num, rest))
    ensures whole == if t.Some? then After(toks + [t.value], Lex(num, rest)) else None
  {
    if t.Some? {
      AfterPrepend(toks, t.value, Lex(num, rest));
    }
  }

  lemma NumberAt(num: string -> real, src: string, i: nat, j: nat)
    requires i < |src| && StartsNumber(src[i..]) && j == i + NumSpan(src[i..], false)
    ensures i < j <= |src| && Lex(num, src[i..]) == Prepend(Some(Num(num(src[i..j]))), Lex(num, src[j..]))
  {
    assert src[i..][..j - i] == src[i..j] && src[i..][j - i..] == src[j..];
  }

  lemma WordAt(num: string -> real, src: string, i: nat, j: nat)
    requires i < |src| && IsAlpha(src[i]) && j == i + WordSpan(src[i..])
    ensures i < j <= |src| && Lex(num, src[i..]) == Prepend(Word(src[i..j]), Lex(num, src[j..]))
  {
    assert src[i..][..j - i] == src[i..j] && src[i..][j - i..] == src[j..];
  }

  lemma SignAt(num: string -> real, src: string, i: nat)
    requires i < |src| && !IsBlank(src[i]) && !StartsNumber(src[i..]) && !IsAlpha(src[i])
    ensures Lex(num, src[i..]) == Prepend(Sign(src[i]), Lex(num, src[i + 1..]))
  {
    assert src[i..][1..] == src[i + 1..];
  }

  lemma BlankAt(num: string -> real, src: string, i: nat)
    requires i < |src| && IsBlank(src[i])
    ensures Lex(num, src[i..]) == Lex(num, src[i + 1..])
  {
    assert src[i..][1..] == src[i + 1..];
  }

  /** The code's loop over the text. */
  method Tokenize(num: string -> real, src: string) returns (toks: seq<Token>, ok: bool)
    ensures if ok then Lex(num, src) == Some(toks) else Lex(num, src) == None
  {
    toks, ok := [], true;
    var i := 0;
    ghost var whole := Lex(num, src);
    assert src[0..] == src;
    AfterNothing(whole);
    while i < |src|
      invariant 0 <= i <= |src|
      invariant whole == After(toks, Lex(num, src[i..]))
      decreases |src| - i
    {
      var c := src[i];
      if IsBlank(c) {
        BlankAt(num, src, i);
        i := i + 1;
      } else if IsDigit(c) || c == '.' {
        var j := ScanNumber(src, i);
        NumberAt(num, src, i, j);
        var t := Num(num(src[i..j]));
        TokenRead(num, toks, Some(t), src[i..], src[j..], whole);
        toks, i := toks + [t], j;
      } else if IsAlpha(c) {
        var j := ScanIdent(src, i);
        WordAt(num, src, i, j);
        var w := Word(src[i..j]);
        TokenRead(num, toks, w, src[i..], src[j..], whole);
        if w.None? {
          return [], false;
        }
        toks, i := toks + [w.value], j;
      } else {
        SignAt(num, src, i);
        TokenRead(num, toks, Sign(c), src[i..], src[i + 1..], whole);
        var t;
        if c == '(' {
          t := LParen;
        } else if c == ')' {
          t := RParen;
        } else {
          if OpId(c) < 0 {
            return [], false;
          }
          t := Op(OpId(c));
        }
        toks, i := toks + [t], i + 1;
      }
    }
    assert src[i..] == "";
    assert toks + [] == toks;
  }

  // ---------- spelling ----------

  /** A text that the number scanner takes whole. */
  predicate Numeral(s: string) {
    StartsNumber(s) && NumSpan(s, false) == |s|
  }

  /** How to write each number: a numeral that reads back as it. */
  ghost predicate Writes(write: real -> string, num: string -> real, v: real) {
    Numeral(write(v)) && num(write(v)) == v
  }

  predicate Known(t: Token) {
    match t
    case Func(f) => 0 <= f < |FUNCTIONS|
    case Op(id) => LevelOf(id) >= 0
    case Const(v) => false
    case _ => true
  }

  function Spell(write: real -> string, t: Token): string
    requires Known(t)
  {
    match t
    case Num(v) => write(v)
    case Func(f) => FUNCTIONS[f]
    case LParen => "("
    case RParen => ")"
    case Op(id) =>
      if id == ADD then "+" else if id == SUB then "-" else if id == MUL then "*"
      else if id == DIV then "/" else if id == POW then "^" else "%"
  }

  /** The text of a token list, without any blanks. */
  function Text(write: real -> string, ts: seq<Token>): string
    requires forall t | t in ts :: Known(t)
  {
    if ts == [] then "" else Spell(write, ts[0]) + Text(write, ts[1..])
  }

  /** No two numbers or names stand side by side. */
  predicate Separated(ts: seq<Token>) {
    forall i | 0 <= i < |ts| - 1 :: IsSymbol(ts[i]) || IsSymbol(ts[i + 1])
  }

  predicate IsSymbol(t: Token) {
    t.Op? || t.LParen? || t.RParen?
  }

  /** A symbol's spelling neither continues a numeral nor a word. */
  predicate Stops(s: string) {
    s == "" || (!IsDigit(s[0]) && s[0] != '.' && !IsAlpha(s[0]))
  }

  lemma {:induction false} NumSpanStops(s: string, rest: string, sawDot: bool)
    requires NumSpan(s, sawDot) == |s| && Stops(rest)
    ensures NumSpan(s + rest, sawDot) == |s|
  {
    if s != "" {
      assert (s + rest)[1..] == s[1..] + rest;
      NumSpanStops(s[1..], rest, if IsDigit(s[0]) then sawDot else true);
    } else {
      assert s + rest == rest;
    }
  }

  lemma {:induction false} WordSpanStops(s: string, rest: string)
    requires forall c | c in s :: IsAlpha(c)
    requires Stops(rest)
    ensures WordSpan(s + rest) == |s|
  {
    if s != "" {
      assert (s + rest)[1..] == s[1..] + rest;
      WordSpanStops(s[1..], rest);
    } else {
      assert s + rest == rest;
    }
  }

  lemma FunctionNames(f: nat)
    requires f < |FUNCTIONS|
    ensures Word(FUNCTIONS[f]) == Some(Func(f)) && FUNCTIONS[f] != ""
    ensures forall c | c in FUNCTIONS[f] :: IsAlpha(c)
  {
    assert f == 0 || f == 1 || f == 2 || f == 3 || f == 4 || f == 5 || f == 6 || f == 7 || f == 8 || f == 9 || f == 10;
  }

  /** The text of one token, followed by something that stops it, is read as that token. */
  lemma LexOne(write: real -> string, num: string -> real, t: Token, rest: string)
    requires Known(t) && (t.Num? ==> Writes(write, num, t.v))
    requires IsSymbol(t) || Stops(rest)
    ensures Lex(num, Spell(write, t) + rest) == Prepend(Some(t), Lex(num, rest))
  {
    var w := Spell(write, t);
    var s := w + rest;
    assert s[|w|..] == rest && s[..|w|] == w;
    match t
    case Num(v) =>
      NumSpanStops(w, rest, false);
      assert s[0] == w[0];
    case Func(f) =>
      FunctionNames(f);
      WordSpanStops(w, rest);
      assert s[0] == w[0] && s[0] in FUNCTIONS[f];
    case Op(id) =>
      assert s[0] == w[0];
    case LParen =>
      assert s[0] == w[0];
    case RParen =>
      assert s[0] == w[0];
    case Const(_) =>
  }

  lemma SymbolStops(write: real -> string, ts: seq<Token>)
    requires forall t | t in ts :: Known(t)
    requires ts == [] || IsSymbol(ts[0])
    ensures Stops(Text(write, ts))
  {
  }

  /** Reading inverts writing, without blanks, on token lists that keep numbers and names apart. */
  lemma {:induction false} LexText(write: real -> string, num: string -> real, ts: seq<Token>)
    requires forall t | t in ts :: Known(t) && (t.Num? ==> Writes(write, num, t.v))
    requires Separated(ts)
    ensures Lex(num, Text(write, ts)) == Some(ts)
  {
    if ts != [] {
      var t, rest := ts[0], ts[1..];
      LexText(write, num, rest);
      if !IsSymbol(t) {
        assert rest == [] || IsSymbol(ts[1]);
        SymbolStops(write, rest);
      }
      LexOne(write, num, t, Text(write, rest));
      assert ts == [t] + rest;
    }
  }

  /** What the grammar derives keeps numbers and names apart. */
  lemma {:induction false} YieldSeparated(c: Cst)
    ensures Separated(Yield(c))
  {
    match c
    case Lit(tok) =>
    case Paren(e) => YieldSeparated(e);
    case Call(f, e) => YieldSeparated(e);
    case Neg(e) => YieldSeparated(e);
    case Bin(op, l, r) =>
      YieldSeparated(l);
      YieldSeparated(r);
  }

  /** Every number of the tree can be written, every function is one of the eleven. */
  ghost predicate Writable(write: real -> string, num: string -> real, t: Tree) {
    match t
    case Value(v) => Writes(write, num, v)
    case Minus(u) => Writable(write, num, u)
    case Apply(f, u) => 0 <= f < |FUNCTIONS| && Writable(write, num, u)
    case Binary(op, l, r) => LevelOf(op) >= 0 && Writable(write, num, l) && Writable(write, num, r)
  }

  lemma {:induction false} WritableTokens(write: real -> string, num: string -> real, t: Tree, lv: nat)
    requires Writable(write, num, t)
    ensures Printable(t)
    ensures forall k | k in Yield(Unparse(t, lv)) :: Known(k) && (k.Num? ==> Writes(write, num, k.v))
    decreases t, lv
  {
    if Fits(t) < lv && lv > 0 {
      WritableTokens(write, num, t, 0);
    } else {
      match t
      case Value(v) =>
      case Apply(f, u) => WritableTokens(write, num, u, 0);
      case Minus(u) => WritableTokens(write, num, u, 3);
      case Binary(op, l, r) =>
        if op == POW {
          WritableTokens(write, num, l, 3);
          WritableTokens(write, num, r, 2);
        } else {
          WritableTokens(write, num, l, LevelOf(op));
          WritableTokens(write, num, r, LevelOf(op) + 1);
        }
    }
  }

  /** From tree to text and back: the text of the shortest token list of a tree is tokenized and parsed to
      that tree. */
  lemma ReadBack(write: real -> string, num: string -> real, t: Tree)
    requires Writable(write, num, t)
    ensures forall k | k in Show(t) :: Known(k)
    ensures Lex(num, Text(write, Show(t))) == Some(Show(t))
    ensures Accepted(Show(t)) && Strip(P(Show(t), 0, 0).c) == t
  {
    WritableTokens(write, num, t, 0);
    YieldSeparated(Unparse(t, 0));
    LexText(write, num, Show(t));
    ParsePrint(t);
  }
}
