/** Formulas as they are written: sums of products of powers of signed operands, each with the value that school
    arithmetic gives it. Neither the levels nor the operators of the calculator occur in these definitions. What
    is typed as a formula is answered with its value. */
module Formulas {
  import opened Options
  import opened Reals
  import opened Lexer
  import Grammar
  import Calculator

  datatype Sum = OneProduct(p: Product) | Plus(s: Sum, p: Product) | Less(s: Sum, p: Product)

  datatype Product = OnePower(w: Power) | Times(p: Product, w: Power) | Over(p: Product, w: Power) | Rest(p: Product, w: Power)

  datatype Power = OneSigned(g: Signed) | Raised(g: Signed, w: Power)

  datatype Signed = OneOperand(o: Operand) | Negative(g: Signed)

  datatype Operand = Number(digits: string) | Pi | Euler | Group(s: Sum) | Applied(f: Name, s: Sum)

  datatype Name = Sin | Cos | Tan | Ln | Log | Sqrt | Exp | Asin | Acos | Atan | Abs

  // ---------- how they are written ----------

  function NameText(f: Name): string {
    match f
    case Sin => "sin"
    case Cos => "cos"
    case Tan => "tan"
    case Ln => "ln"
    case Log => "log"
    case Sqrt => "sqrt"
    case Exp => "exp"
    case Asin => "asin"
    case Acos => "acos"
    case Atan => "atan"
    case Abs => "abs"
  }

  function SumText(s: Sum): string {
    match s
    case OneProduct(p) => ProductText(p)
    case Plus(s, p) => SumText(s) + ("+" + ProductText(p))
    case Less(s, p) => SumText(s) + ("-" + ProductText(p))
  }

  function ProductText(p: Product): string {
    match p
    case OnePower(w) => PowerText(w)
    case Times(p, w) => ProductText(p) + ("*" + PowerText(w))
    case Over(p, w) => ProductText(p) + ("/" + PowerText(w))
    case Rest(p, w) => ProductText(p) + ("%" + PowerText(w))
  }

  function PowerText(w: Power): string {
    match w
    case OneSigned(g) => SignedText(g)
    case Raised(g, w) => SignedText(g) + ("^" + PowerText(w))
  }

  function SignedText(g: Signed): string {
    match g
    case OneOperand(o) => OperandText(o)
    case Negative(g) => "-" + SignedText(g)
  }

  function OperandText(o: Operand): string {
    match o
    case Number(digits) => digits
    case Pi => "pi"
    case Euler => "e"
    case Group(s) => "(" + (SumText(s) + ")")
    case Applied(f, s) => NameText(f) + ("(" + (SumText(s) + ")"))
  }

  /** Digits with at most one dot among them. */
  predicate IsNumeral(s: string) {
    && s != "" && (forall i | 0 <= i < |s| :: '0' <= s[i] <= '9' || s[i] == '.')
    && forall i, j | 0 <= i < j < |s| :: !(s[i] == '.' && s[j] == '.')
  }

  predicate SumOk(s: Sum) {
    match s
    case OneProduct(p) => ProductOk(p)
    case Plus(s, p) => SumOk(s) && ProductOk(p)
    case Less(s, p) => SumOk(s) && ProductOk(p)
  }

  predicate ProductOk(p: Product) {
    match p
    case OnePower(w) => PowerOk(w)
    case Times(p, w) => ProductOk(p) && PowerOk(w)
    case Over(p, w) => ProductOk(p) && PowerOk(w)
    case Rest(p, w) => ProductOk(p) && PowerOk(w)
  }

  predicate PowerOk(w: Power) {
    match w
    case OneSigned(g) => SignedOk(g)
    case Raised(g, w) => SignedOk(g) && PowerOk(w)
  }

  predicate SignedOk(g: Signed) {
    match g
    case OneOperand(o) => OperandOk(o)
    case Negative(g) => SignedOk(g)
  }

  predicate OperandOk(o: Operand) {
    match o
    case Number(digits) => IsNumeral(digits)
    case Pi => true
    case Euler => true
    case Group(s) => SumOk(s)
    case Applied(f, s) => SumOk(s)
  }

  // ---------- what they are worth ----------

  /** What is left of a after taking b off as often as it goes into a, sizes only; with the sign of a. */
  function Left(a: real, b: real): real
    requires b != 0.0
  {
    var size := Reals.Abs(a) - (Reals.Abs(a) / Reals.Abs(b)).Floor as real * Reals.Abs(b);
    if a < 0.0 then -size else size
  }

  function Multiplied(a: real, b: real): real {
    a * b
  }

  function Value(m: Calculator.MathLib, f: Name, a: real): Option<real>
    requires m.log(10.0) != 0.0
  {
    match f
    case Sin => Some(m.sin(a))
    case Cos => Some(m.cos(a))
    case Tan => Some(m.tan(a))
    case Ln => if a > 0.0 then Some(m.log(a)) else None
    case Log => if a > 0.0 then Some(m.log(a) / m.log(10.0)) else None
    case Sqrt => if a >= 0.0 then Some(m.sqrt(a)) else None
    case Exp => Some(m.exp(a))
    case Asin => Some(m.asin(a))
    case Acos => Some(m.acos(a))
    case Atan => Some(m.atan(a))
    case Abs => Some(if a >= 0.0 then a else -a)
  }

  function SumValue(m: Calculator.MathLib, num: string -> real, s: Sum): Option<real>
    requires m.log(10.0) != 0.0
  {
    match s
    case OneProduct(p) => ProductValue(m, num, p)
    case Plus(s, p) =>
      var a, b := SumValue(m, num, s), ProductValue(m, num, p);
      if a.Some? && b.Some? then Some(a.value + b.value) else None
    case Less(s, p) =>
      var a, b := SumValue(m, num, s), ProductValue(m, num, p);
      if a.Some? && b.Some? then Some(a.value - b.value) else None
  }

  function ProductValue(m: Calculator.MathLib, num: string -> real, p: Product): Option<real>
    requires m.log(10.0) != 0.0
  {
    match p
    case OnePower(w) => PowerValue(m, num, w)
    case Times(p, w) =>
      var a, b := ProductValue(m, num, p), PowerValue(m, num, w);
      if a.Some? && b.Some? then Some(Multiplied(a.value, b.value)) else None
    case Over(p, w) =>
      var a, b := ProductValue(m, num, p), PowerValue(m, num, w);
      if a.Some? && b.Some? && b.value != 0.0 then Some(a.value / b.value) else None
    case Rest(p, w) =>
      var a, b := ProductValue(m, num, p), PowerValue(m, num, w);
      if a.Some? && b.Some? && b.value != 0.0 then Some(Left(a.value, b.value)) else None
  }

  function PowerValue(m: Calculator.MathLib, num: string -> real, w: Power): Option<real>
    requires m.log(10.0) != 0.0
  {
    match w
    case OneSigned(g) => SignedValue(m, num, g)
    case Raised(g, w) =>
      var a, b := SignedValue(m, num, g), PowerValue(m, num, w);
      if a.Some? && b.Some? then Some(m.pow(a.value, b.value)) else None
  }

  function SignedValue(m: Calculator.MathLib, num: string -> real, g: Signed): Option<real>
    requires m.log(10.0) != 0.0
  {
    match g
    case OneOperand(o) => OperandValue(m, num, o)
    case Negative(g) =>
      var a := SignedValue(m, num, g);
      if a.Some? then Some(0.0 - a.value) else None
  }

  function OperandValue(m: Calculator.MathLib, num: string -> real, o: Operand): Option<real>
    requires m.log(10.0) != 0.0
  {
    match o
    case Number(digits) => Some(num(digits))
    case Pi => Some(3.141592653589793)
    case Euler => Some(2.718281828459045)
    case Group(s) => SumValue(m, num, s)
    case Applied(f, s) =>
      var a := SumValue(m, num, s);
      if a.Some? then Value(m, f, a.value) else None
  }

  // ---------- the derivation of a formula ----------

  function Id(f: Name): int {
    match f
    case Sin => FnId("sin")
    case Cos => FnId("cos")
    case Tan => FnId("tan")
    case Ln => FnId("ln")
    case Log => FnId("log")
    case Sqrt => FnId("sqrt")
    case Exp => FnId("exp")
    case Asin => FnId("asin")
    case Acos => FnId("acos")
    case Atan => FnId("atan")
    case Abs => FnId("abs")
  }

  function SumCst(num: string -> real, s: Sum): Grammar.Cst {
    match s
    case OneProduct(p) => ProductCst(num, p)
    case Plus(s, p) => Grammar.Bin(Grammar.ADD, SumCst(num, s), ProductCst(num, p))
    case Less(s, p) => Grammar.Bin(Grammar.SUB, SumCst(num, s), ProductCst(num, p))
  }

  function ProductCst(num: string -> real, p: Product): Grammar.Cst {
    match p
    case OnePower(w) => PowerCst(num, w)
    case Times(p, w) => Grammar.Bin(Grammar.MUL, ProductCst(num, p), PowerCst(num, w))
    case Over(p, w) => Grammar.Bin(Grammar.DIV, ProductCst(num, p), PowerCst(num, w))
    case Rest(p, w) => Grammar.Bin(Grammar.MOD, ProductCst(num, p), PowerCst(num, w))
  }

  function PowerCst(num: string -> real, w: Power): Grammar.Cst {
    match w
    case OneSigned(g) => SignedCst(num, g)
    case Raised(g, w) => Grammar.Bin(Grammar.POW, SignedCst(num, g), PowerCst(num, w))
  }

  function SignedCst(num: string -> real, g: Signed): Grammar.Cst {
    match g
    case OneOperand(o) => OperandCst(num, o)
    case Negative(g) => Grammar.Neg(SignedCst(num, g))
  }

  function OperandCst(num: string -> real, o: Operand): Grammar.Cst {
    match o
    case Number(digits) => Grammar.Lit(Grammar.Num(num(digits)))
    case Pi => Grammar.Lit(Grammar.Const(PI))
    case Euler => Grammar.Lit(Grammar.Const(E))
    case Group(s) => Grammar.Paren(SumCst(num, s))
    case Applied(f, s) => Grammar.Call(Id(f), SumCst(num, s))
  }

  /** A sum is an expression of the calculator's grammar, a product a term, and so on. */
  lemma {:induction false} SumDerives(num: string -> real, s: Sum)
    ensures Grammar.Derives(SumCst(num, s), 0)
  {
    match s
    case OneProduct(p) => ProductDerives(num, p);
    case Plus(s, p) => SumDerives(num, s); ProductDerives(num, p);
    case Less(s, p) => SumDerives(num, s); ProductDerives(num, p);
  }

  lemma {:induction false} ProductDerives(num: string -> real, p: Product)
    ensures Grammar.Derives(ProductCst(num, p), 1) && Grammar.Derives(ProductCst(num, p), 0)
  {
    match p
    case OnePower(w) => PowerDerives(num, w);
    case Times(p, w) => ProductDerives(num, p); PowerDerives(num, w);
    case Over(p, w) => ProductDerives(num, p); PowerDerives(num, w);
    case Rest(p, w) => ProductDerives(num, p); PowerDerives(num, w);
  }

  lemma {:induction false} PowerDerives(num: string -> real, w: Power)
    ensures forall lv: nat | lv <= 2 :: Grammar.Derives(PowerCst(num, w), lv)
  {
    match w
    case OneSigned(g) => SignedDerives(num, g);
    case Raised(g, w) => SignedDerives(num, g); PowerDerives(num, w);
  }

  lemma {:induction false} SignedDerives(num: string -> real, g: Signed)
    ensures forall lv: nat | lv <= 3 :: Grammar.Derives(SignedCst(num, g), lv)
  {
    match g
    case OneOperand(o) => OperandDerives(num, o);
    case Negative(g) => SignedDerives(num, g);
  }

  lemma {:induction false} OperandDerives(num: string -> real, o: Operand)
    ensures forall lv: nat | lv <= 4 :: Grammar.Derives(OperandCst(num, o), lv)
  {
    match o
    case Number(_) =>
    case Pi =>
    case Euler =>
    case Group(s) => SumDerives(num, s);
    case Applied(f, s) => SumDerives(num, s);
  }

  // ---------- reading what is written ----------

  lemma {:induction false} Dotted(s: string, sawDot: bool)
    ensures NumSpan(s, sawDot) == |s| <==>
              && (forall i | 0 <= i < |s| :: '0' <= s[i] <= '9' || (s[i] == '.' && !sawDot))
              && forall i, j | 0 <= i < j < |s| :: !(s[i] == '.' && s[j] == '.')
  {
    if s != "" {
      var more := sawDot || s[0] == '.';
      Dotted(s[1..], more);
      assert forall i | 0 < i < |s| :: s[i] == s[1..][i - 1];
      assert forall i | 0 <= i < |s[1..]| :: s[1..][i] == s[i + 1];
    }
  }

  /** What the scanner takes whole are exactly the digits with at most one dot among them. */
  lemma NumeralExact(s: string)
    ensures Numeral(s) <==> IsNumeral(s)
  {
    Dotted(s, false);
  }

  lemma AfterAfter(a: seq<Grammar.Token>, b: seq<Grammar.Token>, rest: Option<seq<Grammar.Token>>)
    ensures After(a, After(b, rest)) == After(a + b, rest)
  {
    if rest.Some? {
      assert a + (b + rest.value) == a + b + rest.value;
    }
  }

  lemma SymbolReads(num: string -> real, c: char, rest: string)
    requires c in {'+', '-', '*', '/', '%', '^', '(', ')'}
    ensures Lex(num, [c] + rest)
            == After([if c == '+' then Grammar.Op(Grammar.ADD) else if c == '-' then Grammar.Op(Grammar.SUB)
                      else if c == '*' then Grammar.Op(Grammar.MUL) else if c == '/' then Grammar.Op(Grammar.DIV)
                      else if c == '%' then Grammar.Op(Grammar.MOD) else if c == '^' then Grammar.Op(Grammar.POW)
                      else if c == '(' then Grammar.LParen else Grammar.RParen], Lex(num, rest))
    ensures Stops([c] + rest)
  {
    assert ([c] + rest)[0] == c && ([c] + rest)[1..] == rest;
  }

  lemma NumberReads(num: string -> real, digits: string, rest: string)
    requires IsNumeral(digits) && Stops(rest)
    ensures Lex(num, digits + rest) == After([Grammar.Num(num(digits))], Lex(num, rest))
  {
    NumeralExact(digits);
    NumSpanStops(digits, rest, false);
    var s := digits + rest;
    assert s[0] == digits[0] && s[..|digits|] == digits && s[|digits|..] == rest;
  }

  lemma WordReads(num: string -> real, word: string, t: Grammar.Token, rest: string)
    requires word != "" && (forall c | c in word :: IsAlpha(c)) && Word(word) == Some(t) && Stops(rest)
    ensures Lex(num, word + rest) == After([t], Lex(num, rest))
  {
    WordSpanStops(word, rest);
    var s := word + rest;
    assert s[0] == word[0] && s[0] in word && s[..|word|] == word && s[|word|..] == rest;
  }

  lemma NameReads(f: Name)
    ensures Word(NameText(f)) == Some(Grammar.Func(Id(f))) && NameText(f) != ""
    ensures forall c | c in NameText(f) :: IsAlpha(c)
  {
  }

  lemma ConstantReads(num: string -> real, word: string, v: real, rest: string)
    requires (word == "pi" && v == PI) || (word == "e" && v == E)
    requires Stops(rest)
    ensures Lex(num, word + rest) == After([Grammar.Const(v)], Lex(num, rest))
  {
    WordReads(num, word, Grammar.Const(v), rest);
  }

  /** Two pieces with a symbol between them. */
  lemma PairReads(num: string -> real, left: string, c: char, right: string, rest: string,
                  a: seq<Grammar.Token>, t: Grammar.Token, b: seq<Grammar.Token>)
    requires Lex(num, left + ([c] + (right + rest))) == After(a, Lex(num, [c] + (right + rest)))
    requires Lex(num, [c] + (right + rest)) == After([t], Lex(num, right + rest))
    requires Lex(num, right + rest) == After(b, Lex(num, rest))
    ensures Lex(num, left + ([c] + right) + rest) == After(a + [t] + b, Lex(num, rest))
  {
    assert left + ([c] + right) + rest == left + ([c] + (right + rest));
    AfterAfter([t], b, Lex(num, rest));
    AfterAfter(a, [t] + b, Lex(num, rest));
    assert a + ([t] + b) == a + [t] + b;
  }

  lemma {:induction false} SumReads(num: string -> real, s: Sum, rest: string)
    requires SumOk(s) && Stops(rest)
    ensures Lex(num, SumText(s) + rest) == After(Grammar.Yield(SumCst(num, s)), Lex(num, rest))
    decreases s, 0
  {
    match s
    case OneProduct(p) => ProductReads(num, p, rest);
    case Plus(l, p) =>
      SymbolReads(num, '+', ProductText(p) + rest);
      SumReads(num, l, ['+'] + (ProductText(p) + rest));
      ProductReads(num, p, rest);
      PairReads(num, SumText(l), '+', ProductText(p), rest, Grammar.Yield(SumCst(num, l)), Grammar.Op(Grammar.ADD),
                Grammar.Yield(ProductCst(num, p)));
    case Less(l, p) =>
      SymbolReads(num, '-', ProductText(p) + rest);
      SumReads(num, l, ['-'] + (ProductText(p) + rest));
      ProductReads(num, p, rest);
      PairReads(num, SumText(l), '-', ProductText(p), rest, Grammar.Yield(SumCst(num, l)), Grammar.Op(Grammar.SUB),
                Grammar.Yield(ProductCst(num, p)));
  }

  lemma {:induction false} ProductReads(num: string -> real, p: Product, rest: string)
    requires ProductOk(p) && Stops(rest)
    ensures Lex(num, ProductText(p) + rest) == After(Grammar.Yield(ProductCst(num, p)), Lex(num, rest))
    decreases p, 1
  {
    match p
    case OnePower(w) => PowerReads(num, w, rest);
    case Times(l, w) => FactorReads(num, p, l, '*', w, rest, Grammar.Op(Grammar.MUL));
    case Over(l, w) => FactorReads(num, p, l, '/', w, rest, Grammar.Op(Grammar.DIV));
    case Rest(l, w) => FactorReads(num, p, l, '%', w, rest, Grammar.Op(Grammar.MOD));
  }

  lemma {:induction false} FactorReads(num: string -> real, p: Product, l: Product, c: char, w: Power, rest: string,
                                       t: Grammar.Token)
    requires p in {Times(l, w), Over(l, w), Rest(l, w)} && ProductOk(l) && PowerOk(w) && Stops(rest)
    requires (c, t) in {('*', Grammar.Op(Grammar.MUL)), ('/', Grammar.Op(Grammar.DIV)), ('%', Grammar.Op(Grammar.MOD))}
    ensures Lex(num, ProductText(l) + ([c] + PowerText(w)) + rest)
            == After(Grammar.Yield(ProductCst(num, l)) + [t] + Grammar.Yield(PowerCst(num, w)), Lex(num, rest))
    decreases p, 0
  {
    SymbolReads(num, c, PowerText(w) + rest);
    ProductReads(num, l, [c] + (PowerText(w) + rest));
    PowerReads(num, w, rest);
    PairReads(num, ProductText(l), c, PowerText(w), rest, Grammar.Yield(ProductCst(num, l)), t,
              Grammar.Yield(PowerCst(num, w)));
  }

  lemma {:induction false} PowerReads(num: string -> real, w: Power, rest: string)
    requires PowerOk(w) && Stops(rest)
    ensures Lex(num, PowerText(w) + rest) == After(Grammar.Yield(PowerCst(num, w)), Lex(num, rest))
    decreases w
  {
    match w
    case OneSigned(g) => SignedReads(num, g, rest);
    case Raised(g, r) =>
      SymbolReads(num, '^', PowerText(r) + rest);
      SignedReads(num, g, ['^'] + (PowerText(r) + rest));
      PowerReads(num, r, rest);
      PairReads(num, SignedText(g), '^', PowerText(r), rest, Grammar.Yield(SignedCst(num, g)), Grammar.Op(Grammar.POW),
                Grammar.Yield(PowerCst(num, r)));
  }

  lemma {:induction false} SignedReads(num: string -> real, g: Signed, rest: string)
    requires SignedOk(g) && Stops(rest)
    ensures Lex(num, SignedText(g) + rest) == After(Grammar.Yield(SignedCst(num, g)), Lex(num, rest))
    decreases g
  {
    match g
    case OneOperand(o) => OperandReads(num, o, rest);
    case Negative(h) =>
      SignedReads(num, h, rest);
      SymbolReads(num, '-', SignedText(h) + rest);
      assert "-" + SignedText(h) + rest == ['-'] + (SignedText(h) + rest);
      AfterAfter([Grammar.Op(Grammar.SUB)], Grammar.Yield(SignedCst(num, h)), Lex(num, rest));
  }

  lemma {:induction false} OperandReads(num: string -> real, o: Operand, rest: string)
    requires OperandOk(o) && Stops(rest)
    ensures Lex(num, OperandText(o) + rest) == After(Grammar.Yield(OperandCst(num, o)), Lex(num, rest))
    decreases o
  {
    match o
    case Number(digits) => NumberReads(num, digits, rest);
    case Pi => ConstantReads(num, OperandText(o), PI, rest);
    case Euler => ConstantReads(num, OperandText(o), E, rest);
    case Group(s) => GroupReads(num, s, rest);
    case Applied(f, s) =>
      GroupReads(num, s, rest);
      AppliedReads(num, f, s, Grammar.Yield(SumCst(num, s)), rest);
  }

  lemma AppliedReads(num: string -> real, f: Name, s: Sum, y: seq<Grammar.Token>, rest: string)
    requires y == Grammar.Yield(SumCst(num, s))
    requires Lex(num, "(" + (SumText(s) + ")") + rest) == After([Grammar.LParen] + y + [Grammar.RParen], Lex(num, rest))
    ensures Lex(num, OperandText(Applied(f, s)) + rest) == After(Grammar.Yield(OperandCst(num, Applied(f, s))), Lex(num, rest))
  {
    CallReads(num, f, SumText(s) + ")", y, rest);
    assert [Grammar.Func(Id(f)), Grammar.LParen] + y + [Grammar.RParen]
        == [Grammar.Func(Id(f))] + ([Grammar.LParen] + y + [Grammar.RParen]);
  }

  lemma CallReads(num: string -> real, f: Name, inner: string, y: seq<Grammar.Token>, rest: string)
    requires Lex(num, "(" + inner + rest) == After([Grammar.LParen] + y + [Grammar.RParen], Lex(num, rest))
    ensures Lex(num, NameText(f) + ("(" + inner) + rest)
            == After([Grammar.Func(Id(f))] + ([Grammar.LParen] + y + [Grammar.RParen]), Lex(num, rest))
  {
    var group, t := "(" + inner + rest, Grammar.Func(Id(f));
    assert group[0] == '(';
    NameReads(f);
    WordReads(num, NameText(f), t, group);
    assert NameText(f) + ("(" + inner) + rest == NameText(f) + group;
    AfterAfter([t], [Grammar.LParen] + y + [Grammar.RParen], Lex(num, rest));
  }

  lemma {:induction false} GroupReads(num: string -> real, s: Sum, rest: string)
    requires SumOk(s) && Stops(rest)
    ensures Lex(num, "(" + (SumText(s) + ")") + rest)
            == After([Grammar.LParen] + Grammar.Yield(SumCst(num, s)) + [Grammar.RParen], Lex(num, rest))
    decreases s, 1
  {
    var y := Grammar.Yield(SumCst(num, s));
    SymbolReads(num, ')', rest);
    SumReads(num, s, [')'] + rest);
    SymbolReads(num, '(', SumText(s) + ([')'] + rest));
    assert "(" + (SumText(s) + ")") + rest == ['('] + (SumText(s) + ([')'] + rest));
    AfterAfter(y, [Grammar.RParen], Lex(num, rest));
    AfterAfter([Grammar.LParen], y + [Grammar.RParen], Lex(num, rest));
    assert [Grammar.LParen] + (y + [Grammar.RParen]) == [Grammar.LParen] + y + [Grammar.RParen];
  }


  // ---------- the value ----------

  lemma SizeOfQuotient(a: real, b: real)
    requires b != 0.0
    ensures Reals.Abs(a / b) == Reals.Abs(a) / Reals.Abs(b)
    ensures a / b < 0.0 <==> (a < 0.0 && b > 0.0) || (a > 0.0 && b < 0.0)
  {
    var q := a / b;
    assert q * b == a;
    var size := if q < 0.0 then -q else q;
    assert size * Reals.Abs(b) == Reals.Abs(a);
    assert Reals.Abs(a) / Reals.Abs(b) == size;
  }

  /** The remainder of the evaluator is what school division leaves. */
  lemma LeftIsRemainder(a: real, b: real)
    requires b != 0.0
    ensures Left(a, b) == Calculator.Remainder(a, b)
  {
    SizeOfQuotient(a, b);
    var n := (Reals.Abs(a) / Reals.Abs(b)).Floor as real;
    TruncBySize(a / b, n);
    SignedTimes(a, b, n, Calculator.Trunc(a / b));
  }

  lemma TruncBySize(q: real, n: real)
    requires n == Reals.Abs(q).Floor as real
    ensures Calculator.Trunc(q) == if q < 0.0 then -n else n
  {
  }

  lemma SignedTimes(a: real, b: real, n: real, t: real)
    requires b != 0.0 && t == if (a < 0.0 && b > 0.0) || (a > 0.0 && b < 0.0) then -n else n
    requires a == 0.0 ==> n == 0.0
    ensures (if a < 0.0 then -(Reals.Abs(a) - n * Reals.Abs(b)) else Reals.Abs(a) - n * Reals.Abs(b)) == a - t * b
  {
    if b < 0.0 {
      assert n * (-b) == -(n * b);
    }
    assert (-n) * b == -(n * b);
  }

  lemma NameMeans(m: Calculator.MathLib, f: Name, a: real)
    requires m.log(10.0) != 0.0
    ensures Calculator.Call1(m, Id(f), a) == Value(m, f, a)
  {
  }

  lemma {:induction false} SumMeans(m: Calculator.MathLib, num: string -> real, s: Sum)
    requires m.log(10.0) != 0.0
    ensures Calculator.Denote(m, Grammar.Strip(SumCst(num, s))) == SumValue(m, num, s)
  {
    match s
    case OneProduct(p) => ProductMeans(m, num, p);
    case Plus(l, p) => SumMeans(m, num, l); ProductMeans(m, num, p);
    case Less(l, p) => SumMeans(m, num, l); ProductMeans(m, num, p);
  }

  lemma {:induction false} ProductMeans(m: Calculator.MathLib, num: string -> real, p: Product)
    requires m.log(10.0) != 0.0
    ensures Calculator.Denote(m, Grammar.Strip(ProductCst(num, p))) == ProductValue(m, num, p)
  {
    match p
    case OnePower(w) => PowerMeans(m, num, w);
    case Times(l, w) =>
      ProductMeans(m, num, l);
      PowerMeans(m, num, w);
      FactorsMean(m, num, l, w);
    case Over(l, w) =>
      ProductMeans(m, num, l);
      PowerMeans(m, num, w);
      FactorsMean(m, num, l, w);
    case Rest(l, w) =>
      ProductMeans(m, num, l);
      PowerMeans(m, num, w);
      FactorsMean(m, num, l, w);
  }

  /** The three ways to join a product and one more factor. */
  lemma FactorsMean(m: Calculator.MathLib, num: string -> real, l: Product, w: Power)
    requires m.log(10.0) != 0.0
    requires Calculator.Denote(m, Grammar.Strip(ProductCst(num, l))) == ProductValue(m, num, l)
    requires Calculator.Denote(m, Grammar.Strip(PowerCst(num, w))) == PowerValue(m, num, w)
    ensures Calculator.Denote(m, Grammar.Strip(ProductCst(num, Times(l, w)))) == ProductValue(m, num, Times(l, w))
    ensures Calculator.Denote(m, Grammar.Strip(ProductCst(num, Over(l, w)))) == ProductValue(m, num, Over(l, w))
    ensures Calculator.Denote(m, Grammar.Strip(ProductCst(num, Rest(l, w)))) == ProductValue(m, num, Rest(l, w))
  {
    var t, u := Grammar.Strip(ProductCst(num, l)), Grammar.Strip(PowerCst(num, w));
    var a, b := ProductValue(m, num, l), PowerValue(m, num, w);
    assert Grammar.Strip(ProductCst(num, Times(l, w))) == Grammar.Binary(Grammar.MUL, t, u);
    assert Grammar.Strip(ProductCst(num, Over(l, w))) == Grammar.Binary(Grammar.DIV, t, u);
    assert Grammar.Strip(ProductCst(num, Rest(l, w))) == Grammar.Binary(Grammar.MOD, t, u);
    if a.Some? && b.Some? {
      var x, y := a.value, b.value;
      BinaryDenotes(m, Grammar.MUL, t, u, x, y);
      BinaryDenotes(m, Grammar.DIV, t, u, x, y);
      BinaryDenotes(m, Grammar.MOD, t, u, x, y);
      TimesMeans(m, x, y);
      if y != 0.0 {
        RestMeans(m, x, y, Left(x, y));
      }
    }
  }

  lemma BinaryDenotes(m: Calculator.MathLib, op: int, t: Grammar.Tree, u: Grammar.Tree, x: real, y: real)
    requires m.log(10.0) != 0.0 && Calculator.Denote(m, t) == Some(x) && Calculator.Denote(m, u) == Some(y)
    ensures Calculator.Denote(m, Grammar.Binary(op, t, u)) == Calculator.Call2(m, op, x, y)
  {
  }

  lemma MultipliedIs(a: real, b: real, c: real)
    requires c == a * b
    ensures Multiplied(a, b) == c
  {
  }

  lemma TimesMeans(m: Calculator.MathLib, a: real, b: real)
    ensures Calculator.Call2(m, Grammar.MUL, a, b) == Some(Multiplied(a, b))
  {
  }

  lemma RestMeans(m: Calculator.MathLib, a: real, b: real, c: real)
    requires b != 0.0 && c == Left(a, b)
    ensures Calculator.Call2(m, Grammar.MOD, a, b) == Some(c)
  {
    LeftIsRemainder(a, b);
  }

  lemma {:induction false} PowerMeans(m: Calculator.MathLib, num: string -> real, w: Power)
    requires m.log(10.0) != 0.0
    ensures Calculator.Denote(m, Grammar.Strip(PowerCst(num, w))) == PowerValue(m, num, w)
  {
    match w
    case OneSigned(g) => SignedMeans(m, num, g);
    case Raised(g, r) => SignedMeans(m, num, g); PowerMeans(m, num, r);
  }

  lemma {:induction false} SignedMeans(m: Calculator.MathLib, num: string -> real, g: Signed)
    requires m.log(10.0) != 0.0
    ensures Calculator.Denote(m, Grammar.Strip(SignedCst(num, g))) == SignedValue(m, num, g)
  {
    match g
    case OneOperand(o) => OperandMeans(m, num, o);
    case Negative(h) => SignedMeans(m, num, h);
  }

  lemma {:induction false} OperandMeans(m: Calculator.MathLib, num: string -> real, o: Operand)
    requires m.log(10.0) != 0.0
    ensures Calculator.Denote(m, Grammar.Strip(OperandCst(num, o))) == OperandValue(m, num, o)
  {
    match o
    case Number(_) =>
    case Pi =>
    case Euler =>
    case Group(s) => SumMeans(m, num, s);
    case Applied(f, s) =>
      SumMeans(m, num, s);
      var a := SumValue(m, num, s);
      if a.Some? {
        NameMeans(m, f, a.value);
      }
  }

  /** Whatever formula is typed, the equals key answers its value, or the math error when it has none. */
  lemma FormulaAnswered(m: Calculator.MathLib, num: string -> real, s: Sum)
    requires m.log(10.0) != 0.0 && SumOk(s)
    ensures Calculator.AnswerOf(m, num, SumText(s))
            == match SumValue(m, num, s) case Some(v) => Calculator.Result(v) case None => Calculator.ErrMath
  {
    var c := SumCst(num, s);
    var ts := Grammar.Yield(c);
    assert SumText(s) + "" == SumText(s);
    SumReads(num, s, "");
    AfterEnd(num, ts);
    SumDerives(num, s);
    SumMeans(m, num, s);
    assert Grammar.Derivable(ts, Grammar.Strip(c));
    assert SumText(s) != "" by {
      assert Lex(num, "") == Some([]);
    }
    Calculator.AnswerByGrammar(m, num, SumText(s), ts, Grammar.Strip(c));
  }

  lemma AfterEnd(num: string -> real, ts: seq<Grammar.Token>)
    ensures After(ts, Lex(num, "")) == Some(ts)
  {
    assert ts + [] == ts;
  }

  // ---------- what is answered, character by character ----------

  /** The formula is written like this and has this value. */
  predicate SumIs(m: Calculator.MathLib, num: string -> real, s: Sum, text: string, v: Option<real>)
    requires m.log(10.0) != 0.0
  {
    SumOk(s) && SumText(s) == text && SumValue(m, num, s) == v
  }

  predicate ProductIs(m: Calculator.MathLib, num: string -> real, p: Product, text: string, v: Option<real>)
    requires m.log(10.0) != 0.0
  {
    ProductOk(p) && ProductText(p) == text && ProductValue(m, num, p) == v
  }

  predicate PowerIs(m: Calculator.MathLib, num: string -> real, w: Power, text: string, v: Option<real>)
    requires m.log(10.0) != 0.0
  {
    PowerOk(w) && PowerText(w) == text && PowerValue(m, num, w) == v
  }

  predicate SignedIs(m: Calculator.MathLib, num: string -> real, g: Signed, text: string, v: Option<real>)
    requires m.log(10.0) != 0.0
  {
    SignedOk(g) && SignedText(g) == text && SignedValue(m, num, g) == v
  }

  /** One factor alone, one term alone. */
  lemma AloneIs(m: Calculator.MathLib, num: string -> real, g: Signed, text: string, v: Option<real>)
    requires m.log(10.0) != 0.0 && SignedIs(m, num, g, text, v)
    ensures PowerIs(m, num, OneSigned(g), text, v)
    ensures ProductIs(m, num, OnePower(OneSigned(g)), text, v)
  {
    var w := OneSigned(g);
    assert PowerIs(m, num, w, text, v);
  }

  lemma TermIs(m: Calculator.MathLib, num: string -> real, p: Product, text: string, v: Option<real>)
    requires m.log(10.0) != 0.0 && ProductIs(m, num, p, text, v)
    ensures SumIs(m, num, OneProduct(p), text, v)
  {
  }

  lemma NumberIs(m: Calculator.MathLib, num: string -> real, s: string)
    requires m.log(10.0) != 0.0 && IsNumeral(s)
    ensures SignedIs(m, num, OneOperand(Number(s)), s, Some(num(s)))
  {
    var o := Number(s);
    assert OperandOk(o) && OperandText(o) == s && OperandValue(m, num, o) == Some(num(s));
  }

  lemma NegativeIs(m: Calculator.MathLib, num: string -> real, g: Signed, text: string, a: real)
    requires m.log(10.0) != 0.0 && SignedIs(m, num, g, text, Some(a))
    ensures SignedIs(m, num, Negative(g), "-" + text, Some(-a))
  {
  }

  lemma SumsAre(m: Calculator.MathLib, num: string -> real, l: Sum, p: Product, s: string, t: string, a: real, b: real)
    requires m.log(10.0) != 0.0 && SumIs(m, num, l, s, Some(a)) && ProductIs(m, num, p, t, Some(b))
    ensures SumIs(m, num, Plus(l, p), s + "+" + t, Some(a + b)) && SumIs(m, num, Less(l, p), s + "-" + t, Some(a - b))
  {
    assert s + "+" + t == s + ("+" + t) && s + "-" + t == s + ("-" + t);
  }

  lemma ProductsAre(m: Calculator.MathLib, num: string -> real, l: Product, w: Power, s: string, t: string, a: real, b: real)
    requires m.log(10.0) != 0.0 && ProductIs(m, num, l, s, Some(a)) && PowerIs(m, num, w, t, Some(b))
    ensures ProductIs(m, num, Times(l, w), s + "*" + t, Some(Multiplied(a, b)))
    ensures ProductIs(m, num, Over(l, w), s + "/" + t, if b == 0.0 then None else Some(a / b))
    ensures ProductIs(m, num, Rest(l, w), s + "%" + t, if b == 0.0 then None else Some(Left(a, b)))
  {
    assert s + "*" + t == s + ("*" + t) && s + "/" + t == s + ("/" + t) && s + "%" + t == s + ("%" + t);
  }

  lemma PowersAre(m: Calculator.MathLib, num: string -> real, g: Signed, w: Power, s: string, t: string, a: real, b: real)
    requires m.log(10.0) != 0.0 && SignedIs(m, num, g, s, Some(a)) && PowerIs(m, num, w, t, Some(b))
    ensures PowerIs(m, num, Raised(g, w), s + "^" + t, Some(m.pow(a, b)))
    ensures ProductIs(m, num, OnePower(Raised(g, w)), s + "^" + t, Some(m.pow(a, b)))
  {
    assert s + "^" + t == s + ("^" + t);
    var r := Raised(g, w);
    assert PowerIs(m, num, r, s + "^" + t, Some(m.pow(a, b)));
  }

  lemma OperandsAre(m: Calculator.MathLib, num: string -> real, f: Name, s: Sum, text: string, a: real)
    requires m.log(10.0) != 0.0 && SumIs(m, num, s, text, Some(a))
    ensures SignedIs(m, num, OneOperand(Group(s)), "(" + text + ")", Some(a))
    ensures SignedIs(m, num, OneOperand(Applied(f, s)), NameText(f) + "(" + text + ")", Value(m, f, a))
  {
    var g, o := Group(s), Applied(f, s);
    assert NameText(f) + "(" + text + ")" == NameText(f) + ("(" + (text + ")")) && "(" + text + ")" == "(" + (text + ")");
    assert OperandOk(g) && OperandText(g) == "(" + text + ")" && OperandValue(m, num, g) == Some(a);
    assert OperandOk(o) && OperandText(o) == NameText(f) + "(" + text + ")" && OperandValue(m, num, o) == Value(m, f, a);
  }

  lemma SumAnswered(m: Calculator.MathLib, num: string -> real, s: Sum, text: string, v: Option<real>)
    requires m.log(10.0) != 0.0 && SumIs(m, num, s, text, v)
    ensures Calculator.AnswerOf(m, num, text)
            == match v case Some(r) => Calculator.Result(r) case None => Calculator.ErrMath
  {
    FormulaAnswered(m, num, s);
  }

  lemma ProductAnswered(m: Calculator.MathLib, num: string -> real, p: Product, text: string, v: Option<real>)
    requires m.log(10.0) != 0.0 && ProductIs(m, num, p, text, v)
    ensures Calculator.AnswerOf(m, num, text)
            == match v case Some(r) => Calculator.Result(r) case None => Calculator.ErrMath
  {
    TermIs(m, num, p, text, v);
    SumAnswered(m, num, OneProduct(p), text, v);
  }

  function One(digits: string): Power {
    OneSigned(OneOperand(Number(digits)))
  }

  /** A numeral as a signed operand, as a factor, as a term and as a formula. */
  lemma NumeralIs(m: Calculator.MathLib, num: string -> real, s: string)
    requires m.log(10.0) != 0.0 && IsNumeral(s)
    ensures SignedIs(m, num, OneOperand(Number(s)), s, Some(num(s))) && PowerIs(m, num, One(s), s, Some(num(s)))
    ensures ProductIs(m, num, OnePower(One(s)), s, Some(num(s)))
    ensures SumIs(m, num, OneProduct(OnePower(One(s))), s, Some(num(s)))
  {
    NumberIs(m, num, s);
    AloneIs(m, num, OneOperand(Number(s)), s, Some(num(s)));
    TermIs(m, num, OnePower(One(s)), s, Some(num(s)));
  }

  lemma SumsAnswered(m: Calculator.MathLib, num: string -> real, s: string, t: string)
    requires m.log(10.0) != 0.0 && IsNumeral(s) && IsNumeral(t)
    ensures Calculator.AnswerOf(m, num, s + "+" + t) == Calculator.Result(num(s) + num(t))
    ensures Calculator.AnswerOf(m, num, s + "-" + t) == Calculator.Result(num(s) - num(t))
  {
    NumeralIs(m, num, s);
    NumeralIs(m, num, t);
    var l, p := OneProduct(OnePower(One(s))), OnePower(One(t));
    SumsAre(m, num, l, p, s, t, num(s), num(t));
    SumAnswered(m, num, Plus(l, p), s + "+" + t, Some(num(s) + num(t)));
    SumAnswered(m, num, Less(l, p), s + "-" + t, Some(num(s) - num(t)));
  }

  lemma ProductsAnswered(m: Calculator.MathLib, num: string -> real, s: string, t: string, a: real, b: real, c: real)
    requires m.log(10.0) != 0.0 && IsNumeral(s) && IsNumeral(t) && a == num(s) && b == num(t) && c == a * b
    ensures Calculator.AnswerOf(m, num, s + "*" + t) == Calculator.Result(c)
    ensures Calculator.AnswerOf(m, num, s + "/" + t) == if b == 0.0 then Calculator.ErrMath else Calculator.Result(a / b)
    ensures Calculator.AnswerOf(m, num, s + "%" + t) == if b == 0.0 then Calculator.ErrMath else Calculator.Result(Left(a, b))
  {
    NumeralIs(m, num, s);
    NumeralIs(m, num, t);
    var l, w := OnePower(One(s)), One(t);
    ProductsAre(m, num, l, w, s, t, a, b);
    MultipliedIs(a, b, c);
    ProductAnswered(m, num, Times(l, w), s + "*" + t, Some(c));
    ProductAnswered(m, num, Over(l, w), s + "/" + t, if b == 0.0 then None else Some(a / b));
    ProductAnswered(m, num, Rest(l, w), s + "%" + t, if b == 0.0 then None else Some(Left(a, b)));
  }

  /** Powers group to the right, and a sign belongs to the base. */
  lemma PowersAnswered(m: Calculator.MathLib, num: string -> real, s: string, t: string, u: string)
    requires m.log(10.0) != 0.0 && IsNumeral(s) && IsNumeral(t) && IsNumeral(u)
    ensures Calculator.AnswerOf(m, num, s + "^" + t) == Calculator.Result(m.pow(num(s), num(t)))
    ensures Calculator.AnswerOf(m, num, "-" + s + "^" + t) == Calculator.Result(m.pow(-num(s), num(t)))
    ensures Calculator.AnswerOf(m, num, s + "^" + (t + "^" + u)) == Calculator.Result(m.pow(num(s), m.pow(num(t), num(u))))
  {
    NumeralIs(m, num, s);
    NumeralIs(m, num, t);
    NumeralIs(m, num, u);
    var g, w := OneOperand(Number(s)), One(t);
    PowersAre(m, num, g, w, s, t, num(s), num(t));
    ProductAnswered(m, num, OnePower(Raised(g, w)), s + "^" + t, Some(m.pow(num(s), num(t))));
    NegativeIs(m, num, g, s, num(s));
    PowersAre(m, num, Negative(g), w, "-" + s, t, -num(s), num(t));
    ProductAnswered(m, num, OnePower(Raised(Negative(g), w)), "-" + s + "^" + t, Some(m.pow(-num(s), num(t))));
    var h, e := OneOperand(Number(t)), m.pow(num(t), num(u));
    PowersAre(m, num, h, One(u), t, u, num(t), num(u));
    PowersAre(m, num, g, Raised(h, One(u)), s, t + "^" + u, num(s), e);
    ProductAnswered(m, num, OnePower(Raised(g, Raised(h, One(u)))), s + "^" + (t + "^" + u), Some(m.pow(num(s), e)));
  }

  /** Products before sums, on either side; of two differences the left one first. */
  lemma OrderAnswered(m: Calculator.MathLib, num: string -> real, s: string, t: string, u: string,
                      a: real, b: real, c: real, ab: real, bc: real)
    requires m.log(10.0) != 0.0 && IsNumeral(s) && IsNumeral(t) && IsNumeral(u)
    requires a == num(s) && b == num(t) && c == num(u) && ab == a * b && bc == b * c
    ensures Calculator.AnswerOf(m, num, s + "+" + (t + "*" + u)) == Calculator.Result(a + bc)
    ensures Calculator.AnswerOf(m, num, s + "*" + t + "-" + u) == Calculator.Result(ab - c)
    ensures Calculator.AnswerOf(m, num, s + "-" + t + "-" + u) == Calculator.Result(a - b - c)
  {
    NumeralIs(m, num, s);
    NumeralIs(m, num, t);
    NumeralIs(m, num, u);
    var x, y, z := OnePower(One(s)), OnePower(One(t)), OnePower(One(u));
    MultipliedIs(a, b, ab);
    MultipliedIs(b, c, bc);
    ProductsAre(m, num, y, One(u), t, u, b, c);
    SumsAre(m, num, OneProduct(x), Times(y, One(u)), s, t + "*" + u, a, bc);
    SumAnswered(m, num, Plus(OneProduct(x), Times(y, One(u))), s + "+" + (t + "*" + u), Some(a + bc));
    ProductsAre(m, num, x, One(t), s, t, a, b);
    TermIs(m, num, Times(x, One(t)), s + "*" + t, Some(ab));
    SumsAre(m, num, OneProduct(Times(x, One(t))), z, s + "*" + t, u, ab, c);
    SumAnswered(m, num, Less(OneProduct(Times(x, One(t))), z), s + "*" + t + "-" + u, Some(ab - c));
    var d := Less(OneProduct(x), y);
    SumsAre(m, num, OneProduct(x), y, s, t, a, b);
    SumsAre(m, num, d, z, s + "-" + t, u, a - b, c);
    SumAnswered(m, num, Less(d, z), s + "-" + t + "-" + u, Some(a - b - c));
  }

  lemma NameAnswered(m: Calculator.MathLib, num: string -> real, f: Name, name: string, s: string)
    requires m.log(10.0) != 0.0 && IsNumeral(s) && name == NameText(f)
    ensures Calculator.AnswerOf(m, num, name + "(" + s + ")")
            == match Value(m, f, num(s)) case Some(v) => Calculator.Result(v) case None => Calculator.ErrMath
  {
    NumeralIs(m, num, s);
    var whole := OneProduct(OnePower(One(s)));
    OperandsAre(m, num, f, whole, s, num(s));
    AloneIs(m, num, OneOperand(Applied(f, whole)), name + "(" + s + ")", Value(m, f, num(s)));
    ProductAnswered(m, num, OnePower(OneSigned(OneOperand(Applied(f, whole)))), name + "(" + s + ")", Value(m, f, num(s)));
  }

  /** The functions that have a value everywhere. */
  lemma TotalNamesAnswered(m: Calculator.MathLib, num: string -> real, name: string, s: string, a: real)
    requires m.log(10.0) != 0.0 && IsNumeral(s) && a == num(s)
    ensures name == "sin" ==> Calculator.AnswerOf(m, num, name + "(" + s + ")") == Calculator.Result(m.sin(a))
    ensures name == "cos" ==> Calculator.AnswerOf(m, num, name + "(" + s + ")") == Calculator.Result(m.cos(a))
    ensures name == "tan" ==> Calculator.AnswerOf(m, num, name + "(" + s + ")") == Calculator.Result(m.tan(a))
    ensures name == "exp" ==> Calculator.AnswerOf(m, num, name + "(" + s + ")") == Calculator.Result(m.exp(a))
    ensures name == "asin" ==> Calculator.AnswerOf(m, num, name + "(" + s + ")") == Calculator.Result(m.asin(a))
    ensures name == "acos" ==> Calculator.AnswerOf(m, num, name + "(" + s + ")") == Calculator.Result(m.acos(a))
    ensures name == "atan" ==> Calculator.AnswerOf(m, num, name + "(" + s + ")") == Calculator.Result(m.atan(a))
    ensures name == "abs" ==>
              Calculator.AnswerOf(m, num, name + "(" + s + ")") == Calculator.Result(if a < 0.0 then -a else a)
  {
    if name == "sin" { NameAnswered(m, num, Sin, name, s); }
    if name == "cos" { NameAnswered(m, num, Cos, name, s); }
    if name == "tan" { NameAnswered(m, num, Tan, name, s); }
    if name == "exp" { NameAnswered(m, num, Exp, name, s); }
    if name == "asin" { NameAnswered(m, num, Asin, name, s); }
    if name == "acos" { NameAnswered(m, num, Acos, name, s); }
    if name == "atan" { NameAnswered(m, num, Atan, name, s); }
    if name == "abs" { NameAnswered(m, num, Abs, name, s); }
  }

  /** Logarithms of what is above zero and roots of what is not below it; the math error for everything else. */
  lemma PartialNamesAnswered(m: Calculator.MathLib, num: string -> real, name: string, s: string, a: real)
    requires m.log(10.0) != 0.0 && IsNumeral(s) && a == num(s)
    ensures name == "ln" ==> Calculator.AnswerOf(m, num, name + "(" + s + ")")
                             == if a > 0.0 then Calculator.Result(m.log(a)) else Calculator.ErrMath
    ensures name == "log" ==> Calculator.AnswerOf(m, num, name + "(" + s + ")")
                              == if a > 0.0 then Calculator.Result(m.log(a) / m.log(10.0)) else Calculator.ErrMath
    ensures name == "sqrt" ==> Calculator.AnswerOf(m, num, name + "(" + s + ")")
                               == if a >= 0.0 then Calculator.Result(m.sqrt(a)) else Calculator.ErrMath
  {
    if name == "ln" { NameAnswered(m, num, Ln, name, s); }
    if name == "log" { NameAnswered(m, num, Log, name, s); }
    if name == "sqrt" { NameAnswered(m, num, Sqrt, name, s); }
  }

  lemma ConstantsAnswered(m: Calculator.MathLib, num: string -> real)
    requires m.log(10.0) != 0.0
    ensures Calculator.AnswerOf(m, num, "pi") == Calculator.Result(3.141592653589793)
    ensures Calculator.AnswerOf(m, num, "e") == Calculator.Result(2.718281828459045)
  {
    ConstantAnswered(m, num, Pi, "pi", 3.141592653589793);
    ConstantAnswered(m, num, Euler, "e", 2.718281828459045);
  }

  lemma ConstantAnswered(m: Calculator.MathLib, num: string -> real, o: Operand, word: string, v: real)
    requires m.log(10.0) != 0.0 && OperandOk(o) && OperandText(o) == word && OperandValue(m, num, o) == Some(v)
    ensures Calculator.AnswerOf(m, num, word) == Calculator.Result(v)
  {
    assert SignedIs(m, num, OneOperand(o), word, Some(v));
    AloneIs(m, num, OneOperand(o), word, Some(v));
    ProductAnswered(m, num, OnePower(OneSigned(OneOperand(o))), word, Some(v));
  }

  // ---------- what is refused ----------

  /** The characters a formula may hold. */
  predicate Typable(c: char) {
    || c in {' ', '\t', '.', '+', '-', '*', '/', '%', '^', '(', ')'}
    || '0' <= c <= '9' || 'a' <= c <= 'z' || 'A' <= c <= 'Z'
  }

  lemma {:induction false} SpansTypable(s: string, sawDot: bool)
    ensures forall i | 0 <= i < NumSpan(s, sawDot) :: Typable(s[i])
    ensures forall i | 0 <= i < WordSpan(s) :: Typable(s[i])
  {
    if s != "" {
      SpansTypable(s[1..], sawDot);
      SpansTypable(s[1..], true);
      assert forall i | 0 < i < |s| :: s[i] == s[1..][i - 1];
    }
  }

  /** Any other character, wherever it stands, is a token error. */
  lemma {:induction false} OthersRefused(num: string -> real, s: string, i: nat)
    requires i < |s| && !Typable(s[i])
    ensures Lex(num, s) == None
    decreases |s|
  {
    SpansTypable(s, false);
    var n := if IsBlank(s[0]) then 1 else if StartsNumber(s) then NumSpan(s, false)
             else if IsAlpha(s[0]) then WordSpan(s) else 1;
    if i >= n && n > 0 {
      assert s[n..][i - n] == s[i];
      OthersRefused(num, s[n..], i - n);
    }
  }

  /** Blanks before a formula do not matter, nor between two pieces that are read apart anyway. */
  lemma BlankIgnored(num: string -> real, b: char, s: string)
    requires b == ' ' || b == '\t'
    ensures Lex(num, [b] + s) == Lex(num, s)
  {
    assert ([b] + s)[1..] == s;
  }

  /** A word of letters that is none of the thirteen known ones is a token error, whatever follows. */
  lemma UnknownWord(num: string -> real, word: string, rest: string)
    requires word != "" && (forall c | c in word :: 'a' <= c <= 'z' || 'A' <= c <= 'Z')
    requires rest != "" ==> !('a' <= rest[0] <= 'z' || 'A' <= rest[0] <= 'Z')
    requires word !in {"pi", "e", "sin", "cos", "tan", "ln", "log", "sqrt", "exp", "asin", "acos", "atan", "abs"}
    ensures Lex(num, word + rest) == None
  {
    WordSpanWhole(word, rest);
    var s := word + rest;
    assert s[0] == word[0] && s[0] in word && s[..|word|] == word;
    assert Word(word) == None;
  }

  lemma {:induction false} WordSpanWhole(word: string, rest: string)
    requires (forall c | c in word :: IsAlpha(c)) && (rest != "" ==> !IsAlpha(rest[0]))
    ensures WordSpan(word + rest) == |word|
  {
    if word == "" {
      assert word + rest == rest;
    } else {
      assert (word + rest)[1..] == word[1..] + rest && (word + rest)[0] == word[0] && word[0] in word;
      assert forall c | c in word[1..] :: c in word;
      WordSpanWhole(word[1..], rest);
    }
  }

  /** Nothing typed is no answer; what cannot be read is a token error. */
  lemma NotAnswered(m: Calculator.MathLib, num: string -> real, s: string)
    requires m.log(10.0) != 0.0
    ensures Calculator.AnswerOf(m, num, s) == Calculator.Nothing <==> s == ""
    ensures Calculator.AnswerOf(m, num, s) == Calculator.ErrToken <==> s != "" && Lex(num, s) == None
  {
  }

  // ---------- only formulas are answered ----------

  ghost predicate Made(num: string -> real, t: Grammar.Token) {
    match t
    case Num(v) => exists d :: IsNumeral(d) && num(d) == v
    case Const(v) => v == PI || v == E
    case Func(f) => 0 <= f <= 10
    case _ => true
  }

  ghost predicate AllMade(num: string -> real, ts: seq<Grammar.Token>) {
    forall i | 0 <= i < |ts| :: Made(num, ts[i])
  }

  lemma {:induction false} SpanIsNumeral(s: string, sawDot: bool)
    ensures NumSpan(s[..NumSpan(s, sawDot)], sawDot) == NumSpan(s, sawDot)
  {
    var n := NumSpan(s, sawDot);
    if n > 0 {
      var more := sawDot || s[0] == '.';
      SpanIsNumeral(s[1..], more);
      assert s[..n][1..] == s[1..][..n - 1] && s[..n][0] == s[0];
    }
  }

  lemma NumberMade(num: string -> real, s: string, n: nat)
    requires StartsNumber(s) && n == NumSpan(s, false)
    ensures n > 0 && Made(num, Grammar.Num(num(s[..n])))
  {
    SpanIsNumeral(s, false);
    NumeralExact(s[..n]);
  }

  lemma PrependMade(num: string -> real, t: Grammar.Token, ts: seq<Grammar.Token>)
    requires Made(num, t) && AllMade(num, ts)
    ensures AllMade(num, [t] + ts)
  {
  }

  /** The tokens of a text stand for numerals, for the two constants and for the eleven functions. */
  lemma {:induction false} LexMakes(num: string -> real, s: string)
    requires Lex(num, s).Some?
    ensures AllMade(num, Lex(num, s).value)
    decreases |s|
  {
    if s != "" {
      if IsBlank(s[0]) {
        LexMakes(num, s[1..]);
      } else if StartsNumber(s) {
        var n := NumSpan(s, false);
        NumberMade(num, s, n);
        LexMakes(num, s[n..]);
        PrependMade(num, Grammar.Num(num(s[..n])), Lex(num, s[n..]).value);
      } else if IsAlpha(s[0]) {
        var n := WordSpan(s);
        LexMakes(num, s[n..]);
        PrependMade(num, Word(s[..n]).value, Lex(num, s[n..]).value);
      } else {
        LexMakes(num, s[1..]);
        PrependMade(num, Sign(s[0]).value, Lex(num, s[1..]).value);
      }
    }
  }

  function Named(f: int): Name
    requires 0 <= f <= 10
  {
    if f == 0 then Sin else if f == 1 then Cos else if f == 2 then Tan else if f == 3 then Ln else if f == 4 then Log
    else if f == 5 then Sqrt else if f == 6 then Exp else if f == 7 then Asin else if f == 8 then Acos
    else if f == 9 then Atan else Abs
  }

  lemma NamedId(f: int)
    requires 0 <= f <= 10
    ensures Id(Named(f)) == f
  {
  }

  lemma PartsMade(num: string -> real, a: seq<Grammar.Token>, b: seq<Grammar.Token>, c: seq<Grammar.Token>)
    requires AllMade(num, a + b + c)
    ensures AllMade(num, a) && AllMade(num, b) && AllMade(num, c)
  {
    var all := a + b + c;
    assert forall i | 0 <= i < |a| :: a[i] == all[i];
    assert forall i | 0 <= i < |b| :: b[i] == all[|a| + i];
    assert forall i | 0 <= i < |c| :: c[i] == all[|a| + |b| + i];
  }

  /** Every derivation of such tokens is that of a formula. */
  lemma {:induction false} SumFrom(num: string -> real, c: Grammar.Cst) returns (s: Sum)
    requires Grammar.Derives(c, 0) && AllMade(num, Grammar.Yield(c))
    ensures SumOk(s) && SumCst(num, s) == c
    decreases c, 4
  {
    if c.Bin? && (c.op == Grammar.ADD || c.op == Grammar.SUB) {
      PartsMade(num, Grammar.Yield(c.l), [Grammar.Op(c.op)], Grammar.Yield(c.r));
      var l := SumFrom(num, c.l);
      var r := ProductFrom(num, c.r);
      s := if c.op == Grammar.ADD then Plus(l, r) else Less(l, r);
    } else {
      var p := ProductFrom(num, c);
      s := OneProduct(p);
    }
  }

  lemma {:induction false} ProductFrom(num: string -> real, c: Grammar.Cst) returns (p: Product)
    requires Grammar.Derives(c, 1) && AllMade(num, Grammar.Yield(c))
    ensures ProductOk(p) && ProductCst(num, p) == c
    decreases c, 3
  {
    if c.Bin? && c.op != Grammar.POW {
      PartsMade(num, Grammar.Yield(c.l), [Grammar.Op(c.op)], Grammar.Yield(c.r));
      var l := ProductFrom(num, c.l);
      var r := PowerFrom(num, c.r);
      p := if c.op == Grammar.MUL then Times(l, r) else if c.op == Grammar.DIV then Over(l, r) else Rest(l, r);
    } else {
      var w := PowerFrom(num, c);
      p := OnePower(w);
    }
  }

  lemma {:induction false} PowerFrom(num: string -> real, c: Grammar.Cst) returns (w: Power)
    requires Grammar.Derives(c, 2) && AllMade(num, Grammar.Yield(c))
    ensures PowerOk(w) && PowerCst(num, w) == c
    decreases c, 2
  {
    if c.Bin? {
      PartsMade(num, Grammar.Yield(c.l), [Grammar.Op(c.op)], Grammar.Yield(c.r));
      var l := SignedFrom(num, c.l);
      var r := PowerFrom(num, c.r);
      w := Raised(l, r);
    } else {
      var g := SignedFrom(num, c);
      w := OneSigned(g);
    }
  }

  lemma {:induction false} SignedFrom(num: string -> real, c: Grammar.Cst) returns (g: Signed)
    requires Grammar.Derives(c, 3) && AllMade(num, Grammar.Yield(c))
    ensures SignedOk(g) && SignedCst(num, g) == c
    decreases c, 1
  {
    if c.Neg? {
      PartsMade(num, [Grammar.Op(Grammar.SUB)], Grammar.Yield(c.c), []);
      assert [Grammar.Op(Grammar.SUB)] + Grammar.Yield(c.c) + [] == Grammar.Yield(c);
      var h := SignedFrom(num, c.c);
      g := Negative(h);
    } else {
      var o := OperandFrom(num, c);
      g := OneOperand(o);
    }
  }

  lemma {:induction false} OperandFrom(num: string -> real, c: Grammar.Cst) returns (o: Operand)
    requires Grammar.Derives(c, 4) && AllMade(num, Grammar.Yield(c))
    ensures OperandOk(o) && OperandCst(num, o) == c
    decreases c, 0
  {
    match c
    case Lit(t) => o := LiteralFrom(num, t);
    case Paren(e) =>
      PartsMade(num, [Grammar.LParen], Grammar.Yield(e), [Grammar.RParen]);
      var s := SumFrom(num, e);
      o := Group(s);
    case Call(f, e) =>
      PartsMade(num, [Grammar.Func(f), Grammar.LParen], Grammar.Yield(e), [Grammar.RParen]);
      var s := SumFrom(num, e);
      FunctionMade(num, f);
      NamedId(f);
      o := Applied(Named(f), s);
  }

  lemma FunctionMade(num: string -> real, f: int)
    requires AllMade(num, [Grammar.Func(f), Grammar.LParen])
    ensures 0 <= f <= 10
  {
    assert [Grammar.Func(f), Grammar.LParen][0] == Grammar.Func(f);
  }

  lemma LiteralFrom(num: string -> real, t: Grammar.Token) returns (o: Operand)
    requires (t.Num? || t.Const?) && AllMade(num, [t])
    ensures OperandOk(o) && OperandCst(num, o) == Grammar.Lit(t)
  {
    assert Made(num, [t][0]);
    match t
    case Num(v) =>
      var d :| IsNumeral(d) && num(d) == v;
      o := Number(d);
    case Const(v) => o := if v == PI then Pi else Euler;
  }

  /** What is answered with a value or the math error reads like a formula: so the formulas, up to blanks, are exactly
      what the calculator understands. */
  lemma OnlyFormulas(m: Calculator.MathLib, num: string -> real, src: string) returns (s: Sum)
    requires m.log(10.0) != 0.0
    requires Calculator.AnswerOf(m, num, src).Result? || Calculator.AnswerOf(m, num, src).ErrMath?
    ensures SumOk(s) && Lex(num, src) == Lex(num, SumText(s))
  {
    var ts := Lex(num, src).value;
    assert Grammar.Accepted(ts);
    Grammar.Sound(ts, 0, 0);
    var c := Grammar.P(ts, 0, 0).c;
    assert ts[0..0 + |ts|] == ts && Grammar.Yield(c) == ts;
    LexMakes(num, src);
    s := SumFrom(num, c);
    assert SumText(s) + "" == SumText(s);
    SumReads(num, s, "");
    AfterEnd(num, ts);
  }
}
