/**
 What one operation prints, from its tokens to the text.

 The results are stated in plain arithmetic on whole numbers and in terms of which number is printed,
 with units carried over.
 */
module ThemeArithmetic {
  import opened Wrappers
  import opened Numerals
  import opened ThemeMath
  import opened ThemeParser

  /** The table with one variable. */
  ghost function Alone(fmt: Format, v: Var): Env {
    Env(map[v.name := v], fmt, (s: string) => if s == v.name then 1 else 0)
  }

  /** Parsing these tokens into a variable of this type and evaluating it gives this text. */
  ghost predicate Evaluates(fmt: Format, names: Names, gaps: set<nat>, ty: VarType, tokens: seq<string>, text: string)
    requires tokens != []
  {
    var parsed := Math(names, tokens, gaps, 0, [], 0);
    var total := Var("total", ty, List(parsed.values), "", None);
    var env := Alone(fmt, total);
    && parsed.ok && parsed.vars == [] && parsed.pos == |tokens| - 1
    && Valid(env) && OperandsBelow(env.rank, total) && EvalMath(env, total, 0) == text
  }

  function Tokens(keyword: string, left: string, separator: string, right: string): (tokens: seq<string>)
    ensures tokens != []
  {
    [keyword, "(", left, separator, right, ")"]
  }

  /** A unit a number can be written with. */
  predicate IsUnit(unit: string) {
    IsSuffix(unit) && !ExtendsNumeral(unit)
  }

  /** Two units that cannot be combined. */
  predicate Clash(a: string, b: string) {
    a != "" && b != "" && a != b
  }

  function Common(a: string, b: string): string {
    if a != "" then a else b
  }

  // ---- Parsing and evaluating -----------------------------------------------------------------------

  lemma {:induction false} NumberToken(m: nat, u: string)
    requires IsUnit(u)
    ensures
      var text := PrintNat(m) + u;
      IsWritten(Literal(text)) && IsNumber(text) && ReadValue(text) == m as real && ReadSuffix(text) == u
  {
    ReadPrinted(m, u);
    assert (PrintNat(m) + u)[0] == PrintNat(m)[0];
  }

  lemma {:induction false} FlatParsed(names: Names, gaps: set<nat>, e: Expr, a: string, b: string)
    requires IsNode(e) && e.left == Literal(a) && e.right == Literal(b) && IsWritten(e)
    ensures Tokens(Keyword(e), a, Separator(e), b) == Written(e)
    ensures Math(names, Written(e), gaps, 0, [], 0) == Parsed(true, [a, Separator(e), b], [], 5, 0)
  {
    assert At(Written(e), 0, Written(e));
    NodeParsed(names, e, Written(e), gaps, 0, [], 0);
    assert Written(e) == Tokens(Keyword(e), a, Separator(e), b);
    assert OperandEntries(names, e.left, 0) == [] && OperandEntries(names, e.right, 0) == [];
  }

  lemma {:induction false} AloneIsValid(fmt: Format, ty: VarType, a: string, separator: string, b: string)
    requires PrintsNumbers(fmt) && IsMath(ty) && IsNumber(a) && IsNumber(b)
    ensures
      var total := Var("total", ty, List([a, separator, b]), "", None);
      Valid(Alone(fmt, total)) && OperandsBelow(Alone(fmt, total).rank, total)
  {
    var total := Var("total", ty, List([a, separator, b]), "", None);
    assert OperandsBelow(Alone(fmt, total).rank, total);
  }

  /** An operation on two written numbers prints what its computation gives. */
  lemma {:induction false} FlatEvaluates(fmt: Format, names: Names, gaps: set<nat>, e: Expr, m: nat, u: string,
          n: nat, v: string)
    requires PrintsNumbers(fmt) && IsUnit(u) && IsUnit(v) && IsNode(e)
    requires e.left == Literal(PrintNat(m) + u) && e.right == Literal(PrintNat(n) + v)
    ensures
      var q := Compute(Kind(e), Separator(e), Quantity(m as real, u), Quantity(n as real, v));
      Evaluates(fmt, names, gaps, Kind(e), Tokens(Keyword(e), PrintNat(m) + u, Separator(e), PrintNat(n) + v),
                if q.Some? then Print(fmt, q.value) else INVALID)
  {
    var a, b := PrintNat(m) + u, PrintNat(n) + v;
    NumberToken(m, u);
    NumberToken(n, v);
    FlatParsed(names, gaps, e, a, b);
    AloneIsValid(fmt, Kind(e), a, Separator(e), b);
    var total := Var("total", Kind(e), List([a, Separator(e), b]), "", None);
    assert Separator(e) in {"*", "+", "-", "/", ","} && (e.CalcOf? <==> Separator(e) != ",");
    EntryComputes(Alone(fmt, total), total, 0);
    hide Math, EvalMath, Compute, Print, Written, ReadValue, ReadSuffix, Valid, OperandsBelow;
    assert Evaluates(fmt, names, gaps, Kind(e), Written(e), EvalMath(Alone(fmt, total), total, 0));
  }

  // ---- The operations ---------------------------------------------------------------------------------

  lemma {:induction false} Product(m: nat, n: nat)
    ensures m as real * n as real == (m * n) as real
  {}

  lemma {:induction false} ComputeTimes(m: nat, u: string, n: nat, v: string)
    ensures Compute(Calc, "*", Quantity(m as real, u), Quantity(n as real, v)) ==
      if Clash(u, v) || m * n == 0 then None else Some(Quantity((m * n) as real, Common(u, v)))
  {
    Product(m, n);
  }

  lemma {:induction false} TimesPrints(fmt: Format, names: Names, gaps: set<nat>, m: nat, u: string, n: nat, v: string)
    requires PrintsNumbers(fmt) && IsUnit(u) && IsUnit(v)
    ensures Evaluates(fmt, names, gaps, Calc, Tokens("calc", PrintNat(m) + u, "*", PrintNat(n) + v),
      if Clash(u, v) || m * n == 0 then INVALID else PrintNat(m * n) + Common(u, v))
  {
    hide Evaluates, PrintNat, Compute, Print, PrintsNumbers, IsUnit, Clash, Common, Tokens;
    ComputeTimes(m, u, n, v);
    PrintsWhole(fmt, m * n, Common(u, v));
    var e := CalcOf(Literal(PrintNat(m) + u), Mul, Literal(PrintNat(n) + v));
    FlatEvaluates(fmt, names, gaps, e, m, u, n, v);
  }

  lemma {:induction false} ComputePlus(m: nat, u: string, n: nat, v: string)
    ensures Compute(Calc, "+", Quantity(m as real, u), Quantity(n as real, v)) ==
      if Clash(u, v) || m + n == 0 then None else Some(Quantity((m + n) as real, Common(u, v)))
  {}

  lemma {:induction false} PlusPrints(fmt: Format, names: Names, gaps: set<nat>, m: nat, u: string, n: nat, v: string)
    requires PrintsNumbers(fmt) && IsUnit(u) && IsUnit(v)
    ensures Evaluates(fmt, names, gaps, Calc, Tokens("calc", PrintNat(m) + u, "+", PrintNat(n) + v),
      if Clash(u, v) || m + n == 0 then INVALID else PrintNat(m + n) + Common(u, v))
  {
    hide Evaluates, PrintNat, Compute, Print, PrintsNumbers, IsUnit, Clash, Common, Tokens;
    var e := CalcOf(Literal(PrintNat(m) + u), Plus, Literal(PrintNat(n) + v));
    FlatEvaluates(fmt, names, gaps, e, m, u, n, v);
    ComputePlus(m, u, n, v);
    PrintsWhole(fmt, m + n, Common(u, v));
  }

  lemma {:induction false} ComputeMinus(m: nat, u: string, n: nat, v: string)
    ensures Compute(Calc, "-", Quantity(m as real, u), Quantity(n as real, v)) ==
      if Clash(u, v) || m == n then None
      else Some(Quantity(if m > n then (m - n) as real else -((n - m) as real), Common(u, v)))
  {}

  lemma {:induction false} MinusPrints(fmt: Format, names: Names, gaps: set<nat>, m: nat, u: string, n: nat, v: string)
    requires PrintsNumbers(fmt) && IsUnit(u) && IsUnit(v)
    ensures Evaluates(fmt, names, gaps, Calc, Tokens("calc", PrintNat(m) + u, "-", PrintNat(n) + v),
      if Clash(u, v) || m == n then INVALID
      else (if m > n then PrintNat(m - n) else "-" + PrintNat(n - m)) + Common(u, v))
  {
    hide Evaluates, PrintNat, Compute, Print, PrintsNumbers, IsUnit, Clash, Common, Tokens;
    ComputeMinus(m, u, n, v);
    var e := CalcOf(Literal(PrintNat(m) + u), Minus, Literal(PrintNat(n) + v));
    FlatEvaluates(fmt, names, gaps, e, m, u, n, v);
    if m > n {
      PrintsWhole(fmt, m - n, Common(u, v));
    } else if m < n {
      PrintsNegative(fmt, n - m, Common(u, v));
    }
  }

  lemma {:induction false} ComputeDivide(m: nat, u: string, n: nat, v: string) returns (r: real)
    ensures n != 0 ==> r * n as real == m as real
    ensures Compute(Calc, "/", Quantity(m as real, u), Quantity(n as real, v)) ==
      if Clash(u, v) || m == 0 || n == 0 then None else Some(Quantity(r, Common(u, v)))
  {
    r := 0.0;
    if n != 0 {
      r := m as real / n as real;
      QuotientIsZero(m as real, n as real, r);
    }
  }

  lemma {:induction false} QuotientIsZero(a: real, b: real, r: real)
    requires b > 0.0 && r == a / b
    ensures r * b == a && (r == 0.0 <==> a == 0.0)
  {}

  /** A quotient r is printed as a whole number if it is one, and in the given format otherwise. */
  lemma {:induction false} DividePrints(fmt: Format, names: Names, gaps: set<nat>, m: nat, u: string, n: nat, v: string)
    returns (text: string)
    requires PrintsNumbers(fmt) && IsUnit(u) && IsUnit(v)
    ensures Evaluates(fmt, names, gaps, Calc, Tokens("calc", PrintNat(m) + u, "/", PrintNat(n) + v), text)
    ensures Clash(u, v) || m == 0 || n == 0 ==> text == INVALID
    ensures !Clash(u, v) && m != 0 && n != 0 ==>
      && (forall q: nat :: q * n == m ==> text == PrintNat(q) + Common(u, v))
      && ((forall q: nat :: q * n != m) ==>
            exists r: real :: r * n as real == m as real && text == fmt(r) + Common(u, v))
  {
    hide Evaluates, PrintNat, Compute, Print, PrintsNumbers, IsUnit, Clash, Common, Tokens;
    var e := CalcOf(Literal(PrintNat(m) + u), Div, Literal(PrintNat(n) + v));
    FlatEvaluates(fmt, names, gaps, e, m, u, n, v);
    var r := ComputeDivide(m, u, n, v);
    text := INVALID;
    if !Clash(u, v) && m != 0 && n != 0 {
      text := Print(fmt, Quantity(r, Common(u, v)));
      QuotientPrints(fmt, m, n, r, Common(u, v));
    }
  }

  lemma {:induction false} QuotientPrints(fmt: Format, m: nat, n: nat, r: real, unit: string)
    requires n != 0 && m != 0 && r * n as real == m as real
    ensures forall q: nat :: q * n == m ==> Print(fmt, Quantity(r, unit)) == PrintNat(q) + unit
    ensures (forall q: nat :: q * n != m) ==> Print(fmt, Quantity(r, unit)) == fmt(r) + unit
  {
    hide PrintNat;
    QuotientIsUnique(m, n, r);
    forall q: nat | q * n == m ensures Print(fmt, Quantity(r, unit)) == PrintNat(q) + unit {
      PrintsWhole(fmt, q, unit);
    }
    if r == r.Floor as real {
      assert r.Floor * n == m;
    }
  }

  lemma {:induction false} QuotientIsUnique(m: nat, n: nat, r: real)
    requires n != 0 && m != 0 && r * n as real == m as real
    ensures forall q: nat :: q * n == m ==> r == q as real
    ensures r == r.Floor as real ==> r.Floor >= 0 && r.Floor * n == m
  {
    forall q: nat | q * n == m ensures r == q as real {
      WholeFactor(q, n, m);
      SameFactor(r, q as real, n as real, m as real);
    }
    if r == r.Floor as real {
      Whole(r.Floor, n, m);
    }
  }

  lemma {:induction false} WholeFactor(q: nat, n: nat, m: nat)
    requires q * n == m
    ensures q as real * n as real == m as real
  {
    Product(q, n);
  }

  lemma {:induction false} SameFactor(a: real, b: real, c: real, product: real)
    requires c > 0.0 && a * c == product && b * c == product
    ensures a == b
  {
    assert (a - b) * c == 0.0;
  }

  lemma {:induction false} Whole(q: int, n: nat, m: nat)
    requires n > 0 && m > 0 && q as real * n as real == m as real
    ensures q >= 0 && q * n == m
  {
    assert (q * n) as real == q as real * n as real;
  }

  lemma {:induction false} PrintsWhole(fmt: Format, k: nat, unit: string)
    ensures Print(fmt, Quantity(k as real, unit)) == PrintNat(k) + unit
  {
    hide PrintNat;
  }

  lemma {:induction false} PrintsNegative(fmt: Format, k: nat, unit: string)
    requires k > 0
    ensures Print(fmt, Quantity(-(k as real), unit)) == "-" + PrintNat(k) + unit
  {
    hide PrintNat;
    var r, z := -(k as real), 0 - k;
    assert r == z as real && r.Floor == z;
  }

  lemma {:induction false} ComputeMax(m: nat, u: string, n: nat, v: string)
    ensures Compute(Max, ",", Quantity(m as real, u), Quantity(n as real, v)) ==
      if Clash(u, v) then None else Some(Quantity((if m > n then m else n) as real, Common(u, v)))
  {}

  /** The printed operand is not less than either. */
  lemma {:induction false} MaxPrints(fmt: Format, names: Names, gaps: set<nat>, m: nat, u: string, n: nat, v: string)
    returns (k: nat)
    requires PrintsNumbers(fmt) && IsUnit(u) && IsUnit(v)
    ensures (k == m || k == n) && k >= m && k >= n
    ensures Evaluates(fmt, names, gaps, Max, Tokens("max", PrintNat(m) + u, ",", PrintNat(n) + v),
      if Clash(u, v) then INVALID else PrintNat(k) + Common(u, v))
  {
    hide Evaluates, PrintNat, Compute, Print, PrintsNumbers, IsUnit, Clash, Common, Tokens;
    var e := MaxOf(Literal(PrintNat(m) + u), Literal(PrintNat(n) + v));
    FlatEvaluates(fmt, names, gaps, e, m, u, n, v);
    k := if m > n then m else n;
    ComputeMax(m, u, n, v);
    PrintsWhole(fmt, k, Common(u, v));
  }

  lemma {:induction false} ComputeMin(m: nat, u: string, n: nat, v: string)
    ensures Compute(Min, ",", Quantity(m as real, u), Quantity(n as real, v)) ==
      if Clash(u, v) then None else Some(Quantity((if m < n then m else n) as real, Common(u, v)))
  {}

  lemma {:induction false} MinPrints(fmt: Format, names: Names, gaps: set<nat>, m: nat, u: string, n: nat, v: string)
    returns (k: nat)
    requires PrintsNumbers(fmt) && IsUnit(u) && IsUnit(v)
    ensures (k == m || k == n) && k <= m && k <= n
    ensures Evaluates(fmt, names, gaps, Min, Tokens("min", PrintNat(m) + u, ",", PrintNat(n) + v),
      if Clash(u, v) then INVALID else PrintNat(k) + Common(u, v))
  {
    hide Evaluates, PrintNat, Compute, Print, PrintsNumbers, IsUnit, Clash, Common, Tokens;
    var e := MinOf(Literal(PrintNat(m) + u), Literal(PrintNat(n) + v));
    FlatEvaluates(fmt, names, gaps, e, m, u, n, v);
    k := if m < n then m else n;
    ComputeMin(m, u, n, v);
    PrintsWhole(fmt, k, Common(u, v));
  }
}
