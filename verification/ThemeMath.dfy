/**
 Evaluation of calc(), max() and min() in theme variables.

 A nested expression is stored as three-operand entries of the variable table.  Evaluating
 an entry prints its result, and an enclosing entry reads that text back.
 */
module ThemeMath {
  import opened Wrappers
  import opened Numerals

  datatype VarType = Color | Size | Number | String | Alias | Calc | Min | Max
  datatype Value = NoValue | NumberValue(number: real) | Text(text: string) | List(items: seq<string>)

  datatype Var = Var(name: string, ty: VarType, value: Value, suffix: string, userValue: Option<real>)

  type Table = map<string, Var>

  // how a value with a fractional part is printed
  type Format = real -> string

  // the value a missing key of the table reads as
  const MISSING_VAR := Var("", Color, NoValue, "", None)

  const INVALID := "'Invalid expression'"

  predicate IsMath(ty: VarType) {
    ty.Calc? || ty.Max? || ty.Min?
  }

  function Items(v: Var): seq<string> {
    if v.value.List? then v.value.items else []
  }

  function AliasTarget(v: Var): string {
    if v.value.Text? then v.value.text else ""
  }

  predicate IsNumber(text: string) {
    text != [] && IsDigit(text[0])
  }

  /** A name token. */
  predicate IsName(s: string) {
    s != [] && ('a' <= s[0] <= 'z' || 'A' <= s[0] <= 'Z' || s[0] == '_')
  }

  /** A key is a name token, or what is left of one without the prefix of its operating system, which may start
      with a digit.  It never starts like a negative number or a quoted text. */
  predicate IsKey(s: string) {
    s != [] && s[0] !in {'-', '\''}
  }

  /** Numbers are not looked up, whatever the table has under them. */
  ghost function Height(rank: string -> nat, text: string): nat {
    if IsNumber(text) then 0 else rank(text)
  }

  /** The operands of an entry come before the entry in the rank. */
  ghost predicate OperandsBelow(rank: string -> nat, v: Var) {
    && |Items(v)| >= 2
    && rank(v.name) > 0
    && (|Items(v)| == 3 ==>
          Height(rank, Items(v)[0]) < rank(v.name) && Height(rank, Items(v)[2]) < rank(v.name))
  }

  ghost predicate EntryOk(rank: string -> nat, k: string, v: Var) {
    && IsKey(k) && v.name == k && IsSuffix(v.suffix) && !ExtendsNumeral(v.suffix)
    && (v.ty.Alias? ==> rank(AliasTarget(v)) < rank(k))
    && (IsMath(v.ty) ==> OperandsBelow(rank, v))
  }

  /** An acyclic table: variables only refer to variables of a lower rank. */
  ghost predicate Ranked(rank: string -> nat, vars: Table) {
    && (forall k :: k in vars ==> EntryOk(rank, k, vars[k]))
    && (forall s :: s !in vars ==> rank(s) == 0)
  }

  ghost predicate PrintsNumbers(fmt: Format) {
    forall r :: fmt(r) != [] && (if r < 0.0 then fmt(r)[0] == '-' else IsDigit(fmt(r)[0]))
  }

  // the table, the number format, and a rank that shows the table to be acyclic
  datatype Env = Env(vars: Table, fmt: Format, ghost rank: string -> nat)

  ghost predicate Valid(env: Env) {
    Ranked(env.rank, env.vars) && PrintsNumbers(env.fmt)
  }

  // ---- Resolving ----------------------------------------------------------------------

  /** Follows aliases; a dangling alias stays an alias. */
  function Resolve(env: Env, key: string): (v: Var)
    requires Valid(env)
    ensures IsSuffix(v.suffix)
    ensures IsMath(v.ty) ==> v.name in env.vars && env.vars[v.name] == v && env.rank(v.name) <= env.rank(key)
    decreases env.rank(key)
  {
    if key !in env.vars then MISSING_VAR
    else if !env.vars[key].ty.Alias? then env.vars[key]
    else if AliasTarget(env.vars[key]) !in env.vars then env.vars[key]
    else Resolve(env, AliasTarget(env.vars[key]))
  }

  /**
   The loop of the source.  It fails exactly when an alias that is itself the target of an alias
   leads out of the table; a first target that is missing reads as a default variable.
   */
  method ResolveVariable(env: Env, v: Var) returns (ok: bool, r: Var)
    requires Valid(env)
    ensures r == if v.ty.Alias? && ok then Resolve(env, AliasTarget(v)) else v
    ensures ok == (v.ty.Alias? ==> !Resolve(env, AliasTarget(v)).ty.Alias?)
  {
    if !v.ty.Alias? {
      return true, v;
    }
    var key := AliasTarget(v);
    while key in env.vars && env.vars[key].ty.Alias?
      invariant Resolve(env, key) == Resolve(env, AliasTarget(v))
      decreases env.rank(key)
    {
      var next := AliasTarget(env.vars[key]);
      if next !in env.vars {
        return false, v;
      }
      key := next;
    }
    return true, if key in env.vars then env.vars[key] else MISSING_VAR;
  }

  // ---- Evaluating ---------------------------------------------------------------------

  function ParseNumber(text: string): Var {
    var suffix := ReadSuffix(text);
    Var("", if suffix == "" then Number else Size, NumberValue(ReadValue(text)), suffix, None)
  }

  datatype Quantity = Quantity(value: real, suffix: string)

  function QuantityOf(v: Var): Quantity {
    Quantity(if v.userValue.Some? then v.userValue.value
             else if v.value.NumberValue? then v.value.number else 0.0, v.suffix)
  }

  function PrintReal(fmt: Format, r: real): string {
    if r != r.Floor as real then fmt(r)
    else if r < 0.0 then "-" + PrintNat(-r.Floor)
    else PrintNat(r.Floor)
  }

  function Print(fmt: Format, q: Quantity): string {
    PrintReal(fmt, q.value) + q.suffix
  }

  predicate Compatible(a: string, b: string) {
    a == "" || b == "" || a == b
  }

  datatype Operator = Plus | Minus | Mul | Div

  function OperatorText(op: Operator): string {
    match op case Plus => "+" case Minus => "-" case Mul => "*" case Div => "/"
  }

  function OperatorOf(text: string): (op: Operator)
    ensures forall o :: text == OperatorText(o) ==> op == o
  {
    if text == "+" then Plus else if text == "-" then Minus else if text == "*" then Mul else Div
  }

  function Arithmetic(op: Operator, a: real, b: real): Option<real> {
    match op
    case Plus => Some(a + b)
    case Minus => Some(a - b)
    case Mul => Some(a * b)
    case Div => if b == 0.0 then None else Some(a / b)
  }

  /** The computation of one entry; None where the result is reported as invalid. */
  function Compute(ty: VarType, opt: string, q1: Quantity, q2: Quantity): Option<Quantity> {
    if !Compatible(q1.suffix, q2.suffix) then None
    else
      var a, b := q1.value, q2.value;
      var val :=
        if ty.Max? then Some(if a > b then a else b)
        else if ty.Min? then Some(if a < b then a else b)
        else Arithmetic(OperatorOf(opt), a, b);
      if val.None? || (ty.Calc? && val.value == 0.0) then None
      else Some(Quantity(val.value, if q1.suffix != "" then q1.suffix else q2.suffix))
  }

  /** An operand of an entry: None is the exception for a non-numeric operand. */
  function ParseMathVariable(env: Env, value: string, recursion: nat)
    : (v: Option<Var>)
    requires Valid(env)
    ensures v.Some? ==> (v.value.ty.Number? || v.value.ty.Size?) && IsSuffix(v.value.suffix)
    ensures IsNumber(value) ==> v.Some? && (v.value.ty.Size? <==> v.value.suffix != "")
    decreases Height(env.rank, value), 1
  {
    if IsNumber(value) then Some(ParseNumber(value))
    else
      var v := Resolve(env, value);
      var r := if IsMath(v.ty)
               then ParseMathVariable(env, EvalMath(env, v, recursion + 1), 0)
               else Some(v);
      if r.Some? && (r.value.ty.Number? || r.value.ty.Size?) then r else None
  }

  function EvalMath(env: Env, v: Var, recursion: nat): (text: string)
    requires Valid(env)
    requires IsMath(v.ty) ==> OperandsBelow(env.rank, v)
    ensures text != [] && (IsDigit(text[0]) || text[0] == '-' || text == INVALID)
    ensures IsNumber(text) || text !in env.vars
    decreases env.rank(v.name), 0
  {
    var text :=
      if recursion >= 10 || !IsMath(v.ty) then INVALID
      else
        var args := Items(v);
        if v.ty.Calc? && args[1] !in {"*", "+", "-", "/"} then INVALID
        else if !v.ty.Calc? && args[1] != "," then INVALID
        else if |args| != 3 then INVALID
        else
          var v1 := ParseMathVariable(env, args[0], 0);
          var v2 := ParseMathVariable(env, args[2], 0);
          if v1.None? || v2.None? then INVALID
          else
            var q := Compute(v.ty, args[1], QuantityOf(v1.value), QuantityOf(v2.value));
            if q.None? then INVALID else Print(env.fmt, q.value);
    assert text[0] == INVALID[0] || IsDigit(text[0]) || text[0] == '-';
    text
  }

  // ---- What an expression means ---------------------------------------------------------

  datatype Expr =
    | Literal(text: string)
    | Ref(name: string)
    | CalcOf(left: Expr, op: Operator, right: Expr)
    | MaxOf(left: Expr, right: Expr)
    | MinOf(left: Expr, right: Expr)

  predicate IsNode(e: Expr) {
    !e.Literal? && !e.Ref?
  }

  function Kind(e: Expr): VarType
    requires IsNode(e)
    ensures IsMath(Kind(e))
  {
    if e.CalcOf? then Calc else if e.MaxOf? then Max else Min
  }

  function Separator(e: Expr): string
    requires IsNode(e)
  {
    if e.CalcOf? then OperatorText(e.op) else ","
  }

  /** A named variable stands for whatever the table says it is. */
  function Atom(env: Env, name: string): (q: Option<Quantity>)
    requires Valid(env)
    ensures q.Some? ==> IsSuffix(q.value.suffix)
  {
    var v := ParseMathVariable(env, name, 0);
    if v.Some? then Some(QuantityOf(v.value)) else None
  }

  function Combine(e: Expr, a: real, b: real): Option<real>
    requires IsNode(e)
  {
    match e
    case MaxOf(_, _) => Some(if a > b then a else b)
    case MinOf(_, _) => Some(if a < b then a else b)
    case CalcOf(_, op, _) => Arithmetic(op, a, b)
  }

  /** Plain arithmetic on the tree; None for clashing suffixes, division by zero and bad names. */
  function Meaning(env: Env, e: Expr): (q: Option<Quantity>)
    requires Valid(env)
    ensures q.Some? ==> IsSuffix(q.value.suffix)
  {
    match e
    case Literal(text) => Some(Quantity(ReadValue(text), ReadSuffix(text)))
    case Ref(name) => Atom(env, name)
    case _ =>
      var a, b := Meaning(env, e.left), Meaning(env, e.right);
      if a.None? || b.None? || !Compatible(a.value.suffix, b.value.suffix) then None
      else
        var c := Combine(e, a.value.value, b.value.value);
        if c.None? then None
        else Some(Quantity(c.value, if a.value.suffix != "" then a.value.suffix else b.value.suffix))
  }

  /** The results that do not get through printing and reading: a calc() of zero anywhere, and
      anything negative below the root. */
  predicate Survives(env: Env, e: Expr)
    requires Valid(env)
    decreases e, 0
  {
    match e
    case Literal(_) => true
    case Ref(_) => true
    case _ =>
      var q := Meaning(env, e);
      && Carried(env, e.left) && Carried(env, e.right)
      && (e.CalcOf? && q.Some? ==> q.value.value != 0.0)
  }

  predicate Carried(env: Env, e: Expr)
    requires Valid(env)
    decreases e, 1
  {
    Survives(env, e)
    && (IsNode(e) && Meaning(env, e).Some? ==> Meaning(env, e).value.value >= 0.0)
  }

  /** What evaluating a lowered expression gives. */
  function Result(env: Env, e: Expr): string
    requires Valid(env)
  {
    var q := Meaning(env, e);
    if q.Some? && Survives(env, e) then Print(env.fmt, q.value) else INVALID
  }

  /** The format writes this fraction as a numeral that reads back as the same value. */
  ghost predicate ReadsBack(fmt: Format, r: real) {
    r == r.Floor as real || r < 0.0 || (IsNumeral(fmt(r)) && NumeralValue(fmt(r)) == r)
  }

  /** Every nested result is a whole number or a fraction the format can write exactly. */
  ghost predicate NestedReadBack(env: Env, e: Expr)
    requires Valid(env)
  {
    IsNode(e) ==>
      && NestedReadBack(env, e.left) && NestedReadBack(env, e.right)
      && (IsNode(e.left) && Meaning(env, e.left).Some? ==> ReadsBack(env.fmt, Meaning(env, e.left).value.value))
      && (IsNode(e.right) && Meaning(env, e.right).Some? ==> ReadsBack(env.fmt, Meaning(env, e.right).value.value))
  }

  // ---- Lowering -------------------------------------------------------------------------

  // the names drawn for anonymous entries, in order
  type Names = nat -> string

  /** Literals are number tokens in decimal form without an exponent, and references are names. */
  predicate IsWritten(e: Expr) {
    match e
    case Literal(text) => IsNumber(text) && !ExtendsNumeral(ReadSuffix(text))
    case Ref(name) => IsName(name)
    case _ => IsWritten(e.left) && IsWritten(e.right)
  }

  /** How many names an expression draws when it is an operand. */
  function Drawn(e: Expr): nat {
    if IsNode(e) then 1 + Drawn(e.left) + Drawn(e.right) else 0
  }

  /** How an operand whose first drawn name is number k is referred to. */
  function Operand(names: Names, e: Expr, k: nat): string {
    match e
    case Literal(text) => text
    case Ref(name) => name
    case _ => names(k)
  }

  /** The three operands of a node; number k is the first name drawn for its subtrees. */
  function Operands(names: Names, e: Expr, k: nat): (r: seq<string>)
    requires IsNode(e)
    ensures |r| == 3
  {
    [Operand(names, e.left, k), Separator(e), Operand(names, e.right, k + Drawn(e.left))]
  }

  function Entry(names: Names, e: Expr, k: nat): Var
    requires IsNode(e)
  {
    Var(names(k), Kind(e), List(Operands(names, e, k + 1)), "", None)
  }

  /** The anonymous entries made for an operand, and those made for the two operands of a node. */
  function OperandEntries(names: Names, e: Expr, k: nat): seq<Var>
    decreases e, 1
  {
    if IsNode(e) then NodeEntries(names, e, k + 1) + [Entry(names, e, k)] else []
  }

  function NodeEntries(names: Names, e: Expr, k: nat): seq<Var>
    requires IsNode(e)
    decreases e, 0
  {
    OperandEntries(names, e.left, k) + OperandEntries(names, e.right, k + Drawn(e.left))
  }

  /** The table holds these entries, under names that do not read as numbers. */
  ghost predicate Contains(vars: Table, entries: seq<Var>) {
    forall i :: 0 <= i < |entries| ==>
      && entries[i].name in vars && vars[entries[i].name] == entries[i]
      && !IsNumber(entries[i].name)
  }

  lemma {:induction false} ContainsParts(vars: Table, a: seq<Var>, b: seq<Var>)
    requires Contains(vars, a + b)
    ensures Contains(vars, a) && Contains(vars, b)
  {
    assert forall i :: 0 <= i < |a| ==> a[i] == (a + b)[i];
    assert forall i :: 0 <= i < |b| ==> b[i] == (a + b)[|a| + i];
  }

  // ---- Lowering preserves meaning ---------------------------------------------------------

  /** Printing a result and reading it back as an operand is lossless for non-negative values
      and fails for negative ones. */
  lemma {:induction false} PrintedOperand(env: Env, q: Quantity)
    requires Valid(env) && IsSuffix(q.suffix) && ReadsBack(env.fmt, q.value)
    ensures
      var v := ParseMathVariable(env, Print(env.fmt, q), 0);
      if q.value >= 0.0 then v.Some? && QuantityOf(v.value) == q else v.None?
  {
    var text := Print(env.fmt, q);
    if q.value < 0.0 {
      assert text[0] == '-';
      assert text in env.vars ==> EntryOk(env.rank, text, env.vars[text]);
    } else if q.value == q.value.Floor as real {
      ReadPrinted(q.value.Floor, q.suffix);
      assert text[0] == PrintNat(q.value.Floor)[0];
    } else {
      ReadAppended(env.fmt(q.value), q.suffix);
      assert text[0] == env.fmt(q.value)[0];
    }
  }

  lemma {:induction false} InvalidOperand(env: Env)
    requires Valid(env)
    ensures ParseMathVariable(env, INVALID, 0) == None
  {
    assert INVALID[0] == '\'';
    assert INVALID in env.vars ==> EntryOk(env.rank, INVALID, env.vars[INVALID]);
  }

  ghost predicate OperandAgrees(env: Env, e: Expr, operand: string)
    requires Valid(env)
  {
    var v, q := ParseMathVariable(env, operand, 0), Meaning(env, e);
    if q.Some? && Carried(env, e) then v.Some? && QuantityOf(v.value) == q.value else v.None?
  }

  lemma {:induction false} ComputeAgrees(e: Expr, q1: Quantity, q2: Quantity)
    requires IsNode(e)
    ensures
      var r, c := Compute(Kind(e), Separator(e), q1, q2), Combine(e, q1.value, q2.value);
      if Compatible(q1.suffix, q2.suffix) && c.Some? && (e.CalcOf? ==> c.value != 0.0)
      then r == Some(Quantity(c.value, if q1.suffix != "" then q1.suffix else q2.suffix))
      else r == None
  {
    if e.CalcOf? {
      assert OperatorOf(OperatorText(e.op)) == e.op;
    }
  }

  /** An entry with three well-formed items computes with its two operands. */
  lemma {:induction false} EntryComputes(env: Env, v: Var, recursion: nat)
    requires Valid(env) && IsMath(v.ty) && OperandsBelow(env.rank, v) && recursion < 10
    requires |Items(v)| == 3 && (if v.ty.Calc? then Items(v)[1] in {"*", "+", "-", "/"} else Items(v)[1] == ",")
    ensures
      var v1, v2 := ParseMathVariable(env, Items(v)[0], 0), ParseMathVariable(env, Items(v)[2], 0);
      EvalMath(env, v, recursion) ==
        if v1.None? || v2.None? then INVALID else
          var q := Compute(v.ty, Items(v)[1], QuantityOf(v1.value), QuantityOf(v2.value));
          if q.None? then INVALID else Print(env.fmt, q.value)
  {
  }

  /** A node evaluates to its result once its operands agree with their subtrees. */
  lemma {:induction false} NodeAgrees(env: Env, e: Expr, v: Var, recursion: nat)
    requires Valid(env) && IsNode(e) && recursion < 10
    requires v.ty == Kind(e) && |Items(v)| == 3 && Items(v)[1] == Separator(e) && OperandsBelow(env.rank, v)
    requires OperandAgrees(env, e.left, Items(v)[0]) && OperandAgrees(env, e.right, Items(v)[2])
    ensures EvalMath(env, v, recursion) == Result(env, e)
  {
    hide EvalMath, ParseMathVariable, Compute, Print, Combine, Compatible;
    var args := Items(v);
    var v1, v2 := ParseMathVariable(env, args[0], 0), ParseMathVariable(env, args[2], 0);
    EntryComputes(env, v, recursion);
    if v1.Some? && v2.Some? {
      ComputeAgrees(e, QuantityOf(v1.value), QuantityOf(v2.value));
    }
  }

  /** Reading an entry by name is evaluating it and reading the printed result. */
  lemma {:induction false} EntryByName(env: Env, v: Var)
    requires Valid(env) && v.name in env.vars && env.vars[v.name] == v && IsMath(v.ty) && !IsNumber(v.name)
    ensures OperandsBelow(env.rank, v)
    ensures ParseMathVariable(env, v.name, 0) == ParseMathVariable(env, EvalMath(env, v, 1), 0)
  {
    assert EntryOk(env.rank, v.name, v);
    assert Resolve(env, v.name) == v;
  }

  lemma {:induction false} ResultAgrees(env: Env, e: Expr)
    requires Valid(env) && IsNode(e)
    requires Meaning(env, e).Some? ==> ReadsBack(env.fmt, Meaning(env, e).value.value)
    ensures OperandAgrees(env, e, Result(env, e))
  {
    if Meaning(env, e).Some? && Survives(env, e) {
      PrintedOperand(env, Meaning(env, e).value);
    } else {
      InvalidOperand(env);
    }
  }

  lemma {:induction false} OperandIsLowered(env: Env, names: Names, e: Expr, k: nat)
    requires Valid(env) && IsWritten(e) && NestedReadBack(env, e)
    requires IsNode(e) && Meaning(env, e).Some? ==> ReadsBack(env.fmt, Meaning(env, e).value.value)
    requires Contains(env.vars, OperandEntries(names, e, k))
    ensures OperandAgrees(env, e, Operand(names, e, k))
    decreases e, 1
  {
    if IsNode(e) {
      var v := Entry(names, e, k);
      ContainsParts(env.vars, NodeEntries(names, e, k + 1), [v]);
      assert [v][0] == v;
      EntryByName(env, v);
      LoweredNode(env, names, e, k + 1, v, 1);
      ResultAgrees(env, e);
    } else {
      assert Survives(env, e) && Carried(env, e);
    }
  }

  /** The theorem: an entry whose operands were lowered from an expression evaluates to exactly
      that expression's result, at any nesting depth. */
  lemma {:induction false} LoweredNode(env: Env, names: Names, e: Expr, k: nat, v: Var, recursion: nat)
    requires Valid(env) && IsNode(e) && IsWritten(e) && NestedReadBack(env, e) && recursion < 10
    requires v.ty == Kind(e) && v.value == List(Operands(names, e, k)) && OperandsBelow(env.rank, v)
    requires Contains(env.vars, NodeEntries(names, e, k))
    ensures EvalMath(env, v, recursion) == Result(env, e)
    decreases e, 0
  {
    hide EvalMath, ParseMathVariable, Result, OperandAgrees, Meaning;
    ContainsParts(env.vars, OperandEntries(names, e.left, k), OperandEntries(names, e.right, k + Drawn(e.left)));
    OperandIsLowered(env, names, e.left, k);
    OperandIsLowered(env, names, e.right, k + Drawn(e.left));
    NodeAgrees(env, e, v, recursion);
  }

  /** The counter that would stop a recursion at ten. */
  lemma {:induction false} DepthLimit(env: Env, v: Var, recursion: nat)
    requires Valid(env) && (IsMath(v.ty) ==> OperandsBelow(env.rank, v))
    ensures recursion >= 10 ==> EvalMath(env, v, recursion) == INVALID
  {}

  /** A user's edit of a variable goes before its declared value; a missing variable is no number. */
  lemma {:induction false} EditedFirst(env: Env, name: string)
    requires Valid(env) && !IsNumber(name)
    ensures name !in env.vars ==> Meaning(env, Ref(name)) == None
    ensures name in env.vars && env.vars[name].ty in {Number, Size} ==>
      var v := env.vars[name];
      && Meaning(env, Ref(name)).Some? && Meaning(env, Ref(name)).value.suffix == v.suffix
      && (v.userValue.Some? ==> Meaning(env, Ref(name)).value.value == v.userValue.value)
      && (v.userValue.None? ==>
            Meaning(env, Ref(name)).value.value == if v.value.NumberValue? then v.value.number else 0.0)
    ensures name in env.vars && env.vars[name].ty in {Color, String} ==> Meaning(env, Ref(name)) == None
  {}

  // ---- Results that are lost -----------------------------------------------------------------

  function Digit(d: nat): Expr
    requires d < 10
  {
    Literal([DigitChar(d)])
  }

  lemma {:induction false} DigitLiteral(env: Env, d: nat)
    requires Valid(env) && d < 10
    ensures Meaning(env, Digit(d)) == Some(Quantity(d as real, "")) && IsWritten(Digit(d))
  {
    ReadPrinted(d, "");
    assert PrintNat(d) + "" == [DigitChar(d)];
  }

  /** The value is positive, but a nested one is negative. */
  lemma {:induction false} NegativeIntermediate(env: Env) returns (e: Expr)
    requires Valid(env)
    ensures e == CalcOf(CalcOf(Digit(1), Minus, Digit(2)), Plus, Digit(5))
    ensures IsWritten(e) && NestedReadBack(env, e)
    ensures Meaning(env, e) == Some(Quantity(4.0, "")) && Result(env, e) == INVALID
  {
    DigitLiteral(env, 1);
    DigitLiteral(env, 2);
    DigitLiteral(env, 5);
    var nested := CalcOf(Digit(1), Minus, Digit(2));
    e := CalcOf(nested, Plus, Digit(5));
    assert Meaning(env, nested) == Some(Quantity(-1.0, ""));
    assert !Carried(env, nested);
  }

  lemma {:induction false} ZeroValue(env: Env) returns (e: Expr)
    requires Valid(env)
    ensures e == CalcOf(Digit(3), Minus, Digit(3))
    ensures IsWritten(e) && NestedReadBack(env, e)
    ensures Meaning(env, e) == Some(Quantity(0.0, "")) && Result(env, e) == INVALID
  {
    DigitLiteral(env, 3);
    e := CalcOf(Digit(3), Minus, Digit(3));
  }
}
