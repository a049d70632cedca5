/**
 All declarations of a theme and the themes it extends.

 The declarations of every theme in a chain go into one table, one after the other; a later one
 replaces an earlier one of its name, and expressions may refer to variables that are declared
 later.  Whenever the table that results is acyclic, every declared expression evaluates to its
 own result in that table, and a reference to it means what it means.
 */
module ThemeDeclarations {
  import opened Wrappers
  import opened Numerals
  import opened ThemeMath
  import opened ThemeParser
  import opened ThemeLowering

  datatype Declaration = Plain(v: Var) | Expression(name: string, e: Expr)

  function NameOf(d: Declaration): string {
    if d.Plain? then d.v.name else d.name
  }

  ghost predicate AllNodes(decls: seq<Declaration>) {
    forall i :: 0 <= i < |decls| && decls[i].Expression? ==> IsNode(decls[i].e)
  }

  function DrawnBy(d: Declaration): nat {
    if d.Plain? || !IsNode(d.e) then 0 else Drawn(d.e) - 1
  }

  /** How many names the first n declarations draw. */
  function DrawnBefore(decls: seq<Declaration>, n: nat): nat
    requires n <= |decls|
  {
    if n == 0 then 0 else DrawnBefore(decls, n - 1) + DrawnBy(decls[n - 1])
  }

  /** The variables one declaration adds. */
  function VarsOf(names: Names, d: Declaration, k: nat): seq<Var> {
    if d.Plain? then [d.v] else if IsNode(d.e) then Declared(names, d.name, d.e, k) else []
  }

  /** The variables of the first n declarations, in the order in which they go into the table. */
  function Listing(names: Names, decls: seq<Declaration>, n: nat): seq<Var>
    requires n <= |decls|
  {
    if n == 0 then []
    else Listing(names, decls, n - 1) + VarsOf(names, decls[n - 1], DrawnBefore(decls, n - 1))
  }

  /** Drawn names are name tokens, and differ from each other and from the declared ones. */
  ghost predicate DrawnApart(names: Names, decls: seq<Declaration>) {
    && (forall m: nat :: IsName(names(m)))
    && (forall m, n :: 0 <= m < n ==> names(m) != names(n))
    && (forall m: nat, i :: 0 <= i < |decls| ==> names(m) != NameOf(decls[i]))
  }

  /** This declaration is the last one of its name. */
  ghost predicate IsLast(decls: seq<Declaration>, i: nat)
    requires i < |decls|
  {
    forall j :: i < j < |decls| ==> NameOf(decls[j]) != NameOf(decls[i])
  }

  // ---- Names of anonymous entries -------------------------------------------------------------

  ghost predicate DrawnName(names: Names, name: string, low: nat, high: nat) {
    exists m: nat :: low <= m < high && names(m) == name
  }

  ghost predicate NamedWithin(names: Names, list: seq<Var>, low: nat, high: nat) {
    && DistinctNames(list)
    && forall q :: 0 <= q < |list| ==> DrawnName(names, list[q].name, low, high)
  }

  lemma {:induction false} NamedConcat(names: Names, a: seq<Var>, b: seq<Var>, low: nat, mid: nat, high: nat)
    requires forall m, n :: 0 <= m < n ==> names(m) != names(n)
    requires low <= mid <= high && NamedWithin(names, a, low, mid) && NamedWithin(names, b, mid, high)
    ensures NamedWithin(names, a + b, low, high) && NamedWithin(names, b + a, low, high)
  {
    forall p, q | 0 <= p < |a| && 0 <= q < |b| ensures a[p].name != b[q].name {
      assert DrawnName(names, a[p].name, low, mid) && DrawnName(names, b[q].name, mid, high);
    }
    forall q | 0 <= q < |a| ensures DrawnName(names, a[q].name, low, high) {
      assert DrawnName(names, a[q].name, low, mid);
    }
    forall q | 0 <= q < |b| ensures DrawnName(names, b[q].name, low, high) {
      assert DrawnName(names, b[q].name, mid, high);
    }
  }

  lemma {:induction false} OperandNames(names: Names, e: Expr, k: nat)
    requires forall m, n :: 0 <= m < n ==> names(m) != names(n)
    ensures NamedWithin(names, OperandEntries(names, e, k), k, k + Drawn(e))
    decreases e, 1
  {
    if IsNode(e) {
      NodeNames(names, e, k + 1);
      var own := [Entry(names, e, k)];
      assert DrawnName(names, own[0].name, k, k + 1);
      NamedConcat(names, own, NodeEntries(names, e, k + 1), k, k + 1, k + Drawn(e));
    }
  }

  lemma {:induction false} NodeNames(names: Names, e: Expr, k: nat)
    requires IsNode(e) && forall m, n :: 0 <= m < n ==> names(m) != names(n)
    ensures NamedWithin(names, NodeEntries(names, e, k), k, k + Drawn(e) - 1)
    decreases e, 0
  {
    OperandNames(names, e.left, k);
    OperandNames(names, e.right, k + Drawn(e.left));
    NamedConcat(names, OperandEntries(names, e.left, k), OperandEntries(names, e.right, k + Drawn(e.left)),
                k, k + Drawn(e.left), k + Drawn(e) - 1);
  }

  // ---- The last declaration of a name stays ---------------------------------------------------------

  lemma {:induction false} LastStays(vars: Table, list: seq<Var>, n: nat, i: nat)
    requires i < n <= |list| && forall j :: i < j < n ==> list[j].name != list[i].name
    ensures list[i].name in Insert(vars, list, n) && Insert(vars, list, n)[list[i].name] == list[i]
  {
    if i < n - 1 {
      LastStays(vars, list, n - 1, i);
    }
  }

  /** Names from declaration i on are declared there, or drawn from that point on. */
  ghost predicate NamedFrom(names: Names, decls: seq<Declaration>, i: nat, name: string)
    requires i <= |decls|
  {
    (exists j :: i <= j < |decls| && NameOf(decls[j]) == name)
    || DrawnName(names, name, DrawnBefore(decls, i), DrawnBefore(decls, |decls|))
  }

  lemma {:induction false} DrawnGrows(decls: seq<Declaration>, i: nat, j: nat)
    requires i <= j <= |decls|
    ensures DrawnBefore(decls, i) <= DrawnBefore(decls, j)
  {
    if i < j {
      DrawnGrows(decls, i, j - 1);
    }
  }

  /** Later declarations do not move what is listed. */
  lemma {:induction false} ListedAt(names: Names, decls: seq<Declaration>, i: nat, n: nat, q: nat)
    requires i <= n <= |decls| && q < |Listing(names, decls, i)|
    ensures q < |Listing(names, decls, n)| && Listing(names, decls, n)[q] == Listing(names, decls, i)[q]
  {
    hide VarsOf;
    if i < n {
      ListedAt(names, decls, i, n - 1, q);
    }
  }

  lemma {:induction false} NameListedFrom(names: Names, decls: seq<Declaration>, i: nat, n: nat, q: nat)
    requires AllNodes(decls) && DrawnApart(names, decls) && i <= n <= |decls|
    requires |Listing(names, decls, i)| <= q < |Listing(names, decls, n)|
    ensures NamedFrom(names, decls, i, Listing(names, decls, n)[q].name)
  {
    hide VarsOf, DrawnBefore, AllNodes, DrawnApart, NamedFrom;
    var before := Listing(names, decls, n - 1);
    if q < |before| {
      NameListedFrom(names, decls, i, n - 1, q);
    } else {
      var added := VarsOf(names, decls[n - 1], DrawnBefore(decls, n - 1));
      assert Listing(names, decls, n)[q] == added[q - |before|];
      AddedNames(names, decls, n - 1, q - |before|);
      NamedFromLater(names, decls, i, n - 1, added[q - |before|].name);
    }
  }

  lemma {:induction false} NamedFromLater(names: Names, decls: seq<Declaration>, i: nat, n: nat, name: string)
    requires i <= n < |decls|
    requires name == NameOf(decls[n]) || DrawnName(names, name, DrawnBefore(decls, n), DrawnBefore(decls, n + 1))
    ensures NamedFrom(names, decls, i, name)
  {
    hide DrawnBefore;
    DrawnGrows(decls, i, n);
    DrawnGrows(decls, n + 1, |decls|);
  }

  lemma {:induction false} AddedNames(names: Names, decls: seq<Declaration>, i: nat, q: nat)
    requires AllNodes(decls) && DrawnApart(names, decls) && i < |decls|
    requires q < |VarsOf(names, decls[i], DrawnBefore(decls, i))|
    ensures
      var name := VarsOf(names, decls[i], DrawnBefore(decls, i))[q].name;
      name == NameOf(decls[i]) || DrawnName(names, name, DrawnBefore(decls, i), DrawnBefore(decls, i + 1))
  {
    var d, k := decls[i], DrawnBefore(decls, i);
    if d.Expression? {
      NodeNames(names, d.e, k);
      var nested := NodeEntries(names, d.e, k);
      if q < |nested| {
        assert Declared(names, d.name, d.e, k)[q] == nested[q];
      }
    }
  }

  /** Everything the last declaration of a name has added is still there in the end. */
  lemma {:induction false} DeclaredStays(base: Table, names: Names, decls: seq<Declaration>, i: nat, q: nat)
    requires AllNodes(decls) && DrawnApart(names, decls) && i < |decls| && decls[i].Expression? && IsNode(decls[i].e)
    requires IsLast(decls, i) && q < |Declared(names, decls[i].name, decls[i].e, DrawnBefore(decls, i))|
    ensures
      var list := Listing(names, decls, |decls|);
      var all := Insert(base, list, |list|);
      var added := Declared(names, decls[i].name, decls[i].e, DrawnBefore(decls, i));
      added[q].name in all && all[added[q].name] == added[q]
  {
    hide AllNodes, DrawnApart, IsLast, Insert, Listing, Declared, DrawnBefore;
    var list := Listing(names, decls, |decls|);
    NothingReplaces(names, decls, i, q);
    LastStays(base, list, |list|, |Listing(names, decls, i)| + q);
  }

  /** What a declaration adds, at its place in the whole listing. */
  lemma {:induction false} PlaceInListing(names: Names, decls: seq<Declaration>, i: nat, q: nat)
    requires i < |decls| && decls[i].Expression? && IsNode(decls[i].e)
    requires q < |Declared(names, decls[i].name, decls[i].e, DrawnBefore(decls, i))|
    ensures
      var added, start := Declared(names, decls[i].name, decls[i].e, DrawnBefore(decls, i)), |Listing(names, decls, i)|;
      && start + q < |Listing(names, decls, |decls|)| && Listing(names, decls, |decls|)[start + q] == added[q]
      && |Listing(names, decls, i + 1)| == start + |added|
  {
    hide Declared, DrawnBefore;
    ListedAt(names, decls, i + 1, |decls|, |Listing(names, decls, i)| + q);
  }

  lemma {:induction false} NothingReplaces(names: Names, decls: seq<Declaration>, i: nat, q: nat)
    requires AllNodes(decls) && DrawnApart(names, decls) && i < |decls| && decls[i].Expression? && IsLast(decls, i)
    requires q < |Declared(names, decls[i].name, decls[i].e, DrawnBefore(decls, i))|
    ensures
      var list := Listing(names, decls, |decls|);
      var added := Declared(names, decls[i].name, decls[i].e, DrawnBefore(decls, i));
      var start := |Listing(names, decls, i)|;
      && start + q < |list| && list[start + q] == added[q]
      && forall p :: start + q < p < |list| ==> list[p].name != added[q].name
  {
    var list, start := Listing(names, decls, |decls|), |Listing(names, decls, i)|;
    PlaceInListing(names, decls, i, q);
    hide *;
    forall p | start + q < p < |list|
      ensures list[p].name != Declared(names, decls[i].name, decls[i].e, DrawnBefore(decls, i))[q].name
    {
      NotReplaced(names, decls, i, q, p);
    }
  }

  lemma {:induction false} NotReplaced(names: Names, decls: seq<Declaration>, i: nat, q: nat, p: nat)
    requires AllNodes(decls) && DrawnApart(names, decls) && i < |decls| && decls[i].Expression? && IsNode(decls[i].e)
    requires IsLast(decls, i) && q < |Declared(names, decls[i].name, decls[i].e, DrawnBefore(decls, i))|
    requires |Listing(names, decls, i)| + q < p < |Listing(names, decls, |decls|)|
    ensures Listing(names, decls, |decls|)[p].name
         != Declared(names, decls[i].name, decls[i].e, DrawnBefore(decls, i))[q].name
  {
    hide *;
    PlaceInListing(names, decls, i, q);
    if p < |Listing(names, decls, i + 1)| {
      NotReplacedWithin(names, decls, i, q, p - |Listing(names, decls, i)|);
    } else {
      NameListedFrom(names, decls, i + 1, |decls|, p);
      LaterApart(names, decls, i, q, Listing(names, decls, |decls|)[p].name);
    }
  }

  lemma {:induction false} NotReplacedWithin(names: Names, decls: seq<Declaration>, i: nat, q: nat, r: nat)
    requires AllNodes(decls) && DrawnApart(names, decls) && i < |decls| && decls[i].Expression? && IsNode(decls[i].e)
    requires q < r < |Declared(names, decls[i].name, decls[i].e, DrawnBefore(decls, i))|
    ensures |Listing(names, decls, i)| + r < |Listing(names, decls, |decls|)|
    ensures Listing(names, decls, |decls|)[|Listing(names, decls, i)| + r].name
         != Declared(names, decls[i].name, decls[i].e, DrawnBefore(decls, i))[q].name
  {
    hide *;
    PlaceInListing(names, decls, i, r);
    AddedApart(names, decls, i, q, r);
  }

  lemma {:induction false} AddedApart(names: Names, decls: seq<Declaration>, i: nat, q: nat, p: nat)
    requires AllNodes(decls) && DrawnApart(names, decls) && i < |decls| && decls[i].Expression?
    requires q < p < |Declared(names, decls[i].name, decls[i].e, DrawnBefore(decls, i))|
    ensures
      var added := Declared(names, decls[i].name, decls[i].e, DrawnBefore(decls, i));
      added[p].name != added[q].name
  {
    var k := DrawnBefore(decls, i);
    var added, nested := Declared(names, decls[i].name, decls[i].e, k), NodeEntries(names, decls[i].e, k);
    NodeNames(names, decls[i].e, k);
    assert added[q] == nested[q] && DrawnName(names, nested[q].name, k, k + Drawn(decls[i].e) - 1);
    if p < |nested| {
      assert added[p] == nested[p];
    } else {
      assert added[p].name == NameOf(decls[i]);
    }
  }

  lemma {:induction false} LaterApart(names: Names, decls: seq<Declaration>, i: nat, q: nat, later: string)
    requires AllNodes(decls) && DrawnApart(names, decls) && i < |decls| && decls[i].Expression? && IsLast(decls, i)
    requires q < |Declared(names, decls[i].name, decls[i].e, DrawnBefore(decls, i))|
    requires NamedFrom(names, decls, i + 1, later)
    ensures later != Declared(names, decls[i].name, decls[i].e, DrawnBefore(decls, i))[q].name
  {
    AddedNames(names, decls, i, q);
  }

  /** The parser draws the names of an expression where those before it ended, and makes these variables. */
  lemma {:induction false} ParsedAsListed(names: Names, decls: seq<Declaration>, i: nat,
                                          tokens: seq<string>, gaps: set<nat>, pos: nat)
    requires i < |decls| && decls[i].Expression? && IsNode(decls[i].e) && IsWritten(decls[i].e)
    requires At(tokens, pos, Written(decls[i].e))
    ensures
      var d, k := decls[i], DrawnBefore(decls, i);
      var parsed := Math(names, tokens, gaps, pos, [], k);
      && parsed.ok && parsed.drawn == DrawnBefore(decls, i + 1)
      && parsed.vars + [Var(d.name, Kind(d.e), List(parsed.values), "", None)] == VarsOf(names, d, k)
  {
    var d, k := decls[i], DrawnBefore(decls, i);
    NodeParsed(names, d.e, tokens, gaps, pos, [], k);
    DeclaredParts(names, d.name, d.e, pos, k);
    hide Math, Written, NodeEntries;
  }

  // ---- The theorem --------------------------------------------------------------------------------------

  /** An acyclic table that results from these declarations, whatever was in it before. */
  ghost predicate Results(env: Env, base: Table, names: Names, decls: seq<Declaration>) {
    && AllNodes(decls) && DrawnApart(names, decls) && Valid(env)
    && env.vars == Insert(base, Listing(names, decls, |decls|), |Listing(names, decls, |decls|)|)
  }

  lemma {:induction false} EntryInTable(env: Env, base: Table, names: Names, decls: seq<Declaration>, i: nat)
    requires Results(env, base, names, decls) && i < |decls| && decls[i].Expression? && IsLast(decls, i)
    ensures
      var e, k := decls[i].e, DrawnBefore(decls, i);
      var root := Var(decls[i].name, Kind(e), List(Operands(names, e, k)), "", None);
      && root.name in env.vars && env.vars[root.name] == root && OperandsBelow(env.rank, root)
      && Contains(env.vars, NodeEntries(names, e, k))
  {
    var e, k := decls[i].e, DrawnBefore(decls, i);
    var nested, root := NodeEntries(names, e, k), Var(decls[i].name, Kind(e), List(Operands(names, e, k)), "", None);
    var added := Declared(names, decls[i].name, e, k);
    assert added == nested + [root] && added[|nested|] == root;
    NodeNames(names, e, k);
    DeclaredStays(base, names, decls, i, |nested|);
    forall q | 0 <= q < |nested|
      ensures nested[q].name in env.vars && env.vars[nested[q].name] == nested[q] && !IsNumber(nested[q].name)
    {
      DeclaredStays(base, names, decls, i, q);
      assert nested[q] == added[q];
      assert DrawnName(names, nested[q].name, k, k + Drawn(e) - 1);
    }
    EntryIsOk(env, root.name);
  }

  /**
   Every declared expression that is not replaced later evaluates to its own result in the final
   table: replaced variables, and variables declared after it, count as they are in the end.
   */
  lemma {:induction false} AllDeclarationsEvaluate(env: Env, base: Table, names: Names, decls: seq<Declaration>, i: nat)
    requires Results(env, base, names, decls) && i < |decls| && decls[i].Expression? && IsLast(decls, i)
    requires IsWritten(decls[i].e) && NestedReadBack(env, decls[i].e)
    ensures decls[i].name in env.vars && OperandsBelow(env.rank, env.vars[decls[i].name])
    ensures EvalMath(env, env.vars[decls[i].name], 0) == Result(env, decls[i].e)
  {
    var e, k := decls[i].e, DrawnBefore(decls, i);
    EntryInTable(env, base, names, decls, i);
    hide Results, EvalMath, Result, NodeEntries;
    LoweredNode(env, names, e, k, env.vars[decls[i].name], 0);
  }

  /**
   A reference to a declared expression means what the expression means, and nothing if that is
   negative, or lost inside the expression.
   */
  lemma {:induction false} ReferenceMeansExpression(env: Env, base: Table, names: Names, decls: seq<Declaration>,
          i: nat)
    requires Results(env, base, names, decls) && i < |decls| && decls[i].Expression? && IsLast(decls, i)
    requires IsWritten(decls[i].e) && NestedReadBack(env, decls[i].e)
    requires Meaning(env, decls[i].e).Some? ==> ReadsBack(env.fmt, Meaning(env, decls[i].e).value.value)
    requires !IsNumber(decls[i].name)
    ensures Meaning(env, Ref(decls[i].name)) == if Carried(env, decls[i].e) then Meaning(env, decls[i].e) else None
  {
    var e, k := decls[i].e, DrawnBefore(decls, i);
    EntryInTable(env, base, names, decls, i);
    var v := env.vars[decls[i].name];
    EntryByName(env, v);
    ValueOfEntry(env, names, e, k, v);
  }

  lemma {:induction false} ValueOfEntry(env: Env, names: Names, e: Expr, k: nat, v: Var)
    requires Valid(env) && IsNode(e) && IsWritten(e) && NestedReadBack(env, e)
    requires v.ty == Kind(e) && v.value == List(Operands(names, e, k)) && OperandsBelow(env.rank, v)
    requires Contains(env.vars, NodeEntries(names, e, k))
    requires Meaning(env, e).Some? ==> ReadsBack(env.fmt, Meaning(env, e).value.value)
    ensures OperandAgrees(env, e, EvalMath(env, v, 1))
  {
    LoweredNode(env, names, e, k, v, 1);
    hide EvalMath, Meaning, Result, OperandAgrees, ParseMathVariable;
    ResultAgrees(env, e);
  }

  /** A name that starts with a digit is read as a number, even if a variable has it. */
  lemma {:induction false} NumberIsNoReference(env: Env, name: string)
    requires Valid(env) && IsNumber(name)
    ensures Meaning(env, Ref(name)) == Meaning(env, Literal(name))
  {}

  /** A reference to an alias means what its target means. */
  lemma {:induction false} ReferenceMeansTarget(env: Env, name: string)
    requires Valid(env) && name in env.vars && env.vars[name].ty.Alias? && AliasTarget(env.vars[name]) in env.vars
    requires !IsNumber(name) && !IsNumber(AliasTarget(env.vars[name]))
    ensures Meaning(env, Ref(name)) == Meaning(env, Ref(AliasTarget(env.vars[name])))
  {
    assert EntryOk(env.rank, name, env.vars[name]);
    var target := AliasTarget(env.vars[name]);
    assert EntryOk(env.rank, target, env.vars[target]);
    assert Resolve(env, name) == Resolve(env, target);
  }

  /** A reference to a number or a size means its value, as edited by the user. */
  lemma {:induction false} ReferenceMeansValue(env: Env, name: string)
    requires Valid(env) && name in env.vars && (env.vars[name].ty.Number? || env.vars[name].ty.Size?)
    requires !IsNumber(name)
    ensures Meaning(env, Ref(name)) == Some(QuantityOf(env.vars[name]))
  {
    assert EntryOk(env.rank, name, env.vars[name]);
  }

  // ---- Where evaluation is not plain arithmetic -----------------------------------------------------

  /** An empty table. */
  ghost function NoVariables(fmt: Format): Env {
    Env(map[], fmt, (_: string) => 0)
  }

  /** Parsing these tokens and evaluating what is parsed gives this text. */
  ghost predicate EvaluatesTo(fmt: Format, names: Names, e: Expr, tokens: seq<string>, gaps: set<nat>, pos: nat,
          text: string)
    requires IsNode(e) && pos < |tokens|
  {
    var parsed := Math(names, tokens, gaps, pos, [], 0);
    var root := Var("total", Kind(e), List(parsed.values), "", None);
    var env := Extended(NoVariables(fmt), names, "total", e, 0);
    && parsed.ok && Valid(env) && env.vars == Insert(map[], parsed.vars + [root], |parsed.vars| + 1)
    && OperandsBelow(env.rank, root) && EvalMath(env, root, 0) == text
  }

  /** Names that can be drawn: names of variables, all different, and none the declared one. */
  ghost predicate Drawable(names: Names) {
    && (forall m, n :: 0 <= m < n ==> names(m) != names(n))
    && (forall m: nat :: IsName(names(m)) && names(m) != "total")
  }

  lemma {:induction false} AloneIsFresh(fmt: Format, names: Names, e: Expr)
    requires Drawable(names) && IsNode(e) && Refs(e) == {}
    ensures FreshFor(NoVariables(fmt), Declared(names, "total", e, 0), e)
  {
    var list, nested := Declared(names, "total", e, 0), NodeEntries(names, e, 0);
    NodeNames(names, e, 0);
    hide NodeEntries;
    forall q | 0 <= q < |nested| ensures IsName(nested[q].name) && nested[q].name != "total" {
      assert DrawnName(names, nested[q].name, 0, Drawn(e) - 1);
    }
    assert IsName("total");
  }

  lemma {:induction false} AloneEvaluates(fmt: Format, names: Names, e: Expr, tokens: seq<string>, gaps: set<nat>,
          pos: nat)
    requires Drawable(names) && PrintsNumbers(fmt) && IsNode(e) && IsWritten(e) && Refs(e) == {}
    requires Valid(NoVariables(fmt)) && NestedReadBack(NoVariables(fmt), e)
    requires pos < |tokens| && At(tokens, pos, Written(e))
    ensures EvaluatesTo(fmt, names, e, tokens, gaps, pos, Result(NoVariables(fmt), e))
  {
    hide PrintsNumbers, Refs, Written, IsWritten, NestedReadBack, Result, EvalMath, Math, Extended, Drawable, Valid;
    AloneIsFresh(fmt, names, e);
    DeclarationEvaluates(NoVariables(fmt), names, "total", e, tokens, gaps, pos, 0);
  }

  lemma {:induction false} NestedTokens(e: Expr)
    requires e == CalcOf(CalcOf(Digit(1), Minus, Digit(2)), Plus, Digit(5))
    ensures IsNode(e) && Refs(e) == {} && At(Written(e), 0, Written(e))
    ensures Written(e) == ["calc", "(", "calc", "(", "1", "-", "2", ")", "+", "5", ")"]
  {
    var nested := Written(e.left);
    assert nested == ["calc", "(", "1", "-", "2", ")"];
    assert Written(e) == ["calc", "("] + nested + ["+"] + ["5"] + [")"];
  }

  /** calc(calc(1 - 2) + 5) is 4, but its nested result is negative and does not read back. */
  lemma {:induction false} NegativeIntermediateIsInvalid(fmt: Format, names: Names, gaps: set<nat>) returns (e: Expr)
    requires Drawable(names) && PrintsNumbers(fmt)
    ensures Valid(NoVariables(fmt)) && Meaning(NoVariables(fmt), e) == Some(Quantity(4.0, ""))
    ensures IsNode(e) && Written(e) == ["calc", "(", "calc", "(", "1", "-", "2", ")", "+", "5", ")"]
    ensures EvaluatesTo(fmt, names, e, Written(e), gaps, 0, INVALID)
  {
    assert Valid(NoVariables(fmt));
    e := NegativeIntermediate(NoVariables(fmt));
    NestedTokens(e);
    hide *;
    AloneEvaluates(fmt, names, e, Written(e), gaps, 0);
  }

  /** calc(3 - 3) is 0, which is reported as invalid. */
  lemma {:induction false} ZeroIsInvalid(fmt: Format, names: Names, gaps: set<nat>) returns (e: Expr)
    requires Drawable(names) && PrintsNumbers(fmt)
    ensures Valid(NoVariables(fmt)) && Meaning(NoVariables(fmt), e) == Some(Quantity(0.0, ""))
    ensures IsNode(e) && Written(e) == ["calc", "(", "3", "-", "3", ")"]
    ensures EvaluatesTo(fmt, names, e, Written(e), gaps, 0, INVALID)
  {
    assert Valid(NoVariables(fmt));
    e := ZeroValue(NoVariables(fmt));
    AloneEvaluates(fmt, names, e, Written(e), gaps, 0);
  }
}
