/**
 A declared expression, from its tokens to its value: the parsed entries are added to the
 variable table, the table stays acyclic, and the declared variable evaluates to the
 result of the written expression.
 */
module ThemeLowering {
  import opened Wrappers
  import opened Numerals
  import opened ThemeMath
  import opened ThemeParser

  /** Adds the first n variables in order; a later one replaces an earlier one of its name. */
  function Insert(vars: Table, list: seq<Var>, n: nat): Table
    requires n <= |list|
  {
    if n == 0 then vars else Insert(vars, list, n - 1)[list[n - 1].name := list[n - 1]]
  }

  predicate Listed(list: seq<Var>, name: string) {
    exists i :: 0 <= i < |list| && list[i].name == name
  }

  ghost predicate DistinctNames(list: seq<Var>) {
    forall i, j :: 0 <= i < j < |list| ==> list[i].name != list[j].name
  }

  lemma {:induction false} InsertContains(vars: Table, list: seq<Var>, n: nat)
    requires n <= |list| && DistinctNames(list)
    ensures forall i :: 0 <= i < n ==>
      list[i].name in Insert(vars, list, n) && Insert(vars, list, n)[list[i].name] == list[i]
    ensures forall k :: k in Insert(vars, list, n) <==> k in vars || exists i :: 0 <= i < n && list[i].name == k
    ensures forall k :: k in vars && (forall i :: 0 <= i < n ==> list[i].name != k) ==>
      Insert(vars, list, n)[k] == vars[k]
  {
    if n > 0 {
      InsertContains(vars, list, n - 1);
    }
  }

  // ---- Names and references -----------------------------------------------------------------

  /** The named variables an expression refers to. */
  function Refs(e: Expr): set<string> {
    match e
    case Literal(_) => {}
    case Ref(name) => {name}
    case _ => Refs(e.left) + Refs(e.right)
  }

  /** The table does not mention any of these variables. */
  ghost predicate Unmentioned(vars: Table, list: seq<Var>) {
    forall k :: k in vars ==>
      && !Listed(list, k)
      && (vars[k].ty.Alias? ==> !Listed(list, AliasTarget(vars[k])))
      && (IsMath(vars[k].ty) && |Items(vars[k])| == 3 ==>
            !Listed(list, Items(vars[k])[0]) && !Listed(list, Items(vars[k])[2]))
  }

  /** The variables a declaration adds: the anonymous entries, then the declared one. */
  function Declared(names: Names, name: string, e: Expr, k: nat): seq<Var>
    requires IsNode(e)
  {
    NodeEntries(names, e, k) + [Var(name, Kind(e), List(Operands(names, e, k)), "", None)]
  }

  /** The drawn names and the declared one are new, distinct names that nothing refers to yet. */
  ghost predicate FreshFor(base: Env, list: seq<Var>, e: Expr) {
    && DistinctNames(list)
    && (forall i :: 0 <= i < |list| ==> IsKey(list[i].name))
    && (forall i :: 0 <= i < |list| - 1 ==> !IsNumber(list[i].name))
    && Unmentioned(base.vars, list)
    && (forall r :: r in Refs(e) ==> !Listed(list, r))
  }

  // ---- The table stays acyclic ----------------------------------------------------------------

  function MaxRank(rank: string -> nat, e: Expr): nat {
    match e
    case Literal(_) => 0
    case Ref(name) => rank(name)
    case _ => var a, b := MaxRank(rank, e.left), MaxRank(rank, e.right); if a > b then a else b
  }

  /** The position of a name in the list, or the list's length. */
  function IndexOf(list: seq<Var>, name: string, i: nat): (k: nat)
    requires i <= |list|
    ensures i <= k <= |list| && (k < |list| ==> list[k].name == name)
    ensures k == |list| ==> forall j :: i <= j < |list| ==> list[j].name != name
    decreases |list| - i
  {
    if i == |list| || list[i].name == name then i else IndexOf(list, name, i + 1)
  }

  /** New variables rank above everything the expression refers to, in the order of the list. */
  function NewRank(rank: string -> nat, list: seq<Var>, low: nat): string -> nat {
    (s: string) => var k := IndexOf(list, s, 0); if k < |list| then low + k else rank(s)
  }

  lemma {:induction false} NewRankAt(rank: string -> nat, list: seq<Var>, low: nat, i: nat)
    requires DistinctNames(list) && i < |list|
    ensures NewRank(rank, list, low)(list[i].name) == low + i
  {
    var k := IndexOf(list, list[i].name, 0);
    assert k == i;
  }

  /** Operands rank below the entries made after them, whatever rank the entries start from. */
  lemma {:induction false} OperandRanked(names: Names, e: Expr, k: nat, rank: string -> nat, low: nat)
    requires 0 < low && LeavesBelow(rank, e, low)
    requires ConsecutiveRanks(rank, OperandEntries(names, e, k), low)
    ensures AllBelow(rank, OperandEntries(names, e, k))
    ensures Height(rank, Operand(names, e, k)) < low + |OperandEntries(names, e, k)|
    decreases e, 1
  {
    hide NodeEntries, LeavesBelow, ConsecutiveRanks, AllBelow;
    if IsNode(e) {
      var nested, own := NodeEntries(names, e, k + 1), Entry(names, e, k);
      RanksSplit(rank, nested, [own], low);
      NodeRanked(names, e, k + 1, rank, low);
      RankedLast(rank, own, low + |nested|);
      BelowJoined(rank, nested, [own]);
    } else {
      LeafRanked(names, e, k, rank, low);
    }
  }

  lemma {:induction false} LeafRanked(names: Names, e: Expr, k: nat, rank: string -> nat, low: nat)
    requires !IsNode(e) && LeavesBelow(rank, e, low)
    ensures AllBelow(rank, []) && Height(rank, Operand(names, e, k)) < low
  {}

  lemma {:induction false} RankedLast(rank: string -> nat, v: Var, low: nat)
    requires ConsecutiveRanks(rank, [v], low)
    ensures rank(v.name) == low
    ensures OperandsBelow(rank, v) ==> AllBelow(rank, [v])
  {
    assert [v][0] == v;
  }

  lemma {:induction false} RanksSplit(rank: string -> nat, a: seq<Var>, b: seq<Var>, low: nat)
    requires ConsecutiveRanks(rank, a + b, low)
    ensures ConsecutiveRanks(rank, a, low) && ConsecutiveRanks(rank, b, low + |a|)
  {
    var all := a + b;
    assert forall i :: 0 <= i < |a| ==> a[i] == all[i];
    assert forall i :: 0 <= i < |b| ==> b[i] == all[|a| + i];
  }

  lemma {:induction false} BelowJoined(rank: string -> nat, a: seq<Var>, b: seq<Var>)
    requires AllBelow(rank, a) && AllBelow(rank, b)
    ensures AllBelow(rank, a + b)
  {
    hide OperandsBelow;
  }

  lemma {:induction false} NodeRanked(names: Names, e: Expr, k: nat, rank: string -> nat, low: nat)
    requires IsNode(e) && 0 < low && LeavesBelow(rank, e, low)
    requires ConsecutiveRanks(rank, NodeEntries(names, e, k), low)
    ensures AllBelow(rank, NodeEntries(names, e, k))
    ensures var ops := Operands(names, e, k);
            && Height(rank, ops[0]) < low + |NodeEntries(names, e, k)|
            && Height(rank, ops[2]) < low + |NodeEntries(names, e, k)|
    decreases e, 0
  {
    hide OperandEntries, Operand, LeavesBelow, ConsecutiveRanks, AllBelow;
    var a, b := OperandEntries(names, e.left, k), OperandEntries(names, e.right, k + Drawn(e.left));
    LeavesOfNode(rank, e, low, low + |a|);
    RanksSplit(rank, a, b, low);
    OperandRanked(names, e.left, k, rank, low);
    OperandRanked(names, e.right, k + Drawn(e.left), rank, low + |a|);
    BelowJoined(rank, a, b);
  }

  lemma {:induction false} LeavesOfNode(rank: string -> nat, e: Expr, low: nat, high: nat)
    requires IsNode(e) && LeavesBelow(rank, e, low) && low <= high
    ensures LeavesBelow(rank, e.left, low) && LeavesBelow(rank, e.right, high)
  {
    LeavesBelowMore(rank, e.right, low, high);
  }

  ghost predicate ConsecutiveRanks(rank: string -> nat, list: seq<Var>, low: nat) {
    forall i :: 0 <= i < |list| ==> rank(list[i].name) == low + i
  }

  ghost predicate AllBelow(rank: string -> nat, list: seq<Var>) {
    forall i :: 0 <= i < |list| ==> OperandsBelow(rank, list[i])
  }

  ghost predicate LeavesBelow(rank: string -> nat, e: Expr, low: nat) {
    match e
    case Literal(text) => Height(rank, text) < low
    case Ref(name) => rank(name) < low
    case _ => LeavesBelow(rank, e.left, low) && LeavesBelow(rank, e.right, low)
  }

  lemma {:induction false} LeavesBelowMore(rank: string -> nat, e: Expr, low: nat, high: nat)
    requires LeavesBelow(rank, e, low) && low <= high
    ensures LeavesBelow(rank, e, high)
  {
    if IsNode(e) {
      LeavesBelowMore(rank, e.left, low, high);
      LeavesBelowMore(rank, e.right, low, high);
    }
  }

  lemma {:induction false} OldLeavesBelow(base: Env, e: Expr, list: seq<Var>, low: nat)
    requires Valid(base) && IsWritten(e) && MaxRank(base.rank, e) < low
    requires forall r :: r in Refs(e) ==> !Listed(list, r)
    ensures LeavesBelow(NewRank(base.rank, list, low), e, low)
  {
    match e
    case Literal(text) =>
    case Ref(name) => assert name in Refs(e);
    case _ =>
      OldLeavesBelow(base, e.left, list, low);
      OldLeavesBelow(base, e.right, list, low);
  }

  /** The environment after a declaration. */
  ghost function Extended(base: Env, names: Names, name: string, e: Expr, k: nat): Env
    requires IsNode(e)
  {
    var list := Declared(names, name, e, k);
    Env(Insert(base.vars, list, |list|), base.fmt, NewRank(base.rank, list, MaxRank(base.rank, e) + 1))
  }

  lemma {:induction false} ExtendedIsAcyclic(base: Env, names: Names, name: string, e: Expr, k: nat)
    requires Valid(base) && IsNode(e) && IsWritten(e) && FreshFor(base, Declared(names, name, e, k), e)
    ensures Valid(Extended(base, names, name, e, k))
  {
    hide Declared, EntryOk, IsWritten, FreshFor;
    var env := Extended(base, names, name, e, k);
    forall s ensures if s in env.vars then EntryOk(env.rank, s, env.vars[s]) else env.rank(s) == 0 {
      ExtendedEntryOk(base, names, name, e, k, s);
    }
  }

  lemma {:induction false} FreshParts(base: Env, list: seq<Var>, e: Expr)
    requires FreshFor(base, list, e)
    ensures DistinctNames(list) && Unmentioned(base.vars, list)
  {}

  lemma {:induction false} OutsideTable(base: Env, s: string)
    requires Valid(base)
    ensures s !in base.vars ==> base.rank(s) == 0
  {}

  /** What the larger table holds under a name. */
  lemma {:induction false} LookedUp(vars: Table, list: seq<Var>, s: string)
    requires DistinctNames(list)
    ensures
      var all, i := Insert(vars, list, |list|), IndexOf(list, s, 0);
      if i < |list| then s in all && all[s] == list[i] && list[i].name == s
      else !Listed(list, s) && (s in all <==> s in vars) && (s in vars ==> all[s] == vars[s])
  {
    InsertContains(vars, list, |list|);
    hide Insert, DistinctNames;
  }

  lemma {:induction false} ExtendedEntryOk(base: Env, names: Names, name: string, e: Expr, k: nat, s: string)
    requires Valid(base) && IsNode(e) && IsWritten(e) && FreshFor(base, Declared(names, name, e, k), e)
    ensures var env := Extended(base, names, name, e, k);
      if s in env.vars then EntryOk(env.rank, s, env.vars[s]) else env.rank(s) == 0
  {
    hide Declared, EntryOk, MaxRank, NewRank, Insert, IndexOf, FreshFor, Listed, Unmentioned, DistinctNames;
    var list := Declared(names, name, e, k);
    var low := MaxRank(base.rank, e) + 1;
    FreshParts(base, list, e);
    LookedUp(base.vars, list, s);
    OutsideTable(base, s);
    hide Valid;
    var i := IndexOf(list, s, 0);
    if i < |list| {
      DeclaredEntryOk(base, names, name, e, k, i);
    } else if s in base.vars {
      OldEntryOk(base, list, low, s);
    } else {
      Unlisted(base.rank, list, low, s);
    }
  }

  lemma {:induction false} DeclaredEntryOk(base: Env, names: Names, name: string, e: Expr, k: nat, i: nat)
    requires Valid(base) && IsNode(e) && IsWritten(e) && FreshFor(base, Declared(names, name, e, k), e)
    requires i < |Declared(names, name, e, k)|
    ensures
      var v := Declared(names, name, e, k)[i];
      EntryOk(NewRank(base.rank, Declared(names, name, e, k), MaxRank(base.rank, e) + 1), v.name, v)
  {
    var list, nested := Declared(names, name, e, k), NodeEntries(names, e, k);
    var low := MaxRank(base.rank, e) + 1;
    var rank := NewRank(base.rank, list, low);
    OldLeavesBelow(base, e, list, low);
    forall j | 0 <= j < |list| ensures rank(list[j].name) == low + j {
      NewRankAt(base.rank, list, low, j);
    }
    assert forall j :: 0 <= j < |nested| ==> nested[j] == list[j];
    NodeRanked(names, e, k, rank, low);
    assert rank(list[i].name) == low + i;
    DeclaredShape(names, name, e, k, i);
  }

  lemma {:induction false} DeclaredShape(names: Names, name: string, e: Expr, k: nat, i: nat)
    requires IsNode(e) && i < |Declared(names, name, e, k)|
    ensures var v := Declared(names, name, e, k)[i]; IsMath(v.ty) && v.suffix == ""
  {
    if i < |NodeEntries(names, e, k)| {
      NodeShape(names, e, k, i);
    }
  }

  lemma {:induction false} NodeShape(names: Names, e: Expr, k: nat, i: nat)
    requires IsNode(e) && i < |NodeEntries(names, e, k)|
    ensures var v := NodeEntries(names, e, k)[i]; IsMath(v.ty) && v.suffix == ""
    decreases e
  {
    var a := OperandEntries(names, e.left, k);
    if i < |a| {
      if i < |a| - 1 {
        NodeShape(names, e.left, k + 1, i);
      }
    } else if i - |a| < |OperandEntries(names, e.right, k + Drawn(e.left))| - 1 {
      NodeShape(names, e.right, k + Drawn(e.left) + 1, i - |a|);
    }
  }

  lemma {:induction false} OldEntryOk(base: Env, list: seq<Var>, low: nat, s: string)
    requires Valid(base) && s in base.vars && Unmentioned(base.vars, list)
    ensures EntryOk(NewRank(base.rank, list, low), s, base.vars[s])
  {
    var v := base.vars[s];
    assert EntryOk(base.rank, s, v);
    Unlisted(base.rank, list, low, s);
    if v.ty.Alias? {
      Unlisted(base.rank, list, low, AliasTarget(v));
    }
    if IsMath(v.ty) && |Items(v)| == 3 {
      Unlisted(base.rank, list, low, Items(v)[0]);
      Unlisted(base.rank, list, low, Items(v)[2]);
    }
  }

  lemma {:induction false} Unlisted(rank: string -> nat, list: seq<Var>, low: nat, s: string)
    requires !Listed(list, s)
    ensures NewRank(rank, list, low)(s) == rank(s)
  {
    var k := IndexOf(list, s, 0);
    if k < |list| {
      assert Listed(list, s);
    }
  }

  // ---- Old variables keep their values --------------------------------------------------------

  /** The larger table agrees with the old one, and what it adds is listed and not mentioned. */
  ghost predicate Extends(base: Env, env: Env, list: seq<Var>) {
    && Valid(base) && Valid(env) && env.fmt == base.fmt
    && (forall k :: k in base.vars ==> k in env.vars && env.vars[k] == base.vars[k])
    && (forall k :: k in env.vars ==> k in base.vars || Listed(list, k))
    && (forall i :: 0 <= i < |list| ==> IsKey(list[i].name))
    && Unmentioned(base.vars, list)
  }

  lemma {:induction false} ResolveUnchanged(base: Env, env: Env, list: seq<Var>, key: string)
    requires Extends(base, env, list) && !Listed(list, key)
    ensures Resolve(env, key) == Resolve(base, key)
    decreases base.rank(key)
  {
    if key in base.vars {
      assert EntryOk(base.rank, key, base.vars[key]);
      if base.vars[key].ty.Alias? {
        ResolveUnchanged(base, env, list, AliasTarget(base.vars[key]));
      }
    }
  }

  lemma {:induction false} OperandUnchanged(base: Env, env: Env, list: seq<Var>, value: string, recursion: nat)
    requires Extends(base, env, list) && !Listed(list, value)
    ensures ParseMathVariable(env, value, recursion) == ParseMathVariable(base, value, recursion)
    decreases Height(base.rank, value), 1
  {
    hide EvalMath, Resolve;
    if value == [] || !IsDigit(value[0]) {
      ResolveUnchanged(base, env, list, value);
      var v := Resolve(base, value);
      if IsMath(v.ty) {
        EntryUnchanged(base, env, list, v, recursion + 1);
        var text := EvalMath(base, v, recursion + 1);
        if !IsNumber(text) {
          assert !Listed(list, text);
          ResolveUnchanged(base, env, list, text);
        }
      }
    }
  }

  lemma {:induction false} EntryUnchanged(base: Env, env: Env, list: seq<Var>, v: Var, recursion: nat)
    requires Extends(base, env, list) && IsMath(v.ty)
    requires v.name in base.vars && base.vars[v.name] == v
    ensures OperandsBelow(base.rank, v) && OperandsBelow(env.rank, v)
    ensures EvalMath(env, v, recursion) == EvalMath(base, v, recursion)
    decreases base.rank(v.name), 0
  {
    assert EntryOk(base.rank, v.name, v) && EntryOk(env.rank, v.name, v);
    if |Items(v)| == 3 {
      OperandUnchanged(base, env, list, Items(v)[0], 0);
      OperandUnchanged(base, env, list, Items(v)[2], 0);
    }
  }

  lemma {:induction false} MeaningUnchanged(base: Env, env: Env, list: seq<Var>, e: Expr)
    requires Extends(base, env, list) && forall r :: r in Refs(e) ==> !Listed(list, r)
    ensures Meaning(env, e) == Meaning(base, e)
    ensures Survives(env, e) == Survives(base, e) && Carried(env, e) == Carried(base, e)
    ensures NestedReadBack(env, e) == NestedReadBack(base, e)
  {
    match e
    case Literal(_) =>
    case Ref(name) => OperandUnchanged(base, env, list, name, 0);
    case _ =>
      MeaningUnchanged(base, env, list, e.left);
      MeaningUnchanged(base, env, list, e.right);
  }

  // ---- The theorem ------------------------------------------------------------------------------

  /** Declaring a written expression: parsing succeeds, the table with the new variables is
      still acyclic, and the declared variable evaluates to the expression's own result, however
      deeply the expression is nested. */
  lemma {:induction false} DeclarationEvaluates(base: Env, names: Names, name: string, e: Expr,
                                                tokens: seq<string>, gaps: set<nat>, pos: nat, k: nat)
    requires Valid(base) && IsNode(e) && IsWritten(e) && At(tokens, pos, Written(e))
    requires FreshFor(base, Declared(names, name, e, k), e) && NestedReadBack(base, e)
    ensures
      var parsed := Math(names, tokens, gaps, pos, [], k);
      var root := Var(name, Kind(e), List(parsed.values), "", None);
      var list := parsed.vars + [root];
      var env := Extended(base, names, name, e, k);
      && parsed.ok && env.vars == Insert(base.vars, list, |list|)
      && Valid(env) && OperandsBelow(env.rank, root)
      && EvalMath(env, root, 0) == Result(base, e)
  {
    hide *;
    NodeParsed(names, e, tokens, gaps, pos, [], k);
    DeclaredParts(names, name, e, pos, k);
    ExtensionWorks(base, names, name, e, k);
    var env, list := Extended(base, names, name, e, k), Declared(names, name, e, k);
    var root := list[|list| - 1];
    MeaningUnchanged(base, env, list, e);
    LoweredNode(env, names, e, k, root, 0);
    ResultUnchanged(base, env, e);
  }

  lemma {:induction false} DeclaredParts(names: Names, name: string, e: Expr, pos: nat, k: nat)
    requires IsNode(e)
    ensures
      var parsed, list := NodeOutcome(names, e, pos, [], k), Declared(names, name, e, k);
      var root := Var(name, Kind(e), List(parsed.values), "", None);
      && parsed.ok && list == parsed.vars + [root] && list[|list| - 1] == root
      && root.value == List(Operands(names, e, k))
  {
    assert [] + NodeEntries(names, e, k) == NodeEntries(names, e, k);
  }

  lemma {:induction false} ResultUnchanged(base: Env, env: Env, e: Expr)
    requires Valid(base) && Valid(env) && base.fmt == env.fmt
    requires Meaning(env, e) == Meaning(base, e) && Survives(env, e) == Survives(base, e)
    ensures Result(env, e) == Result(base, e)
  {
  }

  lemma {:induction false} ExtensionWorks(base: Env, names: Names, name: string, e: Expr, k: nat)
    requires Valid(base) && IsNode(e) && IsWritten(e) && FreshFor(base, Declared(names, name, e, k), e)
    ensures
      var env, list := Extended(base, names, name, e, k), Declared(names, name, e, k);
      && Valid(env) && env.fmt == base.fmt
      && Extends(base, env, list) && (forall r :: r in Refs(e) ==> !Listed(list, r))
      && env.vars == Insert(base.vars, list, |list|) && Contains(env.vars, NodeEntries(names, e, k))
      && OperandsBelow(env.rank, list[|list| - 1]) && IsMath(list[|list| - 1].ty)
  {
    hide Valid;
    hide IsWritten;
    hide NewRank;
    var env, list, nested := Extended(base, names, name, e, k), Declared(names, name, e, k), NodeEntries(names, e, k);
    ExtendedIsAcyclic(base, names, name, e, k);
    InsertContains(base.vars, list, |list|);
    assert Extends(base, env, list);
    assert list[|nested|].name == name;
    EntryIsOk(env, name);
    assert forall i :: 0 <= i < |nested| ==> nested[i] == list[i];
  }

  lemma {:induction false} EntryIsOk(env: Env, k: string)
    requires Valid(env) && k in env.vars && IsMath(env.vars[k].ty)
    ensures OperandsBelow(env.rank, env.vars[k])
  {
    assert EntryOk(env.rank, k, env.vars[k]);
  }
}
