/**
 Evaluation on tables of any shape.

 The source evaluates operands by recursion without a bound that takes effect.  Here the same
 evaluation has a budget of steps, so that it is defined on tables with cycles and with malformed
 entries.  It finishes within some budget if and only if no cycle can be reached, and it reads
 behind the end of an operand list if and only if an entry with too few operands can.
 */
module ThemeTermination {
  import opened Wrappers
  import opened Numerals
  import opened ThemeMath
  import opened ThemeParser

  // Thrown is the exception for an operand that is not a number
  datatype Outcome<T> = Done(value: T) | Thrown | OutOfRange | OutOfSteps

  predicate IsNumeric(v: Var) {
    v.ty.Number? || v.ty.Size?
  }

  /** Three operands with a separator that belongs to the operation. */
  predicate WellFormed(v: Var) {
    IsMath(v.ty) && |Items(v)| == 3 && if v.ty.Calc? then Items(v)[1] in {"*", "+", "-", "/"} else Items(v)[1] == ","
  }

  /** A printed result as an operand. */
  function ReadText(text: string): Outcome<Var> {
    if IsNumber(text) then Done(ParseNumber(text)) else Thrown
  }

  /** Finds the value of a variable. */
  function Lookup(vars: Table, fmt: Format, steps: nat, key: string): Outcome<Var>
    decreases steps, 0
  {
    if key !in vars then Thrown
    else
      var v := vars[key];
      if v.ty.Alias? then
        if AliasTarget(v) !in vars then Thrown
        else if steps == 0 then OutOfSteps
        else Lookup(vars, fmt, steps - 1, AliasTarget(v))
      else if IsMath(v.ty) then
        if steps == 0 then OutOfSteps
        else
          match Entry(vars, fmt, steps - 1, v)
          case Done(text) => ReadText(text)
          case Thrown => Thrown
          case OutOfRange => OutOfRange
          case OutOfSteps => OutOfSteps
      else if IsNumeric(v) then Done(v)
      else Thrown
  }

  function Operand(vars: Table, fmt: Format, steps: nat, text: string): Outcome<Var>
    decreases steps, 1
  {
    if IsNumber(text) then Done(ParseNumber(text)) else Lookup(vars, fmt, steps, text)
  }

  /** Evaluates an entry to a text; the second operand is not looked at if the first one throws. */
  function Entry(vars: Table, fmt: Format, steps: nat, v: Var): (text: Outcome<string>)
    ensures !text.Thrown?
    decreases steps, 2
  {
    if IsMath(v.ty) && |Items(v)| < 2 then OutOfRange
    else if !WellFormed(v) then Done(INVALID)
    else
      match Operand(vars, fmt, steps, Items(v)[0])
      case Thrown => Done(INVALID)
      case OutOfRange => OutOfRange
      case OutOfSteps => OutOfSteps
      case Done(a) =>
        match Operand(vars, fmt, steps, Items(v)[2])
        case Thrown => Done(INVALID)
        case OutOfRange => OutOfRange
        case OutOfSteps => OutOfSteps
        case Done(b) =>
          var q := Compute(v.ty, Items(v)[1], QuantityOf(a), QuantityOf(b));
          Done(if q.None? then INVALID else Print(fmt, q.value))
  }

  /**
   Reading a printed result back is looking it up like any operand, since no key starts like a
   negative number or a quoted text.
   */
  lemma {:induction false} PrintedIsOperand(vars: Table, fmt: Format, steps: nat, more: nat, v: Var)
    requires PrintsNumbers(fmt) && forall k :: k in vars ==> IsKey(k)
    requires Entry(vars, fmt, steps, v).Done?
    ensures
      var text := Entry(vars, fmt, steps, v).value;
      ReadText(text) == Operand(vars, fmt, more, text)
  {
    var text := Entry(vars, fmt, steps, v).value;
    assert text[0] == INVALID[0] || IsDigit(text[0]) || text[0] == '-';
    hide Entry;
  }

  // ---- A larger budget changes nothing that is finished ---------------------------------------------

  lemma {:induction false} LookupStays(vars: Table, fmt: Format, steps: nat, more: nat, key: string)
    requires steps <= more && !Lookup(vars, fmt, steps, key).OutOfSteps?
    ensures Lookup(vars, fmt, more, key) == Lookup(vars, fmt, steps, key)
    decreases steps, 0
  {
    hide Entry, Operand, Compute, Print, ReadText;
    if key in vars && vars[key].ty.Alias? && AliasTarget(vars[key]) in vars {
      LookupStays(vars, fmt, steps - 1, more - 1, AliasTarget(vars[key]));
    } else if key in vars && IsMath(vars[key].ty) {
      EntryStays(vars, fmt, steps - 1, more - 1, vars[key]);
    }
  }

  lemma {:induction false} OperandStays(vars: Table, fmt: Format, steps: nat, more: nat, text: string)
    requires steps <= more && !Operand(vars, fmt, steps, text).OutOfSteps?
    ensures Operand(vars, fmt, more, text) == Operand(vars, fmt, steps, text)
    decreases steps, 1
  {
    if !IsNumber(text) {
      LookupStays(vars, fmt, steps, more, text);
    }
  }

  lemma {:induction false} EntryStays(vars: Table, fmt: Format, steps: nat, more: nat, v: Var)
    requires steps <= more && !Entry(vars, fmt, steps, v).OutOfSteps?
    ensures Entry(vars, fmt, more, v) == Entry(vars, fmt, steps, v)
    decreases steps, 2
  {
    hide Operand, Compute, Print;
    if WellFormed(v) {
      OperandStays(vars, fmt, steps, more, Items(v)[0]);
      if Operand(vars, fmt, steps, Items(v)[0]).Done? {
        OperandStays(vars, fmt, steps, more, Items(v)[2]);
      }
    }
  }

  // ---- Demands --------------------------------------------------------------------------------------

  ghost predicate Finishes(vars: Table, fmt: Format, key: string) {
    exists steps :: !Lookup(vars, fmt, steps, key).OutOfSteps?
  }

  /** The operand turns out to be a number. */
  ghost predicate IsFirstNumber(vars: Table, fmt: Format, text: string) {
    exists steps :: Operand(vars, fmt, steps, text).Done?
  }

  /** The value of one variable is needed for the value of another. */
  ghost predicate Demands(vars: Table, fmt: Format, key: string, needed: string) {
    && key in vars && needed in vars
    && if vars[key].ty.Alias? then needed == AliasTarget(vars[key])
       else WellFormed(vars[key]) && !IsNumber(needed)
            && (needed == Items(vars[key])[0]
                || (needed == Items(vars[key])[2] && IsFirstNumber(vars, fmt, Items(vars[key])[0])))
  }

  ghost predicate IsDemandPath(vars: Table, fmt: Format, path: seq<string>) {
    && path != [] && path[0] in vars
    && forall i :: 0 <= i < |path| - 1 ==> Demands(vars, fmt, path[i], After(path, i))
  }

  function After(path: seq<string>, i: nat): string
    requires i + 1 < |path|
  {
    path[i + 1]
  }

  /** Following what is needed leads back to a variable that was met before. */
  ghost predicate CycleReachable(vars: Table, fmt: Format, key: string) {
    exists path, i, j :: IsDemandPath(vars, fmt, path) && path[0] == key && 0 <= i < j < |path| && path[i] == path[j]
  }

  lemma {:induction false} DemandTakesAStep(vars: Table, fmt: Format, steps: nat, key: string, needed: string)
    requires Demands(vars, fmt, key, needed) && !Lookup(vars, fmt, steps, key).OutOfSteps?
    ensures steps > 0 && !Lookup(vars, fmt, steps - 1, needed).OutOfSteps?
  {
    var v := vars[key];
    if !v.ty.Alias? && steps > 0 {
      var first := Items(v)[0];
      assert !Entry(vars, fmt, steps - 1, v).OutOfSteps?;
      assert !Operand(vars, fmt, steps - 1, first).OutOfSteps?;
      if needed != first {
        var enough :| Operand(vars, fmt, enough, first).Done?;
        OperandsAgree(vars, fmt, enough, steps - 1, first);
      }
    }
  }

  lemma {:induction false} OperandsAgree(vars: Table, fmt: Format, a: nat, b: nat, text: string)
    requires !Operand(vars, fmt, a, text).OutOfSteps? && !Operand(vars, fmt, b, text).OutOfSteps?
    ensures Operand(vars, fmt, a, text) == Operand(vars, fmt, b, text)
  {
    hide Operand;
    if a <= b {
      OperandStays(vars, fmt, a, b, text);
    } else {
      OperandStays(vars, fmt, b, a, text);
    }
  }

  lemma {:induction false} PathTakesSteps(vars: Table, fmt: Format, steps: nat, path: seq<string>, i: nat, j: nat)
    requires IsDemandPath(vars, fmt, path) && i <= j < |path| && !Lookup(vars, fmt, steps, path[i]).OutOfSteps?
    ensures steps >= j - i && !Lookup(vars, fmt, steps - (j - i), path[j]).OutOfSteps?
    decreases j - i
  {
    hide Lookup, Demands;
    if i < j {
      PathTakesSteps(vars, fmt, steps, path, i, j - 1);
      assert After(path, j - 1) == path[j];
      DemandTakesAStep(vars, fmt, steps - (j - 1 - i), path[j - 1], path[j]);
    }
  }

  lemma {:induction false} CycleNeverFinishes(vars: Table, fmt: Format, steps: nat, path: seq<string>, i: nat, j: nat)
    requires IsDemandPath(vars, fmt, path) && i < j < |path| && path[i] == path[j]
    ensures Lookup(vars, fmt, steps, path[i]).OutOfSteps?
    decreases steps
  {
    hide Lookup, IsDemandPath;
    if !Lookup(vars, fmt, steps, path[i]).OutOfSteps? {
      PathTakesSteps(vars, fmt, steps, path, i, j);
      CycleNeverFinishes(vars, fmt, steps - (j - i), path, i, j);
    }
  }

  lemma {:induction false} LookedUp(vars: Table, fmt: Format, steps: nat, text: string)
    requires Operand(vars, fmt, steps, text).OutOfRange? || Operand(vars, fmt, steps, text).OutOfSteps?
    ensures !IsNumber(text) && text in vars && Lookup(vars, fmt, steps, text) == Operand(vars, fmt, steps, text)
  {}

  /** Out of steps, something needed is out of steps as well. */
  lemma {:induction false} UnfinishedDemand(vars: Table, fmt: Format, steps: nat, key: string) returns (needed: string)
    requires steps > 0 && Lookup(vars, fmt, steps, key).OutOfSteps?
    ensures Demands(vars, fmt, key, needed) && Lookup(vars, fmt, steps - 1, needed).OutOfSteps?
  {
    var v := vars[key];
    if v.ty.Alias? {
      needed := AliasTarget(v);
    } else {
      assert Entry(vars, fmt, steps - 1, v).OutOfSteps?;
      var first := Items(v)[0];
      if Operand(vars, fmt, steps - 1, first).OutOfSteps? {
        needed := first;
      } else {
        assert Operand(vars, fmt, steps - 1, first).Done?;
        needed := Items(v)[2];
      }
      LookedUp(vars, fmt, steps - 1, needed);
    }
  }

  lemma {:induction false} UnfinishedPath(vars: Table, fmt: Format, steps: nat, key: string) returns (path: seq<string>)
    requires Lookup(vars, fmt, steps, key).OutOfSteps?
    ensures IsDemandPath(vars, fmt, path) && path[0] == key && |path| == steps + 1
    ensures forall i :: 0 <= i < |path| ==> path[i] in vars
    decreases steps
  {
    if steps == 0 {
      path := [key];
    } else {
      var needed := UnfinishedDemand(vars, fmt, steps, key);
      assert key in vars;
      hide Lookup, Demands;
      var rest := UnfinishedPath(vars, fmt, steps - 1, needed);
      path := [key] + rest;
      PathGrows(vars, fmt, key, rest);
    }
  }

  lemma {:induction false} PathGrows(vars: Table, fmt: Format, key: string, rest: seq<string>)
    requires key in vars && IsDemandPath(vars, fmt, rest) && Demands(vars, fmt, key, rest[0])
    ensures IsDemandPath(vars, fmt, [key] + rest)
  {
    hide Demands;
    var path := [key] + rest;
    forall i | 0 <= i < |path| - 1 ensures Demands(vars, fmt, path[i], After(path, i)) {
      if i > 0 {
        assert path[i] == rest[i - 1] && After(path, i) == After(rest, i - 1);
      }
    }
  }

  /** More places than elements: one is used twice. */
  lemma {:induction false} Pigeonhole(s: seq<string>, all: set<string>) returns (i: nat, j: nat)
    requires |s| > |all| && forall k :: 0 <= k < |s| ==> s[k] in all
    ensures i < j < |s| && s[i] == s[j]
    decreases |s|
  {
    var last := |s| - 1;
    if i' :| 0 <= i' < last && s[i'] == s[last] {
      i, j := i', last;
    } else {
      var front := s[..last];
      assert forall k :: 0 <= k < |front| ==> front[k] in all - {s[last]};
      i, j := Pigeonhole(front, all - {s[last]});
    }
  }

  /** Evaluation ends if and only if no cycle of aliases and operands can be reached. */
  lemma {:induction false} FinishesExactlyWithoutCycle(vars: Table, fmt: Format, key: string)
    ensures Finishes(vars, fmt, key) <==> !CycleReachable(vars, fmt, key)
  {
    hide Lookup, CycleReachable;
    if CycleReachable(vars, fmt, key) {
      CycleKeepsGoing(vars, fmt, key);
    } else if Lookup(vars, fmt, |vars|, key).OutOfSteps? {
      UnfinishedHasCycle(vars, fmt, key);
    }
  }

  lemma {:induction false} CycleKeepsGoing(vars: Table, fmt: Format, key: string)
    requires CycleReachable(vars, fmt, key)
    ensures forall steps: nat :: Lookup(vars, fmt, steps, key).OutOfSteps?
  {
    hide Lookup;
    var path, i, j :| IsDemandPath(vars, fmt, path) && path[0] == key && 0 <= i < j < |path| && path[i] == path[j];
    assert path != [];
    hide IsDemandPath, CycleReachable;
    forall steps: nat ensures Lookup(vars, fmt, steps, key).OutOfSteps? {
      StartNeverFinishes(vars, fmt, steps, path, i, j);
    }
  }

  lemma {:induction false} StartNeverFinishes(vars: Table, fmt: Format, steps: nat, path: seq<string>, i: nat, j: nat)
    requires IsDemandPath(vars, fmt, path) && i < j < |path| && path[i] == path[j]
    ensures Lookup(vars, fmt, steps, path[0]).OutOfSteps?
  {
    hide Lookup, IsDemandPath;
    if !Lookup(vars, fmt, steps, path[0]).OutOfSteps? {
      PathTakesSteps(vars, fmt, steps, path, 0, i);
      CycleNeverFinishes(vars, fmt, steps - i, path, i, j);
    }
  }

  lemma {:induction false} UnfinishedHasCycle(vars: Table, fmt: Format, key: string)
    requires Lookup(vars, fmt, |vars|, key).OutOfSteps?
    ensures CycleReachable(vars, fmt, key)
  {
    hide Lookup, Demands;
    var path := UnfinishedPath(vars, fmt, |vars|, key);
    assert |vars.Keys| == |vars|;
    var i, j := Pigeonhole(path, vars.Keys);
  }

  /** An alias of itself, and a calculation that uses itself: evaluation never ends. */
  lemma {:induction false} SelfReferenceNeverFinishes(fmt: Format)
    ensures
      var alias := map["a" := Var("a", Alias, Text("a"), "", None)];
      CycleReachable(alias, fmt, "a") && !Finishes(alias, fmt, "a")
    ensures
      var total := map["total" := Var("total", Calc, List(["total", "+", "1"]), "", None)];
      CycleReachable(total, fmt, "total") && !Finishes(total, fmt, "total")
  {
    hide Lookup, Finishes;
    var alias := map["a" := Var("a", Alias, Text("a"), "", None)];
    var total := map["total" := Var("total", Calc, List(["total", "+", "1"]), "", None)];
    assert Demands(alias, fmt, "a", After(["a", "a"], 0));
    assert IsDemandPath(alias, fmt, ["a", "a"]);
    assert Demands(total, fmt, "total", After(["total", "total"], 0));
    assert IsDemandPath(total, fmt, ["total", "total"]);
    FinishesExactlyWithoutCycle(alias, fmt, "a");
    FinishesExactlyWithoutCycle(total, fmt, "total");
  }

  // ---- Malformed entries -------------------------------------------------------------------------------

  /** Following what is needed leads to an entry with less than two operands. */
  ghost predicate ShortEntryReachable(vars: Table, fmt: Format, key: string) {
    exists path :: IsDemandPath(vars, fmt, path) && path[0] == key && IsShort(vars, path[|path| - 1])
  }

  predicate IsShort(vars: Table, key: string) {
    key in vars && IsMath(vars[key].ty) && |Items(vars[key])| < 2
  }

  lemma {:induction false} OutOfRangeDemand(vars: Table, fmt: Format, steps: nat, key: string) returns (needed: string)
    requires Lookup(vars, fmt, steps, key).OutOfRange? && !IsShort(vars, key)
    ensures Demands(vars, fmt, key, needed) && steps > 0 && Lookup(vars, fmt, steps - 1, needed).OutOfRange?
  {
    var v := vars[key];
    if v.ty.Alias? {
      needed := AliasTarget(v);
    } else {
      assert Entry(vars, fmt, steps - 1, v).OutOfRange?;
      var first := Items(v)[0];
      if Operand(vars, fmt, steps - 1, first).OutOfRange? {
        needed := first;
      } else {
        assert Operand(vars, fmt, steps - 1, first).Done?;
        needed := Items(v)[2];
      }
      LookedUp(vars, fmt, steps - 1, needed);
    }
  }

  lemma {:induction false} OutOfRangePath(vars: Table, fmt: Format, steps: nat, key: string)
    requires Lookup(vars, fmt, steps, key).OutOfRange?
    ensures ShortEntryReachable(vars, fmt, key)
    decreases steps
  {
    if IsShort(vars, key) {
      assert IsDemandPath(vars, fmt, [key]);
    } else {
      var needed := OutOfRangeDemand(vars, fmt, steps, key);
      assert key in vars;
      hide Lookup, Demands, IsShort;
      OutOfRangePath(vars, fmt, steps - 1, needed);
      var rest :| IsDemandPath(vars, fmt, rest) && rest[0] == needed && IsShort(vars, rest[|rest| - 1]);
      PathGrows(vars, fmt, key, rest);
    }
  }

  lemma {:induction false} OutOfRangeSpreads(vars: Table, fmt: Format, steps: nat, key: string, needed: string)
    returns (more: nat)
    requires Demands(vars, fmt, key, needed) && Lookup(vars, fmt, steps, needed).OutOfRange?
    ensures Lookup(vars, fmt, more, key).OutOfRange?
  {
    var v := vars[key];
    more := steps + 1;
    if !v.ty.Alias? && needed != Items(v)[0] {
      var enough :| Operand(vars, fmt, enough, Items(v)[0]).Done?;
      more := steps + enough + 1;
      OperandStays(vars, fmt, enough, more - 1, Items(v)[0]);
      LookupStays(vars, fmt, steps, more - 1, needed);
    }
    if !v.ty.Alias? {
      assert Operand(vars, fmt, more - 1, needed).OutOfRange?;
      assert Entry(vars, fmt, more - 1, v).OutOfRange?;
    }
  }

  lemma {:induction false} ShortEntrySpreads(vars: Table, fmt: Format, path: seq<string>, i: nat) returns (steps: nat)
    requires IsDemandPath(vars, fmt, path) && i < |path| && IsShort(vars, path[|path| - 1])
    ensures Lookup(vars, fmt, steps, path[i]).OutOfRange?
    decreases |path| - i
  {
    if i == |path| - 1 {
      steps := 1;
      assert Entry(vars, fmt, 0, vars[path[i]]).OutOfRange?;
    } else {
      hide Lookup;
      var rest := ShortEntrySpreads(vars, fmt, path, i + 1);
      assert After(path, i) == path[i + 1];
      steps := OutOfRangeSpreads(vars, fmt, rest, path[i], path[i + 1]);
    }
  }

  /** The evaluator reads behind an operand list if and only if it reaches one that is too short. */
  lemma {:induction false} OutOfRangeExactly(vars: Table, fmt: Format, key: string)
    ensures (exists steps :: Lookup(vars, fmt, steps, key).OutOfRange?) <==> ShortEntryReachable(vars, fmt, key)
  {
    hide Lookup, IsShort;
    if steps :| Lookup(vars, fmt, steps, key).OutOfRange? {
      OutOfRangePath(vars, fmt, steps, key);
    }
    if ShortEntryReachable(vars, fmt, key) {
      var path :| IsDemandPath(vars, fmt, path) && path[0] == key && IsShort(vars, path[|path| - 1]);
      var steps := ShortEntrySpreads(vars, fmt, path, 0);
    }
  }

  /** calc(5) parses into an entry with one operand, which the evaluator cannot handle. */
  lemma {:induction false} OneOperandIsOutOfRange(names: Names, gaps: set<nat>, fmt: Format)
    ensures
      var parsed := Math(names, ["calc", "(", "5", ")"], gaps, 0, [], 0);
      && parsed == Parsed(true, ["5"], [], 3, 0)
      && Lookup(map["total" := Var("total", Calc, List(parsed.values), "", None)], fmt, 1, "total") == OutOfRange
  {
    hide Lookup, Entry;
    var tokens := ["calc", "(", "5", ")"];
    assert tokens[1] == "(" && tokens[2] == "5" && tokens[3] == ")";
    assert Argument(names, tokens, gaps, 2, [], 0) == Parsed(true, ["5"], [], 2, 0);
    assert Arguments(names, tokens, gaps, 3, [] + ["5"], [], 0) == Parsed(true, ["5"], [], 3, 0);
    OneOperandEntry(fmt);
  }

  lemma {:induction false} OneOperandEntry(fmt: Format)
    ensures Lookup(map["total" := Var("total", Calc, List(["5"]), "", None)], fmt, 1, "total") == OutOfRange
  {
    var v := Var("total", Calc, List(["5"]), "", None);
    assert Entry(map["total" := v], fmt, 0, v) == OutOfRange;
  }

  // ---- Acyclic tables ------------------------------------------------------------------------------------

  function OutcomeOf(v: Option<Var>): Outcome<Var> {
    if v.Some? then Done(v.value) else Thrown
  }

  /** On an acyclic table the budget can be left out: this is the evaluator without one. */
  lemma {:induction false} SameAsUnbounded(env: Env, steps: nat, text: string)
    requires Valid(env) && Height(env.rank, text) <= steps
    ensures Operand(env.vars, env.fmt, steps, text) == OutcomeOf(ParseMathVariable(env, text, 0))
    decreases Height(env.rank, text), 2
  {
    if !IsNumber(text) {
      hide Lookup, EvalMath, Resolve;
      SameLookup(env, steps, text);
    }
  }

  /** What a variable found behind all aliases gives as an operand. */
  function Numeric(env: Env, v: Var): Option<Var>
    requires Valid(env) && (IsMath(v.ty) ==> OperandsBelow(env.rank, v))
  {
    var r := if IsMath(v.ty) then ParseMathVariable(env, EvalMath(env, v, 1), 0) else Some(v);
    if r.Some? && IsNumeric(r.value) then r else None
  }

  lemma {:induction false} SameLookup(env: Env, steps: nat, key: string)
    requires Valid(env) && env.rank(key) <= steps
    ensures IsMath(Resolve(env, key).ty) ==> OperandsBelow(env.rank, Resolve(env, key))
    ensures Lookup(env.vars, env.fmt, steps, key) == OutcomeOf(Numeric(env, Resolve(env, key)))
    decreases env.rank(key), 1
  {
    hide Entry, EvalMath, ReadText;
    if key in env.vars {
      var v := env.vars[key];
      assert EntryOk(env.rank, key, v);
      if v.ty.Alias? {
        if AliasTarget(v) in env.vars {
          assert EntryOk(env.rank, AliasTarget(v), env.vars[AliasTarget(v)]);
          SameLookup(env, steps - 1, AliasTarget(v));
        }
      } else if IsMath(v.ty) {
        SameEntry(env, steps - 1, v);
        ReadBack(env, EvalMath(env, v, 1));
      }
    }
  }

  lemma {:induction false} ReadBack(env: Env, text: string)
    requires Valid(env) && (IsNumber(text) || text !in env.vars)
    ensures ReadText(text) == OutcomeOf(ParseMathVariable(env, text, 0))
  {}

  lemma {:induction false} SameEntry(env: Env, steps: nat, v: Var)
    requires Valid(env) && IsMath(v.ty) && OperandsBelow(env.rank, v) && env.rank(v.name) <= steps + 1
    ensures Entry(env.vars, env.fmt, steps, v) == Done(EvalMath(env, v, 1))
    decreases env.rank(v.name), 0
  {
    if WellFormed(v) {
      hide Operand, ParseMathVariable, Compute, Print;
      SameAsUnbounded(env, steps, Items(v)[0]);
      SameAsUnbounded(env, steps, Items(v)[2]);
    }
  }
}
