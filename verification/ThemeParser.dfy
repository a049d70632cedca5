/**
 Parsing of calc(), max() and min() from theme tokens into table entries.

 Whitespace tokens are dropped; gaps are the positions of the tokens that whitespace follows,
 and the end of the tokens is their length.  Names for anonymous entries are drawn in order from
 a random source.
 */
module ThemeParser {
  import opened Wrappers
  import opened ThemeMath

  // pos is the token the parser stopped at, drawn the number of names used so far
  datatype Parsed = Parsed(ok: bool, values: seq<string>, vars: seq<Var>, pos: nat, drawn: nat)

  // ---- The token cursor -----------------------------------------------------------------

  /** The place behind the closing brace of a pair whose inside starts here. */
  function PassPair(tokens: seq<string>, p: nat): (end: Option<nat>)
    requires p <= |tokens|
    ensures end.Some? ==> p < end.value <= |tokens|
    decreases |tokens| - p
  {
    if p == |tokens| then None
    else if tokens[p] == "{" then
      var inner := PassPair(tokens, p + 1);
      if inner.None? then None else PassPair(tokens, inner.value)
    else if tokens[p] == "}" then Some(p + 1)
    else PassPair(tokens, p + 1)
  }

  /** Looks for a token from here on, over pairs of braces.  Behind a pair one token is skipped
      unless whitespace follows the closing brace. */
  function GoFrom(tokens: seq<string>, gaps: set<nat>, p: nat, token: string): (end: nat)
    requires p <= |tokens|
    ensures p <= end <= |tokens|
    decreases |tokens| - p
  {
    if p == |tokens| || tokens[p] == token then p
    else if tokens[p] == "{" then
      var q := PassPair(tokens, p + 1);
      if q.None? || q.value == |tokens| then |tokens|
      else GoFrom(tokens, gaps, if q.value - 1 in gaps then q.value else q.value + 1, token)
    else GoFrom(tokens, gaps, p + 1, token)
  }

  function GoTo(tokens: seq<string>, gaps: set<nat>, pos: nat, token: string): (p: nat)
    requires pos < |tokens|
    ensures pos < p <= |tokens|
  {
    GoFrom(tokens, gaps, pos + 1, token)
  }

  /** Advances and checks for a token; on a mismatch skips to the next semicolon. */
  function ShouldBe(tokens: seq<string>, gaps: set<nat>, pos: nat, token: string): (r: (bool, nat))
    requires pos < |tokens|
    ensures pos < r.1 <= |tokens| && (r.0 ==> r.1 == pos + 1 < |tokens| && tokens[r.1] == token)
  {
    if pos + 1 == |tokens| then (false, pos + 1)
    else if tokens[pos + 1] == token then (true, pos + 1)
    else (false, GoTo(tokens, gaps, pos + 1, ";"))
  }

  /** The name in `(--name)` after the current token. */
  function ParseVarName(tokens: seq<string>, gaps: set<nat>, pos: nat): (r: (Option<string>, nat))
    requires pos < |tokens|
    ensures pos < r.1 <= |tokens| && (r.0.Some? ==> r.1 < |tokens|)
  {
    var a := ShouldBe(tokens, gaps, pos, "(");
    if !a.0 then (None, a.1) else
      var b := ShouldBe(tokens, gaps, a.1, "-");
      if !b.0 then (None, b.1) else
        var c := ShouldBe(tokens, gaps, b.1, "-");
        if !c.0 then (None, c.1) else
          var p := c.1 + 1;
          if p == |tokens| then (None, p) else
            var d := ShouldBe(tokens, gaps, p, ")");
            if !d.0 || tokens[p] == "" then (None, d.1) else (Some(tokens[p]), d.1)
  }

  function TypeOfKeyword(token: string): Option<VarType> {
    if token == "calc" then Some(Calc)
    else if token == "max" then Some(Max)
    else if token == "min" then Some(Min)
    else None
  }

  // ---- ParseMath --------------------------------------------------------------------------

  /** The specification of ParseMath, called with the keyword as the current token. */
  function Math(names: Names, tokens: seq<string>, gaps: set<nat>, pos: nat, vars: seq<Var>, drawn: nat): (r: Parsed)
    requires pos < |tokens|
    ensures pos < r.pos <= |tokens| && (r.ok ==> r.pos < |tokens|)
    decreases |tokens| - pos, 0
  {
    var open := ShouldBe(tokens, gaps, pos, "(");
    if !open.0 then Parsed(false, [], vars, open.1, drawn)
    else if open.1 + 1 == |tokens| then Parsed(false, [], vars, open.1 + 1, drawn)
    else Arguments(names, tokens, gaps, open.1 + 1, [], vars, drawn)
  }

  /** What its loop makes of the remaining arguments. */
  function Arguments(names: Names, tokens: seq<string>, gaps: set<nat>, pos: nat, values: seq<string>,
          vars: seq<Var>, drawn: nat)
    : (r: Parsed)
    requires pos < |tokens|
    ensures pos <= r.pos <= |tokens| && (r.ok ==> r.pos < |tokens|)
    decreases |tokens| - pos, 2
  {
    if tokens[pos] == ")" || tokens[pos] == ";" then Parsed(values != [], values, vars, pos, drawn)
    else
      var item := Argument(names, tokens, gaps, pos, vars, drawn);
      if !item.ok then item.(values := values)
      else if item.pos + 1 == |tokens| then Parsed(false, values + item.values, item.vars, |tokens|, item.drawn)
      else Arguments(names, tokens, gaps, item.pos + 1, values + item.values, item.vars, item.drawn)
  }

  /** One argument: a nested expression becomes an anonymous entry. */
  function Argument(names: Names, tokens: seq<string>, gaps: set<nat>, pos: nat, vars: seq<Var>, drawn: nat)
    : (r: Parsed)
    requires pos < |tokens|
    ensures pos <= r.pos <= |tokens| && (r.ok ==> r.pos < |tokens|)
    decreases |tokens| - pos, 1
  {
    var keyword := TypeOfKeyword(tokens[pos]);
    if keyword.Some? then
      var sub := Math(names, tokens, gaps, pos, vars, drawn + 1);
      if !sub.ok then sub
      else sub.(values := [names(drawn)],
                vars := sub.vars + [Var(names(drawn), keyword.value, List(sub.values), "", None)])
    else if tokens[pos] == "var" then
      var name := ParseVarName(tokens, gaps, pos);
      if name.0.None? then Parsed(false, [], vars, name.1, drawn)
      else Parsed(true, [name.0.value], vars, name.1, drawn)
    else Parsed(true, [tokens[pos]], vars, pos, drawn)
  }

  /** The parser of the source: it appends to the value list and to the entries. */
  method ParseMath(names: Names, tokens: seq<string>, gaps: set<nat>, start: nat, known: seq<Var>, used: nat)
    returns (r: Parsed)
    requires start < |tokens|
    ensures r == Math(names, tokens, gaps, start, known, used)
    decreases |tokens| - start
  {
    var open := ShouldBe(tokens, gaps, start, "(");
    if !open.0 {
      return Parsed(false, [], known, open.1, used);
    }
    var pos := open.1 + 1;
    if pos == |tokens| {
      return Parsed(false, [], known, pos, used);
    }

    var values, vars, drawn := [], known, used;
    while tokens[pos] != ")"
      invariant start < pos < |tokens|
      invariant Arguments(names, tokens, gaps, pos, values, vars, drawn)
             == Math(names, tokens, gaps, start, known, used)
      decreases |tokens| - pos
    {
      if tokens[pos] == ";" {
        break;
      }

      var keyword := TypeOfKeyword(tokens[pos]);
      if keyword.Some? {
        var name := names(drawn);
        var sub := ParseMath(names, tokens, gaps, pos, vars, drawn + 1);
        vars, drawn := sub.vars, sub.drawn;
        if !sub.ok {
          return Parsed(false, values, vars, sub.pos, drawn);
        }
        values := values + [name];
        vars := vars + [Var(name, keyword.value, List(sub.values), "", None)];
        pos := sub.pos;
      } else if tokens[pos] == "var" {
        var name := ParseVarName(tokens, gaps, pos);
        if name.0.None? {
          return Parsed(false, values, vars, name.1, drawn);
        }
        values := values + [name.0.value];
        pos := name.1;
      } else {
        values := values + [tokens[pos]];
      }

      pos := pos + 1;
      if pos == |tokens| {
        return Parsed(false, values, vars, pos, drawn);
      }
    }
    return Parsed(values != [], values, vars, pos, drawn);
  }

  // ---- Written expressions ------------------------------------------------------------------

  function Keyword(e: Expr): string
    requires IsNode(e)
  {
    if e.CalcOf? then "calc" else if e.MaxOf? then "max" else "min"
  }

  /** The tokens an expression is written with. */
  function Written(e: Expr): (tokens: seq<string>)
    ensures tokens != []
  {
    match e
    case Literal(text) => [text]
    case Ref(name) => ["var", "(", "-", "-", name, ")"]
    case _ => [Keyword(e), "("] + Written(e.left) + [Separator(e)] + Written(e.right) + [")"]
  }

  ghost predicate At(tokens: seq<string>, pos: nat, part: seq<string>) {
    pos + |part| <= |tokens| && tokens[pos..pos + |part|] == part
  }

  lemma {:induction false} AtParts(tokens: seq<string>, pos: nat, a: seq<string>, b: seq<string>)
    requires At(tokens, pos, a + b)
    ensures At(tokens, pos, a) && At(tokens, pos + |a|, b)
  {
    var whole := tokens[pos..pos + |a + b|];
    assert tokens[pos..pos + |a|] == whole[..|a|] == a;
    assert tokens[pos + |a|..pos + |a| + |b|] == whole[|a|..] == b;
  }

  lemma {:induction false} ReferenceParsed(tokens: seq<string>, gaps: set<nat>, pos: nat, name: string)
    requires At(tokens, pos, ["var", "(", "-", "-", name, ")"]) && name != []
    ensures ParseVarName(tokens, gaps, pos) == (Some(name), pos + 5)
  {
    var part := tokens[pos..pos + 6];
    assert tokens[pos + 1] == part[1] && tokens[pos + 2] == part[2] && tokens[pos + 3] == part[3];
    assert tokens[pos + 4] == part[4] && tokens[pos + 5] == part[5];
  }

  /** How an operand should be parsed. */
  function OperandOutcome(names: Names, e: Expr, pos: nat, vars: seq<Var>, drawn: nat): Parsed {
    Parsed(true, [Operand(names, e, drawn)], vars + OperandEntries(names, e, drawn),
           pos + |Written(e)| - 1, drawn + Drawn(e))
  }

  /** How a node should be parsed: its three operands, and the entries of its subtrees. */
  function NodeOutcome(names: Names, e: Expr, pos: nat, vars: seq<Var>, drawn: nat): Parsed
    requires IsNode(e)
  {
    Parsed(true, Operands(names, e, drawn), vars + NodeEntries(names, e, drawn),
           pos + |Written(e)| - 1, drawn + Drawn(e.left) + Drawn(e.right))
  }

  lemma {:induction false} LeafParsed(names: Names, e: Expr, tokens: seq<string>, gaps: set<nat>, pos: nat,
          vars: seq<Var>, drawn: nat)
    requires !IsNode(e) && IsWritten(e) && At(tokens, pos, Written(e))
    ensures Continues(tokens[pos])
    ensures Argument(names, tokens, gaps, pos, vars, drawn) == OperandOutcome(names, e, pos, vars, drawn)
  {
    assert tokens[pos] == tokens[pos..pos + |Written(e)|][0];
    assert vars + [] == vars;
    if e.Ref? {
      ReferenceParsed(tokens, gaps, pos, e.name);
    }
  }

  /** A nested node is parsed like a node, and leaves an anonymous entry. */
  lemma {:induction false} NestedParsed(names: Names, e: Expr, tokens: seq<string>, gaps: set<nat>, pos: nat,
          vars: seq<Var>, drawn: nat)
    requires IsNode(e) && pos < |tokens| && tokens[pos] == Keyword(e)
    requires Math(names, tokens, gaps, pos, vars, drawn + 1) == NodeOutcome(names, e, pos, vars, drawn + 1)
    ensures Continues(tokens[pos])
    ensures Argument(names, tokens, gaps, pos, vars, drawn) == OperandOutcome(names, e, pos, vars, drawn)
  {
    assert TypeOfKeyword(Keyword(e)) == Some(Kind(e));
    EntriesAppend(vars, NodeEntries(names, e, drawn + 1), [Entry(names, e, drawn)]);
  }

  lemma {:induction false} OperandParsed(names: Names, e: Expr, tokens: seq<string>, gaps: set<nat>, pos: nat,
          vars: seq<Var>, drawn: nat)
    requires IsWritten(e) && At(tokens, pos, Written(e))
    ensures Continues(tokens[pos])
    ensures Argument(names, tokens, gaps, pos, vars, drawn) == OperandOutcome(names, e, pos, vars, drawn)
    decreases e, 1
  {
    if IsNode(e) {
      NodeTokens(e, tokens, pos);
      NodeParsed(names, e, tokens, gaps, pos, vars, drawn + 1);
      NestedParsed(names, e, tokens, gaps, pos, vars, drawn);
    } else {
      LeafParsed(names, e, tokens, gaps, pos, vars, drawn);
    }
  }

  /** A written node is parsed into exactly its three operands and the entries of its subtrees. */
  lemma {:induction false} NodeParsed(names: Names, e: Expr, tokens: seq<string>, gaps: set<nat>, pos: nat,
          vars: seq<Var>, drawn: nat)
    requires IsNode(e) && IsWritten(e) && At(tokens, pos, Written(e))
    ensures Math(names, tokens, gaps, pos, vars, drawn) == NodeOutcome(names, e, pos, vars, drawn)
    decreases e, 0
  {
    hide *;
    WrittenParts(e);
    var i1 := OperandOutcome(names, e.left, pos + 2, vars, drawn);
    var i2 := Parsed(true, [Separator(e)], i1.vars, i1.pos + 1, i1.drawn);
    var i3 := OperandOutcome(names, e.right, i2.pos + 1, i2.vars, i2.drawn);
    NodeTokens(e, tokens, pos);
    OutcomesCompose(names, e, pos, vars, drawn);
    assert i1 == Argument(names, tokens, gaps, pos + 2, vars, drawn) && Continues(tokens[pos + 2]) by {
      OperandParsed(names, e.left, tokens, gaps, pos + 2, vars, drawn);
    }
    assert i2 == Argument(names, tokens, gaps, i1.pos + 1, i1.vars, i1.drawn) && Continues(tokens[i1.pos + 1]) by {
      SeparatorParsed(names, e, tokens, gaps, i1.pos + 1, i1.vars, i1.drawn);
    }
    assert i3 == Argument(names, tokens, gaps, i2.pos + 1, i2.vars, i2.drawn) && Continues(tokens[i2.pos + 1]) by {
      OperandParsed(names, e.right, tokens, gaps, i2.pos + 1, i2.vars, i2.drawn);
    }
    ThreeArguments(names, tokens, gaps, pos, vars, drawn, i1, i2, i3);
  }

  lemma {:induction false} WrittenParts(e: Expr)
    requires IsNode(e) && IsWritten(e)
    ensures e.CalcOf? || e.MaxOf? || e.MinOf?
    ensures IsWritten(e.left) && IsWritten(e.right)
  {
  }

  /** The outcomes of the operands add up to the outcome of their node. */
  lemma {:induction false} OutcomesCompose(names: Names, e: Expr, pos: nat, vars: seq<Var>, drawn: nat)
    requires IsNode(e)
    ensures
      var i1 := OperandOutcome(names, e.left, pos + 2, vars, drawn);
      var i3 := OperandOutcome(names, e.right, i1.pos + 2, i1.vars, i1.drawn);
      && i1.ok && |i1.values| == 1 && i1.pos + 1 == pos + 2 + |Written(e.left)|
      && i3.ok && |i3.values| == 1 && i3.pos + 1 == i1.pos + 2 + |Written(e.right)|
      && NodeOutcome(names, e, pos, vars, drawn)
         == Parsed(true, [i1.values[0], Separator(e), i3.values[0]], i3.vars, i3.pos + 1, i3.drawn)
  {
    EntriesAppend(vars, OperandEntries(names, e.left, drawn), OperandEntries(names, e.right, drawn + Drawn(e.left)));
  }

  lemma {:induction false} EntriesAppend(a: seq<Var>, b: seq<Var>, c: seq<Var>)
    ensures a + b + c == a + (b + c)
  {
  }

  /** The parse of three arguments up to the closing parenthesis. */
  lemma {:induction false} ThreeArguments(names: Names, tokens: seq<string>, gaps: set<nat>, pos: nat,
          vars: seq<Var>, drawn: nat, i1: Parsed, i2: Parsed, i3: Parsed)
    requires pos + 2 < |tokens| && tokens[pos + 1] == "("
    requires i1.pos + 1 < |tokens| && i2.pos + 1 < |tokens| && i3.pos + 1 < |tokens|
    requires Continues(tokens[pos + 2]) && Continues(tokens[i1.pos + 1]) && Continues(tokens[i2.pos + 1])
    requires i1.ok && i1 == Argument(names, tokens, gaps, pos + 2, vars, drawn)
    requires i2.ok && i2 == Argument(names, tokens, gaps, i1.pos + 1, i1.vars, i1.drawn)
    requires i3.ok && i3 == Argument(names, tokens, gaps, i2.pos + 1, i2.vars, i2.drawn)
    requires |i1.values| == |i2.values| == |i3.values| == 1 && tokens[i3.pos + 1] == ")"
    ensures Math(names, tokens, gaps, pos, vars, drawn)
            == Parsed(true, [i1.values[0], i2.values[0], i3.values[0]], i3.vars, i3.pos + 1, i3.drawn)
  {
    hide Argument;
    ArgumentsStep(names, tokens, gaps, pos + 2, [], vars, drawn);
    ArgumentsStep(names, tokens, gaps, i1.pos + 1, [] + i1.values, i1.vars, i1.drawn);
    ArgumentsStep(names, tokens, gaps, i2.pos + 1, [] + i1.values + i2.values, i2.vars, i2.drawn);
    assert [] + i1.values + i2.values + i3.values == [i1.values[0], i2.values[0], i3.values[0]];
  }

  predicate Continues(token: string) {
    token != ")" && token != ";"
  }

  lemma {:induction false} ArgumentsStep(names: Names, tokens: seq<string>, gaps: set<nat>, pos: nat,
          values: seq<string>, vars: seq<Var>, drawn: nat)
    requires pos < |tokens| && Continues(tokens[pos])
    requires Argument(names, tokens, gaps, pos, vars, drawn).ok
    ensures
      var item := Argument(names, tokens, gaps, pos, vars, drawn);
      item.pos + 1 < |tokens| ==>
        Arguments(names, tokens, gaps, pos, values, vars, drawn)
        == Arguments(names, tokens, gaps, item.pos + 1, values + item.values, item.vars, item.drawn)
  {
  }

  lemma {:induction false} NodeTokens(e: Expr, tokens: seq<string>, pos: nat)
    requires IsNode(e) && At(tokens, pos, Written(e))
    ensures
      var p2 := pos + 2 + |Written(e.left)|;
      var p4 := p2 + 1 + |Written(e.right)|;
      && |Written(e)| == p4 + 1 - pos && p4 < |tokens|
      && tokens[pos] == Keyword(e) && tokens[pos + 1] == "(" && At(tokens, pos + 2, Written(e.left))
      && tokens[p2] == Separator(e) && At(tokens, p2 + 1, Written(e.right)) && tokens[p4] == ")"
  {
    hide At;
    var l, r := Written(e.left), Written(e.right);
    FiveParts(tokens, pos, [Keyword(e), "("], l, [Separator(e)], r, [")"]);
    AtTwo(tokens, pos, Keyword(e), "(");
    AtOne(tokens, pos + 2 + |l|, Separator(e));
    AtOne(tokens, pos + 3 + |l| + |r|, ")");
  }

  lemma {:induction false} FiveParts(tokens: seq<string>, pos: nat, a: seq<string>, b: seq<string>, c: seq<string>,
          d: seq<string>, e: seq<string>)
    requires At(tokens, pos, a + b + c + d + e)
    ensures At(tokens, pos, a) && At(tokens, pos + |a|, b) && At(tokens, pos + |a| + |b|, c)
    ensures At(tokens, pos + |a| + |b| + |c|, d) && At(tokens, pos + |a| + |b| + |c| + |d|, e)
  {
    hide At;
    AtParts(tokens, pos, a + b + c + d, e);
    AtParts(tokens, pos, a + b + c, d);
    AtParts(tokens, pos, a + b, c);
    AtParts(tokens, pos, a, b);
  }

  lemma {:induction false} AtOne(tokens: seq<string>, pos: nat, token: string)
    requires At(tokens, pos, [token])
    ensures pos < |tokens| && tokens[pos] == token
  {
    assert tokens[pos] == tokens[pos..pos + 1][0];
  }

  lemma {:induction false} AtTwo(tokens: seq<string>, pos: nat, first: string, second: string)
    requires At(tokens, pos, [first, second])
    ensures pos + 1 < |tokens| && tokens[pos] == first && tokens[pos + 1] == second
  {
    assert tokens[pos] == tokens[pos..pos + 2][0] && tokens[pos + 1] == tokens[pos..pos + 2][1];
  }

  lemma {:induction false} SeparatorParsed(names: Names, e: Expr, tokens: seq<string>, gaps: set<nat>, pos: nat,
          vars: seq<Var>, drawn: nat)
    requires IsNode(e) && pos < |tokens| && tokens[pos] == Separator(e)
    ensures Continues(tokens[pos])
    ensures Argument(names, tokens, gaps, pos, vars, drawn) == Parsed(true, [Separator(e)], vars, pos, drawn)
  {
    assert |Separator(e)| == 1 && Separator(e)[0] in "+-*/,";
  }
}
