/**
 Where the theme parser stops, said of the tokens alone.
 */
module ThemeCursor {
  import opened Wrappers
  import opened ThemeMath
  import opened ThemeParser

  /** How many braces are open at token b, when d of them are open at token a. */
  function Depth(tokens: seq<string>, a: nat, b: nat, d: nat): nat
    requires a <= b <= |tokens|
    decreases b - a
  {
    if a == b then d
    else if tokens[a] == "{" then Depth(tokens, a + 1, b, d + 1)
    else if tokens[a] == "}" && d > 0 then Depth(tokens, a + 1, b, d - 1)
    else Depth(tokens, a + 1, b, d)
  }

  lemma {:induction false} DepthInTwo(tokens: seq<string>, a: nat, m: nat, b: nat, d: nat)
    requires a <= m <= b <= |tokens|
    ensures Depth(tokens, a, b, d) == Depth(tokens, m, b, Depth(tokens, a, m, d))
    decreases m - a
  {
    if a < m {
      DepthInTwo(tokens, a + 1, m, b, if tokens[a] == "{" then d + 1
                                      else if tokens[a] == "}" && d > 0 then d - 1 else d);
    }
  }

  function Limit(tokens: seq<string>, end: Option<nat>): nat {
    if end.Some? then end.value else |tokens| + 1
  }

  /** A brace more than d is open at token i. */
  predicate Inside(tokens: seq<string>, p: nat, i: nat, d: nat)
    requires p <= i <= |tokens|
  {
    Depth(tokens, p, i, d + 1) > d
  }

  /** A pair ends where its depth is reached again for the first time, if ever. */
  lemma {:induction false} PairEnds(tokens: seq<string>, p: nat, d: nat)
    requires p <= |tokens|
    ensures var end := PassPair(tokens, p);
      && (end.Some? ==> Depth(tokens, p, end.value, d + 1) == d)
      && (forall i :: p <= i < Limit(tokens, end) ==> Inside(tokens, p, i, d))
    decreases |tokens| - p
  {
    if p < |tokens| {
      var end := PassPair(tokens, p);
      if tokens[p] == "{" {
        PairEnds(tokens, p + 1, d + 1);
        var inner := PassPair(tokens, p + 1);
        if inner.Some? {
          PairEnds(tokens, inner.value, d);
        }
        forall i | p <= i < Limit(tokens, end) ensures Inside(tokens, p, i, d) {
          if p < i {
            if inner.Some? && inner.value <= i {
              DepthInTwo(tokens, p + 1, inner.value, i, d + 2);
              assert Inside(tokens, inner.value, i, d);
            } else {
              assert Inside(tokens, p + 1, i, d + 1);
            }
          }
        }
        if end.Some? {
          DepthInTwo(tokens, p + 1, inner.value, end.value, d + 2);
        }
      } else if tokens[p] != "}" {
        PairEnds(tokens, p + 1, d);
        forall i | p < i < Limit(tokens, end) ensures Inside(tokens, p, i, d) {
          assert Inside(tokens, p + 1, i, d);
        }
      }
    }
  }

  /** No brace and no such token stands right behind a closing brace. */
  ghost predicate Spaced(tokens: seq<string>, gaps: set<nat>, token: string) {
    forall i :: 0 <= i < |tokens| - 1 && tokens[i] == "}" && i !in gaps ==> Plain(tokens, i + 1, token)
  }

  predicate Plain(tokens: seq<string>, i: nat, token: string)
    requires i < |tokens|
  {
    tokens[i] != "{" && tokens[i] != token
  }

  /** Token i is this one and outside all braces opened from position a on. */
  ghost predicate Outside(tokens: seq<string>, a: nat, i: nat, token: string)
    requires a <= i < |tokens|
  {
    tokens[i] == token && Depth(tokens, a, i, 0) == 0
  }

  /** Looking for a token finds the first one outside braces, or the end. */
  lemma {:induction false} FindsFirstOutside(tokens: seq<string>, gaps: set<nat>, p: nat, token: string)
    requires p <= |tokens| && token != "{" && token != "}" && Spaced(tokens, gaps, token)
    ensures
      var end := GoFrom(tokens, gaps, p, token);
      && (end < |tokens| ==> Outside(tokens, p, end, token))
      && (forall i :: p <= i < end ==> !Outside(tokens, p, i, token))
    decreases |tokens| - p
  {
    if p < |tokens| && tokens[p] != token {
      hide Depth, Outside, Spaced;
      NotHere(tokens, p, token);
      if tokens[p] == "{" {
        var q := PassPair(tokens, p + 1);
        PairIsPassed(tokens, p, token);
        if q.Some? && q.value < |tokens| {
          BehindPair(tokens, gaps, p + 1, token, q.value);
          PairSkipped(tokens, gaps, p, token, q.value);
          FindsFirstOutside(tokens, gaps, if q.value - 1 in gaps then q.value else q.value + 1, token);
        }
      } else {
        FindsFirstOutside(tokens, gaps, p + 1, token);
        OneSkipped(tokens, p, token);
      }
    }
  }

  lemma {:induction false} NotHere(tokens: seq<string>, p: nat, token: string)
    requires p < |tokens| && tokens[p] != token
    ensures !Outside(tokens, p, p, token)
  {}

  lemma {:induction false} OneSkipped(tokens: seq<string>, p: nat, token: string)
    requires p < |tokens| && tokens[p] != "{"
    ensures forall i :: p < i < |tokens| ==> (Outside(tokens, p, i, token) <==> Outside(tokens, p + 1, i, token))
  {}

  /** Nothing inside a pair is outside. */
  lemma {:induction false} PairIsPassed(tokens: seq<string>, p: nat, token: string)
    requires p < |tokens| && tokens[p] == "{"
    ensures forall i :: p < i < Limit(tokens, PassPair(tokens, p + 1)) && i < |tokens| ==> !Outside(tokens, p, i, token)
  {
    PairEnds(tokens, p + 1, 0);
    hide PassPair;
    forall i | p < i < Limit(tokens, PassPair(tokens, p + 1)) && i < |tokens| ensures !Outside(tokens, p, i, token) {
      assert Inside(tokens, p + 1, i, 0);
    }
  }

  lemma {:induction false} PairSkipped(tokens: seq<string>, gaps: set<nat>, p: nat, token: string, q: nat)
    requires p < q < |tokens| && tokens[p] == "{" && PassPair(tokens, p + 1) == Some(q)
    requires q - 1 in gaps || Plain(tokens, q, token)
    ensures var next := if q - 1 in gaps then q else q + 1;
      && (forall i :: q <= i < next ==> !Outside(tokens, p, i, token))
      && (forall i :: next <= i < |tokens| ==> (Outside(tokens, p, i, token) <==> Outside(tokens, next, i, token)))
  {
    PairEnds(tokens, p + 1, 0);
    hide PassPair;
    var next := if q - 1 in gaps then q else q + 1;
    DepthInTwo(tokens, p + 1, q, next, 1);
    assert Depth(tokens, p, next, 0) == 0;
    forall i | next <= i < |tokens| ensures Outside(tokens, p, i, token) <==> Outside(tokens, next, i, token) {
      DepthInTwo(tokens, p, next, i, 0);
    }
  }

  lemma {:induction false} BehindPair(tokens: seq<string>, gaps: set<nat>, p: nat, token: string, q: nat)
    requires p < q < |tokens| && PassPair(tokens, p) == Some(q) && Spaced(tokens, gaps, token)
    ensures tokens[q - 1] == "}"
    ensures q - 1 in gaps || Plain(tokens, q, token)
  {
    PairClosed(tokens, p);
  }

  lemma {:induction false} PairClosed(tokens: seq<string>, p: nat)
    requires p <= |tokens|
    ensures PassPair(tokens, p).Some? ==> tokens[PassPair(tokens, p).value - 1] == "}"
    decreases |tokens| - p
  {
    if p < |tokens| {
      if tokens[p] == "{" {
        PairClosed(tokens, p + 1);
        if PassPair(tokens, p + 1).Some? {
          PairClosed(tokens, PassPair(tokens, p + 1).value);
        }
      } else if tokens[p] != "}" {
        PairClosed(tokens, p + 1);
      }
    }
  }

  /** A semicolon right behind a closing brace is passed over. */
  lemma {:induction false} SemicolonIsMissed()
    ensures
      var tokens := ["{", "}", ";", ";"];
      GoFrom(tokens, {}, 0, ";") == 3 && GoFrom(tokens, {1}, 0, ";") == 2
  {
    var tokens := ["{", "}", ";", ";"];
    assert PassPair(tokens, 1) == Some(2);
  }

  // ---- Failures ---------------------------------------------------------------------------------------

  /** The parser has stopped at a semicolon, at the end, or at the bracket that closes an empty list. */
  predicate Stopped(tokens: seq<string>, p: nat) {
    p >= |tokens| || tokens[p] == ";" || (tokens[p] == ")" && p > 0 && tokens[p - 1] == "(")
  }

  lemma {:induction false} SearchStops(tokens: seq<string>, gaps: set<nat>, p: nat, token: string)
    requires p <= |tokens|
    ensures GoFrom(tokens, gaps, p, token) < |tokens| ==> tokens[GoFrom(tokens, gaps, p, token)] == token
    decreases |tokens| - p
  {
    if p < |tokens| && tokens[p] != token {
      if tokens[p] == "{" {
        var q := PassPair(tokens, p + 1);
        if q.Some? && q.value < |tokens| {
          SearchStops(tokens, gaps, if q.value - 1 in gaps then q.value else q.value + 1, token);
        }
      } else {
        SearchStops(tokens, gaps, p + 1, token);
      }
    }
  }

  lemma {:induction false} MismatchStops(tokens: seq<string>, gaps: set<nat>, pos: nat, token: string)
    requires pos < |tokens|
    ensures !ShouldBe(tokens, gaps, pos, token).0 ==> Stopped(tokens, ShouldBe(tokens, gaps, pos, token).1)
  {
    if pos + 1 < |tokens| {
      SearchStops(tokens, gaps, pos + 2, ";");
    }
  }

  lemma {:induction false} NameStops(tokens: seq<string>, gaps: set<nat>, pos: nat)
    requires pos < |tokens| && forall i :: 0 <= i < |tokens| ==> tokens[i] != ""
    ensures
      var r := ParseVarName(tokens, gaps, pos);
      r.0.None? ==> Stopped(tokens, r.1)
  {
    hide ShouldBe, Stopped;
    assert Stopped(tokens, |tokens|) by {
      AtEnd(tokens);
    }
    MismatchStops(tokens, gaps, pos, "(");
    var a := ShouldBe(tokens, gaps, pos, "(");
    if a.0 {
      MismatchStops(tokens, gaps, a.1, "-");
      var b := ShouldBe(tokens, gaps, a.1, "-");
      if b.0 {
        MismatchStops(tokens, gaps, b.1, "-");
        var c := ShouldBe(tokens, gaps, b.1, "-");
        if c.0 && c.1 + 1 < |tokens| {
          MismatchStops(tokens, gaps, c.1 + 1, ")");
        }
      }
    }
  }

  lemma {:induction false} AtEnd(tokens: seq<string>)
    ensures Stopped(tokens, |tokens|)
  {}

  /** A failing expression leaves the parser at a semicolon, at the end, or behind an empty list. */
  lemma {:induction false} FailureStops(names: Names, tokens: seq<string>, gaps: set<nat>, pos: nat, vars: seq<Var>,
          drawn: nat)
    requires pos < |tokens| && forall i :: 0 <= i < |tokens| ==> tokens[i] != ""
    ensures var r := Math(names, tokens, gaps, pos, vars, drawn);
      && (!r.ok ==> Stopped(tokens, r.pos))
      && (r.ok ==> tokens[r.pos] in {")", ";"})
    decreases |tokens| - pos, 0
  {
    hide ParseVarName, GoTo, TypeOfKeyword;
    MismatchStops(tokens, gaps, pos, "(");
    var open := ShouldBe(tokens, gaps, pos, "(");
    if open.0 && open.1 + 1 < |tokens| {
      ArgumentsStop(names, tokens, gaps, open.1 + 1, [], vars, drawn);
    }
  }

  lemma {:induction false} ArgumentsStop(names: Names, tokens: seq<string>, gaps: set<nat>, pos: nat,
          values: seq<string>, vars: seq<Var>, drawn: nat)
    requires 0 < pos < |tokens| && forall i :: 0 <= i < |tokens| ==> tokens[i] != ""
    requires values == [] ==> tokens[pos - 1] == "("
    ensures var r := Arguments(names, tokens, gaps, pos, values, vars, drawn);
      && (!r.ok ==> Stopped(tokens, r.pos))
      && (r.ok ==> tokens[r.pos] in {")", ";"})
    decreases |tokens| - pos, 2
  {
    hide Argument;
    if tokens[pos] != ")" && tokens[pos] != ";" {
      ArgumentStops(names, tokens, gaps, pos, vars, drawn);
      var item := Argument(names, tokens, gaps, pos, vars, drawn);
      if item.ok && item.pos + 1 < |tokens| {
        ArgumentsStop(names, tokens, gaps, item.pos + 1, values + item.values, item.vars, item.drawn);
      }
    }
  }

  lemma {:induction false} ArgumentStops(names: Names, tokens: seq<string>, gaps: set<nat>, pos: nat, vars: seq<Var>,
          drawn: nat)
    requires pos < |tokens| && forall i :: 0 <= i < |tokens| ==> tokens[i] != ""
    ensures var r := Argument(names, tokens, gaps, pos, vars, drawn);
      (!r.ok ==> Stopped(tokens, r.pos)) && (r.ok ==> |r.values| == 1)
    decreases |tokens| - pos, 1
  {
    hide Stopped, ParseVarName, Math;
    if TypeOfKeyword(tokens[pos]).Some? {
      FailureStops(names, tokens, gaps, pos, vars, drawn + 1);
    } else if tokens[pos] == "var" {
      NameStops(tokens, gaps, pos);
    }
  }

  // ---- Lists without nesting ----------------------------------------------------------------------------

  predicate IsPlainToken(token: string) {
    token !in ["(", ")", ";", "calc", "max", "min", "var"]
  }

  /** A list of plain tokens is taken as it is, whatever its length, and an empty one fails. */
  lemma {:induction false} PlainListParsed(names: Names, gaps: set<nat>, keyword: string, list: seq<string>,
          close: string, rest: seq<string>, vars: seq<Var>, drawn: nat)
    requires (forall i :: 0 <= i < |list| ==> IsPlainToken(list[i])) && close in {")", ";"}
    ensures Math(names, [keyword, "("] + list + [close] + rest, gaps, 0, vars, drawn)
         == Parsed(list != [], list, vars, 2 + |list|, drawn)
  {
    var tokens := [keyword, "("] + list + [close] + rest;
    assert tokens[1] == "(";
    PlainListFrom(names, tokens, gaps, list, 0, vars, drawn);
  }

  lemma {:induction false} PlainListFrom(names: Names, tokens: seq<string>, gaps: set<nat>, list: seq<string>, n: nat,
          vars: seq<Var>, drawn: nat)
    requires n <= |list| && 2 + |list| < |tokens| && tokens[2..2 + |list|] == list && tokens[2 + |list|] in {")", ";"}
    requires forall i :: 0 <= i < |list| ==> IsPlainToken(list[i])
    ensures Arguments(names, tokens, gaps, 2 + n, list[..n], vars, drawn)
         == Parsed(list != [], list, vars, 2 + |list|, drawn)
    decreases |list| - n
  {
    if n < |list| {
      assert tokens[2 + n] == list[n] && IsPlainToken(list[n]);
      assert list[..n + 1] == list[..n] + [list[n]];
      PlainListFrom(names, tokens, gaps, list, n + 1, vars, drawn);
    } else {
      assert list[..n] == list;
    }
  }
}
