/**
 What each shader function needs of the global variables.

 A function needs what its body mentions and what the functions it mentions need.  The one pass
 over the functions in declaration order is shown to compute that closure.
 */
module ShaderNeeds {
  import opened ShaderScan

  ghost predicate WellFormed(src: Source) {
    && Lexed(src.tokens)
    && (forall k :: 0 <= k < |src.funcs| ==> src.funcs[k].start < |src.tokens|)
    && (forall i, j :: 0 <= i < j < |src.funcs| ==> src.funcs[i].name != src.funcs[j].name)
  }

  // ---- First uses -----------------------------------------------------------------------------

  /** The distinct elements of the first n, each at its first place. */
  function Uniques(s: seq<string>, n: nat): (r: seq<string>)
    requires n <= |s|
    ensures forall x :: x in r <==> x in s[..n]
    ensures forall i, j :: 0 <= i < j < |r| ==> r[i] != r[j]
  {
    if n == 0 then []
    else
      var before := Uniques(s, n - 1);
      assert s[..n] == s[..n - 1] + [s[n - 1]];
      if s[n - 1] in before then before else before + [s[n - 1]]
  }

  method Unique(s: seq<string>) returns (r: seq<string>)
    ensures r == Uniques(s, |s|)
  {
    r := [];
    var seen: set<string> := {};
    for i := 0 to |s|
      invariant r == Uniques(s, i) && forall x :: x in seen <==> x in r
    {
      if s[i] !in seen {
        seen := seen + {s[i]};
        r := r + [s[i]];
      }
    }
  }

  function FirstUse(s: seq<string>, x: string): (i: nat)
    requires x in s
    ensures i < |s| && s[i] == x && x !in s[..i]
  {
    if s[0] == x then 0 else
      assert x in s[1..];
      var i := FirstUse(s[1..], x);
      assert s[..i + 1] == [s[0]] + s[1..][..i];
      i + 1
  }

  lemma {:induction false} UniquesInOrderOfFirstUse(s: seq<string>, n: nat, i: nat, j: nat)
    requires n <= |s| && i < j < |Uniques(s, n)|
    ensures Uniques(s, n)[i] in s && Uniques(s, n)[j] in s
    ensures FirstUse(s, Uniques(s, n)[i]) < FirstUse(s, Uniques(s, n)[j])
  {
    var before := Uniques(s, n - 1);
    var x, y := Uniques(s, n)[i], Uniques(s, n)[j];
    assert x in s[..n] && y in s[..n];
    if j < |before| {
      UniquesInOrderOfFirstUse(s, n - 1, i, j);
    } else {
      assert x in before && x in s[..n - 1] && y == s[n - 1];
      assert FirstUse(s, x) < n - 1 <= FirstUse(s, y);
    }
  }

  // ---- Recorded needs ---------------------------------------------------------------------------

  /** The token at which the scan of a body ends. */
  function EndOf(tokens: seq<Token>, from: nat, i: nat): (e: nat)
    requires Lexed(tokens) && from <= i < |tokens| && OpenUntil(tokens, from, i, "}")
    ensures EndsAt(tokens, from, e, "}")
    decreases |tokens| - i
  {
    if tokens[i].kind == None || Stack(tokens, from, i, "}") == [] then i else EndOf(tokens, from, i + 1)
  }

  function BodyEnd(src: Source, k: nat): nat
    requires WellFormed(src) && k < |src.funcs|
  {
    EndOf(src.tokens, src.funcs[k].start, src.funcs[k].start)
  }

  ghost function Names(src: Source): set<string> {
    set k | 0 <= k < |src.funcs| :: src.funcs[k].name
  }

  function NeedsOf(src: Source, functions: map<string, Needs>, k: nat): Needs
    requires WellFormed(src) && k < |src.funcs|
  {
    var raw := Scan(src, functions, src.funcs[k].start, BodyEnd(src, k), NO_NEEDS);
    Needs(raw.uniforms, Uniques(raw.textures, |raw.textures|), Uniques(raw.samplers, |raw.samplers|))
  }

  /** The table after the first n functions. */
  ghost function Analyzed(src: Source, n: nat): (m: map<string, Needs>)
    requires WellFormed(src) && n <= |src.funcs|
    ensures m.Keys == Names(src)
    decreases n
  {
    if n == 0 then map name | name in Names(src) :: NO_NEEDS
    else
      assert src.funcs[n - 1].name in Names(src);
      Analyzed(src, n - 1)[src.funcs[n - 1].name := NeedsOf(src, Analyzed(src, n - 1), n - 1)]
  }

  lemma {:induction false} AnalyzedAt(src: Source, n: nat, k: nat)
    requires WellFormed(src) && n <= |src.funcs| && k < |src.funcs|
    ensures src.funcs[k].name in Analyzed(src, n)
    ensures Analyzed(src, n)[src.funcs[k].name] == if k < n then NeedsOf(src, Analyzed(src, k), k) else NO_NEEDS
    decreases n
  {
    hide *;
    NameOfFunction(src, k);
    if n == 0 {
      NothingAnalyzed(src, src.funcs[k].name);
    } else {
      AnalyzedStep(src, n, k);
      AnalyzedAt(src, n - 1, k);
    }
  }

  lemma {:induction false} NothingAnalyzed(src: Source, name: string)
    requires WellFormed(src) && name in Names(src)
    ensures Analyzed(src, 0)[name] == NO_NEEDS
  {
    hide Names, WellFormed, NeedsOf;
  }

  lemma {:induction false} NameOfFunction(src: Source, k: nat)
    requires k < |src.funcs|
    ensures src.funcs[k].name in Names(src)
  {}

  lemma {:induction false} AnalyzedStep(src: Source, n: nat, k: nat)
    requires WellFormed(src) && 0 < n <= |src.funcs| && k < |src.funcs| && src.funcs[k].name in Names(src)
    ensures Analyzed(src, n)[src.funcs[k].name] ==
      if k == n - 1 then NeedsOf(src, Analyzed(src, n - 1), k) else Analyzed(src, n - 1)[src.funcs[k].name]
  {
    hide NeedsOf;
    assert src.funcs[k].name == src.funcs[n - 1].name <==> k == n - 1;
  }

  // ---- Closure over calls -------------------------------------------------------------------------

  datatype Sort = UniformBuffer | Texture | Sampler

  /** The needs include this variable; the uniform buffer is needed or not as a whole. */
  predicate Has(needs: Needs, sort: Sort, x: string) {
    match sort
    case UniformBuffer => needs.uniforms
    case Texture => x in needs.textures
    case Sampler => x in needs.samplers
  }

  /** Mentioning this name is a use of the variable. */
  predicate IsUse(src: Source, sort: Sort, x: string, name: string) {
    match sort
    case UniformBuffer => IsPlain(src, name)
    case Texture => name == x && IsTexture(src, x)
    case Sampler => name == x && src.fragment && x in src.samplers
  }

  ghost predicate Mentions(src: Source, k: nat, name: string)
    requires WellFormed(src) && k < |src.funcs|
  {
    MentionedIn(src, src.funcs[k].start, BodyEnd(src, k), name)
  }

  ghost predicate MentionedIn(src: Source, from: nat, i: nat, name: string)
    requires i < |src.tokens|
  {
    exists j :: from < j <= i && src.tokens[j] == Token(Name, name)
  }

  /** Each function of the path mentions the next one. */
  ghost predicate CallPath(src: Source, path: seq<nat>)
    requires WellFormed(src)
  {
    && path != []
    && (forall i :: 0 <= i < |path| ==> path[i] < |src.funcs|)
    && (forall i :: 1 <= i < |path| ==> Mentions(src, path[i - 1], src.funcs[path[i]].name))
  }

  ghost predicate UsesAlong(src: Source, path: seq<nat>, sort: Sort, x: string)
    requires WellFormed(src) && CallPath(src, path)
  {
    exists name :: Mentions(src, path[|path| - 1], name) && IsUse(src, sort, x, name)
  }

  /** The function, or one it reaches through calls, uses the variable. */
  ghost predicate Uses(src: Source, k: nat, sort: Sort, x: string)
    requires WellFormed(src) && k < |src.funcs|
  {
    exists path :: CallPath(src, path) && path[0] == k && UsesAlong(src, path, sort, x)
  }

  /** Every function of the path is declared in front of the one that mentions it. */
  ghost predicate Descends(path: seq<nat>) {
    forall i :: 1 <= i < |path| ==> path[i] < path[i - 1]
  }

  /** The function, or one it reaches through calls of earlier and earlier functions, uses the variable. */
  ghost predicate UsesBackward(src: Source, k: nat, sort: Sort, x: string)
    requires WellFormed(src) && k < |src.funcs|
  {
    exists path :: CallPath(src, path) && path[0] == k && Descends(path) && UsesAlong(src, path, sort, x)
  }

  ghost predicate UsesDirectly(src: Source, k: nat, sort: Sort, x: string)
    requires WellFormed(src) && k < |src.funcs|
  {
    exists name :: Mentions(src, k, name) && IsUse(src, sort, x, name)
  }

  ghost predicate UsesThrough(src: Source, k: nat, j: nat, sort: Sort, x: string)
    requires WellFormed(src) && k < |src.funcs| && j < |src.funcs|
  {
    Mentions(src, k, src.funcs[j].name) && Uses(src, j, sort, x)
  }

  ghost predicate UsesThroughEarlier(src: Source, k: nat, j: nat, sort: Sort, x: string)
    requires WellFormed(src) && j < k < |src.funcs|
  {
    Mentions(src, k, src.funcs[j].name) && UsesBackward(src, j, sort, x)
  }

  /** Helpers are declared in front of the functions that mention them. */
  ghost predicate DeclaredFirst(src: Source)
    requires WellFormed(src)
  {
    forall j, k :: 0 <= j < |src.funcs| && 0 <= k < |src.funcs| && Mentions(src, k, src.funcs[j].name) ==> j < k
  }

  lemma {:induction false} UsesUnfold(src: Source, k: nat, sort: Sort, x: string)
    requires WellFormed(src) && k < |src.funcs|
    ensures Uses(src, k, sort, x) <==>
      (UsesDirectly(src, k, sort, x) || exists j :: 0 <= j < |src.funcs| && UsesThrough(src, k, j, sort, x))
  {
    hide Mentions, IsUse;
    if Uses(src, k, sort, x) {
      var path :| CallPath(src, path) && path[0] == k && UsesAlong(src, path, sort, x);
      if |path| > 1 {
        FirstCall(src, path, sort, x);
        assert UsesThrough(src, k, path[1], sort, x);
      }
    }
    if UsesDirectly(src, k, sort, x) {
      assert CallPath(src, [k]) && UsesAlong(src, [k], sort, x);
    }
    if j :| 0 <= j < |src.funcs| && UsesThrough(src, k, j, sort, x) {
      var path :| CallPath(src, path) && path[0] == j && UsesAlong(src, path, sort, x);
      LongerPath(src, k, path, sort, x);
    }
  }

  lemma {:induction false} UsesBackwardUnfold(src: Source, k: nat, sort: Sort, x: string)
    requires WellFormed(src) && k < |src.funcs|
    ensures UsesBackward(src, k, sort, x) <==>
      (UsesDirectly(src, k, sort, x) || exists j :: 0 <= j < k && UsesThroughEarlier(src, k, j, sort, x))
  {
    hide Mentions, IsUse;
    if UsesBackward(src, k, sort, x) {
      var path :| CallPath(src, path) && path[0] == k && Descends(path) && UsesAlong(src, path, sort, x);
      if |path| > 1 {
        FirstCall(src, path, sort, x);
        assert path[1] < path[1 - 1];
        assert UsesThroughEarlier(src, k, path[1], sort, x);
      }
    }
    if UsesDirectly(src, k, sort, x) {
      assert CallPath(src, [k]) && Descends([k]) && UsesAlong(src, [k], sort, x);
    }
    if j :| 0 <= j < k && UsesThroughEarlier(src, k, j, sort, x) {
      var path :| CallPath(src, path) && path[0] == j && Descends(path) && UsesAlong(src, path, sort, x);
      LongerPath(src, k, path, sort, x);
    }
  }

  lemma {:induction false} FirstCall(src: Source, path: seq<nat>, sort: Sort, x: string)
    requires WellFormed(src) && CallPath(src, path) && UsesAlong(src, path, sort, x) && |path| > 1
    ensures Mentions(src, path[0], src.funcs[path[1]].name)
    ensures CallPath(src, path[1..]) && UsesAlong(src, path[1..], sort, x)
    ensures Descends(path) ==> Descends(path[1..])
  {
    hide Mentions, IsUse;
    var rest := path[1..];
    forall i | 1 <= i < |rest|
      ensures Mentions(src, rest[i - 1], src.funcs[rest[i]].name) && (Descends(path) ==> rest[i] < rest[i - 1])
    {
      assert rest[i - 1] == path[i] && rest[i] == path[i + 1];
      assert Mentions(src, path[i + 1 - 1], src.funcs[path[i + 1]].name);
      assert Descends(path) ==> path[i + 1] < path[i + 1 - 1];
    }
    assert Mentions(src, path[1 - 1], src.funcs[path[1]].name);
  }

  lemma {:induction false} LongerPath(src: Source, k: nat, path: seq<nat>, sort: Sort, x: string)
    requires WellFormed(src) && k < |src.funcs| && CallPath(src, path) && UsesAlong(src, path, sort, x)
    requires Mentions(src, k, src.funcs[path[0]].name)
    ensures CallPath(src, [k] + path) && UsesAlong(src, [k] + path, sort, x)
    ensures Descends(path) && path[0] < k ==> Descends([k] + path)
  {
    hide Mentions, IsUse;
    var longer := [k] + path;
    forall i | 1 <= i < |longer|
      ensures Mentions(src, longer[i - 1], src.funcs[longer[i]].name)
      ensures Descends(path) && path[0] < k ==> longer[i] < longer[i - 1]
    {
      if i > 1 {
        assert longer[i - 1] == path[i - 2] && longer[i] == path[i - 1];
        assert Mentions(src, path[i - 1 - 1], src.funcs[path[i - 1]].name);
        assert Descends(path) ==> path[i - 1] < path[i - 1 - 1];
      }
    }
  }

  /** What a name brings into the needs of the body that mentions it. */
  predicate Brings(src: Source, functions: map<string, Needs>, name: string, sort: Sort, x: string) {
    IsUse(src, sort, x, name) || (name in functions && Has(functions[name], sort, x))
  }

  lemma {:induction false} VisitBrings(src: Source, functions: map<string, Needs>, name: string, needs: Needs,
          sort: Sort, x: string)
    ensures Has(Visit(src, functions, name, needs), sort, x) <==>
      (Has(needs, sort, x) || Brings(src, functions, name, sort, x))
  {
    assert src.samplers[..|src.samplers|] == src.samplers;
  }

  lemma {:induction false} ScanBrings(src: Source, functions: map<string, Needs>, from: nat, i: nat, sort: Sort,
          x: string)
    requires from <= i < |src.tokens|
    ensures Has(Scan(src, functions, from, i, NO_NEEDS), sort, x) <==>
      exists name :: MentionedIn(src, from, i, name) && Brings(src, functions, name, sort, x)
    decreases i
  {
    if i > from {
      hide Visit, Brings;
      ScanBrings(src, functions, from, i - 1, sort, x);
      var t := src.tokens[i];
      forall name
        ensures MentionedIn(src, from, i, name) <==> MentionedIn(src, from, i - 1, name) || t == Token(Name, name)
      {
        if MentionedIn(src, from, i - 1, name) {
          var j :| from < j <= i - 1 && src.tokens[j] == Token(Name, name);
          assert from < j <= i;
        }
      }
      if t.kind == Name {
        VisitBrings(src, functions, t.text, Scan(src, functions, from, i - 1, NO_NEEDS), sort, x);
        assert MentionedIn(src, from, i, t.text);
      }
    }
  }

  /**
   In any order of declaration, a function's recorded needs are exactly what it uses itself or
   through calls of earlier and earlier functions: a call of a later function adds nothing.
   */
  lemma {:induction false} RecordedNeedsExactly(src: Source, n: nat, k: nat, sort: Sort, x: string)
    requires WellFormed(src) && k < n <= |src.funcs|
    ensures src.funcs[k].name in Analyzed(src, n)
    ensures Has(Analyzed(src, n)[src.funcs[k].name], sort, x) <==> UsesBackward(src, k, sort, x)
    decreases k
  {
    hide Scan, Mentions, UsesBackward, UsesDirectly, DeclaredFirst;
    var m := Analyzed(src, k);
    AnalyzedAt(src, n, k);
    ScanBrings(src, m, src.funcs[k].start, BodyEnd(src, k), sort, x);
    UniquesHas(Scan(src, m, src.funcs[k].start, BodyEnd(src, k), NO_NEEDS), sort, x);
    assert Has(Analyzed(src, n)[src.funcs[k].name], sort, x)
      <==> exists name :: MentionedIn(src, src.funcs[k].start, BodyEnd(src, k), name) && Brings(src, m, name, sort, x);
    forall j | 0 <= j < |src.funcs|
      ensures src.funcs[j].name in m
      ensures Has(m[src.funcs[j].name], sort, x) <==> j < k && UsesBackward(src, j, sort, x)
    {
      AnalyzedAt(src, k, j);
      if j < k {
        RecordedNeedsExactly(src, k, j, sort, x);
      }
    }
    MentionsBring(src, k, m, sort, x);
    UsesBackwardUnfold(src, k, sort, x);
  }

  /** When helpers are declared first, they are what the function uses at all. */
  lemma {:induction false} RecordedNeedsAreClosed(src: Source, n: nat, k: nat, sort: Sort, x: string)
    requires WellFormed(src) && DeclaredFirst(src) && k < n <= |src.funcs|
    ensures src.funcs[k].name in Analyzed(src, n)
    ensures Has(Analyzed(src, n)[src.funcs[k].name], sort, x) <==> Uses(src, k, sort, x)
  {
    RecordedNeedsExactly(src, n, k, sort, x);
    hide Analyzed, Has, UsesAlong, WellFormed;
    if path :| CallPath(src, path) && path[0] == k && UsesAlong(src, path, sort, x) {
      CallsDescend(src, path);
      assert UsesBackward(src, k, sort, x);
    }
  }

  lemma {:induction false} CallsDescend(src: Source, path: seq<nat>)
    requires WellFormed(src) && DeclaredFirst(src) && CallPath(src, path)
    ensures Descends(path)
  {
    hide Mentions, WellFormed;
    forall i | 1 <= i < |path| ensures path[i] < path[i - 1] {
      assert Mentions(src, path[i - 1], src.funcs[path[i]].name);
    }
  }

  lemma {:induction false} UniquesHas(raw: Needs, sort: Sort, x: string)
    ensures
      var textures, samplers := Uniques(raw.textures, |raw.textures|), Uniques(raw.samplers, |raw.samplers|);
      Has(Needs(raw.uniforms, textures, samplers), sort, x) <==> Has(raw, sort, x)
  {
    assert raw.textures[..|raw.textures|] == raw.textures && raw.samplers[..|raw.samplers|] == raw.samplers;
  }

  lemma {:induction false} MentionsBring(src: Source, k: nat, m: map<string, Needs>, sort: Sort, x: string)
    requires WellFormed(src) && k < |src.funcs| && m.Keys == Names(src)
    requires forall j :: 0 <= j < |src.funcs| ==>
      src.funcs[j].name in m && (Has(m[src.funcs[j].name], sort, x) <==> j < k && UsesBackward(src, j, sort, x))
    ensures
      (exists name :: MentionedIn(src, src.funcs[k].start, BodyEnd(src, k), name) && Brings(src, m, name, sort, x))
      <==> (UsesDirectly(src, k, sort, x) || exists j :: 0 <= j < k && UsesThroughEarlier(src, k, j, sort, x))
  {
    hide UsesBackward, Has, IsUse, MentionedIn;
    if name :| MentionedIn(src, src.funcs[k].start, BodyEnd(src, k), name) && Brings(src, m, name, sort, x) {
      assert Mentions(src, k, name);
      if !IsUse(src, sort, x, name) {
        var j :| 0 <= j < |src.funcs| && src.funcs[j].name == name;
        assert j < k && UsesThroughEarlier(src, k, j, sort, x);
      }
    }
    if UsesDirectly(src, k, sort, x) {
      var name :| Mentions(src, k, name) && IsUse(src, sort, x, name);
      assert Brings(src, m, name, sort, x);
    }
    if j :| 0 <= j < k && UsesThroughEarlier(src, k, j, sort, x) {
      assert Brings(src, m, src.funcs[j].name, sort, x);
    }
  }
}
