/**
 The scan of a shader function's body.

 Metal has no global uniforms, textures or samplers, so each function's body is searched for
 the ones it uses.  The search recurses into every pair of braces and parentheses; it is shown
 to be one flat pass that ends at the brace matching the one it started at.
 */
module ShaderScan {
  datatype Kind = Name | Other | Literal | None

  datatype Token = Token(kind: Kind, text: string)

  datatype Uniform = Uniform(name: string, typ: string)

  // start is the index of the brace that opens the body
  datatype Function = Function(name: string, start: nat)

  datatype Source = Source(fragment: bool, tokens: seq<Token>, uniforms: seq<Uniform>,
                           samplers: seq<string>, funcs: seq<Function>)

  // What a function uses of the global variables, in order of first use
  datatype Needs = Needs(uniforms: bool, textures: seq<string>, samplers: seq<string>)

  const NO_NEEDS := Needs(false, [], [])

  predicate IsTextureType(typ: string) {
    |typ| >= 7 && typ[..7] == "texture"
  }

  /** Texture declarations count as textures in a fragment shader only. */
  predicate IsTexture(src: Source, name: string) {
    src.fragment && exists i :: 0 <= i < |src.uniforms| && src.uniforms[i].name == name
                                && IsTextureType(src.uniforms[i].typ)
  }

  predicate IsPlain(src: Source, name: string) {
    exists i :: 0 <= i < |src.uniforms| && src.uniforms[i].name == name
                && !(src.fragment && IsTextureType(src.uniforms[i].typ))
  }

  predicate IsBracket(text: string) {
    text == "{" || text == "}" || text == "(" || text == ")"
  }

  /** What the lexer guarantees: a final token without a kind, and no name that is a bracket. */
  predicate Lexed(tokens: seq<Token>) {
    && tokens != [] && tokens[|tokens| - 1].kind == None
    && forall i :: 0 <= i < |tokens| && IsBracket(tokens[i].text) ==> tokens[i].kind == Other
  }

  // ---- Bracket structure --------------------------------------------------------------------

  function Closer(text: string): string {
    if text == "{" then "}" else ")"
  }

  predicate Opens(t: Token) {
    t.kind == Other && (t.text == "{" || t.text == "(")
  }

  function Bump(stack: seq<string>, t: Token): seq<string> {
    if stack == [] then []
    else if t.text == stack[|stack| - 1] then stack[..|stack| - 1]
    else if Opens(t) then stack + [Closer(t.text)]
    else stack
  }

  /** The closers still awaited after token i, when reading began behind token from. */
  function Stack(tokens: seq<Token>, from: nat, i: nat, end: string): seq<string>
    requires from <= i < |tokens|
    decreases i
  {
    if i == from then [end] else Bump(Stack(tokens, from, i - 1, end), tokens[i])
  }

  /** Reading stops at token i and not before. */
  ghost predicate EndsAt(tokens: seq<Token>, from: nat, i: nat, end: string) {
    && from <= i < |tokens|
    && OpenUntil(tokens, from, i, end)
    && (Stack(tokens, from, i, end) == [] || tokens[i].kind == None)
  }

  ghost predicate OpenUntil(tokens: seq<Token>, from: nat, i: nat, end: string)
    requires i <= |tokens|
  {
    forall k :: from <= k < i ==> Stack(tokens, from, k, end) != [] && tokens[k].kind != None
  }

  lemma {:induction false} EndsOnce(tokens: seq<Token>, from: nat, i: nat, j: nat, end: string)
    requires EndsAt(tokens, from, i, end) && EndsAt(tokens, from, j, end)
    ensures i == j
  {}

  /** Inside a bracket, the outer closers wait below the inner ones. */
  lemma {:induction false} StackSplit(tokens: seq<Token>, from: nat, at: nat, i: nat, end: string)
    requires from < at <= i < |tokens|
    requires Stack(tokens, from, at - 1, end) == [end] && Opens(tokens[at]) && tokens[at].text != end
    requires forall k :: at <= k < i ==> Stack(tokens, at, k, Closer(tokens[at].text)) != []
    ensures Stack(tokens, from, i, end) == [end] + Stack(tokens, at, i, Closer(tokens[at].text))
    decreases i
  {
    if i > at {
      StackSplit(tokens, from, at, i - 1, end);
      BumpAbove(end, Stack(tokens, at, i - 1, Closer(tokens[at].text)), tokens[i]);
    }
  }

  lemma {:induction false} BumpAbove(end: string, inner: seq<string>, t: Token)
    requires inner != []
    ensures Bump([end] + inner, t) == [end] + Bump(inner, t)
  {
    assert ([end] + inner)[..|inner|] == [end] + inner[..|inner| - 1];
    assert ([end] + inner) + [Closer(t.text)] == [end] + (inner + [Closer(t.text)]);
  }

  // ---- Matching braces ----------------------------------------------------------------------

  /** How many more brackets were opened than closed after token i, counting the first as open. */
  function Depth(tokens: seq<Token>, from: nat, i: nat): int
    requires from <= i < |tokens|
    decreases i
  {
    if i == from then 1
    else Depth(tokens, from, i - 1) + Step(tokens[i])
  }

  /** Token j closes the bracket that token from opens. */
  ghost predicate MatchesAt(tokens: seq<Token>, from: nat, j: nat)
    requires from <= j < |tokens|
  {
    Depth(tokens, from, j) == 0 && forall k :: from <= k < j ==> Depth(tokens, from, k) > 0
  }

  /** No bracket up to token i is closed by one of the other shape. */
  ghost predicate Balanced(tokens: seq<Token>, from: nat, i: nat, end: string)
    requires i < |tokens|
  {
    forall k :: from < k <= i && (tokens[k].text == "}" || tokens[k].text == ")") ==>
      var open := Stack(tokens, from, k - 1, end);
      open != [] && tokens[k].text == open[|open| - 1]
  }

  function Step(t: Token): int {
    if t.text == "{" || t.text == "(" then 1 else if t.text == "}" || t.text == ")" then -1 else 0
  }

  ghost predicate OnlyClosers(stack: seq<string>) {
    forall c :: c in stack ==> c == "}" || c == ")"
  }

  lemma {:induction false} BumpIsStep(stack: seq<string>, t: Token)
    requires stack != [] && OnlyClosers(stack) && (IsBracket(t.text) ==> t.kind == Other)
    requires t.text == "}" || t.text == ")" ==> t.text == stack[|stack| - 1]
    ensures |Bump(stack, t)| == |stack| + Step(t) && OnlyClosers(Bump(stack, t))
  {
    assert stack[|stack| - 1] in stack;
    forall c | c in Bump(stack, t) ensures c == "}" || c == ")" {
      if c !in stack {
        assert Opens(t) && c == Closer(t.text);
      }
    }
  }

  lemma {:induction false} StackIsDepth(tokens: seq<Token>, from: nat, i: nat, j: nat, end: string)
    requires Lexed(tokens) && (end == "}" || end == ")")
    requires from <= i <= j < |tokens| && Balanced(tokens, from, j, end)
    requires forall k :: from <= k < j ==> Depth(tokens, from, k) > 0
    ensures |Stack(tokens, from, i, end)| == Depth(tokens, from, i)
    ensures OnlyClosers(Stack(tokens, from, i, end))
    decreases i
  {
    if i > from {
      StackIsDepth(tokens, from, i - 1, j, end);
      BumpIsStep(Stack(tokens, from, i - 1, end), tokens[i]);
    }
  }

  /** In balanced text the scan ends exactly at the bracket that matches the first one. */
  lemma {:induction false} EndsAtMatchingBracket(tokens: seq<Token>, from: nat, j: nat, end: string)
    requires Lexed(tokens) && (end == "}" || end == ")")
    requires from <= j < |tokens| && Balanced(tokens, from, j, end)
    requires forall k :: from <= k < j ==> tokens[k].kind != None
    ensures MatchesAt(tokens, from, j) <==> EndsAt(tokens, from, j, end) && Stack(tokens, from, j, end) == []
  {
    if MatchesAt(tokens, from, j) {
      forall k | from <= k <= j ensures |Stack(tokens, from, k, end)| == Depth(tokens, from, k) {
        StackIsDepth(tokens, from, k, j, end);
      }
      assert |Stack(tokens, from, j, end)| == 0;
      assert OpenUntil(tokens, from, j, end);
      assert EndsAt(tokens, from, j, end);
    }
    if EndsAt(tokens, from, j, end) && Stack(tokens, from, j, end) == [] {
      DepthIsStack(tokens, from, j, j, end);
      forall k | from <= k < j ensures Depth(tokens, from, k) > 0 {
        DepthIsStack(tokens, from, k, j, end);
      }
    }
  }

  lemma {:induction false} DepthIsStack(tokens: seq<Token>, from: nat, i: nat, j: nat, end: string)
    requires Lexed(tokens) && (end == "}" || end == ")")
    requires from <= i <= j < |tokens| && Balanced(tokens, from, j, end) && OpenUntil(tokens, from, j, end)
    ensures |Stack(tokens, from, i, end)| == Depth(tokens, from, i)
    ensures OnlyClosers(Stack(tokens, from, i, end))
    decreases i
  {
    if i > from {
      DepthIsStack(tokens, from, i - 1, j, end);
      BumpIsStep(Stack(tokens, from, i - 1, end), tokens[i]);
    }
  }

  // ---- The flat scan --------------------------------------------------------------------------

  function Repeats(names: seq<string>, n: nat, name: string): (r: seq<string>)
    requires n <= |names|
    ensures forall x :: x in r <==> x == name && name in names[..n]
  {
    if n == 0 then []
    else if names[n - 1] == name then Repeats(names, n - 1, name) + [name]
    else Repeats(names, n - 1, name)
  }

  /** What one name adds to the needs collected so far. */
  function Visit(src: Source, functions: map<string, Needs>, name: string, needs: Needs): Needs {
    var inherited := if name in functions then functions[name] else NO_NEEDS;
    Needs(needs.uniforms || IsPlain(src, name) || inherited.uniforms,
          needs.textures + inherited.textures + (if IsTexture(src, name) then [name] else []),
          needs.samplers + inherited.samplers
            + (if src.fragment then Repeats(src.samplers, |src.samplers|, name) else []))
  }

  /** One left-to-right pass over the tokens behind from, up to and including i. */
  function Scan(src: Source, functions: map<string, Needs>, from: nat, i: nat, needs: Needs): Needs
    requires from <= i < |src.tokens|
    decreases i
  {
    if i == from then needs
    else
      var before := Scan(src, functions, from, i - 1, needs);
      if src.tokens[i].kind == Name then Visit(src, functions, src.tokens[i].text, before) else before
  }

  lemma {:induction false} ScanSplit(src: Source, functions: map<string, Needs>, from: nat, at: nat, i: nat,
          needs: Needs)
    requires from <= at <= i < |src.tokens|
    ensures Scan(src, functions, at, i, Scan(src, functions, from, at, needs)) == Scan(src, functions, from, i, needs)
    decreases i
  {
    if i > at {
      ScanSplit(src, functions, from, at, i - 1, needs);
    }
  }

  // ---- The recursive scan -----------------------------------------------------------------------

  method VisitName(src: Source, functions: map<string, Needs>, name: string, known: Needs) returns (needs: Needs)
    ensures needs == Visit(src, functions, name, known)
  {
    needs := known;
    if IsPlain(src, name) && !needs.uniforms {
      needs := needs.(uniforms := true);
    }
    if name in functions {
      var function_ := functions[name];
      if function_.uniforms && !needs.uniforms {
        needs := needs.(uniforms := true);
      }
      needs := needs.(textures := needs.textures + function_.textures);
      needs := needs.(samplers := needs.samplers + function_.samplers);
    }
    if src.fragment {
      if IsTexture(src, name) {
        needs := needs.(textures := needs.textures + [name]);
      }
      ghost var found := needs.samplers;
      for i := 0 to |src.samplers|
        invariant needs.samplers == found + Repeats(src.samplers, i, name)
        invariant needs.uniforms == Visit(src, functions, name, known).uniforms
        invariant needs.textures == Visit(src, functions, name, known).textures
      {
        if name == src.samplers[i] {
          needs := needs.(samplers := needs.samplers + [name]);
        }
      }
    }
  }

  /** Scans the text between a bracket and its match, and whatever is nested in it. */
  method AnalyzeFunction(src: Source, functions: map<string, Needs>, from: nat, end: string, known: Needs)
    returns (token: nat, needs: Needs)
    requires Lexed(src.tokens) && from < |src.tokens| && (end == "}" || end == ")")
    ensures EndsAt(src.tokens, from, token, end)
    ensures needs == Scan(src, functions, from, token, known)
    decreases |src.tokens| - from
  {
    hide Visit;
    var tokens := src.tokens;
    token, needs := from, known;
    while tokens[token].kind != None
      invariant from <= token < |tokens|
      invariant OpenUntil(tokens, from, token, end)
      invariant tokens[token].kind == None || Stack(tokens, from, token, end) == [end]
      invariant needs == Scan(src, functions, from, token, known)
      decreases |tokens| - token
    {
      token := token + 1;
      if tokens[token].text == end {
        break;
      }
      if tokens[token].kind == Name {
        needs := VisitName(src, functions, tokens[token].text, needs);
      } else if Opens(tokens[token]) {
        var at := token;
        token, needs := AnalyzeFunction(src, functions, at, if tokens[at].text == "{" then "}" else ")", needs);
        ScanSplit(src, functions, from, at, token, known);
        Resume(tokens, from, at, token, end);
      }
    }
  }

  /** Behind a nested bracket the outer scan is where it was in front of it. */
  lemma {:induction false} Resume(tokens: seq<Token>, from: nat, at: nat, i: nat, end: string)
    requires from < at < |tokens| && OpenUntil(tokens, from, at, end)
    requires Stack(tokens, from, at - 1, end) == [end] && Opens(tokens[at]) && tokens[at].text != end
    requires EndsAt(tokens, at, i, Closer(tokens[at].text))
    ensures OpenUntil(tokens, from, i, end)
    ensures tokens[i].kind == None || Stack(tokens, from, i, end) == [end]
  {
    forall k | at <= k <= i
      ensures Stack(tokens, from, k, end) == [end] + Stack(tokens, at, k, Closer(tokens[at].text))
    {
      StackSplit(tokens, from, at, k, end);
    }
  }
}
