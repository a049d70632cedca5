/**
 The hidden arguments of a call against the hidden parameters of the function it calls.
 */
module HiddenArguments {
  import opened ShaderScan
  import opened ShaderNeeds
  import opened ShaderTranspiler
  import opened ShaderTrace

  /** What the analysis has recorded for function k. */
  ghost function Recorded(src: Source, k: nat): Needs
    requires WellFormed(src) && k < |src.funcs|
  {
    assert src.funcs[k].name in Names(src);
    Analyzed(src, |src.funcs|)[src.funcs[k].name]
  }

  function HelperNames(src: Source, needs: Needs): seq<string> {
    BufferNames(HasPlain(src) && needs.uniforms)
      + (if src.fragment then Picked(Textures(src), |Textures(src)|, needs.textures)
                              + Picked(src.samplers, |src.samplers|, needs.samplers) else [])
  }

  function EntryNames(src: Source): seq<string> {
    BufferNames(HasPlain(src)) + (if src.fragment then Textures(src) + src.samplers else [])
  }

  lemma {:induction false} ParameterNames(src: Source, needs: Needs)
    ensures NamesOf(HelperParameters(src, needs)) == HelperNames(src, needs)
    ensures NamesOf(EntryParameters(src)) == EntryNames(src)
  {}

  lemma {:induction false} ParametersOfHelper(src: Source, name: string, needs: Needs)
    requires name != "main"
    ensures ParametersOf(src, name, needs) == HelperParameters(src, needs)
  {}

  // ---- Lists without repetitions ----------------------------------------------------------------

  lemma {:induction false} DistinctTextures(src: Source)
    requires WellNamed(src)
    ensures Distinct(Textures(src))
    ensures forall x :: x in Textures(src) <==> IsTexture(src, x)
    ensures forall x :: x in Textures(src) ==> x !in src.samplers && x != UNIFORMS
  {
    TexturesAreTextures(src, |src.uniforms|);
  }

  lemma {:induction false} PickedIsDistinct(order: seq<string>, n: nat, wanted: seq<string>)
    requires n <= |order| && Distinct(order)
    ensures Distinct(Picked(order, n, wanted))
  {
    if n > 0 {
      PickedIsDistinct(order, n - 1, wanted);
    }
  }

  lemma {:induction false} DistinctConcat(s: seq<string>, t: seq<string>)
    requires Distinct(s) && Distinct(t) && forall x :: x in s ==> x !in t
    ensures Distinct(s + t)
  {
    assert forall i :: |s| <= i < |s + t| ==> (s + t)[i] == t[i - |s|];
    assert forall i :: 0 <= i < |t| ==> t[i] in t;
  }

  lemma {:induction false} DistinctMultiset(s: seq<string>, x: string)
    requires Distinct(s)
    ensures multiset(s)[x] == if x in s then 1 else 0
  {
    if s != [] {
      var front := s[..|s| - 1];
      assert s == front + [s[|s| - 1]];
      DistinctMultiset(front, x);
    }
  }

  lemma {:induction false} SameElementsArePermutation(s: seq<string>, t: seq<string>)
    requires Distinct(s) && Distinct(t) && forall x :: x in s <==> x in t
    ensures multiset(s) == multiset(t)
  {
    forall x: string ensures multiset(s)[x] == multiset(t)[x] {
      DistinctMultiset(s, x);
      DistinctMultiset(t, x);
    }
  }

  // ---- Arguments against parameters ---------------------------------------------------------------

  /** The arguments of a call are the helper's parameters, each once, in some order. */
  lemma {:induction false} ArgumentsArePermutation(src: Source, k: nat)
    requires WellFormed(src) && WellNamed(src) && k < |src.funcs|
    ensures Distinct(ArgumentNames(Recorded(src, k)))
    ensures src.funcs[k].name != "main" ==>
      var parameters := NamesOf(ParametersOf(src, src.funcs[k].name, Recorded(src, k)));
      Distinct(parameters) && multiset(ArgumentNames(Recorded(src, k))) == multiset(parameters)
  {
    var needs := Recorded(src, k);
    NeedsAreGlobal(src, k);
    hide Analyzed;
    DistinctArguments(src, needs);
    ParameterNames(src, needs);
    SameElementsArePermutation(ArgumentNames(needs), HelperNames(src, needs));
  }

  /** Needs name declared variables of their sort. */
  ghost predicate Global(src: Source, needs: Needs) {
    && (forall x :: x in needs.textures ==> IsTexture(src, x))
    && (forall x :: x in needs.samplers ==> src.fragment && x in src.samplers)
    && (needs.uniforms ==> HasPlain(src))
    && Distinct(needs.textures) && Distinct(needs.samplers)
  }

  lemma {:induction false} NoneOutsideFragments(src: Source, needs: Needs)
    requires Global(src, needs)
    ensures !src.fragment ==> needs.textures == [] && needs.samplers == []
  {
    assert needs.textures == [] || needs.textures[0] in needs.textures;
    assert needs.samplers == [] || needs.samplers[0] in needs.samplers;
  }

  lemma {:induction false} DistinctArguments(src: Source, needs: Needs)
    requires WellNamed(src) && Global(src, needs)
    ensures Distinct(ArgumentNames(needs)) && Distinct(HelperNames(src, needs))
    ensures forall x :: x in ArgumentNames(needs) <==> x in HelperNames(src, needs)
  {
    DistinctTextures(src);
    var textures := Picked(Textures(src), |Textures(src)|, needs.textures);
    var samplers := Picked(src.samplers, |src.samplers|, needs.samplers);
    WholePicked(Textures(src), needs.textures);
    WholePicked(src.samplers, needs.samplers);
    PickedIsDistinct(Textures(src), |Textures(src)|, needs.textures);
    PickedIsDistinct(src.samplers, |src.samplers|, needs.samplers);
    hide Textures, Picked, HasPlain;
    assert !src.fragment ==> needs.textures == [] && needs.samplers == [] by {
      NoneOutsideFragments(src, needs);
    }
    DistinctConcat(BufferNames(needs.uniforms), needs.textures);
    DistinctConcat(BufferNames(needs.uniforms) + needs.textures, needs.samplers);
    DistinctConcat(textures, samplers);
    DistinctConcat(BufferNames(needs.uniforms), textures + samplers);
  }

  lemma {:induction false} WholePicked(order: seq<string>, wanted: seq<string>)
    ensures forall x :: x in Picked(order, |order|, wanted) <==> x in order && x in wanted
  {
    assert order[..|order|] == order;
  }

  lemma {:induction false} NeedsPassToCallers(src: Source, k: nat, j: nat, sort: Sort, x: string)
    requires WellFormed(src) && j < k < |src.funcs| && Mentions(src, k, src.funcs[j].name)
    requires Has(Recorded(src, j), sort, x)
    ensures Has(Recorded(src, k), sort, x)
  {
    hide Mentions;
    RecordedNeedsExactly(src, |src.funcs|, j, sort, x);
    RecordedNeedsExactly(src, |src.funcs|, k, sort, x);
    assert UsesThroughEarlier(src, k, j, sort, x);
    UsesBackwardUnfold(src, k, sort, x);
  }

  lemma {:induction false} HelperNamesAreEntryNames(src: Source, needs: Needs)
    ensures forall x :: x in HelperNames(src, needs) ==> x in EntryNames(src)
  {
    WholePicked(Textures(src), needs.textures);
    WholePicked(src.samplers, needs.samplers);
  }

  /** Every argument of a call is a parameter of the entry function, or of a later helper that makes the call. */
  lemma {:induction false} ArgumentsAreInScope(src: Source, k: nat, j: nat)
    requires WellFormed(src) && WellNamed(src)
    requires k < |src.funcs| && j < |src.funcs| && Mentions(src, k, src.funcs[j].name)
    requires j < k || src.funcs[k].name == "main"
    ensures forall x :: x in ArgumentNames(Recorded(src, j)) ==>
      x in NamesOf(ParametersOf(src, src.funcs[k].name, Recorded(src, k)))
  {
    NeedsAreGlobal(src, k);
    NeedsAreGlobal(src, j);
    assert Global(src, Recorded(src, k)) && Global(src, Recorded(src, j));
    forall sort, x | j < k && Has(Recorded(src, j), sort, x) ensures Has(Recorded(src, k), sort, x) {
      NeedsPassToCallers(src, k, j, sort, x);
    }
    hide *;
    FewerNeedsFit(src, src.funcs[k].name, Recorded(src, k), Recorded(src, j));
  }

  lemma {:induction false} FewerNeedsFit(src: Source, name: string, caller: Needs, callee: Needs)
    requires WellNamed(src) && Global(src, caller) && Global(src, callee)
    requires name == "main" || forall sort, x :: Has(callee, sort, x) ==> Has(caller, sort, x)
    ensures forall x :: x in ArgumentNames(callee) ==> x in NamesOf(ParametersOf(src, name, caller))
  {
    hide Global, HelperNames, EntryNames, HelperParameters, EntryParameters, WellNamed;
    ParameterNames(src, caller);
    DistinctArguments(src, caller);
    DistinctArguments(src, callee);
    HelperNamesAreEntryNames(src, callee);
    forall x | name != "main" && x in ArgumentNames(callee) ensures x in ArgumentNames(caller) {
      if x in callee.textures {
        assert Has(callee, Texture, x) && Has(caller, Texture, x);
      } else if x in callee.samplers {
        assert Has(callee, Sampler, x) && Has(caller, Sampler, x);
      } else {
        assert Has(callee, UniformBuffer, x) && Has(caller, UniformBuffer, x);
      }
    }
  }

  // ---- The same order --------------------------------------------------------------------------------

  /** These names come in the order in which they are declared. */
  ghost predicate InOrder(names: seq<string>, order: seq<string>) {
    && (forall i :: 0 <= i < |names| ==> names[i] in order)
    && (forall i, j :: 0 <= i < j < |names| ==> FirstUse(order, names[i]) < FirstUse(order, names[j]))
  }

  lemma {:induction false} PickedInOrder(order: seq<string>, n: nat, wanted: seq<string>)
    requires n <= |order| && Distinct(order)
    ensures InOrder(Picked(order, n, wanted), order)
  {
    hide FirstUse;
    if n > 0 {
      PickedInOrder(order, n - 1, wanted);
      var last := order[n - 1];
      assert FirstUse(order, last) == n - 1;
      forall x | x in order[..n - 1] ensures x in order && FirstUse(order, x) < n - 1 {
        var i :| 0 <= i < n - 1 && order[i] == x;
        assert FirstUse(order, x) == i;
      }
      var before := Picked(order, n - 1, wanted);
      assert forall i :: 0 <= i < |before| ==> before[i] in order[..n - 1];
    }
  }

  lemma {:induction false} InOrderIsUnique(s: seq<string>, t: seq<string>, order: seq<string>)
    requires InOrder(s, order) && InOrder(t, order) && forall x :: x in s <==> x in t
    ensures s == t
    decreases |s|
  {
    hide *;
    assert (s == [] || s[0] in s) && (t == [] || t[0] in t);
    if s != [] {
      var s', t' := s[..|s| - 1], t[..|t| - 1];
      SameLast(s, t, order);
      LastOnlyOnce(s, order);
      LastOnlyOnce(t, order);
      forall x ensures x in s' <==> x in t' {
        assert x in s <==> x in t;
        assert x in s' <==> x in s && x != s[|s| - 1];
        assert x in t' <==> x in t && x != t[|t| - 1];
      }
      InOrderIsUnique(s', t', order);
      assert s == s' + [s[|s| - 1]] && t == t' + [t[|t| - 1]];
    }
  }

  lemma {:induction false} SameLast(s: seq<string>, t: seq<string>, order: seq<string>)
    requires InOrder(s, order) && InOrder(t, order) && s != [] && forall x :: x in s <==> x in t
    ensures t != [] && s[|s| - 1] == t[|t| - 1]
  {
    hide FirstUse;
    assert s[0] in t;
    var a, b := s[|s| - 1], t[|t| - 1];
    LastIsGreatest(s, order, b);
    LastIsGreatest(t, order, a);
    assert FirstUse(order, a) == FirstUse(order, b) && a in order && b in order;
  }

  lemma {:induction false} LastOnlyOnce(s: seq<string>, order: seq<string>)
    requires InOrder(s, order) && s != []
    ensures InOrder(s[..|s| - 1], order)
    ensures forall x :: x in s[..|s| - 1] <==> x in s && x != s[|s| - 1]
  {
    hide FirstUse;
    var front, last := s[..|s| - 1], s[|s| - 1];
    assert s == front + [last];
    forall x | x in front ensures x != last {
      var i :| 0 <= i < |front| && front[i] == x;
      assert FirstUse(order, s[i]) < FirstUse(order, last);
    }
  }

  lemma {:induction false} LastIsGreatest(s: seq<string>, order: seq<string>, x: string)
    requires InOrder(s, order) && x in s
    ensures FirstUse(order, x) <= FirstUse(order, s[|s| - 1])
  {
    var i :| 0 <= i < |s| && s[i] == x;
  }

  /** Of these variables, those the trace uses are first used in the order of their declaration. */
  ghost predicate UsedInOrder(trace: seq<string>, order: seq<string>) {
    forall i, j :: 0 <= i < j < |order| && order[i] in trace && order[j] in trace ==>
      FirstUse(trace, order[i]) < FirstUse(trace, order[j])
  }

  /**
   The arguments of a call and the parameters of its function are the same list exactly when, in
   the text of that function and the functions it mentions, textures are first used in the order
   in which they are declared, and samplers likewise.
   */
  lemma {:induction false} SameListExactly(src: Source, k: nat)
    requires WellFormed(src) && WellNamed(src) && k < |src.funcs| && src.funcs[k].name != "main"
    ensures
      var needs := Recorded(src, k);
      ArgumentNames(needs) == NamesOf(ParametersOf(src, src.funcs[k].name, needs)) <==>
        UsedInOrder(Trace(src, k), Textures(src)) && UsedInOrder(Trace(src, k), SamplersOf(src))
  {
    hide *;
    RecordedFacts(src, k);
    ParameterNames(src, Recorded(src, k));
    ParametersOfHelper(src, src.funcs[k].name, Recorded(src, k));
    FirstUsesInOrder(Textures(src), Trace(src, k));
    FirstUsesInOrder(SamplersOf(src), Trace(src, k));
    SameList(src, Recorded(src, k));
    SamplersInOrder(src, Recorded(src, k));
  }

  lemma {:induction false} RecordedFacts(src: Source, k: nat)
    requires WellFormed(src) && WellNamed(src) && k < |src.funcs|
    ensures Global(src, Recorded(src, k)) && Distinct(Textures(src)) && Distinct(SamplersOf(src))
    ensures Recorded(src, k).textures == UsedFirst(Textures(src), Trace(src, k))
    ensures Recorded(src, k).samplers == UsedFirst(SamplersOf(src), Trace(src, k))
  {
    NeedsAreGlobal(src, k);
    RecordedIsTrace(src, |src.funcs|, k);
    DistinctTextures(src);
    hide Analyzed, WellFormed, Trace, UsedFirst, Textures;
  }

  lemma {:induction false} SamplersInOrder(src: Source, needs: Needs)
    requires Global(src, needs)
    ensures InOrder(needs.samplers, src.samplers) <==> InOrder(needs.samplers, SamplersOf(src))
  {
    NoneOutsideFragments(src, needs);
  }

  /** The variables a trace uses, listed by first use, are sorted by the place of that use. */
  lemma {:induction false} SortedByFirstUse(order: seq<string>, trace: seq<string>, n: nat)
    requires n <= |trace|
    ensures
      var used := Firsts(Only(order, trace, n));
      && (forall x :: x in used ==> x in trace && FirstUse(trace, x) < n)
      && (forall i, j :: 0 <= i < j < |used| ==> FirstUse(trace, used[i]) < FirstUse(trace, used[j]))
  {
    if n > 0 {
      SortedByFirstUse(order, trace, n - 1);
      if trace[n - 1] in order {
        SortedPush(Only(order, trace, n - 1), order, trace, n);
      }
    }
  }

  lemma {:induction false} SortedPush(before: seq<string>, order: seq<string>, trace: seq<string>, n: nat)
    requires 0 < n <= |trace| && trace[n - 1] in order
    requires forall x :: x in before <==> x in order && x in trace[..n - 1]
    requires forall x :: x in Firsts(before) ==> x in trace && FirstUse(trace, x) < n - 1
    requires forall i, j :: 0 <= i < j < |Firsts(before)| ==>
      FirstUse(trace, Firsts(before)[i]) < FirstUse(trace, Firsts(before)[j])
    ensures
      var used := Firsts(before + [trace[n - 1]]);
      && (forall x :: x in used ==> x in trace && FirstUse(trace, x) < n)
      && (forall i, j :: 0 <= i < j < |used| ==> FirstUse(trace, used[i]) < FirstUse(trace, used[j]))
  {
    var x, used := trace[n - 1], Firsts(before);
    UniquesOfPrefix(before, [x], |before|);
    UniquesStep(before + [x], |before| + 1);
    assert before[..|before|] == before;
    if x !in used {
      FirstUseIs(trace, x, n - 1);
    }
    hide Uniques, FirstUse;
  }

  lemma {:induction false} FirstUseIs(s: seq<string>, x: string, i: nat)
    requires i < |s| && s[i] == x && x !in s[..i]
    ensures FirstUse(s, x) == i
  {
  }

  /** These names are the variables the trace uses, sorted by first use. */
  ghost predicate ListsUses(used: seq<string>, order: seq<string>, trace: seq<string>) {
    && Distinct(order)
    && (forall x :: x in used <==> x in order && x in trace)
    && (forall p, q :: 0 <= p < q < |used| ==> FirstUse(trace, used[p]) < FirstUse(trace, used[q]))
  }

  lemma {:induction false} FirstUsesInOrder(order: seq<string>, trace: seq<string>)
    requires Distinct(order)
    ensures InOrder(UsedFirst(order, trace), order) <==> UsedInOrder(trace, order)
  {
    SortedByFirstUse(order, trace, |trace|);
    var used, only := UsedFirst(order, trace), Only(order, trace, |trace|);
    assert only[..|only|] == only && trace[..|trace|] == trace;
    assert ListsUses(used, order, trace);
    hide *;
    if UsedInOrder(trace, order) {
      UsesAreInOrder(used, order, trace);
    }
    if InOrder(used, order) {
      OrderIsUsed(used, order, trace);
    }
  }

  lemma {:induction false} UsesAreInOrder(used: seq<string>, order: seq<string>, trace: seq<string>)
    requires ListsUses(used, order, trace) && UsedInOrder(trace, order)
    ensures InOrder(used, order)
  {
    hide FirstUse;
    forall p, q | 0 <= p < q < |used| ensures FirstUse(order, used[p]) < FirstUse(order, used[q]) {
      var i, j := FirstUse(order, used[p]), FirstUse(order, used[q]);
      assert order[i] in trace && order[j] in trace;
      assert FirstUse(trace, order[i]) < FirstUse(trace, order[j]);
    }
  }

  lemma {:induction false} OrderIsUsed(used: seq<string>, order: seq<string>, trace: seq<string>)
    requires ListsUses(used, order, trace) && InOrder(used, order)
    ensures UsedInOrder(trace, order)
  {
    hide FirstUse;
    forall i, j | 0 <= i < j < |order| && order[i] in trace && order[j] in trace
      ensures FirstUse(trace, order[i]) < FirstUse(trace, order[j])
    {
      var p :| 0 <= p < |used| && used[p] == order[i];
      var q :| 0 <= q < |used| && used[q] == order[j];
      assert FirstUse(order, used[p]) == i && FirstUse(order, used[q]) == j;
      assert !(q < p);
    }
  }

  lemma {:induction false} SameList(src: Source, needs: Needs)
    requires WellNamed(src) && Global(src, needs)
    ensures ArgumentNames(needs) == HelperNames(src, needs) <==>
      InOrder(needs.textures, Textures(src)) && InOrder(needs.samplers, src.samplers)
  {
    DistinctTextures(src);
    NoneOutsideFragments(src, needs);
    assert Distinct(src.samplers) && Distinct(needs.textures) && Distinct(needs.samplers);
    SameSortOnly(Textures(src), needs.textures);
    SameSortOnly(src.samplers, needs.samplers);
    hide InOrder, Picked, Textures, HasPlain, Distinct, WellNamed, IsTexture;
    SameNames(src, needs, Picked(Textures(src), |Textures(src)|, needs.textures),
              Picked(src.samplers, |src.samplers|, needs.samplers));
  }

  lemma {:induction false} SameNames(src: Source, needs: Needs, textures: seq<string>, samplers: seq<string>)
    requires textures == Picked(Textures(src), |Textures(src)|, needs.textures)
    requires samplers == Picked(src.samplers, |src.samplers|, needs.samplers)
    requires |textures| == |needs.textures| && |samplers| == |needs.samplers|
    requires needs.uniforms ==> HasPlain(src)
    requires !src.fragment ==> needs.textures == [] && needs.samplers == []
    ensures ArgumentNames(needs) == HelperNames(src, needs) <==>
      needs.textures == textures && needs.samplers == samplers
  {
    hide Picked, Textures, HasPlain;
    var buffer := BufferNames(needs.uniforms);
    assert ArgumentNames(needs) == buffer + (needs.textures + needs.samplers);
    assert HelperNames(src, needs) == buffer + (textures + samplers);
    hide *;
    SameParts(buffer, needs.textures, needs.samplers, textures, samplers);
  }

  lemma {:induction false} SameParts(p: seq<string>, a: seq<string>, b: seq<string>, c: seq<string>, d: seq<string>)
    requires |a| == |c|
    ensures p + (a + b) == p + (c + d) <==> a == c && b == d
  {
    if p + (a + b) == p + (c + d) {
      assert a + b == (p + (a + b))[|p|..] == c + d;
      assert a == (a + b)[..|a|] && b == (a + b)[|a|..];
      assert c == (c + d)[..|c|] && d == (c + d)[|c|..];
    }
  }

  /** One sort of names: as many as picked, and the same list if they come in order. */
  lemma {:induction false} SameSortOnly(order: seq<string>, wanted: seq<string>)
    requires Distinct(order) && Distinct(wanted) && forall x :: x in wanted ==> x in order
    ensures |Picked(order, |order|, wanted)| == |wanted|
    ensures wanted == Picked(order, |order|, wanted) <==> InOrder(wanted, order)
  {
    var picked := Picked(order, |order|, wanted);
    WholePicked(order, wanted);
    PickedInOrder(order, |order|, wanted);
    PickedIsDistinct(order, |order|, wanted);
    SameElementsArePermutation(picked, wanted);
    assert |multiset(picked)| == |multiset(wanted)|;
    if InOrder(wanted, order) {
      InOrderIsUnique(wanted, picked, order);
    }
  }

  // ---- A call whose arguments are swapped ---------------------------------------------------------------

  /** A name of a function, followed by a parenthesis, in the body of another one. */
  ghost predicate IsCall(src: Source, k: nat, at: nat, callee: nat)
    requires WellFormed(src) && k < |src.funcs| && callee < |src.funcs|
  {
    && src.funcs[k].start < at < BodyEnd(src, k)
    && src.tokens[at] == Token(Name, src.funcs[callee].name)
    && src.tokens[at + 1] == Token(Other, "(")
  }

  /** A helper samples its second texture first, and the entry function calls it. */
  function SwappedTextures(): Source {
    Source(true,
           [Token(Other, "{"), Token(Name, "b"), Token(Name, "a"), Token(Other, "}"),
            Token(Other, "{"), Token(Name, "blend"), Token(Other, "("), Token(Name, "uv"), Token(Other, ")"),
            Token(Other, "}"), Token(None, "")],
           [Uniform("a", "texture2d"), Uniform("b", "texture2d")], [], [Function("blend", 0), Function("main", 4)])
  }

  lemma {:induction false} SwappedHelperBody()
    ensures WellFormed(SwappedTextures()) && BodyEnd(SwappedTextures(), 0) == 3
  {
    var src := SwappedTextures();
    var tokens := src.tokens;
    assert WellFormed(src);
    assert Stack(tokens, 0, 0, "}") == ["}"];
    assert Stack(tokens, 0, 1, "}") == ["}"];
    assert Stack(tokens, 0, 2, "}") == ["}"];
    assert Stack(tokens, 0, 3, "}") == [];
    assert EndsAt(tokens, 0, 3, "}");
    EndsOnce(tokens, 0, 3, BodyEnd(src, 0), "}");
  }

  lemma {:induction false} SwappedEntryBody()
    ensures WellFormed(SwappedTextures()) && BodyEnd(SwappedTextures(), 1) == 9
  {
    var src := SwappedTextures();
    var tokens := src.tokens;
    assert WellFormed(src);
    assert Stack(tokens, 4, 4, "}") == ["}"];
    assert Stack(tokens, 4, 5, "}") == ["}"];
    assert Stack(tokens, 4, 6, "}") == ["}", ")"];
    assert Stack(tokens, 4, 7, "}") == ["}", ")"];
    assert Stack(tokens, 4, 8, "}") == ["}"];
    assert Stack(tokens, 4, 9, "}") == [];
    assert EndsAt(tokens, 4, 9, "}");
    EndsOnce(tokens, 4, 9, BodyEnd(src, 1), "}");
  }

  lemma {:induction false} SwappedIsWellFormed()
    ensures WellFormed(SwappedTextures()) && WellNamed(SwappedTextures()) && DeclaredFirst(SwappedTextures())
  {
    SwappedHelperBody();
    SwappedEntryBody();
    var src := SwappedTextures();
    hide BodyEnd, EndOf, Lexed;
    assert src.tokens[1].text == "b" && src.tokens[2].text == "a";
    assert src.tokens[5].text == "blend" && src.tokens[7].text == "uv";
    assert !Mentions(src, 0, "blend") && !Mentions(src, 0, "main") && !Mentions(src, 1, "main");
  }

  lemma {:induction false} SwappedTexturesDeclared()
    ensures Textures(SwappedTextures()) == ["a", "b"] && SamplersOf(SwappedTextures()) == []
    ensures !HasPlain(SwappedTextures())
  {
    var src := SwappedTextures();
    assert IsTextureType("texture2d");
    assert src.uniforms[0].name == "a" && src.uniforms[1].name == "b";
    assert IsTexture(src, "a") && IsTexture(src, "b") && !IsPlain(src, "a") && !IsPlain(src, "b");
    assert TextureNames(src, 0) == [] && TextureNames(src, 1) == ["a"] && TextureNames(src, 2) == ["a", "b"];
  }

  /** Read off the text: the helper mentions b before a. */
  lemma {:induction false} SwappedTrace()
    ensures WellFormed(SwappedTextures()) && Trace(SwappedTextures(), 0) == ["b", "a"]
  {
    SwappedHelperBody();
    SwappedEntryBody();
    var src := SwappedTextures();
    hide BodyEnd, EndOf, Lexed;
    assert TraceTo(src, 0, 0) == [];
    assert Spliced(src, 0, "b") == ["b"] && Spliced(src, 0, "a") == ["a"];
    assert TraceTo(src, 0, 1) == ["b"];
    assert TraceTo(src, 0, 2) == ["b", "a"];
    assert TraceTo(src, 0, 3) == ["b", "a"];
  }

  lemma {:induction false} SwappedUses()
    ensures UsedFirst(["a", "b"], ["b", "a"]) == ["b", "a"] && UsedFirst([], ["b", "a"]) == []
  {
    var trace := ["b", "a"];
    assert Only(["a", "b"], trace, 0) == [] && Only(["a", "b"], trace, 1) == ["b"];
    assert Only(["a", "b"], trace, 2) == trace;
    assert Uniques(trace, 0) == [] && Uniques(trace, 1) == ["b"] && Uniques(trace, 2) == trace;
    assert Only([], trace, 0) == [] && Only([], trace, 1) == [] && Only([], trace, 2) == [];
  }

  lemma {:induction false} SwappedRecorded()
    ensures WellFormed(SwappedTextures())
    ensures Recorded(SwappedTextures(), 0) == Needs(false, ["b", "a"], [])
  {
    var src := SwappedTextures();
    SwappedIsWellFormed();
    SwappedTrace();
    SwappedTexturesDeclared();
    SwappedUses();
    assert |src.funcs| == 2 && src.funcs[0].name == "blend";
    hide SwappedTextures, WellFormed, WellNamed, DeclaredFirst, HasPlain, Textures, UsedFirst, Trace, Analyzed;
    RecordedIsTrace(src, 2, 0);
    NeedsAreGlobal(src, 0);
  }

  lemma {:induction false} SwappedParameters()
    ensures NamesOf(ParametersOf(SwappedTextures(), "blend", Needs(false, ["b", "a"], []))) == ["a", "b"]
  {
    var src, needs := SwappedTextures(), Needs(false, ["b", "a"], []);
    SwappedTexturesDeclared();
    assert src.samplers == [];
    hide SwappedTextures, HasPlain, Textures, NamesOf, HelperParameters;
    ParameterNames(src, needs);
    SwappedPicked();
  }

  lemma {:induction false} SwappedPicked()
    ensures Picked(["a", "b"], 2, ["b", "a"]) == ["a", "b"] && Picked([], 0, []) == []
  {
    var order, wanted := ["a", "b"], ["b", "a"];
    assert Picked(order, 0, wanted) == [] && Picked(order, 1, wanted) == ["a"];
  }

  /** The call in the entry function passes b where a is expected, and a where b is. */
  lemma {:induction false} ArgumentsCanBeSwapped()
    ensures
      var src := SwappedTextures();
      && WellFormed(src) && WellNamed(src) && DeclaredFirst(src)
      && src.funcs[1].name == "main" && IsCall(src, 1, 5, 0)
      && ArgumentNames(Recorded(src, 0)) == ["b", "a"]
      && NamesOf(ParametersOf(src, src.funcs[0].name, Recorded(src, 0))) == ["a", "b"]
  {
    hide *;
    SwappedIsWellFormed();
    SwappedCall();
    SwappedRecorded();
    SwappedParameters();
    NamesInOrder(["b", "a"]);
  }

  lemma {:induction false} NamesInOrder(textures: seq<string>)
    ensures ArgumentNames(Needs(false, textures, [])) == textures
  {}

  lemma {:induction false} SwappedCall()
    ensures
      var src := SwappedTextures();
      && WellFormed(src) && |src.funcs| == 2 && src.funcs[0].name == "blend" && src.funcs[1].name == "main"
      && IsCall(src, 1, 5, 0)
  {
    SwappedEntryBody();
    var src := SwappedTextures();
    assert src.tokens[5] == Token(Name, "blend") && src.tokens[6] == Token(Other, "(");
    hide WellFormed, BodyEnd;
  }
}
