/**
 The order in which a shader function uses global variables.

 The trace of a function lists the names its body mentions from left to right; in front of the
 name of an earlier function stands that function's own trace.  It is read off the source text
 alone.  What the analysis records is shown to be the textures and samplers of the trace, each at
 its first use.
 */
module ShaderTrace {
  import opened ShaderScan
  import opened ShaderNeeds
  import opened ShaderTranspiler

  /** The function with this name among the first n, or n. */
  function Declared(src: Source, n: nat, name: string): (j: nat)
    requires n <= |src.funcs|
    ensures j <= n && (j < n ==> src.funcs[j].name == name)
    ensures j == n ==> forall i :: 0 <= i < n ==> src.funcs[i].name != name
  {
    if n == 0 then 0
    else
      var j := Declared(src, n - 1, name);
      if j < n - 1 || src.funcs[n - 1].name == name then j else n
  }

  function Trace(src: Source, k: nat): seq<string>
    requires WellFormed(src) && k < |src.funcs|
    decreases k, 2, 0
  {
    TraceTo(src, k, BodyEnd(src, k))
  }

  /** The trace of the body up to token i. */
  function TraceTo(src: Source, k: nat, i: nat): seq<string>
    requires WellFormed(src) && k < |src.funcs| && src.funcs[k].start <= i < |src.tokens|
    decreases k, 1, i
  {
    if i == src.funcs[k].start then []
    else if src.tokens[i].kind == Name then TraceTo(src, k, i - 1) + Spliced(src, k, src.tokens[i].text)
    else TraceTo(src, k, i - 1)
  }

  /** A mentioned name, behind its own trace if it is an earlier function. */
  function Spliced(src: Source, k: nat, name: string): seq<string>
    requires WellFormed(src) && k < |src.funcs|
    decreases k, 0, 0
  {
    var j := Declared(src, k, name);
    (if j < k then Trace(src, j) else []) + [name]
  }

  /** The names of the trace that are in this list, each occurrence in its place. */
  function Only(order: seq<string>, trace: seq<string>, n: nat): (r: seq<string>)
    requires n <= |trace|
    ensures forall x :: x in r <==> x in order && x in trace[..n]
  {
    if n == 0 then []
    else
      assert trace[..n] == trace[..n - 1] + [trace[n - 1]];
      if trace[n - 1] in order then Only(order, trace, n - 1) + [trace[n - 1]] else Only(order, trace, n - 1)
  }

  // ---- Distinct elements of a concatenation -------------------------------------------------------

  function Firsts(s: seq<string>): seq<string> {
    Uniques(s, |s|)
  }

  /** What is there already, then the first n elements that are new. */
  function Extended(known: seq<string>, s: seq<string>, n: nat): (r: seq<string>)
    requires n <= |s|
    ensures forall x :: x in r <==> x in known || x in s[..n]
  {
    if n == 0 then known
    else
      assert s[..n] == s[..n - 1] + [s[n - 1]];
      var before := Extended(known, s, n - 1);
      if s[n - 1] in before then before else before + [s[n - 1]]
  }

  lemma {:induction false} UniquesOfPrefix(a: seq<string>, b: seq<string>, n: nat)
    requires n <= |a|
    ensures Uniques(a + b, n) == Uniques(a, n)
  {
    if n > 0 {
      UniquesOfPrefix(a, b, n - 1);
    }
  }

  lemma {:induction false} UniquesOfConcat(a: seq<string>, b: seq<string>, n: nat)
    requires n <= |b|
    ensures Uniques(a + b, |a| + n) == Extended(Firsts(a), b, n)
  {
    if n == 0 {
      UniquesOfPrefix(a, b, |a|);
    } else {
      UniquesOfConcat(a, b, n - 1);
      assert (a + b)[|a| + n - 1] == b[n - 1];
    }
  }

  lemma {:induction false} ExtendedPrefix(known: seq<string>, s: seq<string>, t: seq<string>, n: nat)
    requires n <= |s|
    ensures Extended(known, s + t, n) == Extended(known, s, n)
  {
    if n > 0 {
      ExtendedPrefix(known, s, t, n - 1);
    }
  }

  /** Repetitions in what is added make no difference. */
  lemma {:induction false} ExtendedByUniques(known: seq<string>, s: seq<string>, n: nat)
    requires n <= |s|
    ensures Extended(known, Uniques(s, n), |Uniques(s, n)|) == Extended(known, s, n)
  {
    if n > 0 {
      ExtendedStep(known, s, n);
      UniquesStep(s, n);
      var before, x := Uniques(s, n - 1), s[n - 1];
      hide Extended, Uniques;
      ExtendedByUniques(known, s, n - 1);
      if x !in before {
        ExtendedPush(known, before, x);
      }
    }
  }

  lemma {:induction false} ExtendedPush(known: seq<string>, s: seq<string>, x: string)
    ensures Extended(known, s + [x], |s + [x]|) ==
      if x in Extended(known, s, |s|) then Extended(known, s, |s|) else Extended(known, s, |s|) + [x]
  {
    ExtendedPrefix(known, s, [x], |s|);
    ExtendedStep(known, s + [x], |s| + 1);
    hide Extended;
    assert (s + [x])[|s|] == x;
  }

  lemma {:induction false} ExtendedStep(known: seq<string>, s: seq<string>, n: nat)
    requires 0 < n <= |s|
    ensures Extended(known, s, n) ==
      if s[n - 1] in Extended(known, s, n - 1) then Extended(known, s, n - 1)
      else Extended(known, s, n - 1) + [s[n - 1]]
  {}

  lemma {:induction false} UniquesStep(s: seq<string>, n: nat)
    requires 0 < n <= |s|
    ensures Uniques(s, n) == if s[n - 1] in Uniques(s, n - 1) then Uniques(s, n - 1) else Uniques(s, n - 1) + [s[n - 1]]
  {}

  /** The distinct elements of a concatenation depend only on those of its parts. */
  lemma {:induction false} FirstsOfConcat(a: seq<string>, b: seq<string>, a': seq<string>, b': seq<string>)
    requires Firsts(a) == Firsts(a') && Firsts(b) == Firsts(b')
    ensures Firsts(a + b) == Firsts(a' + b')
  {
    hide Extended, Uniques;
    UniquesOfConcat(a, b, |b|);
    UniquesOfConcat(a', b', |b'|);
    ExtendedByUniques(Firsts(a), b, |b|);
    ExtendedByUniques(Firsts(a), b', |b'|);
  }

  lemma {:induction false} FirstsOfDistinct(s: seq<string>, n: nat)
    requires n <= |s| && forall i, j :: 0 <= i < j < |s| ==> s[i] != s[j]
    ensures Uniques(s, n) == s[..n]
  {
    if n > 0 {
      FirstsOfDistinct(s, n - 1);
      assert s[..n] == s[..n - 1] + [s[n - 1]];
    }
  }

  lemma {:induction false} FirstsTwice(s: seq<string>)
    ensures Firsts(Firsts(s)) == Firsts(s)
  {
    FirstsOfDistinct(Firsts(s), |Firsts(s)|);
  }

  lemma {:induction false} OnlyOfConcat(order: seq<string>, a: seq<string>, b: seq<string>, n: nat)
    requires n <= |b|
    ensures Only(order, a + b, |a| + n) == Only(order, a, |a|) + Only(order, b, n)
  {
    if n == 0 {
      OnlyOfPrefix(order, a, b, |a|);
    } else {
      OnlyOfConcat(order, a, b, n - 1);
      assert (a + b)[|a| + n - 1] == b[n - 1];
    }
  }

  lemma {:induction false} OnlyOfPrefix(order: seq<string>, a: seq<string>, b: seq<string>, n: nat)
    requires n <= |a|
    ensures Only(order, a + b, n) == Only(order, a, n)
  {
    if n > 0 {
      OnlyOfPrefix(order, a, b, n - 1);
    }
  }

  // ---- What is recorded ----------------------------------------------------------------------------

  /** The variables of this list that the trace uses, each at its first use. */
  function UsedFirst(order: seq<string>, trace: seq<string>): seq<string> {
    Firsts(Only(order, trace, |trace|))
  }

  /** Needs with the same distinct textures and samplers as this trace. */
  ghost predicate Traces(src: Source, needs: Needs, trace: seq<string>) {
    && Firsts(needs.textures) == UsedFirst(Textures(src), trace)
    && Firsts(needs.samplers) == UsedFirst(SamplersOf(src), trace)
  }

  function SamplersOf(src: Source): seq<string> {
    if src.fragment then src.samplers else []
  }

  /** Every recorded texture and sampler is one of the trace, in order of first use. */
  lemma {:induction false} RecordedIsTrace(src: Source, n: nat, k: nat)
    requires WellFormed(src) && WellNamed(src) && k < n <= |src.funcs|
    ensures src.funcs[k].name in Analyzed(src, n)
    ensures Analyzed(src, n)[src.funcs[k].name].textures == UsedFirst(Textures(src), Trace(src, k))
    ensures Analyzed(src, n)[src.funcs[k].name].samplers == UsedFirst(SamplersOf(src), Trace(src, k))
    decreases k, 3, 0
  {
    AnalyzedAt(src, n, k);
    ScanIsTrace(src, k, BodyEnd(src, k));
  }

  lemma {:induction false} ScanIsTrace(src: Source, k: nat, i: nat)
    requires WellFormed(src) && WellNamed(src) && k < |src.funcs| && src.funcs[k].start <= i < |src.tokens|
    ensures Traces(src, Scan(src, Analyzed(src, k), src.funcs[k].start, i, NO_NEEDS), TraceTo(src, k, i))
    decreases k, 2, i
  {
    hide Scan, TraceTo, Visit, Traces, Spliced, Analyzed, WellFormed, WellNamed;
    if i == src.funcs[k].start {
      NothingScanned(src, k);
    } else {
      ScanStep(src, k, i);
      ScanIsTrace(src, k, i - 1);
      if src.tokens[i].kind == Name {
        var name := src.tokens[i].text;
        VisitIsSpliced(src, k, name);
        VisitIsTrace(src, Analyzed(src, k), name, Scan(src, Analyzed(src, k), src.funcs[k].start, i - 1, NO_NEEDS),
                     TraceTo(src, k, i - 1), Spliced(src, k, name));
      }
    }
  }

  lemma {:induction false} NothingScanned(src: Source, k: nat)
    requires WellFormed(src) && k < |src.funcs|
    ensures Traces(src, Scan(src, Analyzed(src, k), src.funcs[k].start, src.funcs[k].start, NO_NEEDS),
                   TraceTo(src, k, src.funcs[k].start))
  {
    hide Analyzed, Visit, Spliced;
  }

  lemma {:induction false} ScanStep(src: Source, k: nat, i: nat)
    requires WellFormed(src) && k < |src.funcs| && src.funcs[k].start < i < |src.tokens|
    ensures
      var m, start := Analyzed(src, k), src.funcs[k].start;
      if src.tokens[i].kind == Name then
        && Scan(src, m, start, i, NO_NEEDS) == Visit(src, m, src.tokens[i].text, Scan(src, m, start, i - 1, NO_NEEDS))
        && TraceTo(src, k, i) == TraceTo(src, k, i - 1) + Spliced(src, k, src.tokens[i].text)
      else
        Scan(src, m, start, i, NO_NEEDS) == Scan(src, m, start, i - 1, NO_NEEDS)
        && TraceTo(src, k, i) == TraceTo(src, k, i - 1)
  {
    hide Visit, Spliced, Analyzed, WellFormed;
  }

  /** What a name brings in by itself. */
  function Brought(src: Source, m: map<string, Needs>, name: string): Needs {
    Visit(src, m, name, NO_NEEDS)
  }

  lemma {:induction false} VisitIsSpliced(src: Source, k: nat, name: string)
    requires WellFormed(src) && WellNamed(src) && k < |src.funcs|
    ensures Traces(src, Brought(src, Analyzed(src, k), name), Spliced(src, k, name))
    decreases k, 1, 0
  {
    var j, m := Declared(src, k, name), Analyzed(src, k);
    if j < k {
      RecordedIsTrace(src, k, j);
      OwnName(src, m, name, m[name], Trace(src, j));
      assert Spliced(src, k, name) == Trace(src, j) + [name];
    } else {
      if name in m {
        var l :| 0 <= l < |src.funcs| && src.funcs[l].name == name;
        AnalyzedAt(src, k, l);
      }
      assert name in m ==> m[name] == NO_NEEDS;
      OwnName(src, m, name, NO_NEEDS, []);
      assert Spliced(src, k, name) == [] + [name];
    }
  }

  lemma {:induction false} OwnName(src: Source, m: map<string, Needs>, name: string, inherited: Needs,
          trace: seq<string>)
    requires WellNamed(src)
    requires inherited == if name in m then m[name] else NO_NEEDS
    requires inherited.textures == UsedFirst(Textures(src), trace)
    requires inherited.samplers == UsedFirst(SamplersOf(src), trace)
    ensures Traces(src, Brought(src, m, name), trace + [name])
  {
    BroughtBy(src, m, name, inherited);
    Appended(Textures(src), trace, name);
    Appended(SamplersOf(src), trace, name);
    hide Brought, Textures, SamplersOf, UsedFirst, WellNamed;
  }

  lemma {:induction false} BroughtBy(src: Source, m: map<string, Needs>, name: string, inherited: Needs)
    requires WellNamed(src) && inherited == if name in m then m[name] else NO_NEEDS
    ensures Brought(src, m, name).textures == inherited.textures + OneOf(Textures(src), name)
    ensures Brought(src, m, name).samplers == inherited.samplers + OneOf(SamplersOf(src), name)
  {
    TexturesAreTextures(src, |src.uniforms|);
    RepeatsOnce(src.samplers, |src.samplers|, name);
    assert src.samplers[..|src.samplers|] == src.samplers;
    hide IsTexture, TextureNames, Repeats, IsPlain, WellNamed;
    assert [] + inherited.textures == inherited.textures && [] + inherited.samplers == inherited.samplers;
  }

  function OneOf(order: seq<string>, name: string): seq<string> {
    if name in order then [name] else []
  }

  lemma {:induction false} Appended(order: seq<string>, trace: seq<string>, name: string)
    ensures Firsts(UsedFirst(order, trace) + OneOf(order, name)) == UsedFirst(order, trace + [name])
  {
    var used := Only(order, trace, |trace|);
    OnlyOfConcat(order, trace, [name], 1);
    assert Only(order, [name], 1) == OneOf(order, name) by {
      assert Only(order, [name], 0) == [];
    }
    FirstsTwice(used);
    FirstsOfConcat(Firsts(used), OneOf(order, name), used, OneOf(order, name));
  }

  lemma {:induction false} RepeatsOnce(names: seq<string>, n: nat, name: string)
    requires n <= |names| && Distinct(names)
    ensures Repeats(names, n, name) == if name in names[..n] then [name] else []
  {
    if n > 0 {
      RepeatsOnce(names, n - 1, name);
      assert names[..n] == names[..n - 1] + [names[n - 1]];
    }
  }

  lemma {:induction false} VisitIsTrace(src: Source, m: map<string, Needs>, name: string, needs: Needs,
                                        before: seq<string>, more: seq<string>)
    requires Traces(src, needs, before) && Traces(src, Brought(src, m, name), more)
    ensures Traces(src, Visit(src, m, name, needs), before + more)
  {
    var brought, all := Brought(src, m, name), Visit(src, m, name, needs);
    VisitAppends(src, m, name, needs);
    Joined(Textures(src), needs.textures, brought.textures, before, more);
    Joined(SamplersOf(src), needs.samplers, brought.samplers, before, more);
  }

  lemma {:induction false} VisitAppends(src: Source, m: map<string, Needs>, name: string, needs: Needs)
    ensures Visit(src, m, name, needs).textures == needs.textures + Brought(src, m, name).textures
    ensures Visit(src, m, name, needs).samplers == needs.samplers + Brought(src, m, name).samplers
  {}

  lemma {:induction false} Joined(order: seq<string>, a: seq<string>, b: seq<string>, before: seq<string>,
          more: seq<string>)
    requires Firsts(a) == UsedFirst(order, before) && Firsts(b) == UsedFirst(order, more)
    ensures Firsts(a + b) == UsedFirst(order, before + more)
  {
    OnlyOfConcat(order, before, more, |more|);
    FirstsOfConcat(a, b, Only(order, before, |before|), Only(order, more, |more|));
  }
}
