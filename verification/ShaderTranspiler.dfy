/**
 Hidden parameters and hidden arguments.

 Every uniform, texture and sampler a function needs becomes a parameter of its Metal version,
 in order of declaration, and every call passes the recorded needs of the function it calls.
 */
module ShaderTranspiler {
  import opened ShaderScan
  import opened ShaderNeeds
  import Wrappers

  type Option<T> = Wrappers.Option<T>

  // A parameter added to a function; slot is its binding in the entry function
  datatype Parameter = Parameter(sort: Sort, name: string, slot: Option<nat>)

  const UNIFORMS := "uniforms"

  predicate Distinct(s: seq<string>) {
    forall i, j :: 0 <= i < j < |s| ==> s[i] != s[j]
  }

  function NamesOf(params: seq<Parameter>): (names: seq<string>)
    ensures |names| == |params| && forall i :: 0 <= i < |params| ==> names[i] == params[i].name
  {
    seq(|params|, i requires 0 <= i < |params| => params[i].name)
  }

  /** The textures among the first n uniforms, in order of declaration. */
  function TextureNames(src: Source, n: nat): (names: seq<string>)
    requires n <= |src.uniforms|
  {
    if n == 0 then []
    else if IsTexture(src, src.uniforms[n - 1].name) then TextureNames(src, n - 1) + [src.uniforms[n - 1].name]
    else TextureNames(src, n - 1)
  }

  function Textures(src: Source): seq<string> {
    TextureNames(src, |src.uniforms|)
  }

  predicate HasPlain(src: Source) {
    exists i :: 0 <= i < |src.uniforms| && IsPlain(src, src.uniforms[i].name)
  }

  /** Only the fragment shader has textures, and only what is declared as one is; the rest goes into the buffer. */
  lemma {:induction false} UniformKinds(src: Source, i: nat)
    requires WellNamed(src) && i < |src.uniforms|
    ensures IsTexture(src, src.uniforms[i].name) <==> src.fragment && "texture" <= src.uniforms[i].typ
    ensures IsPlain(src, src.uniforms[i].name) <==> !src.fragment || !("texture" <= src.uniforms[i].typ)
    ensures forall x :: IsTexture(src, x) || IsPlain(src, x) ==>
      exists k :: 0 <= k < |src.uniforms| && src.uniforms[k].name == x
  {
    var typ := src.uniforms[i].typ;
    assert "texture" <= typ <==> |typ| >= 7 && typ[..7] == "texture";
  }

  /** No two global variables share a name, and none is called like the uniform buffer. */
  predicate WellNamed(src: Source) {
    && (forall i, j :: 0 <= i < j < |src.uniforms| ==> src.uniforms[i].name != src.uniforms[j].name)
    && Distinct(src.samplers)
    && (forall i :: 0 <= i < |src.uniforms| ==> src.uniforms[i].name !in src.samplers)
    && (forall i :: 0 <= i < |src.uniforms| ==> src.uniforms[i].name != UNIFORMS)
    && UNIFORMS !in src.samplers
  }

  lemma {:induction false} TexturesAreTextures(src: Source, n: nat)
    requires n <= |src.uniforms|
    ensures forall x :: x in TextureNames(src, n) <==>
      IsTexture(src, x) && exists i :: 0 <= i < n && src.uniforms[i].name == x
    ensures WellNamed(src) ==> Distinct(TextureNames(src, n))
  {
    hide IsTexture;
    if n > 0 {
      TexturesAreTextures(src, n - 1);
      var name := src.uniforms[n - 1].name;
      if WellNamed(src) && name in TextureNames(src, n - 1) {
        assert false;
      }
    }
  }

  // ---- The two lists ----------------------------------------------------------------------------

  /** Of the first n names declared, those wanted. */
  function Picked(order: seq<string>, n: nat, wanted: seq<string>): (r: seq<string>)
    requires n <= |order|
    ensures forall x :: x in r <==> x in order[..n] && x in wanted
  {
    if n == 0 then []
    else
      var before := Picked(order, n - 1, wanted);
      assert order[..n] == order[..n - 1] + [order[n - 1]];
      if order[n - 1] in wanted then before + [order[n - 1]] else before
  }

  function Unbound(sort: Sort, names: seq<string>): seq<Parameter> {
    seq(|names|, i requires 0 <= i < |names| => Parameter(sort, names[i], Wrappers.None))
  }

  function Bound(sort: Sort, names: seq<string>): seq<Parameter> {
    seq(|names|, i requires 0 <= i < |names| => Parameter(sort, names[i], Wrappers.Some(i)))
  }

  function BufferNames(needed: bool): seq<string> {
    if needed then [UNIFORMS] else []
  }

  function BufferParameters(needed: bool, slot: Option<nat>): seq<Parameter> {
    if needed then [Parameter(UniformBuffer, UNIFORMS, slot)] else []
  }

  /** What a helper function receives, in order of declaration. */
  function HelperParameters(src: Source, needs: Needs): seq<Parameter> {
    BufferParameters(HasPlain(src) && needs.uniforms, Wrappers.None)
      + (if src.fragment then Unbound(Texture, Picked(Textures(src), |Textures(src)|, needs.textures))
                              + Unbound(Sampler, Picked(src.samplers, |src.samplers|, needs.samplers)) else [])
  }

  /** What the entry function receives: everything, textures and samplers at numbered slots. */
  function EntryParameters(src: Source): seq<Parameter> {
    BufferParameters(HasPlain(src), Wrappers.Some(30))
      + (if src.fragment then Bound(Texture, Textures(src)) + Bound(Sampler, src.samplers) else [])
  }

  /** The uniform buffer is bound to slot 30, and textures and samplers are numbered by declaration. */
  lemma {:induction false} EntrySlots(src: Source)
    ensures forall p :: p in EntryParameters(src) && p.sort == UniformBuffer ==> p.slot == Wrappers.Some(30)
    ensures HasPlain(src) <==> Parameter(UniformBuffer, UNIFORMS, Wrappers.Some(30)) in EntryParameters(src)
    ensures forall p :: p in EntryParameters(src) && p.sort == Texture ==>
      p.slot.Some? && p.slot.value < |Textures(src)| && Textures(src)[p.slot.value] == p.name
    ensures forall p :: p in EntryParameters(src) && p.sort == Sampler ==>
      p.slot.Some? && p.slot.value < |src.samplers| && src.samplers[p.slot.value] == p.name
  {
    hide Textures, HasPlain;
    if HasPlain(src) {
      assert EntryParameters(src)[0] == Parameter(UniformBuffer, UNIFORMS, Wrappers.Some(30));
    }
  }

  function ParametersOf(src: Source, name: string, needs: Needs): seq<Parameter> {
    if name == "main" then EntryParameters(src) else HelperParameters(src, needs)
  }

  /** What a call passes, in order of first use. */
  function ArgumentNames(needs: Needs): seq<string> {
    BufferNames(needs.uniforms) + needs.textures + needs.samplers
  }

  function FunctionNames(src: Source, n: nat): seq<string>
    requires n <= |src.funcs|
  {
    if n == 0 then [] else FunctionNames(src, n - 1) + [src.funcs[n - 1].name]
  }

  // ---- The transpiler -----------------------------------------------------------------------------

  class OBSShader {
    const src: Source
    var functions: map<string, Needs>
    var functionsOrder: seq<string>

    constructor (src: Source)
      requires WellFormed(src)
      ensures this.src == src && functions == Analyzed(src, 0) && functionsOrder == []
    {
      this.src := src;
      functionsOrder := [];
      var empty: map<string, Needs> := map[];
      for i := 0 to |src.funcs|
        invariant forall name :: name in empty <==> exists k :: 0 <= k < i && src.funcs[k].name == name
        invariant forall name :: name in empty ==> empty[name] == NO_NEEDS
      {
        empty := empty[src.funcs[i].name := NO_NEEDS];
      }
      functions := empty;
      new;
      assert functions.Keys == Names(src);
    }

    method AnalyzeFunctions()
      requires WellFormed(src) && functions == Analyzed(src, 0) && functionsOrder == []
      modifies this
      ensures functions == Analyzed(src, |src.funcs|)
      ensures functionsOrder == FunctionNames(src, |src.funcs|)
    {
      hide NeedsOf;
      for i := 0 to |src.funcs|
        invariant functions == Analyzed(src, i)
        invariant functionsOrder == FunctionNames(src, i)
      {
        var needs := AnalyzeBody(i);
        functions := functions[src.funcs[i].name := needs];
        functionsOrder := functionsOrder + [src.funcs[i].name];
      }
    }

    method AnalyzeBody(i: nat) returns (needs: Needs)
      requires WellFormed(src) && i < |src.funcs| && functions == Analyzed(src, i)
      ensures needs == NeedsOf(src, Analyzed(src, i), i)
    {
      hide Scan, EndOf, IsTexture, IsPlain, EndsAt;
      var f := src.funcs[i];
      AnalyzedAt(src, i, i);
      var token, raw := AnalyzeFunction(src, functions, f.start, "}", functions[f.name]);
      EndsOnce(src.tokens, f.start, token, BodyEnd(src, i), "}");
      var textures := Unique(raw.textures);
      var samplers := Unique(raw.samplers);
      needs := Needs(raw.uniforms, textures, samplers);
    }

    /** The parameters a function gets besides its own. */
    method HiddenParameters(name: string) returns (params: seq<Parameter>)
      requires name in functions
      ensures params == ParametersOf(src, name, functions[name])
    {
      hide Textures, Picked, HasPlain, Bound, Unbound;
      var needs := functions[name];
      params := [];
      if HasPlain(src) {
        if name == "main" {
          params := params + [Parameter(UniformBuffer, UNIFORMS, Wrappers.Some(30))];
        } else if needs.uniforms {
          params := params + [Parameter(UniformBuffer, UNIFORMS, Wrappers.None)];
        }
      }
      ghost var slot := if name == "main" then Wrappers.Some(30) else Wrappers.None;
      assert params == BufferParameters(HasPlain(src) && (name == "main" || needs.uniforms), slot);
      if src.fragment {
        var textures := TextureParameters(name == "main", needs);
        var samplers := SamplerParameters(name == "main", needs);
        params := params + (textures + samplers);
      }
    }

    method TextureParameters(isMain: bool, needs: Needs) returns (params: seq<Parameter>)
      ensures params == if isMain then Bound(Texture, Textures(src))
                        else Unbound(Texture, Picked(Textures(src), |Textures(src)|, needs.textures))
    {
      hide IsTexture, Bound, Unbound, Picked;
      params := [];
      var textureId := 0;
      NothingPicked(needs.textures);
      for i := 0 to |src.uniforms|
        invariant isMain ==> textureId == |TextureNames(src, i)| && params == Bound(Texture, TextureNames(src, i))
        invariant !isMain ==>
          params == Unbound(Texture, Picked(TextureNames(src, i), |TextureNames(src, i)|, needs.textures))
      {
        var name := src.uniforms[i].name;
        if IsTexture(src, name) {
          ghost var before := TextureNames(src, i);
          PickedPrefix(before, name, needs.textures);
          BoundPush(Texture, before, name);
          UnboundPush(Texture, Picked(before, |before|, needs.textures), name);
          if isMain {
            params := params + [Parameter(Texture, name, Wrappers.Some(textureId))];
            textureId := textureId + 1;
          } else if name in needs.textures {
            params := params + [Parameter(Texture, name, Wrappers.None)];
          }
        }
      }
    }

    method SamplerParameters(isMain: bool, needs: Needs) returns (params: seq<Parameter>)
      ensures params == if isMain then Bound(Sampler, src.samplers)
                        else Unbound(Sampler, Picked(src.samplers, |src.samplers|, needs.samplers))
    {
      params := [];
      var samplerId := 0;
      for i := 0 to |src.samplers|
        invariant isMain ==> samplerId == i && params == Bound(Sampler, src.samplers[..i])
        invariant !isMain ==> params == Unbound(Sampler, Picked(src.samplers, i, needs.samplers))
      {
        var name := src.samplers[i];
        if isMain {
          params := params + [Parameter(Sampler, name, Wrappers.Some(samplerId))];
          samplerId := samplerId + 1;
        } else if name in needs.samplers {
          params := params + [Parameter(Sampler, name, Wrappers.None)];
        }
      }
      assert src.samplers[..|src.samplers|] == src.samplers;
    }

    /** The arguments a call to this function passes besides the written ones. */
    method GenerateAdditionalArguments(name: string) returns (args: seq<string>)
      requires WellFormed(src) && WellNamed(src) && functions == Analyzed(src, |src.funcs|)
      ensures args == if name in functions then ArgumentNames(functions[name]) else []
    {
      args := [];
      if name in functions {
        var function_ := functions[name];
        RecordedNeedsAreGlobal(src, name);
        hide *;
        if function_.uniforms {
          args := args + [UNIFORMS];
        }
        var textures := TextureArguments(function_.textures);
        var samplers := SamplerArguments(function_.samplers);
        args := args + textures + samplers;
        assert args == (if function_.uniforms then [UNIFORMS] else []) + function_.textures + function_.samplers;
        NamesOfArguments(function_);
      }
    }

    method TextureArguments(textures: seq<string>) returns (args: seq<string>)
      requires forall x :: x in textures ==> IsTexture(src, x)
      ensures args == textures
    {
      args := [];
      for i := 0 to |textures|
        invariant args == textures[..i]
      {
        if IsTexture(src, textures[i]) {
          args := args + [textures[i]];
        }
      }
    }

    method SamplerArguments(samplers: seq<string>) returns (args: seq<string>)
      requires WellNamed(src) && forall x :: x in samplers ==> x in src.samplers
      ensures args == samplers
    {
      args := [];
      for i := 0 to |samplers|
        invariant args == samplers[..i]
      {
        var hit := false;
        for j := 0 to |src.samplers|
          invariant hit <==> samplers[i] in src.samplers[..j]
          invariant args == if hit then samplers[..i + 1] else samplers[..i]
        {
          if src.samplers[j] == samplers[i] {
            args := args + [samplers[i]];
            hit := true;
          }
        }
        assert src.samplers[..|src.samplers|] == src.samplers;
      }
    }
  }

  lemma {:induction false} NothingPicked(wanted: seq<string>)
    ensures Bound(Texture, []) == [] && Unbound(Texture, Picked([], 0, wanted)) == []
  {}

  lemma {:induction false} BoundPush(sort: Sort, names: seq<string>, name: string)
    ensures |Bound(sort, names)| == |names|
    ensures Bound(sort, names + [name]) == Bound(sort, names) + [Parameter(sort, name, Wrappers.Some(|names|))]
  {}

  lemma {:induction false} UnboundPush(sort: Sort, names: seq<string>, name: string)
    ensures Unbound(sort, names + [name]) == Unbound(sort, names) + [Parameter(sort, name, Wrappers.None)]
  {}

  lemma {:induction false} PickedPrefix(order: seq<string>, name: string, wanted: seq<string>)
    ensures Picked(order + [name], |order + [name]|, wanted)
         == if name in wanted then Picked(order, |order|, wanted) + [name] else Picked(order, |order|, wanted)
  {
    PickedFront(order, order + [name], |order|, wanted);
  }

  lemma {:induction false} PickedFront(order: seq<string>, longer: seq<string>, n: nat, wanted: seq<string>)
    requires n <= |order| <= |longer| && longer[..|order|] == order
    ensures Picked(order, n, wanted) == Picked(longer, n, wanted)
  {
    if n > 0 {
      assert longer[n - 1] == longer[..|order|][n - 1];
      PickedFront(order, longer, n - 1, wanted);
    }
  }

  // ---- Recorded needs name global variables ----------------------------------------------------------

  lemma {:induction false} NeedsAreGlobal(src: Source, k: nat)
    requires WellFormed(src) && k < |src.funcs|
    ensures src.funcs[k].name in Analyzed(src, |src.funcs|)
    ensures
      var needs := Analyzed(src, |src.funcs|)[src.funcs[k].name];
      && (forall x :: x in needs.textures ==> IsTexture(src, x))
      && (forall x :: x in needs.samplers ==> src.fragment && x in src.samplers)
      && (needs.uniforms ==> HasPlain(src))
      && Distinct(needs.textures) && Distinct(needs.samplers)
  {
    AnalyzedAt(src, |src.funcs|, k);
    var needs := Analyzed(src, |src.funcs|)[src.funcs[k].name];
    forall x, sort | Has(needs, sort, x) ensures exists name :: IsUse(src, sort, x, name) {
      RecordedNeedsExactly(src, |src.funcs|, k, sort, x);
      UsesSomething(src, k, sort, x);
    }
    forall x | x in needs.textures ensures IsTexture(src, x) {
      assert Has(needs, Texture, x);
    }
    forall x | x in needs.samplers ensures src.fragment && x in src.samplers {
      assert Has(needs, Sampler, x);
    }
    if needs.uniforms {
      assert Has(needs, UniformBuffer, "");
    }
  }

  lemma {:induction false} NamesOfArguments(needs: Needs)
    ensures ArgumentNames(needs) == (if needs.uniforms then [UNIFORMS] else []) + needs.textures + needs.samplers
  {}

  lemma {:induction false} RecordedNeedsAreGlobal(src: Source, name: string)
    requires WellFormed(src) && name in Analyzed(src, |src.funcs|)
    ensures forall x :: x in Analyzed(src, |src.funcs|)[name].textures ==> IsTexture(src, x)
    ensures forall x :: x in Analyzed(src, |src.funcs|)[name].samplers ==> x in src.samplers
  {
    var k :| 0 <= k < |src.funcs| && src.funcs[k].name == name;
    NeedsAreGlobal(src, k);
  }

  lemma {:induction false} UsesSomething(src: Source, k: nat, sort: Sort, x: string)
    requires WellFormed(src) && k < |src.funcs| && UsesBackward(src, k, sort, x)
    ensures exists name :: IsUse(src, sort, x, name)
  {
    hide Mentions, IsUse, Descends, WellFormed;
    var path :| CallPath(src, path) && path[0] == k && Descends(path) && UsesAlong(src, path, sort, x);
    var name :| Mentions(src, path[|path| - 1], name) && IsUse(src, sort, x, name);
  }
}
