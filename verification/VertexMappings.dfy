/**
 From the semantics written in an effect to the sub-buffers its inputs read.

 Everything is said of the mapping strings of the entry function's parameters, such as NORMAL or
 TEXCOORD1, and of the arrays that are bound.
 */
module VertexMappings {
  import opened Wrappers
  import opened VertexInputs
  import opened VertexSlots
  import Numerals
  import Sets

  // ---- Mapping strings ------------------------------------------------------------------------------

  /** The mapping strings of the first n variables, structs opened up. */
  function Mappings(vars: seq<Var>, n: nat): seq<string>
    requires n <= |vars|
    decreases vars, n
  {
    if n == 0 then [] else Mappings(vars, n - 1) + MappingsOf(vars[n - 1])
  }

  function MappingsOf(v: Var): seq<string>
    decreases v, 0
  {
    match v
    case Mapped(mapping) => [mapping]
    case Nested(vars) => Mappings(vars, |vars|)
    case Other => []
  }

  /** The vertex number is made by the device, and no buffer is read for it. */
  function WithoutVertexId(mappings: seq<string>): seq<string> {
    if mappings == [] then []
    else
      var rest := WithoutVertexId(mappings[1..]);
      if mappings[0] == "VERTEXID" then rest else [mappings[0]] + rest
  }

  /** A known name, alone or with something that starts with a digit. */
  predicate IsKnownMapping(mapping: string) {
    exists k :: 0 <= k <= |mapping| && StartsKnown(mapping, k)
  }

  predicate StartsKnown(mapping: string, k: nat)
    requires k <= |mapping|
  {
    && mapping[..k] in ["POSITION", "NORMAL", "COLOR", "TANGENT", "TEXCOORD", "VERTEXID"]
    && (k == |mapping| || Numerals.IsDigit(mapping[k]))
  }

  predicate NoDigits(s: string) {
    forall i :: 0 <= i < |s| ==> !Numerals.IsDigit(s[i])
  }

  lemma {:induction false} KnownExactly(mapping: string)
    ensures IsKnownMapping(mapping) <==> SemanticInfo(mapping).Some?
  {
    var first := FirstDigit(mapping, 0);
    FirstDigitFound(mapping, 0);
    hide FirstDigit;
    if k :| 0 <= k <= |mapping| && StartsKnown(mapping, k) {
      assert NoDigits(mapping[..k]);
      assert forall i :: 0 <= i < k ==> mapping[i] == mapping[..k][i];
      assert first == k;
    }
    if SemanticInfo(mapping).Some? {
      assert StartsKnown(mapping, first);
    }
  }

  lemma {:induction false} FirstDigitFound(s: string, i: nat)
    requires i <= |s|
    ensures var k := FirstDigit(s, i);
      && (forall j :: i <= j < k ==> !Numerals.IsDigit(s[j]))
      && (k < |s| ==> Numerals.IsDigit(s[k]))
    decreases |s| - i
  {
    if i < |s| && !Numerals.IsDigit(s[i]) {
      FirstDigitFound(s, i + 1);
    }
  }

  /** The layout is built exactly if every mapping is known, and it has one input for each but the vertex number. */
  lemma {:induction false} InputsOfMappings(vars: seq<Var>, n: nat)
    requires n <= |vars|
    ensures Inputs(vars, n).Some? <==> forall m :: m in Mappings(vars, n) ==> IsKnownMapping(m)
    ensures Inputs(vars, n).Some? ==> Follows(Inputs(vars, n).value, WithoutVertexId(Mappings(vars, n)))
    decreases vars, n
  {
    hide IsKnownMapping, WithoutVertexId, Follows;
    if n == 0 {
      NothingFollows();
    } else {
      InputsOfMappings(vars, n - 1);
      InputsOfOne(vars[n - 1]);
      if Inputs(vars, n).Some? {
        FollowTogether(Inputs(vars, n - 1).value, InputsOf(vars[n - 1]).value,
                       Mappings(vars, n - 1), MappingsOf(vars[n - 1]));
      }
    }
  }

  lemma {:induction false} InputsOfOne(v: Var)
    ensures InputsOf(v).Some? <==> forall m :: m in MappingsOf(v) ==> IsKnownMapping(m)
    ensures InputsOf(v).Some? ==> Follows(InputsOf(v).value, WithoutVertexId(MappingsOf(v)))
    decreases v, 0
  {
    match v
    case Mapped(mapping) =>
      KnownExactly(mapping);
      VertexIdIsKnown();
      assert [mapping][1..] == [] && WithoutVertexId([]) == [];
      hide SemanticInfo, IsKnownMapping;
    case Nested(vars) => InputsOfMappings(vars, |vars|);
    case Other =>
  }

  lemma {:induction false} VertexIdIsKnown()
    ensures IsKnownMapping("VERTEXID")
  {
    assert "VERTEXID"[..8] == "VERTEXID";
    assert StartsKnown("VERTEXID", 8);
  }

  /** Each key is what its mapping reads as. */
  ghost predicate Follows(keys: seq<Key>, mappings: seq<string>) {
    && |keys| == |mappings|
    && forall i :: 0 <= i < |keys| ==> SemanticInfo(mappings[i]) == Some(keys[i])
  }

  lemma {:induction false} NothingFollows()
    ensures Follows([], WithoutVertexId([]))
  {}

  lemma {:induction false} FollowTogether(a: seq<Key>, b: seq<Key>, m: seq<string>, n: seq<string>)
    requires Follows(a, WithoutVertexId(m)) && Follows(b, WithoutVertexId(n))
    ensures Follows(a + b, WithoutVertexId(m + n))
  {
    WithoutTogether(m, n);
    hide SemanticInfo, WithoutVertexId;
  }

  lemma {:induction false} WithoutTogether(m: seq<string>, n: seq<string>)
    ensures WithoutVertexId(m + n) == WithoutVertexId(m) + WithoutVertexId(n)
  {
    if m == [] {
      assert m + n == n;
    } else {
      assert (m + n)[1..] == m[1..] + n;
      WithoutTogether(m[1..], n);
    }
  }

  // ---- What a mapping means -----------------------------------------------------------------------------

  datatype Source = Points | Normals | Colors | Tangents | Uv(index: nat)

  /** The name, with this index behind it or, for index 0, alone. */
  predicate Reads(mapping: string, name: string, index: nat) {
    mapping == name + Numerals.PrintNat(index) || (index == 0 && mapping == name)
  }

  /** The mapping asks for this sub-buffer. */
  predicate AsksFor(mapping: string, source: Source) {
    match source
    case Points => Reads(mapping, "POSITION", 0)
    case Normals => Reads(mapping, "NORMAL", 0)
    case Colors => Reads(mapping, "COLOR", 0)
    case Tangents => Reads(mapping, "TANGENT", 0)
    case Uv(index) => Reads(mapping, "TEXCOORD", index)
  }

  function KeyOf(source: Source): Key {
    match source
    case Points => POSITION
    case Normals => NORMAL
    case Colors => COLOR
    case Tangents => TANGENT
    case Uv(index) => Unit(index)
  }

  lemma {:induction false} AskedKey(mapping: string, source: Source)
    requires AsksFor(mapping, source)
    ensures SemanticInfo(mapping) == Some(KeyOf(source))
  {
    var name := match source
      case Points => "POSITION"
      case Normals => "NORMAL"
      case Colors => "COLOR"
      case Tangents => "TANGENT"
      case Uv(_) => "TEXCOORD";
    var index := if source.Uv? then source.index else 0;
    assert Reads(mapping, name, index);
    SemanticWithIndex(name, index);
    SemanticAlone(name);
  }

  // ---- A whole shader -----------------------------------------------------------------------------------

  /** The inputs ask for these sub-buffers, one each. */
  ghost predicate Asks(mappings: seq<string>, sources: seq<Source>) {
    |mappings| == |sources| && forall i :: 0 <= i < |mappings| ==> AsksFor(mappings[i], sources[i])
  }

  /** No sub-buffer twice, points among them, and no gap in the texture units. */
  predicate WellChosen(sources: seq<Source>) {
    && (forall i, j :: 0 <= i < j < |sources| ==> sources[i] != sources[j])
    && Points in sources
    && forall i, k :: 0 <= i < |sources| && sources[i].Uv? && 0 <= k < sources[i].index ==> Uv(k) in sources
  }

  predicate Has(vb: VertexBuffer, source: Source) {
    match source
    case Points => vb.points.Some?
    case Normals => vb.normals.Some?
    case Colors => vb.colors.Some?
    case Tangents => vb.tangents.Some?
    case Uv(index) => index < |vb.uvs|
  }

  predicate HasAll(vb: VertexBuffer, sources: seq<Source>) {
    forall i :: 0 <= i < |sources| ==> Has(vb, sources[i])
  }

  /** The sub-buffer: vectors take 16 bytes each and colors 4. */
  function Own(vb: VertexBuffer, source: Source): Binding
    requires Has(vb, source)
  {
    match source
    case Points => Binding(vb.points.value, 16)
    case Normals => Binding(vb.normals.value, 16)
    case Colors => Binding(vb.colors.value, 4)
    case Tangents => Binding(vb.tangents.value, 16)
    case Uv(index) => vb.uvs[index]
  }

  lemma {:induction false} OwnIsBufferFor(vb: VertexBuffer, source: Source)
    requires Has(vb, source)
    ensures BufferFor(vb, KeyOf(source)) == Some(Own(vb, source))
  {}

  ghost predicate KeysFollow(keys: seq<Key>, sources: seq<Source>) {
    |keys| == |sources| && forall i :: 0 <= i < |keys| ==> keys[i] == KeyOf(sources[i])
  }

  lemma {:induction false} AskedKeys(keys: seq<Key>, mappings: seq<string>, sources: seq<Source>)
    requires Follows(keys, mappings) && Asks(mappings, sources)
    ensures KeysFollow(keys, sources)
  {
    hide SemanticInfo, AsksFor;
    forall i | 0 <= i < |keys| ensures keys[i] == KeyOf(sources[i]) {
      AskedKey(mappings[i], sources[i]);
    }
  }

  lemma {:induction false} KeyAmong(keys: seq<Key>, sources: seq<Source>, source: Source)
    requires KeysFollow(keys, sources)
    ensures KeyOf(source) in keys <==> source in sources
  {
    if KeyOf(source) in keys {
      var i :| 0 <= i < |keys| && keys[i] == KeyOf(source);
      assert sources[i] == source;
    }
    if source in sources {
      var i :| 0 <= i < |sources| && sources[i] == source;
      assert keys[i] == KeyOf(source);
    }
  }

  lemma {:induction false} WellChosenKeys(keys: seq<Key>, sources: seq<Source>)
    requires KeysFollow(keys, sources) && WellChosen(sources)
    ensures Distinct(keys) && WellShaped(keys)
  {
    KeyAmong(keys, sources, Points);
    forall i | 0 <= i < |keys| ensures Reached(keys, keys[i]) {
      if sources[i].Uv? {
        forall k | 0 <= k < sources[i].index ensures Unit(k) in keys {
          KeyAmong(keys, sources, Uv(k));
        }
      }
    }
  }

  lemma {:induction false} SuppliesAsked(keys: seq<Key>, sources: seq<Source>, vb: VertexBuffer)
    requires KeysFollow(keys, sources) && WellChosen(sources) && HasAll(vb, sources)
    ensures Supplies(vb, ExpectedOf(keys, |keys|))
  {
    WellChosenKeys(keys, sources);
    FlagsAreMembership(keys);
    HasAmong(vb, sources, Points);
    KeyAmong(keys, sources, Normals);
    KeyAmong(keys, sources, Colors);
    KeyAmong(keys, sources, Tangents);
    HasAmong(vb, sources, Normals);
    HasAmong(vb, sources, Colors);
    HasAmong(vb, sources, Tangents);
    UnitsCountIndices(keys, |keys|);
    assert UnitIndices(keys, |keys|) <= Below(|vb.uvs|) by {
      forall k | k in UnitIndices(keys, |keys|) ensures k in Below(|vb.uvs|) {
        var i :| 0 <= i < |keys| && keys[i].semantic == "TEXCOORD" && keys[i].index == k;
        assert sources[i] == Uv(k) && Has(vb, sources[i]);
      }
    }
    Sets.SubsetIsNotLarger(UnitIndices(keys, |keys|), Below(|vb.uvs|));
  }

  lemma {:induction false} HasAmong(vb: VertexBuffer, sources: seq<Source>, source: Source)
    requires HasAll(vb, sources)
    ensures source in sources ==> Has(vb, source)
  {}

  /** Every input finds the sub-buffer it asks for at its slot. */
  ghost predicate FindsOwn(layout: Layout, sources: seq<Source>, vb: VertexBuffer, buffers: array<Option<nat>>,
                           strides: array<nat>, count: nat)
    reads buffers, strides
  {
    && |layout| == |sources| && HasAll(vb, sources) && count <= buffers.Length && count <= strides.Length
    && forall i :: 0 <= i < |layout| ==>
         && layout[i].slot < count
         && buffers[layout[i].slot] == Some(Own(vb, sources[i]).buffer)
         && strides[layout[i].slot] == Own(vb, sources[i]).stride
  }

  /**
   From the parameters of the entry function to the arrays that are bound: the inputs of any
   nesting get their slots, the buffers they need are counted, and a vertex buffer is listed.
   This works exactly if every mapping is known.  Whenever the mappings ask for well-chosen
   sub-buffers that the vertex buffer has, every input finds its own at its slot.
   */
  method SlotsAndBuffers(vars: seq<Var>, vb: VertexBuffer)
    returns (ok: bool, layout: Layout, e: Expected, buffers: array<Option<nat>>, strides: array<nat>, count: nat)
    ensures ok <==> forall m :: m in Mappings(vars, |vars|) ==> IsKnownMapping(m)
    ensures ok ==> |layout| == |WithoutVertexId(Mappings(vars, |vars|))|
    ensures ok ==> e == ExpectedOf(KeysOf(layout), |layout|) && (count == NumBuffersExpected(e) <==> Supplies(vb, e))
    ensures ok ==> forall sources :: Suits(WithoutVertexId(Mappings(vars, |vars|)), sources, vb) ==>
      FindsOwn(layout, sources, vb, buffers, strides, count) && count == NumBuffersExpected(e)
    ensures ok ==> Some(KeysOf(layout)) == Inputs(vars, |vars|)
    ensures ok && Distinct(KeysOf(layout)) && WellShaped(KeysOf(layout)) && Supplies(vb, e) ==>
      ReadsOwn(layout, vb, buffers, strides, count)
  {
    hide *;
    var processor := new ShaderProcessor();
    NothingYet();
    ok := processor.BuildInputLayoutFromVars(vars);
    layout, e, count := processor.layout, Expected(false, false, false, 0), 0;
    InputsOfMappings(vars, |vars|);
    if ok {
      assert [] + Inputs(vars, |vars|).value == Inputs(vars, |vars|).value;
      e := GetBuffersExpected(layout);
      FollowsLength(KeysOf(layout), WithoutVertexId(Mappings(vars, |vars|)));
    }
    buffers, strides := new Option<nat>[NumBuffersExpected(e)], new nat[NumBuffersExpected(e)];
    if ok {
      count := MakeBufferList(vb, e, buffers, strides);
      ListIsComplete(vb, e);
      if Distinct(KeysOf(layout)) && WellShaped(KeysOf(layout)) && Supplies(vb, e) {
        InputsReadTheirBuffers(layout, vb);
        ListInArrays(layout, vb, buffers, strides);
      }
      forall sources | Suits(WithoutVertexId(Mappings(vars, |vars|)), sources, vb)
        ensures FindsOwn(layout, sources, vb, buffers, strides, count) && count == NumBuffersExpected(e)
      {
        SuitsParts(WithoutVertexId(Mappings(vars, |vars|)), sources, vb);
        AskedKeys(KeysOf(layout), WithoutVertexId(Mappings(vars, |vars|)), sources);
        WellChosenKeys(KeysOf(layout), sources);
        SuppliesAsked(KeysOf(layout), sources, vb);
        InputsReadTheirBuffers(layout, vb);
        FoundInArrays(layout, sources, vb, buffers, strides);
      }
    }
  }

  /** The inputs ask for these sub-buffers, which are well chosen and all there. */
  ghost predicate Suits(mappings: seq<string>, sources: seq<Source>, vb: VertexBuffer) {
    Asks(mappings, sources) && WellChosen(sources) && HasAll(vb, sources)
  }

  lemma {:induction false} SuitsParts(mappings: seq<string>, sources: seq<Source>, vb: VertexBuffer)
    requires Suits(mappings, sources, vb)
    ensures Asks(mappings, sources) && WellChosen(sources) && HasAll(vb, sources)
  {}

  /** Every input's slot holds the sub-buffer that goes with its key. */
  ghost predicate ReadsOwn(layout: Layout, vb: VertexBuffer, buffers: array<Option<nat>>, strides: array<nat>, n: nat)
    reads buffers, strides
  {
    && n <= buffers.Length && n <= strides.Length
    && forall i :: 0 <= i < |layout| ==>
         && layout[i].slot < n && buffers[layout[i].slot].Some?
         && BufferFor(vb, layout[i].key) == Some(Binding(buffers[layout[i].slot].value, strides[layout[i].slot]))
  }

  lemma {:induction false} ListInArrays(layout: Layout, vb: VertexBuffer, buffers: array<Option<nat>>,
                                        strides: array<nat>)
    requires Holds(buffers, strides, BufferList(vb, ExpectedOf(KeysOf(layout), |layout|)))
    requires forall i :: 0 <= i < |layout| ==>
      var list := BufferList(vb, ExpectedOf(KeysOf(layout), |layout|));
      layout[i].slot < |list| && BufferFor(vb, layout[i].key) == Some(list[layout[i].slot])
    ensures ReadsOwn(layout, vb, buffers, strides, |BufferList(vb, ExpectedOf(KeysOf(layout), |layout|))|)
  {
    hide BufferList, ExpectedOf, BufferFor;
  }

  lemma {:induction false} NothingYet()
    ensures Untouched([]) && KeysOf([]) == []
  {}

  lemma {:induction false} FollowsLength(keys: seq<Key>, mappings: seq<string>)
    requires Follows(keys, mappings)
    ensures |keys| == |mappings|
  {}

  lemma {:induction false} FoundInArrays(layout: Layout, sources: seq<Source>, vb: VertexBuffer,
                                         buffers: array<Option<nat>>, strides: array<nat>)
    requires KeysFollow(KeysOf(layout), sources) && HasAll(vb, sources)
    requires Holds(buffers, strides, BufferList(vb, ExpectedOf(KeysOf(layout), |layout|)))
    requires forall i :: 0 <= i < |layout| ==>
      var list := BufferList(vb, ExpectedOf(KeysOf(layout), |layout|));
      layout[i].slot < |list| && BufferFor(vb, layout[i].key) == Some(list[layout[i].slot])
    ensures FindsOwn(layout, sources, vb, buffers, strides, |BufferList(vb, ExpectedOf(KeysOf(layout), |layout|))|)
  {
    hide BufferList, ExpectedOf, BufferFor, Own, Has;
    forall i | 0 <= i < |layout|
      ensures Has(vb, sources[i]) && BufferFor(vb, layout[i].key) == Some(Own(vb, sources[i]))
    {
      assert KeysOf(layout)[i] == layout[i].key;
      OwnIsBufferFor(vb, sources[i]);
    }
  }
}
