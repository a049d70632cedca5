/**
 Input slots against the list of vertex buffers.

 A vertex shader keeps four flags and a count of its inputs.  The vertex buffer lists its
 sub-buffers by them, skipping those it does not have.
 */
module VertexSlots {
  import opened Wrappers
  import opened VertexInputs
  import Sets

  // What a vertex shader expects of a vertex buffer besides points
  datatype Expected = Expected(normals: bool, colors: bool, tangents: bool, units: nat)

  datatype Binding = Binding(buffer: nat, stride: nat)

  datatype VertexBuffer = VertexBuffer(points: Option<nat>, normals: Option<nat>, colors: Option<nat>,
                                       tangents: Option<nat>, uvs: seq<Binding>)

  const SIZEOF_VEC3 := 16
  const SIZEOF_COLOR := 4

  // ---- What a shader expects --------------------------------------------------------------------

  function Units(keys: seq<Key>, n: nat): nat
    requires n <= |keys|
  {
    if n == 0 then 0 else Units(keys, n - 1) + One(keys[n - 1].semantic == "TEXCOORD")
  }

  predicate HasSemantic(keys: seq<Key>, n: nat, semantic: string)
    requires n <= |keys|
  {
    exists i :: 0 <= i < n && keys[i].semantic == semantic
  }

  function ExpectedOf(keys: seq<Key>, n: nat): Expected
    requires n <= |keys|
  {
    Expected(HasSemantic(keys, n, "NORMAL"), HasSemantic(keys, n, "COLOR"), HasSemantic(keys, n, "TANGENT"),
             Units(keys, n))
  }

  method GetBuffersExpected(inputs: Layout) returns (e: Expected)
    ensures e == ExpectedOf(KeysOf(inputs), |inputs|)
  {
    e := Expected(false, false, false, 0);
    ghost var keys := KeysOf(inputs);
    for i := 0 to |inputs|
      invariant e == ExpectedOf(keys, i)
    {
      var semantic := inputs[i].key.semantic;
      assert keys[i].semantic == semantic;
      if semantic == "NORMAL" {
        e := e.(normals := true);
      } else if semantic == "TANGENT" {
        e := e.(tangents := true);
      } else if semantic == "COLOR" {
        e := e.(colors := true);
      } else if semantic == "TEXCOORD" {
        e := e.(units := e.units + 1);
      }
    }
  }

  function NumBuffersExpected(e: Expected): nat {
    e.units + 1 + One(e.normals) + One(e.colors) + One(e.tangents)
  }

  // ---- The buffer list -----------------------------------------------------------------------------

  function Pushed(buffer: Option<nat>, stride: nat): seq<Binding> {
    if buffer.Some? then [Binding(buffer.value, stride)] else []
  }

  /** What the vertex buffer binds for this shader: points, normals, colors, tangents, then units. */
  function BufferList(vb: VertexBuffer, e: Expected): seq<Binding> {
    NamedBuffers(vb, e) + (if e.units <= |vb.uvs| then vb.uvs[..e.units] else [])
  }

  function NamedBuffers(vb: VertexBuffer, e: Expected): seq<Binding> {
    Pushed(vb.points, SIZEOF_VEC3)
      + (if e.normals then Pushed(vb.normals, SIZEOF_VEC3) else [])
      + (if e.colors then Pushed(vb.colors, SIZEOF_COLOR) else [])
      + (if e.tangents then Pushed(vb.tangents, SIZEOF_VEC3) else [])
  }

  /** The arrays hold these bindings in front. */
  ghost predicate Holds(buffers: array<Option<nat>>, strides: array<nat>, list: seq<Binding>)
    reads buffers, strides
  {
    && |list| <= buffers.Length && |list| <= strides.Length
    && forall i :: 0 <= i < |list| ==> buffers[i] == Some(list[i].buffer) && strides[i] == list[i].stride
  }

  method PushBuffer(numBuffers: nat, buffers: array<Option<nat>>, strides: array<nat>, buffer: Option<nat>,
                    elementSize: nat, ghost list: seq<Binding>) returns (count: nat)
    requires Holds(buffers, strides, list) && numBuffers == |list|
    requires numBuffers < buffers.Length && numBuffers < strides.Length
    modifies buffers, strides
    ensures Holds(buffers, strides, list + Pushed(buffer, elementSize))
    ensures count == |list + Pushed(buffer, elementSize)| <= |list| + 1
  {
    count := numBuffers;
    if buffer.Some? {
      buffers[numBuffers] := buffer;
      strides[numBuffers] := elementSize;
      count := numBuffers + 1;
    }
  }

  method MakeBufferList(vb: VertexBuffer, e: Expected, buffers: array<Option<nat>>, strides: array<nat>)
    returns (numBuffers: nat)
    requires NumBuffersExpected(e) <= buffers.Length && NumBuffersExpected(e) <= strides.Length
    modifies buffers, strides
    ensures Holds(buffers, strides, BufferList(vb, e)) && numBuffers == |BufferList(vb, e)|
  {
    hide Holds, Pushed;
    NothingHeld(buffers, strides);
    numBuffers := PushBuffer(0, buffers, strides, vb.points, SIZEOF_VEC3, []);
    ghost var points := Pushed(vb.points, SIZEOF_VEC3);
    assert [] + points == points;
    if e.normals {
      numBuffers := PushBuffer(numBuffers, buffers, strides, vb.normals, SIZEOF_VEC3, points);
    }
    ghost var normals := points + (if e.normals then Pushed(vb.normals, SIZEOF_VEC3) else []);
    assert e.normals || normals == points;
    if e.colors {
      numBuffers := PushBuffer(numBuffers, buffers, strides, vb.colors, SIZEOF_COLOR, normals);
    }
    ghost var colors := normals + (if e.colors then Pushed(vb.colors, SIZEOF_COLOR) else []);
    assert e.colors || colors == normals;
    if e.tangents {
      numBuffers := PushBuffer(numBuffers, buffers, strides, vb.tangents, SIZEOF_VEC3, colors);
    }
    ghost var named := colors + (if e.tangents then Pushed(vb.tangents, SIZEOF_VEC3) else []);
    assert e.tangents || named == colors;
    assert named == NamedBuffers(vb, e);
    if e.units <= |vb.uvs| {
      numBuffers := PushUnits(numBuffers, buffers, strides, vb.uvs[..e.units], named);
    } else {
      assert named + [] == named;
    }
  }

  lemma {:induction false} NothingHeld(buffers: array<Option<nat>>, strides: array<nat>)
    ensures Holds(buffers, strides, [])
  {}

  method PushUnits(first: nat, buffers: array<Option<nat>>, strides: array<nat>, units: seq<Binding>,
          ghost list: seq<Binding>)
    returns (numBuffers: nat)
    requires Holds(buffers, strides, list) && first == |list|
    requires first + |units| <= buffers.Length && first + |units| <= strides.Length
    modifies buffers, strides
    ensures Holds(buffers, strides, list + units) && numBuffers == |list + units|
  {
    numBuffers := first;
    for i := 0 to |units|
      invariant Holds(buffers, strides, list + units[..i]) && numBuffers == |list| + i
    {
      buffers[numBuffers] := Some(units[i].buffer);
      strides[numBuffers] := units[i].stride;
      numBuffers := numBuffers + 1;
    }
    assert units[..|units|] == units;
  }

  /** The vertex buffer has everything this shader expects. */
  predicate Supplies(vb: VertexBuffer, e: Expected) {
    && vb.points.Some?
    && (e.normals ==> vb.normals.Some?)
    && (e.colors ==> vb.colors.Some?)
    && (e.tangents ==> vb.tangents.Some?)
    && e.units <= |vb.uvs|
  }

  /** The list is as long as the shader expects exactly if nothing is missing. */
  lemma {:induction false} ListIsComplete(vb: VertexBuffer, e: Expected)
    ensures |BufferList(vb, e)| <= NumBuffersExpected(e)
    ensures |BufferList(vb, e)| == NumBuffersExpected(e) <==> Supplies(vb, e)
  {}

  // ---- Slots and places in the list ------------------------------------------------------------------

  /** The sub-buffer an input reads. */
  function BufferFor(vb: VertexBuffer, key: Key): Option<Binding> {
    if key == POSITION && vb.points.Some? then Some(Binding(vb.points.value, SIZEOF_VEC3))
    else if key == NORMAL && vb.normals.Some? then Some(Binding(vb.normals.value, SIZEOF_VEC3))
    else if key == COLOR && vb.colors.Some? then Some(Binding(vb.colors.value, SIZEOF_COLOR))
    else if key == TANGENT && vb.tangents.Some? then Some(Binding(vb.tangents.value, SIZEOF_VEC3))
    else if key.semantic == "TEXCOORD" && key.index < |vb.uvs| then Some(vb.uvs[key.index])
    else None
  }

  /** The inputs a complete list serves, place by place. */
  function Served(e: Expected): (keys: seq<Key>)
    ensures |keys| == NumBuffersExpected(e)
  {
    [POSITION] + (if e.normals then [NORMAL] else []) + (if e.colors then [COLOR] else [])
      + (if e.tangents then [TANGENT] else []) + seq(e.units, i requires 0 <= i < e.units => Unit(i))
  }

  lemma {:induction false} ServedByList(vb: VertexBuffer, e: Expected, slot: nat)
    requires Supplies(vb, e) && slot < NumBuffersExpected(e)
    ensures |BufferList(vb, e)| == NumBuffersExpected(e)
    ensures BufferFor(vb, Served(e)[slot]) == Some(BufferList(vb, e)[slot])
  {
    ListIsComplete(vb, e);
  }

  /** Every input's slot is a place in the list that serves it. */
  predicate SlotsAgree(keys: seq<Key>) {
    var served := Served(ExpectedOf(keys, |keys|));
    forall i :: 0 <= i < |keys| ==> SlotOf(keys, keys[i]) < |served| && served[SlotOf(keys, keys[i])] == keys[i]
  }

  /** Points are there if anything is, the named inputs have index 0, and the units have no gap. */
  predicate WellShaped(keys: seq<Key>) {
    && (keys == [] || POSITION in keys)
    && forall i :: 0 <= i < |keys| ==> Reached(keys, keys[i])
  }

  // ---- Counting texture units ---------------------------------------------------------------------------

  ghost function UnitIndices(keys: seq<Key>, n: nat): set<nat>
    requires n <= |keys|
  {
    set i | 0 <= i < n && keys[i].semantic == "TEXCOORD" :: keys[i].index
  }

  lemma {:induction false} UnitsCountIndices(keys: seq<Key>, n: nat)
    requires n <= |keys| && Distinct(keys)
    ensures |UnitIndices(keys, n)| == Units(keys, n)
  {
    if n > 0 {
      UnitsCountIndices(keys, n - 1);
      var before, key := UnitIndices(keys, n - 1), keys[n - 1];
      if key.semantic == "TEXCOORD" {
        assert key.index !in before;
        assert UnitIndices(keys, n) == before + {key.index};
      } else {
        assert UnitIndices(keys, n) == before;
      }
    }
  }

  function Below(n: nat): (s: set<nat>)
    ensures forall k: nat :: k in s <==> k < n
    ensures |s| == n
  {
    if n == 0 then {} else Below(n - 1) + {n - 1}
  }

  lemma {:induction false} NoGapNoRoom(s: set<nat>, k: nat)
    requires k in s && forall i, j :: 0 <= i < j && j in s ==> i in s
    ensures k < |s|
  {
    assert Below(k + 1) <= s;
    Sets.SubsetIsNotLarger(Below(k + 1), s);
  }

  /** Without gaps there are more units than any of their indices. */
  lemma {:induction false} UnitsExceedIndices(keys: seq<Key>, index: nat)
    requires Distinct(keys) && WellShaped(keys) && Unit(index) in keys
    ensures index < Units(keys, |keys|)
  {
    var s := UnitIndices(keys, |keys|);
    forall i, j | 0 <= i < j && j in s ensures i in s {
      var k :| 0 <= k < |keys| && keys[k].semantic == "TEXCOORD" && keys[k].index == j;
      assert Reached(keys, keys[k]);
      assert Unit(i) in keys;
    }
    UnitsCountIndices(keys, |keys|);
    NoGapNoRoom(s, index);
  }

  // ---- When slots agree ---------------------------------------------------------------------------------

  function PlaceOf(e: Expected, key: Key): Option<nat> {
    if key == POSITION then Some(0)
    else if key == NORMAL && e.normals then Some(1)
    else if key == COLOR && e.colors then Some(1 + One(e.normals))
    else if key == TANGENT && e.tangents then Some(1 + One(e.normals) + One(e.colors))
    else if key.semantic == "TEXCOORD" && key.index < e.units then
      Some(1 + One(e.normals) + One(e.colors) + One(e.tangents) + key.index)
    else None
  }

  lemma {:induction false} ServedAt(e: Expected, key: Key, slot: nat)
    ensures slot < |Served(e)| && Served(e)[slot] == key <==> PlaceOf(e, key) == Some(slot)
  {}

  /** When only reached inputs are declared, the flags say which named ones are. */
  lemma {:induction false} FlagsAreMembership(keys: seq<Key>)
    requires forall i :: 0 <= i < |keys| ==> Reached(keys, keys[i])
    ensures ExpectedOf(keys, |keys|) == Expected(NORMAL in keys, COLOR in keys, TANGENT in keys, Units(keys, |keys|))
  {
    forall key | key in [NORMAL, COLOR, TANGENT] ensures HasSemantic(keys, |keys|, key.semantic) <==> key in keys {
      if HasSemantic(keys, |keys|, key.semantic) {
        var i :| 0 <= i < |keys| && keys[i].semantic == key.semantic;
        assert Reached(keys, keys[i]);
        assert keys[i] == key;
      }
    }
    assert NORMAL in [NORMAL, COLOR, TANGENT] && COLOR in [NORMAL, COLOR, TANGENT];
    assert TANGENT in [NORMAL, COLOR, TANGENT];
  }

  /** The slots are the places of the buffers exactly for well-shaped inputs. */
  lemma {:induction false} SlotsAgreeExactly(keys: seq<Key>)
    requires Distinct(keys)
    ensures SlotsAgree(keys) <==> WellShaped(keys)
  {
    if WellShaped(keys) {
      WellShapedAgrees(keys);
    }
    if SlotsAgree(keys) {
      AgreeingIsWellShaped(keys);
    }
  }

  lemma {:induction false} WellShapedAgrees(keys: seq<Key>)
    requires Distinct(keys) && WellShaped(keys)
    ensures SlotsAgree(keys)
  {
    hide Served, ExpectedOf, Reached, PlaceOf, SlotOf;
    forall i | 0 <= i < |keys|
      ensures SlotOf(keys, keys[i]) < |Served(ExpectedOf(keys, |keys|))|
      ensures Served(ExpectedOf(keys, |keys|))[SlotOf(keys, keys[i])] == keys[i]
    {
      SlotIsPlace(keys, keys[i]);
      ServedAt(ExpectedOf(keys, |keys|), keys[i], SlotOf(keys, keys[i]));
    }
  }

  lemma {:induction false} SlotIsPlace(keys: seq<Key>, key: Key)
    requires Distinct(keys) && WellShaped(keys) && key in keys
    ensures PlaceOf(ExpectedOf(keys, |keys|), key) == Some(SlotOf(keys, key))
  {
    FlagsAreMembership(keys);
    assert Reached(keys, key);
    if key.semantic == "TEXCOORD" {
      assert key == Unit(key.index);
      UnitsExceedIndices(keys, key.index);
    }
    hide ExpectedOf, Distinct;
  }

  lemma {:induction false} AgreeingIsWellShaped(keys: seq<Key>)
    requires Distinct(keys) && SlotsAgree(keys)
    ensures WellShaped(keys)
  {
    hide Served;
    var e := ExpectedOf(keys, |keys|);
    forall i | 0 <= i < |keys| ensures Reached(keys, keys[i]) && PlaceOf(e, keys[i]) == Some(SlotOf(keys, keys[i])) {
      ServedAt(e, keys[i], SlotOf(keys, keys[i]));
      if SlotOf(keys, keys[i]) == 0 {
        ServedAt(e, POSITION, 0);
      }
    }
    FlagsAreMembership(keys);
    assert keys == [] || PlaceOf(e, keys[0]) == Some(SlotOf(keys, keys[0]));
  }

  /**
   A well-shaped layout read from a vertex buffer that supplies it: every input reads its own
   sub-buffer, and the list is as long as expected.
   */
  lemma {:induction false} InputsReadTheirBuffers(layout: Layout, vb: VertexBuffer)
    requires Distinct(KeysOf(layout)) && WellShaped(KeysOf(layout)) && Slotted(layout)
    requires Supplies(vb, ExpectedOf(KeysOf(layout), |layout|))
    ensures |BufferList(vb, ExpectedOf(KeysOf(layout), |layout|))|
         == NumBuffersExpected(ExpectedOf(KeysOf(layout), |layout|))
    ensures forall i :: 0 <= i < |layout| ==>
      var list := BufferList(vb, ExpectedOf(KeysOf(layout), |layout|));
      layout[i].slot < |list| && BufferFor(vb, layout[i].key) == Some(list[layout[i].slot])
  {
    var keys := KeysOf(layout);
    var e := ExpectedOf(keys, |keys|);
    WellShapedAgrees(keys);
    ListIsComplete(vb, e);
    hide Served, BufferList, BufferFor, SlotOf, ExpectedOf;
    forall i | 0 <= i < |layout|
      ensures layout[i].slot < |BufferList(vb, e)|
      ensures BufferFor(vb, layout[i].key) == Some(BufferList(vb, e)[layout[i].slot])
    {
      assert keys[i] == layout[i].key;
      ServedByList(vb, e, layout[i].slot);
    }
  }
}
