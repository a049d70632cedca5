/**
 The vertex input layout of a shader.

 The parameters of the entry function are flattened into a layout, and after every list of
 parameters one pass hands out input slots.  Every input ends with its rank in the order of the
 vertex buffer's sub-buffers, or with slot 0 if no pass reaches it.
 */
module VertexInputs {
  import opened Wrappers
  import Numerals

  // A parameter or struct member: bound to a semantic, of a struct type, or neither
  datatype Var = Mapped(mapping: string) | Nested(vars: seq<Var>) | Other

  datatype Key = Key(semantic: string, index: nat)

  datatype Element = Element(key: Key, slot: nat)

  type Layout = seq<Element>

  const POSITION := Key("SV_Position", 0)
  const NORMAL := Key("NORMAL", 0)
  const COLOR := Key("COLOR", 0)
  const TANGENT := Key("TANGENT", 0)

  function Unit(index: nat): Key {
    Key("TEXCOORD", index)
  }

  function KeysOf(layout: Layout): (keys: seq<Key>)
    ensures |keys| == |layout| && forall i :: 0 <= i < |layout| ==> keys[i] == layout[i].key
  {
    seq(|layout|, i requires 0 <= i < |layout| => layout[i].key)
  }

  // ---- Semantics ----------------------------------------------------------------------------

  function ConvertSemanticName(name: string): Option<string> {
    if name == "POSITION" then Some("SV_Position")
    else if name in ["NORMAL", "COLOR", "TANGENT", "TEXCOORD", "VERTEXID"] then Some(name)
    else None
  }

  function FirstDigit(s: string, i: nat): (k: nat)
    requires i <= |s|
    ensures i <= k <= |s|
    decreases |s| - i
  {
    if i == |s| || Numerals.IsDigit(s[i]) then i else FirstDigit(s, i + 1)
  }

  /** A semantic name, then an index which may be missing. */
  function SemanticInfo(mapping: string): Option<Key> {
    var k := FirstDigit(mapping, 0);
    var index := mapping[k..];
    match ConvertSemanticName(mapping[..k])
    case None => None
    case Some(name) => Some(Key(name, Numerals.WholePart(index, Numerals.DigitsEnd(index, 0))))
  }

  lemma {:induction false} FirstDigitIs(s: string, i: nat, k: nat)
    requires i <= k < |s| && Numerals.IsDigit(s[k]) && forall j :: i <= j < k ==> !Numerals.IsDigit(s[j])
    ensures FirstDigit(s, i) == k
    decreases k - i
  {
    if i < k {
      FirstDigitIs(s, i + 1, k);
    }
  }

  const KNOWN_NAMES := ["POSITION", "NORMAL", "COLOR", "TANGENT", "TEXCOORD", "VERTEXID"]

  /** A known name followed by a written index is read as that name and index; positions get another name. */
  lemma {:induction false} SemanticWithIndex(name: string, index: nat)
    requires name in KNOWN_NAMES
    ensures SemanticInfo(name + Numerals.PrintNat(index))
         == Some(Key(if name == "POSITION" then "SV_Position" else name, index))
  {
    var digits := Numerals.PrintNat(index);
    var mapping := name + digits;
    assert forall j :: 0 <= j < |name| ==> !Numerals.IsDigit(name[j]);
    FirstDigitIs(mapping, 0, |name|);
    assert mapping[..|name|] == name && mapping[|name|..] == digits;
    Numerals.DigitsEndIs(digits, 0);
    Numerals.WholePartOfPrinted(index);
  }

  /** A known name alone has index 0. */
  lemma {:induction false} SemanticAlone(name: string)
    requires name in KNOWN_NAMES
    ensures SemanticInfo(name) == Some(Key(if name == "POSITION" then "SV_Position" else name, 0))
  {
    assert forall j :: 0 <= j < |name| ==> !Numerals.IsDigit(name[j]);
    NoDigitFound(name, 0);
    assert name[..|name|] == name && name[|name|..] == "";
    hide FirstDigit;
  }

  lemma {:induction false} NoDigitFound(s: string, i: nat)
    requires i <= |s| && forall j :: 0 <= j < |s| ==> !Numerals.IsDigit(s[j])
    ensures FirstDigit(s, i) == |s|
    decreases |s| - i
  {
    if i < |s| {
      NoDigitFound(s, i + 1);
    }
  }

  // ---- The flattened inputs -----------------------------------------------------------------

  /** The inputs of the first n variables, nested structs opened up; None if a name is unknown. */
  function Inputs(vars: seq<Var>, n: nat): Option<seq<Key>>
    requires n <= |vars|
    decreases vars, n
  {
    if n == 0 then Some([])
    else
      match Inputs(vars, n - 1)
      case None => None
      case Some(before) =>
        var more := InputsOf(vars[n - 1]);
        if more.None? then None else Some(before + more.value)
  }

  function InputsOf(v: Var): Option<seq<Key>>
    decreases v, 0
  {
    match v
    case Mapped(mapping) =>
      if mapping == "VERTEXID" then Some([])
      else
        var key := SemanticInfo(mapping);
        if key.None? then None else Some([key.value])
    case Nested(vars) => Inputs(vars, |vars|)
    case Other => Some([])
  }

  // ---- Slots ----------------------------------------------------------------------------------

  function One(b: bool): nat {
    if b then 1 else 0
  }

  predicate AllUnits(keys: seq<Key>, n: nat) {
    forall i :: 0 <= i < n ==> Unit(i) in keys
  }

  /** The slot of an input among these: its rank in buffer order, or 0 if none is handed out. */
  function SlotOf(keys: seq<Key>, key: Key): nat {
    var normals, colors, tangents := One(NORMAL in keys), One(COLOR in keys), One(TANGENT in keys);
    var points := One(POSITION in keys);
    if key == POSITION then 0
    else if key == NORMAL then points
    else if key == COLOR then points + normals
    else if key == TANGENT then points + normals + colors
    else if key.semantic == "TEXCOORD" && AllUnits(keys, key.index)
      then points + normals + colors + tangents + key.index
    else 0
  }

  ghost predicate Slotted(layout: Layout) {
    forall i :: 0 <= i < |layout| ==> layout[i].slot == SlotOf(KeysOf(layout), layout[i].key)
  }

  /** No input is declared twice, which the compiler of the shader refuses. */
  predicate Distinct(keys: seq<Key>) {
    forall i, j :: 0 <= i < j < |keys| ==> keys[i] != keys[j]
  }

  /** A pass over the layout hands out a slot to this input. */
  predicate Reached(keys: seq<Key>, key: Key) {
    key in [POSITION, NORMAL, COLOR, TANGENT] || (key.semantic == "TEXCOORD" && AllUnits(keys, key.index))
  }

  /** Inputs that no pass reaches still have slot 0. */
  ghost predicate Untouched(layout: Layout) {
    forall i :: 0 <= i < |layout| ==> layout[i].slot == 0 || Reached(KeysOf(layout), layout[i].key)
  }

  class ShaderProcessor {
    var layout: Layout

    constructor ()
      ensures layout == []
    {
      layout := [];
    }

    method SetSlot(key: Key, slotIdx: nat) returns (found: bool, next: nat)
      modifies this
      ensures KeysOf(layout) == old(KeysOf(layout))
      ensures found <==> key in KeysOf(layout)
      ensures next == if found then slotIdx + 1 else slotIdx
      ensures forall i :: 0 <= i < |layout| ==> layout[i] == old(layout)[i] || layout[i] == Element(key, slotIdx)
      ensures forall i :: 0 <= i < |layout| && layout[i].key != key ==> layout[i] == old(layout)[i]
      ensures Distinct(KeysOf(layout)) ==>
        forall i :: 0 <= i < |layout| && layout[i].key == key ==> layout[i].slot == slotIdx
    {
      for i := 0 to |layout|
        invariant layout == old(layout)
        invariant forall j :: 0 <= j < i ==> layout[j].key != key
      {
        if layout[i].key == key {
          layout := layout[i := layout[i].(slot := slotIdx)];
          assert KeysOf(layout)[i] == key;
          return true, slotIdx + 1;
        }
      }
      return false, slotIdx;
    }

    /** One pass over the layout, in the order of the vertex buffer's sub-buffers. */
    method AssignSlots()
      requires Untouched(layout)
      modifies this
      ensures KeysOf(layout) == old(KeysOf(layout)) && Untouched(layout)
      ensures Distinct(KeysOf(layout)) ==> Slotted(layout)
    {
      hide Untouched, Slotted, HeadSlotted, UnitsSlotted;
      var slot := AssignHead();
      AssignUnits(slot);
      if Distinct(KeysOf(layout)) {
        AllSlotted(layout);
      }
    }

    method AssignHead() returns (slot: nat)
      requires Untouched(layout)
      modifies this
      ensures KeysOf(layout) == old(KeysOf(layout)) && Untouched(layout)
      ensures slot == Base(KeysOf(layout))
      ensures Distinct(KeysOf(layout)) ==> HeadSlotted(layout)
    {
      ghost var keys := KeysOf(layout);
      var found;
      found, slot := SetSlot(POSITION, 0);
      found, slot := SetSlot(NORMAL, slot);
      found, slot := SetSlot(COLOR, slot);
      found, slot := SetSlot(TANGENT, slot);
    }

    method AssignUnits(first: nat)
      requires Untouched(layout) && first == Base(KeysOf(layout))
      modifies this
      ensures KeysOf(layout) == old(KeysOf(layout)) && Untouched(layout)
      ensures Distinct(KeysOf(layout)) && old(HeadSlotted(layout)) ==> HeadSlotted(layout)
      ensures Distinct(KeysOf(layout)) ==> exists n :: UnitsSlotted(layout, n) && Unit(n) !in KeysOf(layout)
    {
      hide Untouched, HeadSlotted, Distinct, Base;
      ghost var keys := KeysOf(layout);
      ghost var left := set key | key in keys;
      var index, slot, more := 0, first, true;
      while more
        invariant KeysOf(layout) == keys && Untouched(layout)
        invariant AllUnits(keys, index) && slot == first + index
        invariant Distinct(keys) && old(HeadSlotted(layout)) ==> HeadSlotted(layout)
        invariant Distinct(keys) ==> UnitsSlotted(layout, index)
        invariant forall k: nat :: k >= index && Unit(k) in keys ==> Unit(k) in left
        invariant !more ==> Unit(index) !in keys
        decreases more, |left|
      {
        more, slot := SetUnit(index, slot);
        if more {
          left := left - {Unit(index)};
          index := index + 1;
        }
      }
    }

    /** One step of the loop over texture units. */
    method SetUnit(index: nat, slotIdx: nat) returns (found: bool, next: nat)
      requires Untouched(layout) && AllUnits(KeysOf(layout), index) && slotIdx == Base(KeysOf(layout)) + index
      modifies this
      ensures KeysOf(layout) == old(KeysOf(layout)) && Untouched(layout)
      ensures found <==> Unit(index) in KeysOf(layout)
      ensures next == if found then slotIdx + 1 else slotIdx
      ensures Distinct(KeysOf(layout)) && old(HeadSlotted(layout)) ==> HeadSlotted(layout)
      ensures Distinct(KeysOf(layout)) && old(UnitsSlotted(layout, index)) ==>
        UnitsSlotted(layout, if found then index + 1 else index)
    {
      hide SlotOf, Base;
      found, next := SetSlot(Unit(index), slotIdx);
    }

    method BuildInputLayoutFromVars(vars: seq<Var>) returns (ok: bool)
      requires Untouched(layout)
      modifies this
      ensures ok <==> Inputs(vars, |vars|).Some?
      ensures ok ==> KeysOf(layout) == old(KeysOf(layout)) + Inputs(vars, |vars|).value
      ensures Untouched(layout)
      ensures ok && Distinct(KeysOf(layout)) ==> Slotted(layout)
      decreases vars
    {
      hide Untouched, Slotted, SemanticInfo;
      ghost var keys := KeysOf(layout);
      for i := 0 to |vars|
        invariant Inputs(vars, i).Some? && KeysOf(layout) == keys + Inputs(vars, i).value
        invariant Untouched(layout)
      {
        match vars[i] {
          case Mapped(mapping) =>
            if mapping != "VERTEXID" {
              var key := SemanticInfo(mapping);
              if key.None? {
                FailsOnce(vars, i);
                return false;
              }
              UntouchedPush(layout, key.value);
              layout := layout + [Element(key.value, 0)];
            }
          case Nested(members) =>
            var nested := BuildInputLayoutFromVars(members);
            if !nested {
              FailsOnce(vars, i);
              return false;
            }
          case Other =>
        }
      }
      AssignSlots();
      return true;
    }
  }

  /** The first slot behind the four named buffers. */
  function Base(keys: seq<Key>): nat {
    One(POSITION in keys) + One(NORMAL in keys) + One(COLOR in keys) + One(TANGENT in keys)
  }

  ghost predicate HeadSlotted(layout: Layout) {
    forall i :: 0 <= i < |layout| && layout[i].key in [POSITION, NORMAL, COLOR, TANGENT] ==>
      layout[i].slot == SlotOf(KeysOf(layout), layout[i].key)
  }

  ghost predicate UnitsSlotted(layout: Layout, n: nat) {
    && AllUnits(KeysOf(layout), n)
    && forall i :: 0 <= i < |layout| && layout[i].key.semantic == "TEXCOORD" && layout[i].key.index < n ==>
         layout[i].slot == Base(KeysOf(layout)) + layout[i].key.index
  }

  lemma {:induction false} AllSlotted(layout: Layout)
    requires Untouched(layout) && HeadSlotted(layout)
    requires exists n :: UnitsSlotted(layout, n) && Unit(n) !in KeysOf(layout)
    ensures Slotted(layout)
  {
    var n :| UnitsSlotted(layout, n) && Unit(n) !in KeysOf(layout);
    forall i | 0 <= i < |layout| ensures layout[i].slot == SlotOf(KeysOf(layout), layout[i].key) {
      var key := layout[i].key;
      assert KeysOf(layout)[i] == key;
      if key.semantic == "TEXCOORD" && key.index >= n {
        assert key != Unit(n);
        assert !AllUnits(KeysOf(layout), key.index);
      }
    }
  }

  lemma {:induction false} UntouchedPush(layout: Layout, key: Key)
    requires Untouched(layout)
    ensures Untouched(layout + [Element(key, 0)])
    ensures KeysOf(layout + [Element(key, 0)]) == KeysOf(layout) + [key]
  {
    var longer := layout + [Element(key, 0)];
    assert KeysOf(longer) == KeysOf(layout) + [key];
    forall i | 0 <= i < |longer| ensures longer[i].slot == 0 || Reached(KeysOf(longer), longer[i].key) {
      if i < |layout| && layout[i].slot != 0 {
        assert Reached(KeysOf(layout), layout[i].key);
      }
    }
  }

  lemma {:induction false} FailsOnce(vars: seq<Var>, i: nat)
    requires i < |vars| && InputsOf(vars[i]).None?
    ensures Inputs(vars, |vars|).None?
  {
    FailsFrom(vars, i, |vars|);
  }

  lemma {:induction false} FailsFrom(vars: seq<Var>, i: nat, n: nat)
    requires i < n <= |vars| && InputsOf(vars[i]).None?
    ensures Inputs(vars, n).None?
  {
    if n > i + 1 {
      FailsFrom(vars, i, n - 1);
    }
  }
}
