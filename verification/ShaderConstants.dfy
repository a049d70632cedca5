/**
 The constant buffer of a D3D11 shader.

 A setter stores a value and raises that parameter's flag; an upload assembles all values
 and copies them to the GPU only if some flag was raised.  An upload may throw half way,
 after some flags are already cleared.  The reference keeps values only and always copies.
 */
module ShaderConstants {
  import opened ConstantLayout

  type byte = bv8

  // the parameters of one shader: type, default value and place in the buffer
  datatype Param = Param(shape: Shape, default: seq<byte>, pos: nat)

  // one value per parameter, empty until it is set
  type Values = seq<seq<byte>>

  function Padded(data: seq<byte>, pos: nat): (r: seq<byte>)
    ensures data <= r && |r| == if pos > |data| then pos else |data|
  {
    if pos > |data| then data + seq(pos - |data|, _ => 0) else data
  }

  /** The bytes the values of the first n parameters stand for. */
  function Assemble(params: seq<Param>, values: Values, n: nat): seq<byte>
    requires n <= |params| == |values|
  {
    if n == 0 then []
    else
      var data := Assemble(params, values, n - 1);
      if params[n - 1].shape.ty.Texture? then data
      else Padded(data, params[n - 1].pos) + values[n - 1]
  }

  /** Exactly the states in which an upload does not throw. */
  predicate Uploadable(params: seq<Param>, values: Values, size: nat)
    requires |params| == |values|
  {
    && (forall i :: 0 <= i < |params| ==> params[i].shape.ty.Texture? || values[i] != [])
    && |Assemble(params, values, |params|)| == size
  }

  // ---- Where the values land -----------------------------------------------------------

  ghost predicate PlacedByLayout(params: seq<Param>, shapes: seq<Shape>) {
    && |params| == |shapes|
    && (forall i :: 0 <= i < |params| ==> params[i].shape == shapes[i])
    && (forall i :: 0 <= i < |params| && IsConstant(shapes[i]) ==> params[i].pos == Position(shapes, i))
  }

  ghost predicate DeclaredSizes(shapes: seq<Shape>, values: Values) {
    && |values| == |shapes|
    && forall i :: 0 <= i < |shapes| ==>
         shapes[i].ty.Texture? || (IsConstant(shapes[i]) && |values[i]| == Size(shapes[i]))
  }

  lemma {:induction false} DeclaredValuesFill(params: seq<Param>, shapes: seq<Shape>, values: Values, n: nat)
    requires PlacedByLayout(params, shapes) && DeclaredSizes(shapes, values) && n <= |params|
    ensures |Assemble(params, values, n)| == PackedSize(shapes, n)
  {
    if n > 0 {
      DeclaredValuesFill(params, shapes, values, n - 1);
      if !shapes[n - 1].ty.Texture? {
        SizePositive(shapes[n - 1]);
        PlaceIsFirst(PackedSize(shapes, n - 1), Size(shapes[n - 1]));
      }
    }
  }

  /** Values of their declared size can be uploaded: they fill the buffer exactly ... */
  lemma {:induction false} DeclaredValuesAreUploadable(params: seq<Param>, shapes: seq<Shape>, values: Values)
    requires PlacedByLayout(params, shapes) && DeclaredSizes(shapes, values)
    ensures Uploadable(params, values, PackedSize(shapes, |shapes|))
  {
    DeclaredValuesFill(params, shapes, values, |params|);
    forall i | 0 <= i < |params| ensures params[i].shape.ty.Texture? || values[i] != [] {
      if !shapes[i].ty.Texture? {
        SizePositive(shapes[i]);
      }
    }
  }

  /** ... and each lands exactly at the position the layout gave it. */
  lemma {:induction false} ValueLandsAtItsPosition(params: seq<Param>, shapes: seq<Shape>, values: Values, n: nat,
          i: nat)
    requires PlacedByLayout(params, shapes) && DeclaredSizes(shapes, values)
    requires i < n <= |params| && !shapes[i].ty.Texture?
    ensures params[i].pos + |values[i]| <= |Assemble(params, values, n)|
    ensures Assemble(params, values, n)[params[i].pos..params[i].pos + |values[i]|] == values[i]
  {
    hide Assemble, PackedSize, Position;
    if i < n - 1 {
      ValueLandsAtItsPosition(params, shapes, values, n - 1, i);
      AssembleExtends(params, values, n);
    } else {
      LastLands(params, shapes, values, i);
    }
  }

  lemma {:induction false} AssembleExtends(params: seq<Param>, values: Values, n: nat)
    requires 0 < n <= |params| == |values|
    ensures Assemble(params, values, n - 1) <= Assemble(params, values, n)
  {}

  lemma {:induction false} LastLands(params: seq<Param>, shapes: seq<Shape>, values: Values, i: nat)
    requires PlacedByLayout(params, shapes) && DeclaredSizes(shapes, values)
    requires i < |params| && !shapes[i].ty.Texture?
    ensures |Assemble(params, values, i + 1)| == params[i].pos + |values[i]|
    ensures Assemble(params, values, i + 1)[params[i].pos..] == values[i]
  {
    DeclaredValuesFill(params, shapes, values, i);
    SizePositive(shapes[i]);
    PlaceIsFirst(PackedSize(shapes, i), Size(shapes[i]));
    var r := Padded(Assemble(params, values, i), params[i].pos);
    assert Assemble(params, values, i + 1) == r + values[i] && |r| == params[i].pos;
  }

  // ---- The reference -------------------------------------------------------------------

  datatype Call =
    | Set(param: nat, data: seq<byte>)
    | SetDefault(param: nat)
    | Upload
    | Rebuild(garbage: seq<byte>)   // what the recreated buffer happens to hold

  predicate CallOk(count: nat, size: nat, c: Call) {
    match c
    case Set(i, _) => i < count
    case SetDefault(i) => i < count
    case Upload => true
    case Rebuild(garbage) => |garbage| == size
  }

  /** The values that have a default; the others are empty. */
  function Defaults(params: seq<Param>): (r: Values)
    ensures |r| == |params| && forall i :: 0 <= i < |params| ==> r[i] == params[i].default
  {
    seq(|params|, i requires 0 <= i < |params| => params[i].default)
  }

  function Step(params: seq<Param>, values: Values, size: nat, c: Call): (r: Values)
    requires |params| == |values| && CallOk(|values|, size, c)
    ensures |r| == |values|
  {
    match c
    case Set(i, data) => values[i := data]
    case SetDefault(i) => if params[i].default == [] then values else values[i := params[i].default]
    case Upload => values
    case Rebuild(_) => Defaults(params)
  }

  function Uploaded(params: seq<Param>, values: Values, size: nat, c: Call): seq<seq<byte>>
    requires |params| == |values|
  {
    if c.Upload? && Uploadable(params, values, size) then [Assemble(params, values, |params|)] else []
  }

  predicate CallsOk(count: nat, size: nat, calls: seq<Call>) {
    forall i :: 0 <= i < |calls| ==> CallOk(count, size, calls[i])
  }

  function ValuesAfter(params: seq<Param>, start: Values, size: nat, calls: seq<Call>, n: nat): (r: Values)
    requires |params| == |start| && CallsOk(|start|, size, calls) && n <= |calls|
    ensures |r| == |params|
  {
    if n == 0 then start else Step(params, ValuesAfter(params, start, size, calls, n - 1), size, calls[n - 1])
  }

  /** What the GPU buffer holds after each upload among the first n calls that did not throw. */
  function Uploads(params: seq<Param>, start: Values, size: nat, calls: seq<Call>, n: nat): seq<seq<byte>>
    requires |params| == |start| && CallsOk(|start|, size, calls) && n <= |calls|
  {
    if n == 0 then []
    else Uploads(params, start, size, calls, n - 1)
         + Uploaded(params, ValuesAfter(params, start, size, calls, n - 1), size, calls[n - 1])
  }

  // ---- The shader ----------------------------------------------------------------------

  class Shader {
    var params: seq<Param>
    var curValue: Values
    var changed: seq<bool>      // one flag per parameter
    var constantSize: nat
    var gpu: seq<byte>          // the first constantSize bytes of the GPU buffer

    ghost predicate Dirty()
      reads this
      requires |changed| == |params|
    {
      exists i :: 0 <= i < |params| && changed[i] && !params[i].shape.ty.Texture?
    }

    /** Some flag is set, or the buffer is current, or an upload would throw. */
    ghost predicate Valid()
      reads this
    {
      && |changed| == |params| == |curValue| && |gpu| == constantSize
      && (Dirty() || gpu == Assemble(params, curValue, |params|) || !Uploadable(params, curValue, constantSize))
    }

    /** Places the constants, makes the buffer and sets the defaults.  Parameters that take no
        constant space keep an unspecified position. */
    constructor (shapes: seq<Shape>, defaults: Values, unplaced: nat, garbage: nat -> byte)
      requires |shapes| == |defaults|
      ensures Valid() && PlacedByLayout(params, shapes) && curValue == defaults
      ensures constantSize == PackedSize(shapes, |shapes|)
      ensures forall i :: 0 <= i < |shapes| ==> params[i].default == defaults[i]
    {
      params := seq(|shapes|, i requires 0 <= i < |shapes| == |defaults| => Param(shapes[i], defaults[i], unplaced));
      curValue, changed := seq(|shapes|, _ => []), seq(|shapes|, _ => false);
      constantSize, gpu := 0, [];
      new;
      BuildConstantBuffer(shapes);
      gpu := seq(constantSize, i requires 0 <= i => garbage(i));
      ResetAll();
    }

    method BuildConstantBuffer(ghost shapes: seq<Shape>)
      requires constantSize == 0 && |params| == |shapes|
      requires forall i :: 0 <= i < |shapes| ==> params[i].shape == shapes[i]
      modifies this`params, this`constantSize
      ensures PlacedByLayout(params, shapes) && constantSize == PackedSize(shapes, |shapes|)
      ensures forall i :: 0 <= i < |shapes| ==> params[i].default == old(params)[i].default
    {
      var i := 0;
      while i < |params|
        invariant 0 <= i <= |params| == |shapes|
        invariant forall k :: 0 <= k < |shapes| ==>
                    params[k].shape == shapes[k] && params[k].default == old(params)[k].default
        invariant forall k :: 0 <= k < i && IsConstant(shapes[k]) ==> params[k].pos == Position(shapes, k)
        invariant constantSize == PackedSize(shapes, i)
      {
        if IsConstant(params[i].shape) {
          var size := Size(params[i].shape);
          if size != 0 && constantSize % 16 != 0 {
            var alignMax := (constantSize + 15) / 16 * 16;
            if size + constantSize > alignMax {
              constantSize := alignMax;
            }
          }
          params := params[i := params[i].(pos := constantSize)];
          constantSize := constantSize + size;
        }
        i := i + 1;
      }
    }

    method SetValue(i: nat, data: seq<byte>)
      requires Valid() && i < |params|
      modifies this`curValue, this`changed
      ensures Valid() && curValue == old(curValue)[i := data]
    {
      var sizeChanged := |curValue[i]| != |data|;
      if sizeChanged || curValue[i] != data {
        ghost var was, dirty := curValue, Dirty();
        curValue := curValue[i := data];
        changed := changed[i := true];
        if params[i].shape.ty.Texture? {
          TextureValuesDoNotMatter(params, was, curValue, |params|);
          if dirty {
            var k :| 0 <= k < |params| && old(changed)[k] && !params[k].shape.ty.Texture?;
            assert changed[k];
          }
        } else {
          assert changed[i];
        }
      }
    }

    method SetDefault(i: nat)
      requires Valid() && i < |params|
      modifies this`curValue, this`changed
      ensures Valid()
      ensures curValue == if params[i].default == [] then old(curValue) else old(curValue)[i := params[i].default]
    {
      if params[i].default != [] {
        SetValue(i, params[i].default);
      }
    }

    /** Appends one value and takes note of its flag; throws if the value was never set. */
    method UpdateParam(i: nat, data: seq<byte>, upload: bool) returns (ok: bool, data': seq<byte>, upload': bool)
      requires |changed| == |params| == |curValue| && i < |params|
      modifies this`changed
      ensures ok == (params[i].shape.ty.Texture? || curValue[i] != [])
      ensures !ok || params[i].shape.ty.Texture? ==> changed == old(changed)
      ensures ok && params[i].shape.ty.Texture? ==> data' == data && upload' == upload
      ensures ok && !params[i].shape.ty.Texture? ==>
                && data' == Padded(data, params[i].pos) + curValue[i]
                && upload' == (upload || old(changed)[i]) && changed == old(changed)[i := false]
    {
      data', upload' := data, upload;
      if !params[i].shape.ty.Texture? {
        if curValue[i] == [] {
          return false, data', upload';
        }
        if params[i].pos > |data'| {
          data' := data' + seq(params[i].pos - |data'|, _ => 0);
        }
        data' := data' + curValue[i];
        if changed[i] {
          upload' := true;
          changed := changed[i := false];
        }
      }
      ok := true;
    }

    /** Copies the values to the GPU if any changed.  It succeeds exactly when the values are
        uploadable, and then the GPU holds what they stand for. */
    method UploadParams() returns (ok: bool)
      requires Valid()
      modifies this`changed, this`gpu
      ensures Valid()
      ensures ok == Uploadable(params, curValue, constantSize)
      ensures gpu == if ok then Assemble(params, curValue, |params|) else old(gpu)
    {
      var constData: seq<byte> := [];
      var upload := false;
      var i := 0;
      while i < |params|
        invariant 0 <= i <= |params| == |changed|
        invariant constData == Assemble(params, curValue, i)
        invariant forall k :: 0 <= k < i ==> params[k].shape.ty.Texture? || curValue[k] != []
        invariant upload == exists k :: 0 <= k < i && old(changed)[k] && !params[k].shape.ty.Texture?
        invariant forall k :: i <= k < |params| ==> changed[k] == old(changed)[k]
        invariant gpu == old(gpu)
      {
        var isSet;
        isSet, constData, upload := UpdateParam(i, constData, upload);
        if !isSet {
          return false;
        }
        i := i + 1;
      }

      if |constData| != constantSize {
        return false;
      }
      if upload {
        gpu := constData;
      }
      return true;
    }

    /** Device loss: a new buffer with unknown contents, and all values back to their defaults. */
    method Rebuild(garbage: seq<byte>)
      requires Valid() && |garbage| == constantSize
      modifies this`curValue, this`changed, this`gpu
      ensures Valid() && curValue == Defaults(params) && gpu == garbage
    {
      gpu := garbage;
      ResetAll();
    }

    method ResetAll()
      requires |changed| == |params| == |curValue| && |gpu| == constantSize
      modifies this`curValue, this`changed
      ensures Valid() && curValue == Defaults(params)
    {
      var i := 0;
      while i < |params|
        invariant 0 <= i <= |params| == |changed| == |curValue|
        invariant forall k :: 0 <= k < i ==> curValue[k] == params[k].default && (curValue[k] != [] ==> changed[k])
      {
        curValue := curValue[i := []];
        if params[i].default != [] {
          curValue := curValue[i := params[i].default];
          changed := changed[i := true];
        }
        i := i + 1;
      }
      if Uploadable(params, curValue, constantSize) && !Dirty() {
        assert forall k :: 0 <= k < |params| ==> params[k].shape.ty.Texture? || changed[k];
        TexturesAssembleToNothing(params, curValue, |params|);
      }
    }

    method Perform(c: Call) returns (uploaded: seq<seq<byte>>)
      requires Valid() && CallOk(|params|, constantSize, c)
      modifies this`curValue, this`changed, this`gpu
      ensures Valid() && curValue == Step(params, old(curValue), constantSize, c)
      ensures uploaded == Uploaded(params, old(curValue), constantSize, c)
    {
      uploaded := [];
      match c {
        case Set(i, data) => SetValue(i, data);
        case SetDefault(i) => SetDefault(i);
        case Upload =>
          var ok := UploadParams();
          if ok {
            uploaded := [gpu];
          }
        case Rebuild(garbage) => Rebuild(garbage);
      }
    }
  }

  lemma {:induction false} TextureValuesDoNotMatter(params: seq<Param>, a: Values, b: Values, n: nat)
    requires |a| == |b| == |params| && n <= |params|
    requires forall i :: 0 <= i < |a| ==> a[i] == b[i] || params[i].shape.ty.Texture?
    ensures Assemble(params, a, n) == Assemble(params, b, n)
  {
    if n > 0 {
      TextureValuesDoNotMatter(params, a, b, n - 1);
    }
  }

  lemma {:induction false} TexturesAssembleToNothing(params: seq<Param>, values: Values, n: nat)
    requires n <= |params| == |values| && forall i :: 0 <= i < n ==> params[i].shape.ty.Texture?
    ensures Assemble(params, values, n) == []
  {
    if n > 0 {
      TexturesAssembleToNothing(params, values, n - 1);
    }
  }

  /** Over every run of sets, uploads (thrown or not) and rebuilds, each upload that succeeds
      leaves the GPU with the bytes of the values current at that moment. */
  method Run(shapes: seq<Shape>, defaults: Values, unplaced: nat, garbage: nat -> byte, calls: seq<Call>)
    returns (uploads: seq<seq<byte>>, params: seq<Param>)
    requires |shapes| == |defaults| && CallsOk(|shapes|, PackedSize(shapes, |shapes|), calls)
    ensures PlacedByLayout(params, shapes) && forall i :: 0 <= i < |params| ==> params[i].default == defaults[i]
    ensures uploads == Uploads(params, defaults, PackedSize(shapes, |shapes|), calls, |calls|)
  {
    hide Assemble, Step, Uploaded, CallOk, PackedSize;
    var shader := new Shader(shapes, defaults, unplaced, garbage);
    params, uploads := shader.params, [];
    ghost var size := shader.constantSize;
    for i := 0 to |calls|
      invariant shader.Valid() && fresh(shader) && shader.params == params && shader.constantSize == size
      invariant shader.curValue == ValuesAfter(params, defaults, size, calls, i)
      invariant uploads == Uploads(params, defaults, size, calls, i)
    {
      var uploaded := shader.Perform(calls[i]);
      uploads := uploads + uploaded;
    }
  }
}
