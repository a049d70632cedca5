/**
 Placement of shader constants in 16-byte registers.

 A parameter is packed behind its predecessor when it fits in what is left of the current
 register, and otherwise starts a new one.  Sizes are those of the parameter's type
 times its array count; parameters that take no constant space are skipped.
 */
module ConstantLayout {
  const REGISTER := 16

  datatype ParamType = Bool | Int | Float | Int2 | Vec2 | Int3 | Vec3 | Int4 | Vec4 | Matrix4x4
                     | Texture | String | Unknown

  // arrayCount 0 marks a parameter that is not an array
  datatype Shape = Shape(ty: ParamType, arrayCount: nat)

  function TypeSize(ty: ParamType): nat {
    match ty
    case Bool => 4 case Int => 4 case Float => 4
    case Int2 => 8 case Vec2 => 8
    case Int3 => 12 case Vec3 => 12
    case Int4 => 16 case Vec4 => 16
    case Matrix4x4 => 64
    case _ => 0
  }

  predicate IsConstant(s: Shape) {
    !s.ty.Texture? && !s.ty.String? && !s.ty.Unknown?
  }

  function Size(s: Shape): nat {
    if s.arrayCount == 0 then TypeSize(s.ty) else TypeSize(s.ty) * s.arrayCount
  }

  /** How many numbers a value of this type has; textures, strings and unknown types have none. */
  function Components(ty: ParamType): nat {
    match ty
    case Bool | Int | Float => 1
    case Int2 | Vec2 => 2
    case Int3 | Vec3 => 3
    case Int4 | Vec4 => 4
    case Matrix4x4 => 16
    case Texture | String | Unknown => 0
  }

  /** Every component takes four bytes, in every element of an array. */
  lemma {:induction false} SizeInBytes(s: Shape)
    ensures Size(s) == 4 * Components(s.ty) * (if s.arrayCount == 0 then 1 else s.arrayCount)
    ensures IsConstant(s) <==> Components(s.ty) != 0
  {}

  lemma {:induction false} SizePositive(s: Shape)
    requires IsConstant(s)
    ensures Size(s) > 0
  {
    if s.arrayCount > 0 {
      assert TypeSize(s.ty) * s.arrayCount >= TypeSize(s.ty);
    }
  }

  /** What the hardware accepts: a constant starts a register or lies inside a single one. */
  predicate Admissible(pos: nat, size: nat) {
    pos % REGISTER == 0 || pos / REGISTER == (pos + size - 1) / REGISTER
  }

  /** An order-preserving layout: admissible, and every constant behind the previous ones. */
  ghost predicate IsLayout(shapes: seq<Shape>, pos: seq<nat>) {
    && |pos| == |shapes|
    && (forall i :: 0 <= i < |shapes| && IsConstant(shapes[i]) ==> Admissible(pos[i], Size(shapes[i])))
    && (forall i, j :: 0 <= i < j < |shapes| && IsConstant(shapes[i]) && IsConstant(shapes[j]) ==>
          pos[i] + Size(shapes[i]) <= pos[j])
  }

  /** All of the first n constants end at or before the given address. */
  ghost predicate EndsBy(shapes: seq<Shape>, pos: seq<nat>, n: nat, end: nat)
    requires n <= |shapes| == |pos|
  {
    forall i :: 0 <= i < n && IsConstant(shapes[i]) ==> pos[i] + Size(shapes[i]) <= end
  }

  // ---- The greedy placement -----------------------------------------------------------

  /** Where a constant of this size goes when the space before end is taken. */
  function Place(end: nat, size: nat): nat {
    var aligned := (end + 15) / REGISTER * REGISTER;
    if end % REGISTER != 0 && size + end > aligned then aligned else end
  }

  /** The chosen place is the first admissible one: everything between it and the end is not. */
  lemma {:induction false} PlaceIsFirst(end: nat, size: nat)
    requires size > 0
    ensures end <= Place(end, size) && Admissible(Place(end, size), size)
    ensures forall p :: end <= p < Place(end, size) ==> !Admissible(p, size)
  {
    var aligned := (end + 15) / REGISTER * REGISTER;
    var k := end / REGISTER;
    assert end == k * 16 + end % 16;
    if end % REGISTER != 0 {
      assert (end + 15) / 16 == k + 1;
      forall p | end <= p < aligned
        ensures p / 16 == k && p % 16 != 0
      {
        assert k * 16 < p < (k + 1) * 16;
      }
      if size + end > aligned {
        forall p | end <= p < aligned ensures !Admissible(p, size) {
          assert p + size - 1 >= (k + 1) * 16;
        }
      } else {
        assert k * 16 <= end + size - 1 < (k + 1) * 16;
      }
    }
  }

  /** The space taken by the first n parameters. */
  function PackedSize(shapes: seq<Shape>, n: nat): nat
    requires n <= |shapes|
  {
    if n == 0 then 0
    else
      var end := PackedSize(shapes, n - 1);
      if IsConstant(shapes[n - 1]) then Place(end, Size(shapes[n - 1])) + Size(shapes[n - 1]) else end
  }

  /** The position given to the i-th parameter, if it takes constant space. */
  function Position(shapes: seq<Shape>, i: nat): nat
    requires i < |shapes|
  {
    Place(PackedSize(shapes, i), Size(shapes[i]))
  }

  ghost predicate IsPacked(shapes: seq<Shape>, pos: seq<nat>) {
    |pos| == |shapes| && forall i :: 0 <= i < |shapes| && IsConstant(shapes[i]) ==> pos[i] == Position(shapes, i)
  }

  lemma {:induction false} PackedEndsBy(shapes: seq<Shape>, pos: seq<nat>, n: nat)
    requires IsPacked(shapes, pos) && n <= |shapes|
    ensures EndsBy(shapes, pos, n, PackedSize(shapes, n))
  {
    if n > 0 {
      PackedEndsBy(shapes, pos, n - 1);
      if IsConstant(shapes[n - 1]) {
        SizePositive(shapes[n - 1]);
        PlaceIsFirst(PackedSize(shapes, n - 1), Size(shapes[n - 1]));
      }
    }
  }

  /** The greedy placement is a layout ... */
  lemma {:induction false} PackedIsLayout(shapes: seq<Shape>, pos: seq<nat>)
    requires IsPacked(shapes, pos)
    ensures IsLayout(shapes, pos) && EndsBy(shapes, pos, |shapes|, PackedSize(shapes, |shapes|))
  {
    PackedEndsBy(shapes, pos, |shapes|);
    forall j | 0 <= j < |shapes| && IsConstant(shapes[j])
      ensures Admissible(pos[j], Size(shapes[j])) && EndsBy(shapes, pos, j, pos[j])
    {
      SizePositive(shapes[j]);
      PlaceIsFirst(PackedSize(shapes, j), Size(shapes[j]));
      PackedEndsBy(shapes, pos, j);
    }
  }

  /** ... and no layout in the same order ends earlier, for any number of leading parameters. */
  lemma {:induction false} PackedIsShortest(shapes: seq<Shape>, pos: seq<nat>, n: nat, end: nat)
    requires IsLayout(shapes, pos) && n <= |shapes| && EndsBy(shapes, pos, n, end)
    ensures PackedSize(shapes, n) <= end
  {
    if n > 0 {
      if IsConstant(shapes[n - 1]) {
        PackedIsShortest(shapes, pos, n - 1, pos[n - 1]);
        SizePositive(shapes[n - 1]);
        PlaceIsFirst(PackedSize(shapes, n - 1), Size(shapes[n - 1]));
      } else {
        PackedIsShortest(shapes, pos, n - 1, end);
      }
    }
  }
}
