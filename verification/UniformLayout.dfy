/**
 Where a shader's uniforms live.

 The program writes uniform values at the byte offsets of its metadata, while the Metal compiler
 lays out the emitted UniformData struct by its own rules.  Texture slots are likewise counted
 twice.  The slots always agree, and the offsets exactly when every member has a size in
 the metadata and no bool follows a bool, or there is only one member.
 */
module UniformLayout {
  import opened ShaderScan
  import opened ShaderNeeds
  import opened ShaderTranspiler
  import Wrappers

  datatype ParamType = Float | Vec2 | Vec3 | Vec4 | Int | Int2 | Int3 | Int4
                     | Matrix4x4 | Bool | TextureParam | StringParam | Unknown

  function GetShaderParamType(typ: string): ParamType {
    if typ == "float" then Float
    else if typ == "float2" then Vec2
    else if typ == "float3" then Vec3
    else if typ == "float4" then Vec4
    else if typ == "int2" then Int2
    else if typ == "int3" then Int3
    else if typ == "int4" then Int4
    else if IsTextureType(typ) then TextureParam
    else if typ == "float4x4" then Matrix4x4
    else if typ == "bool" then Bool
    else if typ == "int" then Int
    else if typ == "string" then StringParam
    else Unknown
  }

  predicate IsNamed(t: ParamType) {
    !t.TextureParam? && !t.Unknown?
  }

  /** The name a type is declared with. */
  function TypeName(t: ParamType): string
    requires IsNamed(t)
  {
    match t
    case Float => "float"
    case Vec2 => "float2"
    case Vec3 => "float3"
    case Vec4 => "float4"
    case Int => "int"
    case Int2 => "int2"
    case Int3 => "int3"
    case Int4 => "int4"
    case Matrix4x4 => "float4x4"
    case Bool => "bool"
    case StringParam => "string"
  }

  /** A type is recognised exactly by its name. */
  lemma {:induction false} TypeByName(typ: string, t: ParamType)
    requires IsNamed(t)
    ensures GetShaderParamType(typ) == t <==> typ == TypeName(t)
  {
    assert TypeName(t)[0] != 't' && (IsTextureType(typ) ==> typ[..7][0] == 't');
  }

  /** ... and a texture type by the beginning of its name. */
  lemma {:induction false} TextureByPrefix(typ: string)
    ensures GetShaderParamType(typ) == TextureParam <==> "texture" <= typ
  {
    assert "texture" <= typ <==> |typ| >= 7 && typ[..7] == "texture";
    assert "texture" <= typ ==> typ[0] == 't';
  }

  function MtlSize(t: ParamType): nat {
    match t
    case Bool | Int | Float => 4
    case Int2 | Vec2 => 8
    case Int3 | Vec3 => 16
    case Int4 | Vec4 => 16
    case Matrix4x4 => 64
    case TextureParam => 16
    case StringParam | Unknown => 0
  }

  function MtlAlignment(t: ParamType): nat {
    match t
    case Bool | Int | Float => 4
    case Int2 | Vec2 => 8
    case Int3 | Vec3 => 16
    case Int4 | Vec4 => 16
    case Matrix4x4 => 16
    case TextureParam | StringParam | Unknown => 0
  }

  // ---- The Metal side: sections 2.2 and 2.3 of the Metal Shading Language Specification ---------

  predicate IsSupported(typ: string) {
    typ in ["float", "float2", "float3", "float4", "int", "int2", "int3", "int4", "float4x4"]
  }

  /** A type the metadata has a size for, bool among them. */
  predicate IsKnown(typ: string) {
    IsSupported(typ) || typ == "bool"
  }

  /** A type that is emitted although the metadata has no size for it. */
  predicate IsUnsized(typ: string) {
    || typ in ["half", "half2", "half3", "half4", "uint", "uint2", "uint3", "uint4"]
    || typ in ["min16float", "min16float2", "min16float3", "min16float4"]
    || typ in ["min16int", "min16int2", "min16int3", "min16int4"]
    || typ in ["min16uint", "min16uint2", "min16uint3", "min16uint4"]
  }

  /** The Metal type written for a member of this type. */
  function ConvertToMTLType(typ: string): string {
    if typ == "half" then "float"
    else if typ == "half2" then "float2"
    else if typ == "half3" then "float3"
    else if typ == "half4" then "float4"
    else if typ == "min16float" then "half"
    else if typ == "min16float2" then "half2"
    else if typ == "min16float3" then "half3"
    else if typ == "min16float4" then "half4"
    else if typ == "min16int" then "short"
    else if typ == "min16int2" then "short2"
    else if typ == "min16int3" then "short3"
    else if typ == "min16int4" then "short4"
    else if typ == "min16uint" then "ushort"
    else if typ == "min16uint2" then "ushort2"
    else if typ == "min16uint3" then "ushort3"
    else if typ == "min16uint4" then "ushort4"
    else typ
  }

  function MslSize(typ: string): (size: nat)
    ensures size > 0
  {
    EmittedSize(ConvertToMTLType(typ))
  }

  function EmittedSize(emitted: string): (size: nat)
    ensures size > 0
  {
    if emitted == "bool" then 1
    else if emitted in ["half", "short", "ushort"] then 2
    else if emitted == "float4x4" then 64
    else if emitted in ["float3", "float4", "int3", "int4", "uint3", "uint4"] then 16
    else if emitted in ["float2", "int2", "uint2"] then 8
    else if emitted in ["half3", "half4", "short3", "short4", "ushort3", "ushort4"] then 8
    else 4
  }

  function MslAlignment(typ: string): (a: nat)
    ensures a > 0
  {
    EmittedAlignment(ConvertToMTLType(typ))
  }

  function EmittedAlignment(emitted: string): (a: nat)
    ensures a > 0
  {
    if emitted == "float4x4" then 16 else EmittedSize(emitted)
  }

  /** Where the member in front of this one ends. */
  function EndBefore(members: seq<Uniform>, offsets: seq<nat>, i: nat): nat
    requires i <= |members| == |offsets|
  {
    if i == 0 then 0 else offsets[i - 1] + MslSize(members[i - 1].typ)
  }

  /** The struct layout rule: every member at the first aligned offset behind the one before it. */
  predicate IsStructLayout(members: seq<Uniform>, offsets: seq<nat>) {
    && |offsets| == |members|
    && forall i :: 0 <= i < |members| ==> IsNextOffset(EndBefore(members, offsets, i), members[i].typ, offsets[i])
  }

  predicate IsNextOffset(end: nat, typ: string, offset: nat) {
    && offset % MslAlignment(typ) == 0
    && end <= offset < end + MslAlignment(typ)
  }

  /** The struct's size: its end, rounded up to the strictest alignment of a member. */
  predicate IsStructSize(members: seq<Uniform>, offsets: seq<nat>, size: nat)
    requires |offsets| == |members|
  {
    var end := EndBefore(members, offsets, |members|);
    && end <= size
    && (size == end || exists i :: 0 <= i < |members| && IsNextOffset(end, members[i].typ, size))
  }

  lemma {:induction false} BehindEnd(end: nat, typ: string, offset: nat)
    requires IsNextOffset(end, typ, offset)
    ensures end <= offset
  {}

  lemma {:induction false} MembersDoNotOverlap(members: seq<Uniform>, offsets: seq<nat>, i: nat, j: nat)
    requires IsStructLayout(members, offsets) && i < j < |members|
    ensures offsets[i] + MslSize(members[i].typ) <= offsets[j]
    decreases j
  {
    hide IsNextOffset, MslSize;
    BehindEnd(EndBefore(members, offsets, j), members[j].typ, offsets[j]);
    if i < j - 1 {
      MembersDoNotOverlap(members, offsets, i, j - 1);
    }
  }

  // ---- The emitted struct and the metadata --------------------------------------------------------

  /** The members of the emitted struct: the first n uniforms without the textures. */
  function Members(src: Source, n: nat): seq<Uniform>
    requires n <= |src.uniforms|
  {
    if n == 0 then []
    else if IsTexture(src, src.uniforms[n - 1].name) then Members(src, n - 1)
    else Members(src, n - 1) + [src.uniforms[n - 1]]
  }

  method TranspileUniforms(src: Source) returns (members: seq<Uniform>)
    ensures members == Members(src, |src.uniforms|)
  {
    members := [];
    for i := 0 to |src.uniforms|
      invariant members == Members(src, i)
    {
      if !IsTexture(src, src.uniforms[i].name) {
        members := members + [src.uniforms[i]];
      }
    }
  }

  datatype ShaderUniform = ShaderUniform(name: string, gsType: ParamType, textureSlot: nat, byteOffset: nat)

  function AlignUp(size: nat, alignment: nat): nat {
    if alignment == 0 then 0 else (size + alignment - 1) / alignment * alignment
  }

  /** The offsets of the entries that are not textures. */
  function PlainOffsets(src: Source, info: seq<ShaderUniform>, n: nat): seq<nat>
    requires n <= |src.uniforms| && n <= |info|
  {
    if n == 0 then []
    else if IsTexture(src, src.uniforms[n - 1].name) then PlainOffsets(src, info, n - 1)
    else PlainOffsets(src, info, n - 1) + [info[n - 1].byteOffset]
  }

  /** All uniforms but the textures have a type of known layout. */
  ghost predicate Accepted(src: Source) {
    forall i :: 0 <= i < |src.uniforms| && !IsTexture(src, src.uniforms[i].name) ==>
      IsKnown(src.uniforms[i].typ) || IsUnsized(src.uniforms[i].typ)
  }

  ghost predicate AllKnown(members: seq<Uniform>) {
    forall i :: 0 <= i < |members| ==> IsKnown(members[i].typ)
  }

  ghost predicate AllAccepted(members: seq<Uniform>) {
    forall i :: 0 <= i < |members| ==> IsKnown(members[i].typ) || IsUnsized(members[i].typ)
  }

  /** The metadata has a size for every member and no bool is behind a bool, or there is one member only. */
  ghost predicate Agreeable(members: seq<Uniform>) {
    (AllKnown(members) && NoAdjacentBools(members)) || |members| == 1
  }

  /** No bool is declared right behind another one, textures aside. */
  predicate NoAdjacentBools(members: seq<Uniform>) {
    forall i :: 1 <= i < |members| && members[i].typ == "bool" ==> Previous(members, i).typ != "bool"
  }

  function Previous(members: seq<Uniform>, i: nat): Uniform
    requires 1 <= i < |members|
  {
    members[i - 1]
  }

  /** Where the metadata puts the end of the member in front of this one. */
  function MetadataEnd(members: seq<Uniform>, offsets: seq<nat>, i: nat): nat
    requires i <= |members| == |offsets|
  {
    if i == 0 then 0 else offsets[i - 1] + MtlSize(GetShaderParamType(members[i - 1].typ))
  }

  /** The metadata's own rule, by the sizes and alignments of the program. */
  predicate IsMetadataLayout(members: seq<Uniform>, offsets: seq<nat>) {
    && |offsets| == |members|
    && forall i :: 0 <= i < |members| ==>
         offsets[i] == AlignUp(MetadataEnd(members, offsets, i), MtlAlignment(GetShaderParamType(members[i].typ)))
  }

  /**
   The metadata's offsets are those of the emitted struct exactly when it has sizes for all members
   and no bool follows a bool, or there is only one member.  Its texture slots always are those of
   the entry function.
   */
  method BuildMetadata(src: Source) returns (info: seq<ShaderUniform>, bufferSize: nat)
    requires Accepted(src)
    ensures |info| == |src.uniforms| && forall i :: 0 <= i < |info| ==> info[i].name == src.uniforms[i].name
    ensures IsMetadataLayout(Members(src, |src.uniforms|), PlainOffsets(src, info, |info|))
    ensures IsStructLayout(Members(src, |src.uniforms|), PlainOffsets(src, info, |info|))
       <==> Agreeable(Members(src, |src.uniforms|))
    ensures bufferSize == MetadataEnd(Members(src, |src.uniforms|), PlainOffsets(src, info, |info|),
                                      |Members(src, |src.uniforms|)|)
    ensures forall i :: 0 <= i < |info| && IsTexture(src, info[i].name) ==>
      Parameter(Texture, info[i].name, Wrappers.Some(info[i].textureSlot)) in EntryParameters(src)
    ensures forall i, t :: 0 <= i < |info| && IsNamed(t) ==>
      (info[i].gsType == t <==> src.uniforms[i].typ == TypeName(t))
    ensures forall i :: 0 <= i < |info| ==> (info[i].gsType == TextureParam <==> "texture" <= src.uniforms[i].typ)
  {
    hide IsTexture, AlignUp, MtlSize, MtlAlignment, GetShaderParamType, Accepted, Agreeable, SlotsMatch, Laid;
    info, bufferSize := [], 0;
    NothingLaid(src);
    var textureSlot := 0;
    for i := 0 to |src.uniforms|
      invariant |info| == i && forall j :: 0 <= j < i ==> info[j].name == src.uniforms[j].name
      invariant forall j :: 0 <= j < i ==> info[j].gsType == GetShaderParamType(src.uniforms[j].typ)
      invariant Laid(src, info, bufferSize)
      invariant textureSlot == |TextureNames(src, i)|
      invariant SlotsMatch(src, info)
    {
      var uniform := src.uniforms[i];
      var gsType := GetShaderParamType(uniform.typ);
      var isTexture := IsTexture(src, uniform.name);
      var byteSize, bufferOffset := 0, bufferSize;
      if !isTexture {
        byteSize := MtlSize(gsType);
        bufferOffset := AlignUp(bufferSize, MtlAlignment(gsType));
      }
      var entry := ShaderUniform(uniform.name, gsType, if isTexture then textureSlot else 0, bufferOffset);
      LaidNext(src, info, bufferSize, entry);
      SlotsNext(src, info, entry);
      bufferSize := bufferOffset + byteSize;
      if isTexture {
        textureSlot := textureSlot + 1;
      }
      info := info + [entry];
    }
    TypesByName(src, info);
    SlotsAreBound(src, info);
    WholeLaid(src, info, bufferSize);
  }

  lemma {:induction false} TypesByName(src: Source, info: seq<ShaderUniform>)
    requires |info| == |src.uniforms|
    requires forall j :: 0 <= j < |info| ==> info[j].gsType == GetShaderParamType(src.uniforms[j].typ)
    ensures forall i, t :: 0 <= i < |info| && IsNamed(t) ==>
      (info[i].gsType == t <==> src.uniforms[i].typ == TypeName(t))
    ensures forall i :: 0 <= i < |info| ==> (info[i].gsType == TextureParam <==> "texture" <= src.uniforms[i].typ)
  {
    hide GetShaderParamType, TypeName;
    forall i, t | 0 <= i < |info| && IsNamed(t)
      ensures info[i].gsType == t <==> src.uniforms[i].typ == TypeName(t)
    {
      TypeByName(src.uniforms[i].typ, t);
    }
    forall i | 0 <= i < |info| ensures info[i].gsType == TextureParam <==> "texture" <= src.uniforms[i].typ {
      TextureByPrefix(src.uniforms[i].typ);
    }
  }

  /** The metadata so far lays out the members so far. */
  ghost predicate Laid(src: Source, info: seq<ShaderUniform>, size: nat)
    requires |info| <= |src.uniforms|
  {
    var members, offsets := Members(src, |info|), PlainOffsets(src, info, |info|);
    IsMetadataLayout(members, offsets) && size == MetadataEnd(members, offsets, |members|)
  }

  lemma {:induction false} NothingLaid(src: Source)
    ensures Laid(src, [], 0) && SlotsMatch(src, [])
  {}

  lemma {:induction false} WholeLaid(src: Source, info: seq<ShaderUniform>, size: nat)
    requires Accepted(src) && |info| == |src.uniforms| && Laid(src, info, size)
    ensures
      var members, offsets := Members(src, |src.uniforms|), PlainOffsets(src, info, |info|);
      && IsMetadataLayout(members, offsets) && size == MetadataEnd(members, offsets, |members|)
      && (IsStructLayout(members, offsets) <==> Agreeable(members))
  {
    MembersAreAccepted(src, |src.uniforms|);
    hide IsMetadataLayout, IsStructLayout, Agreeable, AllAccepted;
    LayoutsAgreeExactly(Members(src, |src.uniforms|), PlainOffsets(src, info, |info|));
  }

  lemma {:induction false} MembersAreAccepted(src: Source, n: nat)
    requires Accepted(src) && n <= |src.uniforms|
    ensures AllAccepted(Members(src, n))
  {
    hide IsTexture, IsKnown, IsUnsized;
    if n > 0 {
      MembersAreAccepted(src, n - 1);
    }
  }

  ghost predicate SlotsMatch(src: Source, info: seq<ShaderUniform>)
    requires |info| <= |src.uniforms|
  {
    forall j :: 0 <= j < |info| && IsTexture(src, src.uniforms[j].name) ==>
      info[j].textureSlot < |TextureNames(src, |info|)|
      && TextureNames(src, |info|)[info[j].textureSlot] == src.uniforms[j].name
  }

  lemma {:induction false} PlainOffsetsPush(src: Source, info: seq<ShaderUniform>, entry: ShaderUniform, n: nat)
    requires n <= |src.uniforms| && n <= |info|
    ensures PlainOffsets(src, info + [entry], n) == PlainOffsets(src, info, n)
  {
    if n > 0 {
      PlainOffsetsPush(src, info, entry, n - 1);
    }
  }

  /** The metadata has a size for exactly the known types, textures aside, and for none of the others. */
  lemma {:induction false} KnownExactly(typ: string)
    requires !IsTextureType(typ)
    ensures IsKnown(typ) <==> MtlSize(GetShaderParamType(typ)) > 0
    ensures IsUnsized(typ) ==> !IsKnown(typ)
  {
    if IsUnsized(typ) {
      HasNoSize(typ);
    }
  }

  // ---- Both layouts -------------------------------------------------------------------------------

  /** The size and alignment tables agree for everything but bool. */
  lemma {:induction false} TablesAgree(typ: string)
    requires IsKnown(typ)
    ensures typ != "bool" ==> MtlSize(GetShaderParamType(typ)) == MslSize(typ)
    ensures typ != "bool" ==> MtlAlignment(GetShaderParamType(typ)) == MslAlignment(typ)
    ensures typ == "bool" ==> MtlSize(GetShaderParamType(typ)) == MtlAlignment(GetShaderParamType(typ)) == 4
    ensures MtlSize(GetShaderParamType(typ)) % 4 == 0
    ensures IsWordAlignment(MtlAlignment(GetShaderParamType(typ)))
  {
    KnownIsWritten(typ);
    hide ConvertToMTLType;
    assert !IsTextureType(typ) by {
      assert "texture"[0] == 't' && (typ[0] == 'f' || typ[0] == 'i' || typ[0] == 'b');
    }
  }

  lemma {:induction false} KnownIsWritten(typ: string)
    requires IsKnown(typ)
    ensures ConvertToMTLType(typ) == typ
  {
    assert typ[0] == 'f' || typ[0] == 'i' || typ[0] == 'b';
  }

  predicate IsWordAlignment(a: nat) {
    a == 4 || a == 8 || a == 16
  }

  /** Rounding up finds the first multiple. */
  lemma {:induction false} RoundsUp(size: nat, a: nat)
    requires IsWordAlignment(a)
    ensures AlignUp(size, a) % a == 0 && AlignUp(size, a) % 4 == 0
    ensures size <= AlignUp(size, a) < size + a
    ensures size % 4 == 0 ==> AlignUp(size, a) <= size + a - 4
  {
    if a == 4 {
      RoundsUpTo4(size);
    } else if a == 8 {
      RoundsUpTo8(size);
    } else {
      RoundsUpTo16(size);
    }
  }

  lemma {:induction false} RoundsUpTo4(size: nat)
    ensures AlignUp(size, 4) % 4 == 0 && size <= AlignUp(size, 4) < size + 4
    ensures size % 4 == 0 ==> AlignUp(size, 4) == size
  {}

  lemma {:induction false} RoundsUpTo8(size: nat)
    ensures AlignUp(size, 8) % 8 == 0 && AlignUp(size, 8) % 4 == 0 && size <= AlignUp(size, 8) < size + 8
    ensures size % 4 == 0 ==> AlignUp(size, 8) <= size + 4
  {
    var k := (size + 7) / 8;
    assert k * 8 == 2 * k * 4;
  }

  lemma {:induction false} RoundsUpTo16(size: nat)
    ensures AlignUp(size, 16) % 16 == 0 && AlignUp(size, 16) % 4 == 0 && size <= AlignUp(size, 16) < size + 16
    ensures size % 4 == 0 ==> AlignUp(size, 16) <= size + 12
  {
    var k := (size + 15) / 16;
    assert k * 16 == 4 * k * 4;
  }

  lemma {:induction false} OffsetsAreWords(members: seq<Uniform>, offsets: seq<nat>, i: nat)
    requires IsMetadataLayout(members, offsets) && i <= |members|
    requires AllKnown(members)
    ensures MetadataEnd(members, offsets, i) % 4 == 0
  {
    if i > 0 {
      var typ, end := members[i - 1].typ, MetadataEnd(members, offsets, i - 1);
      assert IsKnown(typ) && offsets[i - 1] == AlignUp(end, MtlAlignment(GetShaderParamType(typ)));
      hide IsMetadataLayout, IsKnown;
      WordAfter(typ, end);
    }
  }

  lemma {:induction false} WordAfter(typ: string, end: nat)
    requires IsKnown(typ)
    ensures (AlignUp(end, MtlAlignment(GetShaderParamType(typ))) + MtlSize(GetShaderParamType(typ))) % 4 == 0
  {
    hide AlignUp, MtlSize, MtlAlignment, GetShaderParamType, IsKnown, MslSize, MslAlignment;
    TablesAgree(typ);
    RoundsUp(end, MtlAlignment(GetShaderParamType(typ)));
  }

  /** One member lies where the struct has it, unless it is a bool behind a bool. */
  lemma {:induction false} OffsetAgrees(members: seq<Uniform>, offsets: seq<nat>, i: nat)
    requires IsMetadataLayout(members, offsets) && i < |members|
    requires AllKnown(members)
    ensures IsNextOffset(EndBefore(members, offsets, i), members[i].typ, offsets[i])
       <==> !(members[i].typ == "bool" && i > 0 && members[i - 1].typ == "bool")
  {
    var end, typ := MetadataEnd(members, offsets, i), members[i].typ;
    OffsetsAreWords(members, offsets, i);
    TablesAgree(typ);
    RoundsUp(end, MtlAlignment(GetShaderParamType(typ)));
    BoolIsByte();
    if i > 0 {
      TablesAgree(members[i - 1].typ);
    }
    hide AlignUp, MtlSize, MtlAlignment, GetShaderParamType, IsKnown, MslSize, MslAlignment;
  }

  lemma {:induction false} BoolIsByte()
    ensures MslSize("bool") == 1 && MslAlignment("bool") == 1
  {}

  lemma {:induction false} LayoutsAgreeExactly(members: seq<Uniform>, offsets: seq<nat>)
    requires IsMetadataLayout(members, offsets) && AllAccepted(members)
    ensures IsStructLayout(members, offsets) <==> Agreeable(members)
  {
    hide NoAdjacentBools, IsMetadataLayout, IsStructLayout, IsKnown, IsUnsized;
    if AllKnown(members) {
      KnownLayoutsAgree(members, offsets);
      if |members| == 1 {
        SingleMember(members);
      }
    } else {
      var u :| 0 <= u < |members| && !IsKnown(members[u].typ);
      UnsizedMember(members, offsets, u);
    }
  }

  lemma {:induction false} SingleMember(members: seq<Uniform>)
    requires |members| == 1
    ensures NoAdjacentBools(members)
  {}

  /** A member without a size goes to offset 0, and the next one as well. */
  lemma {:induction false} UnsizedMember(members: seq<Uniform>, offsets: seq<nat>, u: nat)
    requires IsMetadataLayout(members, offsets) && u < |members| && IsUnsized(members[u].typ)
    ensures offsets[u] == 0 && (u + 1 < |members| ==> offsets[u + 1] == 0)
    ensures IsStructLayout(members, offsets) <==> |members| == 1
  {
    HasNoSize(members[u].typ);
    hide IsUnsized, GetShaderParamType, MslSize, MslAlignment, MtlSize, MtlAlignment;
    assert offsets[u] == 0;
    if u + 1 < |members| {
      AlignedZero(MtlAlignment(GetShaderParamType(members[u + 1].typ)));
      hide AlignUp;
      assert offsets[u + 1] == 0;
      assert !IsNextOffset(EndBefore(members, offsets, u + 1), members[u + 1].typ, offsets[u + 1]);
    } else if u > 0 {
      assert !IsNextOffset(EndBefore(members, offsets, u), members[u].typ, offsets[u]);
    }
  }

  lemma {:induction false} HasNoSize(typ: string)
    requires IsUnsized(typ)
    ensures MtlSize(GetShaderParamType(typ)) == MtlAlignment(GetShaderParamType(typ)) == 0
  {
    assert typ != [] && typ[0] in "hum";
    hide IsUnsized;
    HasNoParamType(typ);
  }

  lemma {:induction false} HasNoParamType(typ: string)
    requires typ != [] && typ[0] in "hum"
    ensures GetShaderParamType(typ) == Unknown
  {
    assert !IsTextureType(typ) by {
      assert "texture"[0] == 't';
    }
  }

  lemma {:induction false} AlignedZero(a: nat)
    ensures AlignUp(0, a) == 0
  {}

  /** The second of two bools is at byte 4 of the metadata and at byte 1 of the struct. */
  lemma {:induction false} TwoBoolsDisagree(a: Uniform, b: Uniform)
    requires a.typ == b.typ == "bool"
    ensures IsMetadataLayout([a, b], [0, 4]) && !IsStructLayout([a, b], [0, 4]) && IsStructLayout([a, b], [0, 1])
  {
    BoolIsByte();
    assert !IsTextureType("bool");
    hide MslSize, MslAlignment;
    assert MetadataEnd([a, b], [0, 4], 1) == 4;
    assert EndBefore([a, b], [0, 4], 1) == 1 && EndBefore([a, b], [0, 1], 1) == 1;
  }

  /** A half4 behind a float4 is at byte 0 of the metadata and at byte 16 of the struct. */
  lemma {:induction false} HalfIsMisplaced(a: Uniform, b: Uniform)
    requires a.typ == "float4" && b.typ == "half4"
    ensures IsMetadataLayout([a, b], [0, 0]) && !IsStructLayout([a, b], [0, 0]) && IsStructLayout([a, b], [0, 16])
  {
    HasNoSize("half4");
    assert !IsTextureType("float4");
    assert MslSize("float4") == MslAlignment("half4") == MslAlignment("float4") == 16;
    hide MslSize, MslAlignment;
    assert MetadataEnd([a, b], [0, 0], 1) == 16;
    assert EndBefore([a, b], [0, 0], 1) == 16 && EndBefore([a, b], [0, 16], 1) == 16;
  }

  lemma {:induction false} KnownLayoutsAgree(members: seq<Uniform>, offsets: seq<nat>)
    requires IsMetadataLayout(members, offsets) && AllKnown(members)
    ensures IsStructLayout(members, offsets) <==> NoAdjacentBools(members)
  {
    hide IsNextOffset, IsKnown, MslSize, MtlSize, MtlAlignment, GetShaderParamType, AlignUp;
    forall i | 0 <= i < |members|
      ensures IsNextOffset(EndBefore(members, offsets, i), members[i].typ, offsets[i])
         <==> !(members[i].typ == "bool" && i > 0 && Previous(members, i).typ == "bool")
    {
      OffsetAgrees(members, offsets, i);
    }
  }

  lemma {:induction false} LaidNext(src: Source, info: seq<ShaderUniform>, size: nat, entry: ShaderUniform)
    requires |info| < |src.uniforms| && Laid(src, info, size)
    ensures
      var uniform := src.uniforms[|info|];
      var gsType := GetShaderParamType(uniform.typ);
      if IsTexture(src, uniform.name) then Laid(src, info + [entry], size)
      else entry.byteOffset == AlignUp(size, MtlAlignment(gsType)) ==>
        Laid(src, info + [entry], entry.byteOffset + MtlSize(gsType))
  {
    hide IsTexture, AlignUp, MtlSize, MtlAlignment, GetShaderParamType;
    PlainOffsetsPush(src, info, entry, |info|);
    var uniform := src.uniforms[|info|];
    var members, offsets := Members(src, |info|), PlainOffsets(src, info, |info|);
    var aligned := AlignUp(size, MtlAlignment(GetShaderParamType(uniform.typ)));
    if !IsTexture(src, uniform.name) && entry.byteOffset == aligned {
      LayoutPush(members, offsets, uniform, entry.byteOffset);
    }
  }

  lemma {:induction false} LayoutPush(members: seq<Uniform>, offsets: seq<nat>, member: Uniform, offset: nat)
    requires IsMetadataLayout(members, offsets)
    requires offset == AlignUp(MetadataEnd(members, offsets, |members|), MtlAlignment(GetShaderParamType(member.typ)))
    ensures IsMetadataLayout(members + [member], offsets + [offset])
    ensures MetadataEnd(members + [member], offsets + [offset], |members| + 1)
         == offset + MtlSize(GetShaderParamType(member.typ))
  {
    hide AlignUp, MtlSize, MtlAlignment, GetShaderParamType;
    forall i | 0 <= i <= |members|
      ensures MetadataEnd(members + [member], offsets + [offset], i) == MetadataEnd(members, offsets, i)
    {
    }
  }

  lemma {:induction false} SlotsNext(src: Source, info: seq<ShaderUniform>, entry: ShaderUniform)
    requires |info| < |src.uniforms| && SlotsMatch(src, info)
    requires IsTexture(src, src.uniforms[|info|].name) ==> entry.textureSlot == |TextureNames(src, |info|)|
    ensures SlotsMatch(src, info + [entry])
  {
    hide IsTexture;
  }

  lemma {:induction false} SlotsAreBound(src: Source, info: seq<ShaderUniform>)
    requires |info| == |src.uniforms| && SlotsMatch(src, info)
    ensures forall i :: 0 <= i < |info| && IsTexture(src, src.uniforms[i].name) ==>
      Parameter(Texture, src.uniforms[i].name, Wrappers.Some(info[i].textureSlot)) in EntryParameters(src)
  {
    forall i | 0 <= i < |info| && IsTexture(src, src.uniforms[i].name)
      ensures Parameter(Texture, src.uniforms[i].name, Wrappers.Some(info[i].textureSlot)) in EntryParameters(src)
    {
      assert Bound(Texture, Textures(src))[info[i].textureSlot]
          == Parameter(Texture, src.uniforms[i].name, Wrappers.Some(info[i].textureSlot));
    }
  }

  // ---- The buffer ----------------------------------------------------------------------------------

  /** The uniform buffer, rounded up to 16 bytes, holds the whole struct. */
  lemma {:induction false} BufferHoldsStruct(members: seq<Uniform>, offsets: seq<nat>, size: nat)
    requires IsMetadataLayout(members, offsets) && IsStructSize(members, offsets, size)
    requires AllKnown(members)
    ensures size <= AlignUp(MetadataEnd(members, offsets, |members|), 16)
  {
    hide MslAlignment, MslSize, IsNextOffset, AlignUp, IsKnown, MtlSize, MtlAlignment, GetShaderParamType;
    var end, padded := EndBefore(members, offsets, |members|), MetadataEnd(members, offsets, |members|);
    if members != [] {
      TablesAgree(members[|members| - 1].typ);
      BoolIsByte();
    }
    assert end <= padded;
    if size == end {
      RoundsUp(padded, 16);
    } else {
      var i :| 0 <= i < |members| && IsNextOffset(end, members[i].typ, size);
      NextOffsetFits(end, padded, members[i].typ, size);
    }
  }

  lemma {:induction false} NextOffsetFits(end: nat, padded: nat, typ: string, size: nat)
    requires IsNextOffset(end, typ, size) && end <= padded
    ensures size <= AlignUp(padded, 16)
  {
    hide AlignUp;
    RoundsUp(padded, 16);
    RoundedFits(end, AlignUp(padded, 16), MslAlignment(typ), size);
  }

  lemma {:induction false} RoundedFits(end: nat, rounded: nat, a: nat, size: nat)
    requires a == 1 || a == 2 || a == 4 || a == 8 || a == 16
    requires size % a == 0 && size < end + a && end <= rounded && rounded % 16 == 0
    ensures size <= rounded
  {
    var p, k := size / a, rounded / 16;
    assert rounded == 16 * k;
    if a == 2 {
      assert size == 2 * p && p <= 8 * k;
    } else if a == 4 {
      assert size == 4 * p && p <= 4 * k;
    } else if a == 8 {
      assert size == 8 * p && p <= 2 * k;
    } else if a == 16 {
      assert size == 16 * p && p <= k;
    }
  }
}
