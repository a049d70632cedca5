/** The fixed-function settings of the D3D11 device, and the descriptors made from them. */
module PipelineSettings {
  datatype DepthTest = Never | Less | LessEqual | Equal | GreaterEqual | Greater | NotEqual | Always
  datatype StencilOp = Keep | Zero | Replace | Incr | Decr | Invert
  datatype BlendType = BlendZero | One | SrcColor | InvSrcColor | SrcAlpha | InvSrcAlpha
                     | DstColor | InvDstColor | DstAlpha | InvDstAlpha | SrcAlphaSat
  datatype BlendOp = Add | Subtract | ReverseSubtract | Min | Max
  datatype CullMode = Back | Front | Neither
  datatype DrawMode = Points | Lines | LineStrip | Tris | TriStrip
  datatype Sides = FrontSide | BackSide | BothSides

  datatype StencilSide = StencilSide(test: DepthTest, fail: StencilOp, zfail: StencilOp, zpass: StencilOp)

  datatype ZStencilState = ZStencilState(
    depthEnabled: bool, depthWriteEnabled: bool, depthFunc: DepthTest,
    stencilEnabled: bool, stencilWriteEnabled: bool, front: StencilSide, back: StencilSide)

  datatype RasterState = RasterState(cullMode: CullMode, scissorEnabled: bool)

  datatype BlendState = BlendState(
    blendEnabled: bool, srcC: BlendType, destC: BlendType, srcA: BlendType, destA: BlendType,
    op: BlendOp, red: bool, green: bool, blue: bool, alpha: bool)

  datatype DepthStencilDesc = DepthStencilDesc(
    depthEnable: bool, depthWriteAll: bool, depthFunc: DepthTest, stencilEnable: bool,
    stencilReadMask: nat, stencilWriteMask: nat, frontFace: StencilSide, backFace: StencilSide)

  datatype RasterizerDesc = RasterizerDesc(
    frontCounterClockwise: bool, solid: bool, cullMode: CullMode, depthClip: bool, scissor: bool)

  datatype BlendDesc = BlendDesc(
    enable: bool, op: BlendOp, opAlpha: BlendOp, src: BlendType, dest: BlendType,
    srcAlpha: BlendType, destAlpha: BlendType, writeMask: nat)

  function DescribeZStencil(s: ZStencilState): DepthStencilDesc {
    DepthStencilDesc(s.depthEnabled, s.depthWriteEnabled, s.depthFunc, s.stencilEnabled,
                     0xFF, if s.stencilWriteEnabled then 0xFF else 0, s.front, s.back)
  }

  function DescribeRaster(s: RasterState): RasterizerDesc {
    RasterizerDesc(true, true, s.cullMode, true, s.scissorEnabled)
  }

  function DescribeBlend(s: BlendState): BlendDesc {
    BlendDesc(s.blendEnabled, s.op, s.op, s.srcC, s.destC, s.srcA, s.destA,
              (if s.red then 1 else 0) + (if s.green then 2 else 0)
              + (if s.blue then 4 else 0) + (if s.alpha then 8 else 0))
  }

  /** No setting is lost in a descriptor, so one state object per settings value is one per descriptor. */
  lemma {:induction false} DescriptorsDetermineSettings(z: ZStencilState, z': ZStencilState,
                                                        r: RasterState, r': RasterState, b: BlendState, b': BlendState)
    ensures DescribeZStencil(z) == DescribeZStencil(z') ==> z == z'
    ensures DescribeRaster(r) == DescribeRaster(r') ==> r == r'
    ensures DescribeBlend(b) == DescribeBlend(b') ==> b == b'
  {}

  const DEFAULT_SIDE := StencilSide(Always, Keep, Keep, Keep)
  const DEFAULT_ZSTENCIL := ZStencilState(true, true, Less, false, true, DEFAULT_SIDE, DEFAULT_SIDE)
  const DEFAULT_RASTER := RasterState(Back, false)
  const DEFAULT_BLEND := BlendState(true, SrcAlpha, InvSrcAlpha, One, InvSrcAlpha, Add, true, true, true, true)

  datatype Settings = Settings(z: ZStencilState, r: RasterState, b: BlendState)

  datatype RasterCall =
    | SetCullMode(cull: CullMode)
    | SetScissor(scissor: bool)

  datatype BlendCall =
    | EnableBlending(enable: bool)
    | EnableColor(red: bool, green: bool, blue: bool, alpha: bool)
    | SetBlendFunction(src: BlendType, dest: BlendType)
    | SetBlendFunctionSeparate(srcC: BlendType, destC: BlendType, srcA: BlendType, destA: BlendType)
    | SetBlendOp(op: BlendOp)

  datatype ZStencilCall =
    | EnableDepthTest(enable: bool)
    | EnableStencilTest(enable: bool)
    | EnableStencilWrite(enable: bool)
    | SetDepthFunction(test: DepthTest)
    | SetStencilFunction(sides: Sides, test: DepthTest)
    | SetStencilOp(sides: Sides, fail: StencilOp, zfail: StencilOp, zpass: StencilOp)

  function ApplyRaster(s: RasterState, c: RasterCall): RasterState {
    match c
    case SetCullMode(m) => s.(cullMode := m)
    case SetScissor(on) => s.(scissorEnabled := on)
  }

  function ApplyBlend(s: BlendState, c: BlendCall): BlendState {
    match c
    case EnableBlending(on) => s.(blendEnabled := on)
    case EnableColor(r, g, b, a) => s.(red := r, green := g, blue := b, alpha := a)
    case SetBlendFunction(src, dest) => s.(srcC := src, destC := dest, srcA := src, destA := dest)
    case SetBlendFunctionSeparate(sc, dc, sa, da) => s.(srcC := sc, destC := dc, srcA := sa, destA := da)
    case SetBlendOp(op) => s.(op := op)
  }

  function ApplyZStencil(s: ZStencilState, c: ZStencilCall): ZStencilState {
    match c
    case EnableDepthTest(on) => s.(depthEnabled := on)
    case EnableStencilTest(on) => s.(stencilEnabled := on)
    case EnableStencilWrite(on) => s.(stencilWriteEnabled := on)
    case SetDepthFunction(t) => s.(depthFunc := t)
    case SetStencilFunction(sides, t) =>
      s.(front := if sides.BackSide? then s.front else s.front.(test := t),
         back := if sides.FrontSide? then s.back else s.back.(test := t))
    case SetStencilOp(sides, f, zf, zp) =>
      s.(front := if sides.BackSide? then s.front else StencilSide(s.front.test, f, zf, zp),
         back := if sides.FrontSide? then s.back else StencilSide(s.back.test, f, zf, zp))
  }
}
