/**
 What a drawn frame shows of the calls before it.

 Each part of a frame's pipeline is the value given by the last call that sets it, or the value
 the device starts with.  This is said of the calls and the frames alone.
 */
module FrameSettings {
  import opened Wrappers
  import opened PipelineSettings
  import opened StateCache
  import opened RenderTargets
  import opened LazyDevice

  /** The value of the last of the first n calls that sets it. */
  function LastSet<T>(calls: seq<Call>, n: nat, sets: Call -> Option<T>, start: T): T
    requires n <= |calls|
  {
    if n == 0 then start
    else if sets(calls[n - 1]).Some? then sets(calls[n - 1]).value
    else LastSet(calls, n - 1, sets, start)
  }

  /** What is set stays until the next call that sets it. */
  lemma {:induction false} LastSetIs<T>(calls: seq<Call>, i: nat, n: nat, sets: Call -> Option<T>, start: T)
    requires i < n <= |calls| && sets(calls[i]).Some?
    requires forall j :: i < j < n ==> sets(calls[j]).None?
    ensures LastSet(calls, n, sets, start) == sets(calls[i]).value
    decreases n
  {
    if i < n - 1 {
      LastSetIs(calls, i, n - 1, sets, start);
    }
  }

  function Or<T>(value: Option<T>, other: T): T {
    if value.Some? then value.value else other
  }

  lemma {:induction false} UpTo<T>(calls: seq<Call>, n: nat, sets: Call -> Option<T>, start: T)
    requires n <= |calls|
    ensures n == 0 ==> After(calls, n) == INITIAL_EAGER && LastSet(calls, n, sets, start) == start
    ensures n > 0 ==> After(calls, n) == Step(After(calls, n - 1), calls[n - 1])
    ensures n > 0 ==> LastSet(calls, n, sets, start) == Or(sets(calls[n - 1]), LastSet(calls, n - 1, sets, start))
  {
    hide Step;
  }

  /** A part of the reference that a call changes exactly by setting it is what was set last. */
  lemma {:induction false} PartIsLastSet<T>(calls: seq<Call>, n: nat, sets: Call -> Option<T>, start: T,
                                            part: EagerDevice -> T)
    requires n <= |calls| && part(INITIAL_EAGER) == start
    requires forall e, c :: part(Step(e, c)) == Or(sets(c), part(e))
    ensures part(After(calls, n)) == LastSet(calls, n, sets, start)
  {
    hide Step, After, LastSet;
    UpTo(calls, n, sets, start);
    if n > 0 {
      PartIsLastSet(calls, n - 1, sets, start, part);
      assert part(Step(After(calls, n - 1), calls[n - 1])) == Or(sets(calls[n - 1]), part(After(calls, n - 1)));
    }
  }

  // ---- What each call sets ------------------------------------------------------------------------

  function SetsBlendEnable(c: Call): Option<bool> {
    match c case SetBlend(EnableBlending(on)) => Some(on) case _ => None
  }

  function SetsSource(c: Call): Option<BlendType> {
    match c
    case SetBlend(SetBlendFunction(source, _)) => Some(source)
    case SetBlend(SetBlendFunctionSeparate(source, _, _, _)) => Some(source)
    case _ => None
  }

  function SetsDest(c: Call): Option<BlendType> {
    match c
    case SetBlend(SetBlendFunction(_, dest)) => Some(dest)
    case SetBlend(SetBlendFunctionSeparate(_, dest, _, _)) => Some(dest)
    case _ => None
  }

  function SetsSourceAlpha(c: Call): Option<BlendType> {
    match c
    case SetBlend(SetBlendFunction(source, _)) => Some(source)
    case SetBlend(SetBlendFunctionSeparate(_, _, source, _)) => Some(source)
    case _ => None
  }

  function SetsDestAlpha(c: Call): Option<BlendType> {
    match c
    case SetBlend(SetBlendFunction(_, dest)) => Some(dest)
    case SetBlend(SetBlendFunctionSeparate(_, _, _, dest)) => Some(dest)
    case _ => None
  }

  function SetsBlendOp(c: Call): Option<BlendOp> {
    match c case SetBlend(SetBlendOp(op)) => Some(op) case _ => None
  }

  function SetsRed(c: Call): Option<bool> {
    match c case SetBlend(EnableColor(on, _, _, _)) => Some(on) case _ => None
  }

  function SetsGreen(c: Call): Option<bool> {
    match c case SetBlend(EnableColor(_, on, _, _)) => Some(on) case _ => None
  }

  function SetsBlue(c: Call): Option<bool> {
    match c case SetBlend(EnableColor(_, _, on, _)) => Some(on) case _ => None
  }

  function SetsAlpha(c: Call): Option<bool> {
    match c case SetBlend(EnableColor(_, _, _, on)) => Some(on) case _ => None
  }

  function SetsCullMode(c: Call): Option<CullMode> {
    match c case SetRaster(SetCullMode(mode)) => Some(mode) case _ => None
  }

  function SetsScissor(c: Call): Option<bool> {
    match c case SetRaster(SetScissor(on)) => Some(on) case _ => None
  }

  function SetsDepthTest(c: Call): Option<bool> {
    match c case SetZStencil(EnableDepthTest(on)) => Some(on) case _ => None
  }

  function SetsDepthFunction(c: Call): Option<DepthTest> {
    match c case SetZStencil(SetDepthFunction(test)) => Some(test) case _ => None
  }

  function SetsStencilTest(c: Call): Option<bool> {
    match c case SetZStencil(EnableStencilTest(on)) => Some(on) case _ => None
  }

  function SetsStencilWrite(c: Call): Option<bool> {
    match c case SetZStencil(EnableStencilWrite(on)) => Some(on) case _ => None
  }

  function SetsFrontTest(c: Call): Option<DepthTest> {
    match c
    case SetZStencil(SetStencilFunction(FrontSide, test)) => Some(test)
    case SetZStencil(SetStencilFunction(BothSides, test)) => Some(test)
    case _ => None
  }

  function SetsBackTest(c: Call): Option<DepthTest> {
    match c
    case SetZStencil(SetStencilFunction(BackSide, test)) => Some(test)
    case SetZStencil(SetStencilFunction(BothSides, test)) => Some(test)
    case _ => None
  }

  // the operations for a failed stencil test, a failed depth test and a passed one
  datatype SideOps = SideOps(fail: StencilOp, zfail: StencilOp, zpass: StencilOp)

  function SetsFrontOps(c: Call): Option<SideOps> {
    match c
    case SetZStencil(SetStencilOp(FrontSide, fail, zfail, zpass)) => Some(SideOps(fail, zfail, zpass))
    case SetZStencil(SetStencilOp(BothSides, fail, zfail, zpass)) => Some(SideOps(fail, zfail, zpass))
    case _ => None
  }

  function SetsBackOps(c: Call): Option<SideOps> {
    match c
    case SetZStencil(SetStencilOp(BackSide, fail, zfail, zpass)) => Some(SideOps(fail, zfail, zpass))
    case SetZStencil(SetStencilOp(BothSides, fail, zfail, zpass)) => Some(SideOps(fail, zfail, zpass))
    case _ => None
  }

  const KEEP_ALL := SideOps(Keep, Keep, Keep)

  // ---- What a frame shows ---------------------------------------------------------------------------

  /** Bit i of a mask. */
  predicate Bit(mask: nat, i: nat) {
    if i == 0 then mask % 2 == 1 else Bit(mask / 2, i - 1)
  }

  /** The blend state of a frame is what the last calls set. */
  ghost predicate ShowsBlend(calls: seq<Call>, n: nat, b: BlendDesc)
    requires n <= |calls|
  {
    && b.enable == LastSet(calls, n, SetsBlendEnable, true)
    && b.src == LastSet(calls, n, SetsSource, SrcAlpha)
    && b.dest == LastSet(calls, n, SetsDest, InvSrcAlpha)
    && b.srcAlpha == LastSet(calls, n, SetsSourceAlpha, One)
    && b.destAlpha == LastSet(calls, n, SetsDestAlpha, InvSrcAlpha)
    && b.op == LastSet(calls, n, SetsBlendOp, Add) && b.opAlpha == b.op
    && b.writeMask < 16
    && Bit(b.writeMask, 0) == LastSet(calls, n, SetsRed, true)
    && Bit(b.writeMask, 1) == LastSet(calls, n, SetsGreen, true)
    && Bit(b.writeMask, 2) == LastSet(calls, n, SetsBlue, true)
    && Bit(b.writeMask, 3) == LastSet(calls, n, SetsAlpha, true)
  }

  /** Triangles are filled, and front faces wind counter-clockwise. */
  ghost predicate ShowsRaster(calls: seq<Call>, n: nat, r: RasterizerDesc)
    requires n <= |calls|
  {
    && r.frontCounterClockwise && r.solid && r.depthClip
    && r.cullMode == LastSet(calls, n, SetsCullMode, Back)
    && r.scissor == LastSet(calls, n, SetsScissor, false)
  }

  ghost predicate ShowsDepth(calls: seq<Call>, n: nat, z: DepthStencilDesc)
    requires n <= |calls|
  {
    && z.depthEnable == LastSet(calls, n, SetsDepthTest, true) && z.depthWriteAll
    && z.depthFunc == LastSet(calls, n, SetsDepthFunction, Less)
  }

  /** All eight stencil bits are read, and written if writing is enabled. */
  ghost predicate ShowsStencil(calls: seq<Call>, n: nat, z: DepthStencilDesc)
    requires n <= |calls|
  {
    && z.stencilEnable == LastSet(calls, n, SetsStencilTest, false)
    && z.stencilReadMask == 255
    && z.stencilWriteMask == (if LastSet(calls, n, SetsStencilWrite, true) then 255 else 0)
    && ShowsSide(z.frontFace, LastSet(calls, n, SetsFrontTest, Always), LastSet(calls, n, SetsFrontOps, KEEP_ALL))
    && ShowsSide(z.backFace, LastSet(calls, n, SetsBackTest, Always), LastSet(calls, n, SetsBackOps, KEEP_ALL))
  }

  predicate ShowsSide(side: StencilSide, test: DepthTest, ops: SideOps) {
    side.test == test && side.fail == ops.fail && side.zfail == ops.zfail && side.zpass == ops.zpass
  }

  lemma {:induction false} CallSetsFactors(s: BlendState, c: BlendCall)
    ensures ApplyBlend(s, c).srcC == Or(SetsSource(SetBlend(c)), s.srcC)
    ensures ApplyBlend(s, c).destC == Or(SetsDest(SetBlend(c)), s.destC)
    ensures ApplyBlend(s, c).srcA == Or(SetsSourceAlpha(SetBlend(c)), s.srcA)
    ensures ApplyBlend(s, c).destA == Or(SetsDestAlpha(SetBlend(c)), s.destA)
  {}

  lemma {:induction false} NoFactorsSet(c: Call)
    requires !c.SetBlend?
    ensures SetsSource(c) == None && SetsDest(c) == None && SetsSourceAlpha(c) == None && SetsDestAlpha(c) == None
  {}

  lemma {:induction false} StepSetsFactors(e: EagerDevice, c: Call)
    ensures Step(e, c).b.srcC == Or(SetsSource(c), e.b.srcC)
    ensures Step(e, c).b.destC == Or(SetsDest(c), e.b.destC)
    ensures Step(e, c).b.srcA == Or(SetsSourceAlpha(c), e.b.srcA)
    ensures Step(e, c).b.destA == Or(SetsDestAlpha(c), e.b.destA)
  {
    hide ApplyZStencil, ApplyRaster, ApplyBlend, Choose, AfterLoss;
    hide SetsSource, SetsDest, SetsSourceAlpha, SetsDestAlpha;
    if c.SetBlend? {
      CallSetsFactors(e.b, c.bcall);
    } else {
      NoFactorsSet(c);
    }
  }

  lemma {:induction false} FactorsSet(calls: seq<Call>, n: nat)
    requires n <= |calls|
    ensures After(calls, n).b.srcC == LastSet(calls, n, SetsSource, SrcAlpha)
    ensures After(calls, n).b.destC == LastSet(calls, n, SetsDest, InvSrcAlpha)
    ensures After(calls, n).b.srcA == LastSet(calls, n, SetsSourceAlpha, One)
    ensures After(calls, n).b.destA == LastSet(calls, n, SetsDestAlpha, InvSrcAlpha)
  {
    forall e, c
      ensures Step(e, c).b.srcC == Or(SetsSource(c), e.b.srcC)
      ensures Step(e, c).b.destC == Or(SetsDest(c), e.b.destC)
      ensures Step(e, c).b.srcA == Or(SetsSourceAlpha(c), e.b.srcA)
      ensures Step(e, c).b.destA == Or(SetsDestAlpha(c), e.b.destA)
    {
      StepSetsFactors(e, c);
    }
    hide Step, After, LastSet, Or, SetsSource, SetsDest, SetsSourceAlpha, SetsDestAlpha;
    PartIsLastSet(calls, n, SetsSource, SrcAlpha, (e: EagerDevice) => e.b.srcC);
    PartIsLastSet(calls, n, SetsDest, InvSrcAlpha, (e: EagerDevice) => e.b.destC);
    PartIsLastSet(calls, n, SetsSourceAlpha, One, (e: EagerDevice) => e.b.srcA);
    PartIsLastSet(calls, n, SetsDestAlpha, InvSrcAlpha, (e: EagerDevice) => e.b.destA);
  }

  lemma {:induction false} StepSetsBlending(e: EagerDevice, c: Call)
    ensures Step(e, c).b.blendEnabled == Or(SetsBlendEnable(c), e.b.blendEnabled)
    ensures Step(e, c).b.op == Or(SetsBlendOp(c), e.b.op)
  {
    hide ApplyZStencil, ApplyRaster, Choose, AfterLoss;
  }

  lemma {:induction false} BlendingSet(calls: seq<Call>, n: nat)
    requires n <= |calls|
    ensures After(calls, n).b.blendEnabled == LastSet(calls, n, SetsBlendEnable, true)
    ensures After(calls, n).b.op == LastSet(calls, n, SetsBlendOp, Add)
  {
    forall e, c
      ensures Step(e, c).b.blendEnabled == Or(SetsBlendEnable(c), e.b.blendEnabled)
      ensures Step(e, c).b.op == Or(SetsBlendOp(c), e.b.op)
    {
      StepSetsBlending(e, c);
    }
    hide Step, After, LastSet, Or, SetsBlendEnable, SetsBlendOp;
    PartIsLastSet(calls, n, SetsBlendEnable, true, (e: EagerDevice) => e.b.blendEnabled);
    PartIsLastSet(calls, n, SetsBlendOp, Add, (e: EagerDevice) => e.b.op);
  }

  lemma {:induction false} StepSetsColors(e: EagerDevice, c: Call)
    ensures Step(e, c).b.red == Or(SetsRed(c), e.b.red)
    ensures Step(e, c).b.green == Or(SetsGreen(c), e.b.green)
    ensures Step(e, c).b.blue == Or(SetsBlue(c), e.b.blue)
    ensures Step(e, c).b.alpha == Or(SetsAlpha(c), e.b.alpha)
  {
    hide ApplyZStencil, ApplyRaster, Choose, AfterLoss;
  }

  lemma {:induction false} ColorsSet(calls: seq<Call>, n: nat)
    requires n <= |calls|
    ensures After(calls, n).b.red == LastSet(calls, n, SetsRed, true)
    ensures After(calls, n).b.green == LastSet(calls, n, SetsGreen, true)
    ensures After(calls, n).b.blue == LastSet(calls, n, SetsBlue, true)
    ensures After(calls, n).b.alpha == LastSet(calls, n, SetsAlpha, true)
  {
    forall e, c
      ensures Step(e, c).b.red == Or(SetsRed(c), e.b.red)
      ensures Step(e, c).b.green == Or(SetsGreen(c), e.b.green)
      ensures Step(e, c).b.blue == Or(SetsBlue(c), e.b.blue)
      ensures Step(e, c).b.alpha == Or(SetsAlpha(c), e.b.alpha)
    {
      StepSetsColors(e, c);
    }
    hide Step, After, LastSet, Or, SetsRed, SetsGreen, SetsBlue, SetsAlpha;
    PartIsLastSet(calls, n, SetsRed, true, (e: EagerDevice) => e.b.red);
    PartIsLastSet(calls, n, SetsGreen, true, (e: EagerDevice) => e.b.green);
    PartIsLastSet(calls, n, SetsBlue, true, (e: EagerDevice) => e.b.blue);
    PartIsLastSet(calls, n, SetsAlpha, true, (e: EagerDevice) => e.b.alpha);
  }

  lemma {:induction false} MaskBits(b: BlendState)
    ensures
      var mask := DescribeBlend(b).writeMask;
      mask < 16 && Bit(mask, 0) == b.red && Bit(mask, 1) == b.green && Bit(mask, 2) == b.blue && Bit(mask, 3) == b.alpha
  {
    var mask := DescribeBlend(b).writeMask;
    assert Bit(mask, 1) == Bit(mask / 2, 0);
    assert Bit(mask, 2) == Bit(mask / 2, 1) == Bit(mask / 2 / 2, 0);
    assert Bit(mask, 3) == Bit(mask / 2, 2) == Bit(mask / 2 / 2, 1) == Bit(mask / 2 / 2 / 2, 0);
  }

  lemma {:induction false} BlendShown(calls: seq<Call>, n: nat)
    requires n <= |calls|
    ensures ShowsBlend(calls, n, DescribeBlend(After(calls, n).b))
  {
    FactorsSet(calls, n);
    BlendingSet(calls, n);
    ColorsSet(calls, n);
    MaskBits(After(calls, n).b);
    hide After, LastSet, Bit;
  }

  lemma {:induction false} RasterShown(calls: seq<Call>, n: nat)
    requires n <= |calls|
    ensures ShowsRaster(calls, n, DescribeRaster(After(calls, n).r))
  {
    if n > 0 {
      RasterShown(calls, n - 1);
    }
  }

  lemma {:induction false} DepthShown(calls: seq<Call>, n: nat)
    requires n <= |calls|
    ensures ShowsDepth(calls, n, DescribeZStencil(After(calls, n).z))
  {
    if n > 0 {
      DepthShown(calls, n - 1);
    }
  }

  lemma {:induction false} FrontSet(calls: seq<Call>, n: nat)
    requires n <= |calls|
    ensures ShowsSide(After(calls, n).z.front, LastSet(calls, n, SetsFrontTest, Always),
                      LastSet(calls, n, SetsFrontOps, KEEP_ALL))
  {
    if n > 0 {
      FrontSet(calls, n - 1);
      hide ApplyBlend, ApplyRaster, Choose, AfterLoss;
    }
  }

  lemma {:induction false} BackSet(calls: seq<Call>, n: nat)
    requires n <= |calls|
    ensures ShowsSide(After(calls, n).z.back, LastSet(calls, n, SetsBackTest, Always),
                      LastSet(calls, n, SetsBackOps, KEEP_ALL))
  {
    if n > 0 {
      BackSet(calls, n - 1);
      hide ApplyBlend, ApplyRaster, Choose, AfterLoss;
    }
  }

  lemma {:induction false} StencilSet(calls: seq<Call>, n: nat)
    requires n <= |calls|
    ensures
      var z := After(calls, n).z;
      && z.stencilEnabled == LastSet(calls, n, SetsStencilTest, false)
      && z.stencilWriteEnabled == LastSet(calls, n, SetsStencilWrite, true)
  {
    if n > 0 {
      StencilSet(calls, n - 1);
      hide ApplyBlend, ApplyRaster, Choose, AfterLoss;
    }
  }

  lemma {:induction false} StencilShown(calls: seq<Call>, n: nat)
    requires n <= |calls|
    ensures ShowsStencil(calls, n, DescribeZStencil(After(calls, n).z))
  {
    StencilSet(calls, n);
    FrontSet(calls, n);
    BackSet(calls, n);
    hide After, LastSet, ShowsSide;
  }

  /** This call draws a frame. */
  ghost predicate Draws(calls: seq<Call>, n: nat) {
    n < |calls| && Frames(calls, n + 1) != Frames(calls, n)
  }

  lemma {:induction false} DrawnFrame(calls: seq<Call>, n: nat)
    requires n < |calls|
    ensures Draws(calls, n) <==> Drawn(After(calls, n), calls[n]) != []
    ensures Draws(calls, n) ==>
      && calls[n].Draw? && calls[n].readiness.Prepared?
      && Frames(calls, n + 1) == Frames(calls, n) + [FrameOf(After(calls, n), calls[n].mode)]
  {
    hide FrameOf, Target;
    var drawn := Drawn(After(calls, n), calls[n]);
    assert Frames(calls, n + 1) == Frames(calls, n) + drawn;
    if drawn == [] {
      assert Frames(calls, n) + drawn == Frames(calls, n);
    } else {
      assert |Frames(calls, n) + drawn| > |Frames(calls, n)|;
    }
  }

  /** Every frame of a run shows the settings that were made last. */
  lemma {:induction false} FrameShowsLastSettings(calls: seq<Call>, n: nat)
    requires Draws(calls, n)
    ensures calls[n].Draw? && |Frames(calls, n + 1)| == |Frames(calls, n)| + 1
    ensures
      var frame := Frames(calls, n + 1)[|Frames(calls, n)|];
      && frame.mode == calls[n].mode
      && ShowsBlend(calls, n, frame.b) && ShowsRaster(calls, n, frame.r)
      && ShowsDepth(calls, n, frame.z) && ShowsStencil(calls, n, frame.z)
  {
    BlendShown(calls, n);
    RasterShown(calls, n);
    DepthShown(calls, n);
    StencilShown(calls, n);
    DrawnFrame(calls, n);
    hide Frames, After, ShowsBlend, ShowsRaster, ShowsDepth, ShowsStencil, Draws;
    hide DescribeZStencil, DescribeRaster, DescribeBlend, HasTargetView, OutputsOf;
  }

  /** A frame right behind a call of device_blend_function_separate has its four factors. */
  lemma {:induction false} SeparateFactorsAreDrawn(calls: seq<Call>, n: nat, sc: BlendType, dc: BlendType,
          sa: BlendType, da: BlendType)
    requires Draws(calls, n) && n > 0 && calls[n - 1] == SetBlend(SetBlendFunctionSeparate(sc, dc, sa, da))
    ensures |Frames(calls, n + 1)| == |Frames(calls, n)| + 1
    ensures var b := Frames(calls, n + 1)[|Frames(calls, n)|].b;
      b.src == sc && b.dest == dc && b.srcAlpha == sa && b.destAlpha == da
  {
    FrameShowsLastSettings(calls, n);
    hide Frames, Draws, Bit;
  }

  /** ... and one behind device_blend_function has both factors for the colors and for alpha. */
  lemma {:induction false} FactorsAreDrawn(calls: seq<Call>, n: nat, source: BlendType, dest: BlendType)
    requires Draws(calls, n) && n > 0 && calls[n - 1] == SetBlend(SetBlendFunction(source, dest))
    ensures |Frames(calls, n + 1)| == |Frames(calls, n)| + 1
    ensures var b := Frames(calls, n + 1)[|Frames(calls, n)|].b;
      b.src == source && b.dest == dest && b.srcAlpha == source && b.destAlpha == dest
  {
    FrameShowsLastSettings(calls, n);
    hide Frames, Draws, Bit;
  }

  // ---- Targets --------------------------------------------------------------------------------------

  function SetsSrgb(c: Call): Option<bool> {
    match c case SetTarget(SetFramebufferSrgb(on)) => Some(on) case _ => None
  }

  lemma {:induction false} SrgbShown(calls: seq<Call>, n: nat)
    requires n <= |calls|
    ensures After(calls, n).choice.srgb == LastSet(calls, n, SetsSrgb, false)
  {
    if n > 0 {
      SrgbShown(calls, n - 1);
    }
  }

  /** A call that leaves the client's target, depth buffer and side alone. */
  predicate KeepsTarget(c: Call) {
    match c
    case SetTarget(SetRenderTarget(_, _)) => false
    case SetTarget(SetCubeRenderTarget(_, _, _)) => false
    case Present(lost, _) => !lost
    case _ => true
  }

  /** What the client chose last stays chosen. */
  lemma {:induction false} TargetStays(calls: seq<Call>, i: nat, n: nat)
    requires i <= n <= |calls| && forall j :: i <= j < n ==> KeepsTarget(calls[j])
    ensures
      var a, b := After(calls, i).choice, After(calls, n).choice;
      a.target == b.target && a.zs == b.zs && a.side == b.side
    decreases n
  {
    if i < n {
      TargetStays(calls, i, n - 1);
    }
  }

  /** Choosing a flat target, or null, takes effect with side 0; a cube texture is refused. */
  lemma {:induction false} TargetIsChosen(calls: seq<Call>, i: nat, tex: Addr, zs: Addr)
    requires ValidRun(calls) && i < |calls| && calls[i] == SetTarget(SetRenderTarget(tex, zs))
    ensures
      var before, after := After(calls, i).choice, After(calls, i + 1).choice;
      if tex == NULL || (tex in before.world.textures && before.world.textures[tex].kind == Texture2D)
      then after.target == tex && after.zs == zs && after.side == 0
      else after == before
  {
    ReachableWellFormed(calls, i);
    assert !InUse(After(calls, i).choice.world, NULL);
    assert CallAllowed(After(calls, i), calls[i]);
  }

  /** Choosing a side of a cube texture takes effect; a flat texture, or null, is refused. */
  lemma {:induction false} CubeSideIsChosen(calls: seq<Call>, i: nat, tex: Addr, side: nat, zs: Addr)
    requires ValidRun(calls) && i < |calls| && calls[i] == SetTarget(SetCubeRenderTarget(tex, side, zs))
    ensures
      var before, after := After(calls, i).choice, After(calls, i + 1).choice;
      if tex in before.world.textures && before.world.textures[tex].kind == Cube
      then after.target == tex && after.zs == zs && after.side == side
      else after == before
  {}

  lemma {:induction false} StepKeepsSide(e: EagerDevice, c: Call)
    requires CallAllowed(e, c) && e.choice.side < 6
    ensures Step(e, c).choice.side < 6
  {
    hide AddChain, RemoveChain, ResizeChain, ApplyBlend, ApplyRaster, ApplyZStencil;
  }

  lemma {:induction false} SideInRange(calls: seq<Call>, n: nat)
    requires ValidRun(calls) && n <= |calls|
    ensures After(calls, n).choice.side < 6
  {
    if n > 0 {
      SideInRange(calls, n - 1);
      assert CallAllowed(After(calls, n - 1), calls[n - 1]);
      StepKeepsSide(After(calls, n - 1), calls[n - 1]);
      hide ValidRun, CallAllowed, Step;
    }
  }

  /** The texture a draw writes to: the client's, or else that of the current swap chain. */
  ghost predicate DrawsTo(e: Chosen, tex: Addr) {
    if e.target != NULL then tex == e.target
    else e.chain in e.world.chains && tex == e.world.chains[e.chain].target
  }

  ghost predicate DrawsDepth(e: Chosen, zs: Addr) {
    if e.zs != NULL then zs == e.zs
    else e.chain in e.world.chains && zs == e.world.chains[e.chain].zs
  }

  /**
   A frame's outputs: the chosen side of the current texture, in linear form if asked for and
   different, and the view of the current depth buffer.
   */
  lemma {:induction false} FrameShowsTarget(calls: seq<Call>, n: nat, tex: Addr)
    requires ValidRun(calls) && Draws(calls, n) && DrawsTo(After(calls, n).choice, tex)
    ensures |Frames(calls, n + 1)| == |Frames(calls, n)| + 1
    ensures
      var e, outputs := After(calls, n).choice, Frames(calls, n + 1)[|Frames(calls, n)|].outputs;
      && tex in e.world.textures && (outputs.Some? <==> e.world.textures[tex].hasViews)
      && (outputs.Some? ==>
            var texture := e.world.textures[tex];
            outputs.value.rtv == Some(View(e.world.epoch, texture.gen, e.side,
                                           LastSet(calls, n, SetsSrgb, false) && texture.linearDiffers)))
  {
    ReachableWellFormed(calls, n);
    SideInRange(calls, n);
    SrgbShown(calls, n);
    DrawnFrame(calls, n);
    hide Frames, After, Draws, DescribeZStencil, DescribeRaster, DescribeBlend, ValidRun;
    var e := After(calls, n).choice;
    if e.chain != NULL {
      assert ChainOwns(e.world, e.chain);
    }
    assert !InUse(e.world, NULL);
  }

  lemma {:induction false} FrameShowsDepthBuffer(calls: seq<Call>, n: nat)
    requires ValidRun(calls) && Draws(calls, n)
    ensures |Frames(calls, n + 1)| == |Frames(calls, n)| + 1
    ensures
      var e, outputs := After(calls, n).choice, Frames(calls, n + 1)[|Frames(calls, n)|].outputs;
      outputs.Some? ==>
        && (outputs.value.dsv.Some? <==>
              exists zs :: DrawsDepth(e, zs) && zs in e.world.zbuffers && e.world.zbuffers[zs].hasView)
        && (forall zs :: DrawsDepth(e, zs) && zs in e.world.zbuffers && e.world.zbuffers[zs].hasView ==>
              outputs.value.dsv == Some(View(e.world.epoch, e.world.zbuffers[zs].gen, 0, false)))
  {
    ReachableWellFormed(calls, n);
    DrawnFrame(calls, n);
    hide Frames, After, Draws, DescribeZStencil, DescribeRaster, DescribeBlend, ValidRun, RenderTargetView;
    var e := After(calls, n).choice;
    if e.chain != NULL {
      assert ChainOwns(e.world, e.chain);
    }
    assert !InUse(e.world, NULL);
    assert DrawsDepth(e, Depth(e)) || Depth(e) == NULL;
  }

  /** A prepared draw draws exactly if there is a current texture. */
  lemma {:induction false} DrawsExactlyWhen(calls: seq<Call>, n: nat)
    requires ValidRun(calls) && n < |calls| && calls[n].Draw?
    ensures Draws(calls, n) <==>
      calls[n].readiness.Prepared? && (After(calls, n).choice.target != NULL || After(calls, n).choice.chain != NULL)
  {
    ReachableWellFormed(calls, n);
    DrawnFrame(calls, n);
    hide Frames, After, Draws, ValidRun;
    var e := After(calls, n).choice;
    assert !InUse(e.world, NULL);
  }

  // ---- Views are told apart ---------------------------------------------------------------------------

  /** No two textures have the same views, nor do two depth buffers, and new views differ from all of these. */
  ghost predicate ViewsApart(w: World) {
    && (forall a :: a in w.textures ==> w.textures[a].gen < w.clock)
    && (forall a :: a in w.zbuffers ==> w.zbuffers[a].gen < w.clock)
    && (forall a, b :: a in w.textures && b in w.textures && a != b ==> w.textures[a].gen != w.textures[b].gen)
    && (forall a, b :: a in w.zbuffers && b in w.zbuffers && a != b ==> w.zbuffers[a].gen != w.zbuffers[b].gen)
  }

  lemma {:induction false} ChooseKeepsViewsApart(e: Chosen, c: TargetCall)
    requires ViewsApart(e.world)
    ensures ViewsApart(Choose(e, c).world) && e.world.clock <= Choose(e, c).world.clock
    ensures e.world.epoch == Choose(e, c).world.epoch
  {
    if ManagesChain(c) {
      ChainKeepsViewsApart(e, c);
      hide *;
    }
  }

  lemma {:induction false} ChainKeepsViewsApart(e: Chosen, c: TargetCall)
    requires ViewsApart(e.world) && ManagesChain(c)
    ensures ViewsApart(Choose(e, c).world) && e.world.clock <= Choose(e, c).world.clock
    ensures e.world.epoch == Choose(e, c).world.epoch
  {
    hide ViewsApart, ResizeChain, AddChain, RemoveChain;
    match c
    case Resize(linear, zview) => ResizedViewsApart(e.world, e.chain, linear, zview);
    case CreateSwapChain(a, t, z, linear, zview) => AddedViewsApart(e.world, a, t, z, linear, zview);
    case DestroySwapChain(a) => RemovedViewsApart(e.world, a);
  }

  lemma {:induction false} RemovedViewsApart(w: World, a: Addr)
    requires ViewsApart(w)
    ensures a in w.chains ==>
      var w' := RemoveChain(w, a); ViewsApart(w') && w.clock <= w'.clock && w.epoch == w'.epoch
  {}

  lemma {:induction false} ResizedViewsApart(w: World, a: Addr, linear: bool, zview: bool)
    requires ViewsApart(w)
    ensures var w' := ResizeChain(w, a, linear, zview); ViewsApart(w') && w.clock <= w'.clock && w.epoch == w'.epoch
  {}

  lemma {:induction false} AddedViewsApart(w: World, a: Addr, t: Addr, z: Addr, linear: bool, zview: bool)
    requires ViewsApart(w)
    ensures var w' := AddChain(w, a, t, z, linear, zview); ViewsApart(w') && w.clock <= w'.clock && w.epoch == w'.epoch
  {}

  /** In every reachable state, views are told apart, and a device loss replaces all of them. */
  lemma {:induction false} ReachableViewsApart(calls: seq<Call>, n: nat)
    requires n <= |calls|
    ensures ViewsApart(After(calls, n).choice.world)
    ensures n > 0 && calls[n - 1].Present? && calls[n - 1].deviceLost && After(calls, n - 1).choice.chain != NULL ==>
      After(calls, n).choice.world.epoch == After(calls, n - 1).choice.world.epoch + 1
  {
    if n > 0 {
      ReachableViewsApart(calls, n - 1);
      if calls[n - 1].SetTarget? {
        ChooseKeepsViewsApart(After(calls, n - 1).choice, calls[n - 1].tcall);
      }
      hide Choose;
    }
  }

  /** Resizing gives the current chain's texture and depth buffer views that nothing had before. */
  lemma {:induction false} ResizeMakesViews(calls: seq<Call>, i: nat, linear: bool, zview: bool)
    requires ValidRun(calls) && i < |calls| && calls[i] == SetTarget(Resize(linear, zview))
    requires After(calls, i).choice.chain != NULL
    ensures
      var before, after := After(calls, i).choice.world, After(calls, i + 1).choice.world;
      var chain := After(calls, i).choice.chain;
      && chain in after.chains && after.chains == before.chains
      && after.chains[chain].target in after.textures && after.chains[chain].zs in after.zbuffers
      && after.textures[after.chains[chain].target].gen >= before.clock
      && after.textures[after.chains[chain].target].linearDiffers == linear
      && after.zbuffers[after.chains[chain].zs].gen >= before.clock
      && after.zbuffers[after.chains[chain].zs].hasView == zview
  {
    ReachableWellFormed(calls, i);
    var e := After(calls, i).choice;
    assert ChainOwns(e.world, e.chain);
  }

  /** A new object is as it was asked for, belongs to the client, and leaves the others alone. */
  lemma {:induction false} CreatedAsAsked(e: Chosen, a: Addr, kind: TextureKind, views: bool, linear: bool, zview: bool)
    requires WellFormed(e) && a != NULL && !InUse(e.world, a)
    ensures
      var w := Choose(e, CreateTexture(a, kind, views, linear)).world;
      && a in w.textures && w.textures[a].owner == NULL && w.textures[a].kind == kind
      && w.textures[a].hasViews == views && w.textures[a].linearDiffers == linear
      && w.textures - {a} == e.world.textures && w.zbuffers == e.world.zbuffers && w.chains == e.world.chains
    ensures
      var w := Choose(e, CreateZStencil(a, zview)).world;
      && a in w.zbuffers && w.zbuffers[a].owner == NULL && w.zbuffers[a].hasView == zview
      && w.zbuffers - {a} == e.world.zbuffers && w.textures == e.world.textures && w.chains == e.world.chains
  {
    hide WellFormedWorld;
  }

  /** A swap chain comes with a flat texture that has views, and with a depth buffer. */
  lemma {:induction false} ChainAsAsked(e: Chosen, a: Addr, t: Addr, z: Addr, linear: bool, zview: bool)
    requires WellFormed(e) && CallOk(e, CreateSwapChain(a, t, z, linear, zview))
    ensures
      var w := Choose(e, CreateSwapChain(a, t, z, linear, zview)).world;
      && a in w.chains && w.chains[a].target == t && w.chains[a].zs == z && w.chains - {a} == e.world.chains
      && t in w.textures && w.textures[t].owner == a && w.textures[t].kind == Texture2D && w.textures[t].hasViews
      && w.textures[t].linearDiffers == linear && w.textures - {t} == e.world.textures
      && z in w.zbuffers && w.zbuffers[z].owner == a && w.zbuffers[z].hasView == zview
      && w.zbuffers - {z} == e.world.zbuffers
  {}

  /** Destroying an object removes it, a chain with its two objects, and nothing else. */
  lemma {:induction false} DestroyedOnly(e: Chosen, a: Addr)
    requires WellFormed(e)
    ensures Choose(e, DestroyTexture(a)).world.textures == e.world.textures - {a}
    ensures Choose(e, DestroyZStencil(a)).world.zbuffers == e.world.zbuffers - {a}
    ensures a in e.world.chains ==>
      var w := Choose(e, DestroySwapChain(a)).world;
      && w.chains == e.world.chains - {a}
      && w.textures == e.world.textures - {e.world.chains[a].target}
      && w.zbuffers == e.world.zbuffers - {e.world.chains[a].zs}
    ensures a in e.world.chains ==>
      Choose(e, DestroySwapChain(a)).chain == (if e.chain == a then NULL else e.chain)
  {}
}
