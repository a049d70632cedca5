/**
 The D3D11 device: setters record settings and raise flags, and only a draw flushes them
 to the context.  It is proved to draw, over every run of calls, exactly the frames of an
 eager device whose pipeline always is what its settings and choices describe.
 */
module LazyDevice {
  import opened Wrappers
  import opened StateCache
  import opened PipelineSettings
  import opened RenderTargets

  // ---- The reference: an eager device -------------------------------------------------

  datatype EagerDevice = EagerDevice(z: ZStencilState, r: RasterState, b: BlendState, choice: Chosen)

  const INITIAL_EAGER := EagerDevice(DEFAULT_ZSTENCIL, DEFAULT_RASTER, DEFAULT_BLEND, INITIAL_CHOICE)

  // how far device_draw gets through its own checks and through the shader uploads
  datatype Readiness = NotReady | UploadFails | Prepared

  // the addresses the driver proposes for new state objects
  datatype Hints = Hints(z: Addr, r: Addr, b: Addr)

  datatype Call =
    | SetZStencil(zcall: ZStencilCall)
    | SetRaster(rcall: RasterCall)
    | SetBlend(bcall: BlendCall)
    | SetTarget(tcall: TargetCall)
    | Draw(mode: DrawMode, readiness: Readiness, hints: Hints)
    | Present(deviceLost: bool, rebuilt: nat -> Hints)

  ghost predicate CallAllowed(e: EagerDevice, c: Call) {
    c.SetTarget? ==> CallOk(e.choice, c.tcall)
  }

  function Step(e: EagerDevice, c: Call): EagerDevice {
    match c
    case SetZStencil(zc) => e.(z := ApplyZStencil(e.z, zc))
    case SetRaster(rc) => e.(r := ApplyRaster(e.r, rc))
    case SetBlend(bc) => e.(b := ApplyBlend(e.b, bc))
    case SetTarget(tc) => e.(choice := Choose(e.choice, tc))
    case Draw(_, _, _) => e
    case Present(lost, _) => if lost && e.choice.chain != NULL then e.(choice := AfterLoss(e.choice)) else e
  }

  // The pipeline a draw runs with; the outputs are recorded when the target has a view.
  datatype Frame = Frame(z: DepthStencilDesc, r: RasterizerDesc, b: BlendDesc, mode: DrawMode, outputs: Option<Outputs>)

  function FrameOf(e: EagerDevice, mode: DrawMode): Frame {
    Frame(DescribeZStencil(e.z), DescribeRaster(e.r), DescribeBlend(e.b), mode,
          if HasTargetView(e.choice) then Some(OutputsOf(e.choice)) else None)
  }

  /** The frames one call draws: none unless it is a draw that gets through. */
  function Drawn(e: EagerDevice, c: Call): seq<Frame> {
    if c.Draw? && c.readiness.Prepared? && (e.choice.chain != NULL || Target(e.choice) != NULL)
    then [FrameOf(e, c.mode)] else []
  }

  lemma {:induction false} StepWellFormed(e: EagerDevice, c: Call)
    requires WellFormed(e.choice) && CallAllowed(e, c)
    ensures WellFormed(Step(e, c).choice)
  {
    match c
    case SetTarget(tc) => ChooseWellFormed(e.choice, tc);
    case Present(_, _) => AfterLossWellFormed(e.choice);
    case _ =>
  }

  /** The reference after the first n calls. */
  function After(calls: seq<Call>, n: nat): EagerDevice
    requires n <= |calls|
  {
    if n == 0 then INITIAL_EAGER else Step(After(calls, n - 1), calls[n - 1])
  }

  /** Every call respects the duties of a caller in the state it is made in. */
  ghost predicate ValidRun(calls: seq<Call>) {
    forall i :: 0 <= i < |calls| ==> CallAllowed(After(calls, i), calls[i])
  }

  /** The frames drawn by the first n calls. */
  function Frames(calls: seq<Call>, n: nat): seq<Frame>
    requires n <= |calls|
  {
    if n == 0 then [] else Frames(calls, n - 1) + Drawn(After(calls, n - 1), calls[n - 1])
  }

  lemma {:induction false} ReachableWellFormed(calls: seq<Call>, n: nat)
    requires ValidRun(calls) && n <= |calls|
    ensures WellFormed(After(calls, n).choice)
  {
    if n > 0 {
      ReachableWellFormed(calls, n - 1);
      StepWellFormed(After(calls, n - 1), calls[n - 1]);
    }
  }

  /** In every reachable state the current target and depth buffer are null, or live objects
      that belong to the client or to the live current swap chain. */
  lemma {:induction false} CurrentTargetsAreAlive(calls: seq<Call>, n: nat)
    requires ValidRun(calls) && n <= |calls|
    ensures
      var e := After(calls, n).choice;
      var t, z := Target(e), Depth(e);
      && (t != NULL ==> t in e.world.textures && e.world.textures[t].owner in {NULL, e.chain})
      && (z != NULL ==> z in e.world.zbuffers && e.world.zbuffers[z].owner in {NULL, e.chain})
      && (e.chain != NULL ==> e.chain in e.world.chains && t != NULL && z != NULL)
  {
    ReachableWellFormed(calls, n);
    var e := After(calls, n).choice;
    if e.chain != NULL {
      assert ChainOwns(e.world, e.chain) && !InUse(e.world, NULL);
    }
  }

  // ---- The setters ----------------------------------------------------------------------

  // the front and the back side are compared and stored one after the other
  method UpdateStencilSides(cache: StateCache<ZStencilState, DepthStencilDesc>, sides: Sides,
                            front: StencilSide, back: StencilSide)
    requires cache.Valid()
    modifies cache`settings, cache`changed
    ensures cache.Valid()
    ensures cache.settings == old(cache.settings).(
              front := if sides.BackSide? then old(cache.settings).front else front,
              back := if sides.FrontSide? then old(cache.settings).back else back)
  {
    if !sides.BackSide? {
      cache.Set(cache.settings.(front := front));
    }
    if !sides.FrontSide? {
      cache.Set(cache.settings.(back := back));
    }
  }

  method UpdateZStencil(cache: StateCache<ZStencilState, DepthStencilDesc>, c: ZStencilCall)
    requires cache.Valid()
    modifies cache`settings, cache`changed
    ensures cache.Valid() && cache.settings == ApplyZStencil(old(cache.settings), c)
  {
    var s := cache.settings;
    match c {
      case EnableDepthTest(on) => cache.Set(s.(depthEnabled := on));
      case EnableStencilTest(on) => cache.Set(s.(stencilEnabled := on));
      case EnableStencilWrite(on) => cache.Set(s.(stencilWriteEnabled := on));
      case SetDepthFunction(t) => cache.Set(s.(depthFunc := t));
      case SetStencilFunction(sides, t) =>
        UpdateStencilSides(cache, sides, s.front.(test := t), s.back.(test := t));
      case SetStencilOp(sides, f, zf, zp) =>
        UpdateStencilSides(cache, sides, StencilSide(s.front.test, f, zf, zp), StencilSide(s.back.test, f, zf, zp));
    }
  }

  method UpdateRaster(cache: StateCache<RasterState, RasterizerDesc>, c: RasterCall)
    requires cache.Valid()
    modifies cache`settings, cache`changed
    ensures cache.Valid() && cache.settings == ApplyRaster(old(cache.settings), c)
  {
    var s := cache.settings;
    match c {
      case SetCullMode(m) => cache.Set(s.(cullMode := m));
      case SetScissor(on) => cache.SetAlways(s.(scissorEnabled := on));
    }
  }

  method UpdateBlend(cache: StateCache<BlendState, BlendDesc>, c: BlendCall)
    requires cache.Valid()
    modifies cache`settings, cache`changed
    ensures cache.Valid() && cache.settings == ApplyBlend(old(cache.settings), c)
  {
    var s := cache.settings;
    match c {
      case EnableBlending(on) => cache.Set(s.(blendEnabled := on));
      case EnableColor(r, g, b, a) => cache.Set(s.(red := r, green := g, blue := b, alpha := a));
      case SetBlendFunction(src, dest) =>
        cache.Set(s.(srcC := src, destC := dest, srcA := src, destA := dest));
      case SetBlendFunctionSeparate(sc, dc, sa, da) =>
        cache.Set(s.(srcC := sc, destC := dc, srcA := sa, destA := da));
      case SetBlendOp(op) => cache.Set(s.(op := op));
    }
  }

  // ---- The device -----------------------------------------------------------------------

  class Device {
    const zstencil: StateCache<ZStencilState, DepthStencilDesc>
    const raster: StateCache<RasterState, RasterizerDesc>
    const blend: StateCache<BlendState, BlendDesc>
    const outputs: OutputMerger

    // None is D3D11_PRIMITIVE_TOPOLOGY_UNDEFINED
    var curTopology: Option<DrawMode>
    var boundTopology: Option<DrawMode>

    ghost predicate Separate() {
      && zstencil as object != raster as object && zstencil as object != blend as object
      && raster as object != blend as object
      && outputs as object != zstencil as object && outputs as object != raster as object
      && outputs as object != blend as object
      && this as object !in {zstencil as object, raster as object, blend as object, outputs as object}
    }

    ghost predicate Valid()
      reads this, zstencil, raster, blend, outputs
    {
      && Separate() && outputs.Valid()
      && zstencil.Valid() && raster.Valid() && blend.Valid()
      && zstencil.convert == DescribeZStencil && raster.convert == DescribeRaster && blend.convert == DescribeBlend
      && (curTopology != None ==> boundTopology == curTopology)
    }

    /** The reference device this one stands for. */
    ghost function Eager(): (e: EagerDevice)
      reads this, zstencil, raster, blend, outputs
      requires Valid()
      ensures WellFormed(e.choice)
    {
      EagerDevice(zstencil.settings, raster.settings, blend.settings, outputs.chosen)
    }

    /** The pointers the device keeps are null, or lead to live objects of the client or of the
        live current swap chain. */
    ghost predicate CachedTargetsAreAlive()
      reads outputs
    {
      var t, z, c, w := outputs.curRenderTarget, outputs.curZStencilBuffer, outputs.curSwapChain, outputs.world;
      && (t != NULL ==> t in w.textures && w.textures[t].owner in {NULL, c})
      && (z != NULL ==> z in w.zbuffers && w.zbuffers[z].owner in {NULL, c})
      && (c != NULL ==> c in w.chains && t != NULL && z != NULL)
    }

    lemma {:induction false} CachedTargets()
      requires Valid()
      ensures CachedTargetsAreAlive()
    {
      if outputs.curSwapChain != NULL {
        assert ChainOwns(outputs.world, outputs.curSwapChain) && !InUse(outputs.world, NULL);
      }
    }

    constructor ()
      ensures Valid() && fresh(zstencil) && fresh(raster) && fresh(blend) && fresh(outputs)
      ensures Eager() == INITIAL_EAGER
      ensures zstencil.states == [] && raster.states == [] && blend.states == []
    {
      zstencil := new StateCache(DescribeZStencil, DEFAULT_ZSTENCIL);
      raster := new StateCache(DescribeRaster, DEFAULT_RASTER);
      blend := new StateCache(DescribeBlend, DEFAULT_BLEND);
      outputs := new OutputMerger();
      curTopology, boundTopology := None, None;
    }

    method SetZStencil(c: ZStencilCall)
      requires Valid()
      modifies zstencil`settings, zstencil`changed
      ensures Valid() && Eager() == Step(old(Eager()), Call.SetZStencil(c))
    {
      UpdateZStencil(zstencil, c);
    }

    method SetRaster(c: RasterCall)
      requires Valid()
      modifies raster`settings, raster`changed
      ensures Valid() && Eager() == Step(old(Eager()), Call.SetRaster(c))
    {
      UpdateRaster(raster, c);
    }

    method SetBlend(c: BlendCall)
      requires Valid()
      modifies blend`settings, blend`changed
      ensures Valid() && Eager() == Step(old(Eager()), Call.SetBlend(c))
    {
      UpdateBlend(blend, c);
    }

    method SetTarget(c: TargetCall)
      requires Valid() && CallOk(outputs.chosen, c)
      modifies outputs
      ensures Valid() && Eager() == Step(old(Eager()), Call.SetTarget(c))
    {
      outputs.Perform(c);
    }

    /** The flushing part of a draw: afterwards the context has bound what the reference would. */
    method FlushState(hints: Hints)
      requires Valid()
      modifies zstencil, raster, blend, outputs
      ensures Valid() && Eager() == old(Eager())
      ensures zstencil.bound == Some(DescribeZStencil(Eager().z))
      ensures raster.bound == Some(DescribeRaster(Eager().r))
      ensures blend.bound == Some(DescribeBlend(Eager().b))
      ensures outputs.bound == if HasTargetView(Eager().choice) then OutputsOf(Eager().choice) else old(outputs.bound)
    {
      outputs.FlushOutputViews();
      blend.Update(hints.b);
      raster.Update(hints.r);
      zstencil.Update(hints.z);
    }

    /** A draw that gets through runs with exactly the reference's pipeline, except that a
        target without a view leaves the outputs of the previous draw bound.  A draw whose
        shader upload throws has flushed part of its state and still leaves the device valid. */
    method Draw(mode: DrawMode, readiness: Readiness, hints: Hints) returns (drawn: seq<Frame>)
      requires Valid()
      modifies this, zstencil, raster, blend, outputs
      ensures Valid() && Eager() == old(Eager())
      ensures drawn == Drawn(old(Eager()), Call.Draw(mode, readiness, hints))
      ensures drawn != [] ==>
                && zstencil.bound == Some(drawn[0].z) && raster.bound == Some(drawn[0].r)
                && blend.bound == Some(drawn[0].b) && boundTopology == Some(mode)
                && outputs.bound == (if drawn[0].outputs.Some? then drawn[0].outputs.value else old(outputs.bound))
    {
      hide DescribeZStencil, DescribeRaster, DescribeBlend, HasTargetView, OutputsOf, WellFormed;
      outputs.TargetKnown();
      if readiness.NotReady? || (outputs.curSwapChain == NULL && outputs.curRenderTarget == NULL) {
        return [];
      }

      FlushState(hints);
      if readiness.UploadFails? {
        return [];
      }

      if curTopology != Some(mode) {
        boundTopology := Some(mode);
        curTopology := Some(mode);
      }

      var drawable := outputs.TargetHasView();
      return [Frame(zstencil.bound.value, raster.bound.value, blend.bound.value, boundTopology.value,
                    if drawable then Some(outputs.bound) else None)];
    }

    /** Presenting unbinds the outputs; on device loss everything is rebuilt. */
    method Present(deviceLost: bool, rebuilt: nat -> Hints)
      requires Valid()
      modifies this, zstencil, raster, blend, outputs
      ensures Valid() && Eager() == Step(old(Eager()), Call.Present(deviceLost, rebuilt))
      ensures outputs.bound == if old(Eager().choice.chain) == NULL then old(outputs.bound) else Outputs(None, None)
    {
      if outputs.curSwapChain == NULL {
        return;
      }
      outputs.Unbind();
      if deviceLost {
        RebuildDevice(rebuilt);
      }
    }

    method RebuildDevice(rebuilt: nat -> Hints)
      requires Valid() && outputs.curFramebufferInvalidate
      modifies this, zstencil, raster, blend, outputs
      ensures Valid()
      ensures Eager() == old(Eager()).(choice := AfterLoss(old(Eager()).choice))
      ensures outputs.bound == Outputs(None, None)
    {
      zstencil.Lose();
      raster.Lose();
      blend.Lose();
      boundTopology := None;
      outputs.Rebuild();
      curTopology := None;
      zstencil.Recreate(i => rebuilt(i).z);
      raster.Recreate(i => rebuilt(i).r);
      blend.Recreate(i => rebuilt(i).b);
    }

    method Perform(c: Call) returns (drawn: seq<Frame>)
      requires Valid() && CallAllowed(Eager(), c)
      modifies this, zstencil, raster, blend, outputs
      ensures Valid() && Eager() == Step(old(Eager()), c)
      ensures drawn == Drawn(old(Eager()), c)
    {
      drawn := [];
      match c {
        case SetZStencil(zc) => SetZStencil(zc);
        case SetRaster(rc) => SetRaster(rc);
        case SetBlend(bc) => SetBlend(bc);
        case SetTarget(tc) => SetTarget(tc);
        case Draw(mode, readiness, hints) => drawn := Draw(mode, readiness, hints);
        case Present(lost, rebuilt) => Present(lost, rebuilt);
      }
    }
  }

  /** The refinement theorem: for every run of calls the lazy device draws exactly the frames
      of the eager one, and ends with at most one state object per distinct settings value. */
  method Run(calls: seq<Call>) returns (frames: seq<Frame>, ghost device: Device)
    requires ValidRun(calls)
    ensures frames == Frames(calls, |calls|)
    ensures device.Valid() && device.Eager() == After(calls, |calls|)
    ensures device.CachedTargetsAreAlive()
    ensures device.zstencil.OnePerSettings() && device.raster.OnePerSettings() && device.blend.OnePerSettings()
  {
    var d := new Device();
    frames := [];
    for i := 0 to |calls|
      invariant d.Valid() && fresh(d) && fresh(d.zstencil) && fresh(d.raster) && fresh(d.blend) && fresh(d.outputs)
      invariant d.Eager() == After(calls, i)
      invariant frames == Frames(calls, i)
    {
      var drawn := d.Perform(calls[i]);
      frames := frames + drawn;
    }
    d.CachedTargets();
    device := d;
  }
}
