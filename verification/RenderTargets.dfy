/**
 Render targets, depth buffers and swap chains of the D3D11 device.

 The reference is `Chosen`: what the client asked for, with NULL asking for the current
 swap chain's own object.  The device instead caches resolved pointers, a dirty flag and
 what it last bound; the class proves that it always agrees with the reference.
 */
module RenderTargets {
  import opened Wrappers
  import opened StateCache

  // ---- Graphics objects -----------------------------------------------------------

  datatype TextureKind = Texture2D | Cube | Texture3D

  // owner is the swap chain the object is embedded in, NULL for a client's own object;
  // gen tells apart the views made by successive creations
  datatype Texture = Texture(kind: TextureKind, gen: nat, hasViews: bool, linearDiffers: bool, owner: Addr)
  datatype ZBuffer = ZBuffer(gen: nat, hasView: bool, owner: Addr)
  datatype SwapChain = SwapChain(target: Addr, zs: Addr)

  datatype World = World(
    textures: map<Addr, Texture>, zbuffers: map<Addr, ZBuffer>, chains: map<Addr, SwapChain>,
    clock: nat, epoch: nat)

  datatype View = View(epoch: nat, gen: nat, side: nat, linear: bool)
  datatype Outputs = Outputs(rtv: Option<View>, dsv: Option<View>)

  predicate InUse(w: World, a: Addr) {
    a in w.textures || a in w.zbuffers || a in w.chains
  }

  function RenderTargetView(w: World, t: Texture, side: nat, srgb: bool): Option<View> {
    if t.hasViews && side < (if t.kind.Cube? then 6 else 1)
    then Some(View(w.epoch, t.gen, side, srgb && t.linearDiffers))
    else None
  }

  function DepthView(w: World, z: ZBuffer): Option<View> {
    if z.hasView then Some(View(w.epoch, z.gen, 0, false)) else None
  }

  ghost predicate ChainOwns(w: World, c: Addr)
    requires c in w.chains
  {
    var t, z := w.chains[c].target, w.chains[c].zs;
    && t in w.textures && w.textures[t].owner == c && w.textures[t].kind == Texture2D && w.textures[t].hasViews
    && z in w.zbuffers && w.zbuffers[z].owner == c
  }

  ghost predicate WellFormedWorld(w: World) {
    !InUse(w, NULL) && forall c :: c in w.chains ==> ChainOwns(w, c)
  }

  function AddChain(w: World, c: Addr, t: Addr, z: Addr, linear: bool, zview: bool): World {
    w.(textures := w.textures[t := Texture(Texture2D, w.clock, true, linear, c)],
       zbuffers := w.zbuffers[z := ZBuffer(w.clock, zview, c)],
       chains := w.chains[c := SwapChain(t, z)],
       clock := w.clock + 1)
  }

  function RemoveChain(w: World, c: Addr): World
    requires c in w.chains
  {
    w.(textures := w.textures - {w.chains[c].target},
       zbuffers := w.zbuffers - {w.chains[c].zs},
       chains := w.chains - {c})
  }

  /** Resizing replaces the views of the chain's embedded target and depth buffer. */
  function ResizeChain(w: World, c: Addr, linear: bool, zview: bool): World {
    if c !in w.chains || w.chains[c].target !in w.textures || w.chains[c].zs !in w.zbuffers then w else
      var t, z := w.chains[c].target, w.chains[c].zs;
      w.(textures := w.textures[t := w.textures[t].(gen := w.clock, linearDiffers := linear)],
         zbuffers := w.zbuffers[z := w.zbuffers[z].(gen := w.clock, hasView := zview)],
         clock := w.clock + 1)
  }

  // ---- The reference ----------------------------------------------------------------

  datatype Chosen = Chosen(target: Addr, zs: Addr, side: nat, srgb: bool, chain: Addr, world: World)

  const INITIAL_CHOICE := Chosen(NULL, NULL, 0, false, NULL, World(map[], map[], map[], 0, 0))

  datatype TargetCall =
    | SetRenderTarget(tex: Addr, zs: Addr)
    | SetCubeRenderTarget(tex: Addr, side: nat, zs: Addr)
    | SetFramebufferSrgb(enable: bool)
    | LoadSwapChain(chain: Addr)
    | Resize(linear: bool, zview: bool)
    | CreateTexture(addr: Addr, kind: TextureKind, hasViews: bool, linear: bool)
    | DestroyTexture(addr: Addr)
    | CreateZStencil(addr: Addr, zview: bool)
    | DestroyZStencil(addr: Addr)
    | CreateSwapChain(addr: Addr, target: Addr, zs: Addr, linear: bool, zview: bool)
    | DestroySwapChain(addr: Addr)

  function Target(e: Chosen): Addr {
    if e.target != NULL then e.target
    else if e.chain in e.world.chains then e.world.chains[e.chain].target
    else NULL
  }

  function Depth(e: Chosen): Addr {
    if e.zs != NULL then e.zs
    else if e.chain in e.world.chains then e.world.chains[e.chain].zs
    else NULL
  }

  predicate IsClientTexture(w: World, a: Addr) {
    a in w.textures && w.textures[a].owner == NULL
  }

  predicate IsClientZBuffer(w: World, a: Addr) {
    a in w.zbuffers && w.zbuffers[a].owner == NULL
  }

  /** The chosen target and depth buffer are the client's own live objects or null, and the
      current chain is alive, so no pointer leads into a destroyed chain. */
  ghost predicate WellFormed(e: Chosen) {
    && WellFormedWorld(e.world)
    && (e.chain != NULL ==> e.chain in e.world.chains)
    && (e.target != NULL ==> IsClientTexture(e.world, e.target) && !e.world.textures[e.target].kind.Texture3D?)
    && (e.zs != NULL ==> IsClientZBuffer(e.world, e.zs))
    && (e.side != 0 ==> e.target != NULL)
    && (e.target != NULL && e.world.textures[e.target].kind == Texture2D ==> e.side == 0)
  }

  /** What callers and the allocator guarantee: objects passed in are alive, a current
      target is not destroyed, and new objects get addresses that are not in use. */
  ghost predicate CallOk(e: Chosen, c: TargetCall) {
    var w := e.world;
    match c
    case SetRenderTarget(t, z) =>
      (t == NULL || IsClientTexture(w, t)) && (z == NULL || IsClientZBuffer(w, z))
    case SetCubeRenderTarget(t, side, z) =>
      && (t == NULL || IsClientTexture(w, t)) && (z == NULL || IsClientZBuffer(w, z))
      && (t == NULL ==> e.chain != NULL) && side < 6
    case LoadSwapChain(s) => s == NULL || s in w.chains
    case CreateTexture(a, _, _, _) => a != NULL && !InUse(w, a)
    case DestroyTexture(a) => IsClientTexture(w, a) && a != e.target
    case CreateZStencil(a, _) => a != NULL && !InUse(w, a)
    case DestroyZStencil(a) => IsClientZBuffer(w, a) && a != e.zs
    case CreateSwapChain(a, t, z, _, _) =>
      && a != NULL && t != NULL && z != NULL && a != t && a != z && t != z
      && !InUse(w, a) && !InUse(w, t) && !InUse(w, z)
    case DestroySwapChain(a) => a in w.chains
    case _ => true
  }

  function Choose(e: Chosen, c: TargetCall): Chosen {
    var w := e.world;
    match c
    case SetRenderTarget(t, z) =>
      if t in w.textures && !w.textures[t].kind.Texture2D? then e else e.(target := t, zs := z, side := 0)
    case SetCubeRenderTarget(t, side, z) =>
      if t in w.textures && w.textures[t].kind.Cube? then e.(target := t, zs := z, side := side) else e
    case SetFramebufferSrgb(on) => e.(srgb := on)
    case LoadSwapChain(s) => e.(chain := s)
    case Resize(linear, zview) => if e.chain == NULL then e else e.(world := ResizeChain(w, e.chain, linear, zview))
    case CreateTexture(a, kind, views, linear) =>
      e.(world := w.(textures := w.textures[a := Texture(kind, w.clock, views, linear, NULL)], clock := w.clock + 1))
    case DestroyTexture(a) => e.(world := w.(textures := w.textures - {a}))
    case CreateZStencil(a, zview) =>
      e.(world := w.(zbuffers := w.zbuffers[a := ZBuffer(w.clock, zview, NULL)], clock := w.clock + 1))
    case DestroyZStencil(a) => e.(world := w.(zbuffers := w.zbuffers - {a}))
    case CreateSwapChain(a, t, z, linear, zview) => e.(world := AddChain(w, a, t, z, linear, zview))
    case DestroySwapChain(a) =>
      if a !in w.chains then e
      else e.(chain := if e.chain == a then NULL else e.chain, world := RemoveChain(w, a))
  }

  /** Device loss forgets every choice and gives every object new views. */
  function AfterLoss(e: Chosen): Chosen {
    e.(target := NULL, zs := NULL, side := 0, chain := NULL, world := e.world.(epoch := e.world.epoch + 1))
  }

  /** The current target has the view that drawing into it needs. */
  predicate HasTargetView(e: Chosen) {
    var t := Target(e);
    t in e.world.textures ==> RenderTargetView(e.world, e.world.textures[t], e.side, e.srgb).Some?
  }

  function OutputsOf(e: Chosen): Outputs {
    var t, z := Target(e), Depth(e);
    Outputs(if t in e.world.textures then RenderTargetView(e.world, e.world.textures[t], e.side, e.srgb) else None,
            if z in e.world.zbuffers then DepthView(e.world, e.world.zbuffers[z]) else None)
  }

  lemma {:induction false} AddChainWellFormed(w: World, a: Addr, t: Addr, z: Addr, linear: bool, zview: bool)
    requires WellFormedWorld(w) && NULL !in {a, t, z} && !InUse(w, a) && !InUse(w, t) && !InUse(w, z)
    ensures WellFormedWorld(AddChain(w, a, t, z, linear, zview))
  {
    var w' := AddChain(w, a, t, z, linear, zview);
    forall c | c in w'.chains ensures ChainOwns(w', c) {
      assert c != a ==> ChainOwns(w, c);
    }
  }

  lemma {:induction false} RemoveChainWellFormed(w: World, a: Addr)
    requires WellFormedWorld(w) && a in w.chains
    ensures WellFormedWorld(RemoveChain(w, a))
  {
    var w' := RemoveChain(w, a);
    assert ChainOwns(w, a);
    forall c | c in w'.chains ensures ChainOwns(w', c) {
      assert ChainOwns(w, c);
    }
  }

  lemma {:induction false} ResizeChainWellFormed(w: World, a: Addr, linear: bool, zview: bool)
    requires WellFormedWorld(w) && a in w.chains
    ensures WellFormedWorld(ResizeChain(w, a, linear, zview))
  {
    var w' := ResizeChain(w, a, linear, zview);
    assert ChainOwns(w, a);
    forall c | c in w'.chains ensures ChainOwns(w', c) {
      assert ChainOwns(w, c);
    }
  }

  predicate ManagesObject(c: TargetCall) {
    c.CreateTexture? || c.DestroyTexture? || c.CreateZStencil? || c.DestroyZStencil?
  }

  predicate ManagesChain(c: TargetCall) {
    c.Resize? || c.CreateSwapChain? || c.DestroySwapChain?
  }

  lemma {:induction false} ObjectCallWellFormed(e: Chosen, c: TargetCall)
    requires WellFormed(e) && CallOk(e, c) && ManagesObject(c)
    ensures WellFormed(Choose(e, c))
  {
    var w' := Choose(e, c).world;
    forall s | s in w'.chains ensures ChainOwns(w', s) {
      assert ChainOwns(e.world, s) && InUse(e.world, s);
    }
    hide ChainOwns;
  }

  lemma {:induction false} ChainCallWellFormed(e: Chosen, c: TargetCall)
    requires WellFormed(e) && CallOk(e, c) && ManagesChain(c)
    ensures WellFormed(Choose(e, c))
  {
    if c.Resize? && e.chain != NULL {
      assert ChainOwns(e.world, e.chain);
      ResizeChainWellFormed(e.world, e.chain, c.linear, c.zview);
    } else if c.CreateSwapChain? {
      AddChainWellFormed(e.world, c.addr, c.target, c.zs, c.linear, c.zview);
    } else if c.DestroySwapChain? {
      assert ChainOwns(e.world, c.addr);
      RemoveChainWellFormed(e.world, c.addr);
    }
  }

  lemma {:induction false} ChooseWellFormed(e: Chosen, c: TargetCall)
    requires WellFormed(e) && CallOk(e, c)
    ensures WellFormed(Choose(e, c))
  {
    hide WellFormed, CallOk, Choose;
    if ManagesObject(c) {
      ObjectCallWellFormed(e, c);
    } else if ManagesChain(c) {
      ChainCallWellFormed(e, c);
    } else {
      SettingWellFormed(e, c);
    }
  }

  lemma {:induction false} SettingWellFormed(e: Chosen, c: TargetCall)
    requires WellFormed(e) && CallOk(e, c) && !ManagesObject(c) && !ManagesChain(c)
    ensures WellFormed(Choose(e, c))
  {
    assert !InUse(e.world, NULL);
    hide WellFormedWorld;
  }

  /** The current target and depth buffer and their views are the same in both. */
  ghost predicate SameOutputs(a: Chosen, b: Chosen) {
    && Target(a) == Target(b) && Depth(a) == Depth(b)
    && OutputsOf(a) == OutputsOf(b) && HasTargetView(a) == HasTargetView(b)
  }

  /** Creating and destroying other objects changes neither the current target nor its views. */
  lemma {:induction false} OtherObjectsKeepOutputs(e: Chosen, c: TargetCall)
    requires WellFormed(e) && CallOk(e, c)
    requires ManagesObject(c) || c.CreateSwapChain? || (c.DestroySwapChain? && c.addr != e.chain)
    ensures SameOutputs(Choose(e, c), e)
  {
    if ManagesObject(c) {
      hide WellFormed, CallOk, Choose, SameOutputs;
      ObjectsKeepOutputs(e, c);
    } else {
      if e.chain != NULL {
        assert ChainOwns(e.world, e.chain) && InUse(e.world, e.chain);
      }
      if c.DestroySwapChain? {
        assert ChainOwns(e.world, c.addr);
      }
    }
  }

  lemma {:induction false} ObjectsKeepOutputs(e: Chosen, c: TargetCall)
    requires WellFormed(e) && CallOk(e, c) && ManagesObject(c)
    ensures SameOutputs(Choose(e, c), e)
  {
    if e.chain != NULL {
      assert ChainOwns(e.world, e.chain) && InUse(e.world, e.chain);
    }
  }

  lemma {:induction false} AfterLossWellFormed(e: Chosen)
    requires WellFormed(e)
    ensures WellFormed(AfterLoss(e))
  {
    var w' := AfterLoss(e).world;
    forall c | c in w'.chains ensures ChainOwns(w', c) {
      assert ChainOwns(e.world, c);
    }
  }

  ghost predicate IsCube(e: Chosen) {
    e.target != NULL && e.target in e.world.textures && e.world.textures[e.target].kind == Cube
  }

  /** What another chain changes: a null choice now stands for that chain's own object. */
  lemma {:induction false} SwitchedChain(e: Chosen, chain: Addr)
    requires WellFormed(e) && CallOk(e, TargetCall.LoadSwapChain(chain))
    ensures var next := e.(chain := chain);
      && WellFormed(next) && next == Choose(e, TargetCall.LoadSwapChain(chain))
      && (Target(next) == Target(e) && Depth(next) == Depth(e) ==>
            OutputsOf(next) == OutputsOf(e) && HasTargetView(next) == HasTargetView(e))
      && Target(next) == (if e.target == NULL && chain != NULL then e.world.chains[chain].target else e.target)
      && Depth(next) == (if e.zs == NULL && chain != NULL then e.world.chains[chain].zs else e.zs)
    ensures chain != NULL ==> ChainOwns(e.world, chain)
    ensures Target(e) != NULL ==> Target(e) in e.world.textures
    ensures if IsCube(e) then Target(e) == e.target
            else (Target(e) != NULL ==> e.world.textures[Target(e)].kind == Texture2D) && e.side == 0
  {
    assert e.chain != NULL ==> ChainOwns(e.world, e.chain);
    assert chain != NULL ==> ChainOwns(e.world, chain);
  }

  // ---- The device -------------------------------------------------------------------

  class OutputMerger {
    var curRenderTarget: Addr
    var curZStencilBuffer: Addr
    var curRenderSide: nat
    var curFramebufferSrgb: bool
    var curFramebufferInvalidate: bool
    var curSwapChain: Addr

    // what the context has bound, and the graphics objects
    var bound: Outputs
    var world: World

    ghost var chosen: Chosen

    // the cached pointers are the ones the reference resolves from the client's choices
    ghost predicate Agrees()
      reads this
    {
      && WellFormed(chosen) && world == chosen.world
      && curSwapChain == chosen.chain && curFramebufferSrgb == chosen.srgb && curRenderSide == chosen.side
      && curRenderTarget == Target(chosen) && curZStencilBuffer == Depth(chosen)
    }

    ghost predicate Valid()
      reads this
    {
      Agrees() && (!curFramebufferInvalidate ==> HasTargetView(chosen) && bound == OutputsOf(chosen))
    }

    constructor ()
      ensures Valid() && chosen == INITIAL_CHOICE
    {
      curRenderTarget, curZStencilBuffer, curRenderSide := NULL, NULL, 0;
      curFramebufferSrgb, curFramebufferInvalidate, curSwapChain := false, false, NULL;
      bound := Outputs(None, None);
      world := World(map[], map[], map[], 0, 0);
      chosen := INITIAL_CHOICE;
    }

    /** The part shared by the public setter and by swap-chain loading, with the null
        arguments standing for the current chain's own objects. */
    method SetRenderTargetInternal(texArg: Addr, zsArg: Addr)
      requires curSwapChain != NULL ==> curSwapChain in world.chains
      requires texArg != NULL ==> texArg in world.textures
      requires curSwapChain != NULL ==> world.chains[curSwapChain].target in world.textures
      requires curSwapChain != NULL ==> world.textures[world.chains[curSwapChain].target].kind == Texture2D
      modifies this`curRenderTarget, this`curZStencilBuffer, this`curRenderSide, this`curFramebufferInvalidate
      ensures
        var own := curSwapChain != NULL;
        var tex := if texArg == NULL && own then world.chains[curSwapChain].target else texArg;
        var zs := if zsArg == NULL && own then world.chains[curSwapChain].zs else zsArg;
        if tex != NULL && world.textures[tex].kind != Texture2D
        then && curRenderTarget == old(curRenderTarget) && curZStencilBuffer == old(curZStencilBuffer)
             && curRenderSide == old(curRenderSide) && curFramebufferInvalidate == old(curFramebufferInvalidate)
        else && curRenderTarget == tex && curZStencilBuffer == zs && curRenderSide == 0
             && (curFramebufferInvalidate == (old(curFramebufferInvalidate)
                   || old(curRenderTarget) != tex || old(curZStencilBuffer) != zs || old(curRenderSide) != 0))
    {
      var tex, zs := texArg, zsArg;
      if curSwapChain != NULL {
        if tex == NULL {
          tex := world.chains[curSwapChain].target;
        }
        if zs == NULL {
          zs := world.chains[curSwapChain].zs;
        }
      }

      if tex != NULL && world.textures[tex].kind != Texture2D {
        return;
      }

      if curRenderTarget != tex || curRenderSide != 0 || curZStencilBuffer != zs {
        curRenderTarget := tex;
        curZStencilBuffer := zs;
        curRenderSide := 0;
        curFramebufferInvalidate := true;
      }
    }

    method SetRenderTarget(tex: Addr, zs: Addr)
      requires Valid() && CallOk(chosen, TargetCall.SetRenderTarget(tex, zs))
      modifies this
      ensures Valid() && chosen == Choose(old(chosen), TargetCall.SetRenderTarget(tex, zs))
    {
      assert curSwapChain != NULL ==> ChainOwns(world, curSwapChain);
      SetRenderTargetInternal(tex, zs);
      chosen := Choose(chosen, TargetCall.SetRenderTarget(tex, zs));
    }

    method SetCubeRenderTargetInternal(texArg: Addr, sideArg: nat, zsArg: Addr)
      requires curSwapChain != NULL ==> curSwapChain in world.chains
      requires texArg != NULL ==> texArg in world.textures
      requires curSwapChain != NULL ==> world.chains[curSwapChain].target in world.textures
      requires texArg == NULL ==> curSwapChain != NULL
      modifies this`curRenderTarget, this`curZStencilBuffer, this`curRenderSide, this`curFramebufferInvalidate
      ensures
        var own := curSwapChain != NULL;
        var tex := if texArg == NULL then world.chains[curSwapChain].target else texArg;
        var side := if texArg == NULL then 0 else sideArg;
        var zs := if zsArg == NULL && own then world.chains[curSwapChain].zs else zsArg;
        if world.textures[tex].kind != Cube
        then && curRenderTarget == old(curRenderTarget) && curZStencilBuffer == old(curZStencilBuffer)
             && curRenderSide == old(curRenderSide) && curFramebufferInvalidate == old(curFramebufferInvalidate)
        else && curRenderTarget == tex && curZStencilBuffer == zs && curRenderSide == side
             && (curFramebufferInvalidate == (old(curFramebufferInvalidate)
                   || old(curRenderTarget) != tex || old(curZStencilBuffer) != zs || old(curRenderSide) != side))
    {
      var tex, side, zs := texArg, sideArg, zsArg;
      if curSwapChain != NULL {
        if tex == NULL {
          tex := world.chains[curSwapChain].target;
          side := 0;
        }
        if zs == NULL {
          zs := world.chains[curSwapChain].zs;
        }
      }

      if curRenderTarget == tex && curRenderSide == side && curZStencilBuffer == zs {
        return;
      }

      if world.textures[tex].kind != Cube {
        return;
      }

      if curRenderTarget != tex || curRenderSide != side || curZStencilBuffer != zs {
        curRenderTarget := tex;
        curZStencilBuffer := zs;
        curRenderSide := side;
        curFramebufferInvalidate := true;
      }
    }

    method SetCubeRenderTarget(tex: Addr, side: nat, zs: Addr)
      requires Valid() && CallOk(chosen, TargetCall.SetCubeRenderTarget(tex, side, zs))
      modifies this
      ensures Valid() && chosen == Choose(old(chosen), TargetCall.SetCubeRenderTarget(tex, side, zs))
    {
      assert curSwapChain != NULL ==> ChainOwns(world, curSwapChain);
      SetCubeRenderTargetInternal(tex, side, zs);
      chosen := Choose(chosen, TargetCall.SetCubeRenderTarget(tex, side, zs));
    }

    method SetFramebufferSrgb(enable: bool)
      requires Valid()
      modifies this
      ensures Valid() && chosen == Choose(old(chosen), TargetCall.SetFramebufferSrgb(enable))
    {
      if curFramebufferSrgb != enable {
        curFramebufferSrgb := enable;
        curFramebufferInvalidate := true;
      }
      chosen := Choose(chosen, TargetCall.SetFramebufferSrgb(enable));
    }

    /** Reports the target the client chose, and NULL for the chain's own. */
    method GetRenderTarget() returns (tex: Addr)
      requires Valid()
      ensures tex == chosen.target
    {
      assert curSwapChain != NULL ==> ChainOwns(world, curSwapChain);
      if curSwapChain != NULL && curRenderTarget == world.chains[curSwapChain].target {
        return NULL;
      }
      return curRenderTarget;
    }

    method GetZStencilTarget() returns (zs: Addr)
      requires Valid()
      ensures zs == chosen.zs
    {
      assert curSwapChain != NULL ==> ChainOwns(world, curSwapChain);
      if curSwapChain != NULL && curZStencilBuffer == world.chains[curSwapChain].zs {
        return NULL;
      }
      return curZStencilBuffer;
    }

    /** Switching chains keeps what the client chose. */
    method LoadSwapChain(chain: Addr)
      requires Valid() && CallOk(chosen, TargetCall.LoadSwapChain(chain))
      modifies this
      ensures Valid() && chosen == Choose(old(chosen), TargetCall.LoadSwapChain(chain))
      ensures chosen.target == old(chosen.target) && chosen.zs == old(chosen.zs) && chosen.side == old(chosen.side)
    {
      var target := GetRenderTarget();
      var zs := GetZStencilTarget();
      SwitchedChain(chosen, chain);
      hide WellFormed, Target, Depth, OutputsOf, HasTargetView, Choose, CallOk;
      ghost var next := chosen.(chain := chain);
      var isCube := curRenderTarget != NULL && world.textures[curRenderTarget].kind == Cube;
      assert isCube == IsCube(chosen);

      assert isCube || curRenderSide == 0;

      curSwapChain := chain;
      if isCube {
        SetCubeRenderTargetInternal(target, curRenderSide, zs);
        assert curRenderTarget == Target(next) && curZStencilBuffer == Depth(next) && curRenderSide == next.side;
      } else {
        SetRenderTargetInternal(target, zs);
        assert curRenderTarget == Target(next) && curZStencilBuffer == Depth(next) && curRenderSide == next.side;
      }
      chosen := next;
    }

    method Resize(linear: bool, zview: bool)
      requires Valid()
      modifies this
      ensures Valid() && chosen == Choose(old(chosen), TargetCall.Resize(linear, zview))
      ensures bound == if old(chosen.chain) == NULL then old(bound) else Outputs(None, None)
    {
      if curSwapChain == NULL {
        return;
      }
      assert ChainOwns(world, curSwapChain);
      bound := Outputs(None, None);
      world := ResizeChain(world, curSwapChain, linear, zview);
      curFramebufferInvalidate := true;
      ChooseWellFormed(chosen, TargetCall.Resize(linear, zview));
      chosen := Choose(chosen, TargetCall.Resize(linear, zview));
    }

    method FlushOutputViews()
      requires Valid()
      modifies this`curFramebufferInvalidate, this`bound
      ensures Valid()
      ensures if HasTargetView(chosen) then bound == OutputsOf(chosen) else bound == old(bound)
    {
      if curFramebufferInvalidate {
        assert curSwapChain != NULL ==> ChainOwns(world, curSwapChain);
        var rtv := None;
        if curRenderTarget != NULL {
          rtv := RenderTargetView(world, world.textures[curRenderTarget], curRenderSide, curFramebufferSrgb);
          if rtv == None {
            return;
          }
        }
        var dsv := None;
        if curZStencilBuffer != NULL {
          dsv := DepthView(world, world.zbuffers[curZStencilBuffer]);
        }
        bound := Outputs(rtv, dsv);
        curFramebufferInvalidate := false;
      }
    }

    lemma {:induction false} TargetKnown()
      requires Valid()
      ensures curRenderTarget != NULL ==> curRenderTarget in world.textures
      ensures curSwapChain != NULL ==> curRenderTarget != NULL
    {
      assert !InUse(world, NULL);
      if curSwapChain != NULL {
        assert ChainOwns(world, curSwapChain);
      }
    }

    method TargetHasView() returns (has: bool)
      requires Valid()
      ensures has == HasTargetView(chosen)
    {
      TargetKnown();
      assert !InUse(world, NULL);
      has := curRenderTarget == NULL
        || RenderTargetView(world, world.textures[curRenderTarget], curRenderSide, curFramebufferSrgb).Some?;
    }

    /** Presenting unbinds the outputs and leaves the choices alone. */
    method Unbind()
      requires Valid()
      modifies this
      ensures Valid() && chosen == old(chosen) && curFramebufferInvalidate && bound == Outputs(None, None)
    {
      bound := Outputs(None, None);
      curFramebufferInvalidate := true;
    }

    method Rebuild()
      requires Valid() && curFramebufferInvalidate
      modifies this
      ensures Valid() && chosen == AfterLoss(old(chosen)) && bound == Outputs(None, None)
    {
      bound := Outputs(None, None);
      world := world.(epoch := world.epoch + 1);
      curRenderTarget, curZStencilBuffer, curRenderSide, curSwapChain := NULL, NULL, 0, NULL;
      AfterLossWellFormed(chosen);
      assert !InUse(world, NULL);
      chosen := AfterLoss(chosen);
    }

    method CreateTexture(a: Addr, kind: TextureKind, hasViews: bool, linear: bool)
      requires Valid() && CallOk(chosen, TargetCall.CreateTexture(a, kind, hasViews, linear))
      modifies this
      ensures Valid() && chosen == Choose(old(chosen), TargetCall.CreateTexture(a, kind, hasViews, linear))
    {
      ChooseWellFormed(chosen, TargetCall.CreateTexture(a, kind, hasViews, linear));
      OtherObjectsKeepOutputs(chosen, TargetCall.CreateTexture(a, kind, hasViews, linear));
      world := world.(textures := world.textures[a := Texture(kind, world.clock, hasViews, linear, NULL)],
                      clock := world.clock + 1);
      chosen := Choose(chosen, TargetCall.CreateTexture(a, kind, hasViews, linear));
    }

    method DestroyTexture(a: Addr)
      requires Valid() && CallOk(chosen, TargetCall.DestroyTexture(a))
      modifies this
      ensures Valid() && chosen == Choose(old(chosen), TargetCall.DestroyTexture(a))
    {
      ChooseWellFormed(chosen, TargetCall.DestroyTexture(a));
      OtherObjectsKeepOutputs(chosen, TargetCall.DestroyTexture(a));
      world := world.(textures := world.textures - {a});
      chosen := Choose(chosen, TargetCall.DestroyTexture(a));
    }

    method CreateZStencil(a: Addr, zview: bool)
      requires Valid() && CallOk(chosen, TargetCall.CreateZStencil(a, zview))
      modifies this
      ensures Valid() && chosen == Choose(old(chosen), TargetCall.CreateZStencil(a, zview))
    {
      ChooseWellFormed(chosen, TargetCall.CreateZStencil(a, zview));
      OtherObjectsKeepOutputs(chosen, TargetCall.CreateZStencil(a, zview));
      world := world.(zbuffers := world.zbuffers[a := ZBuffer(world.clock, zview, NULL)], clock := world.clock + 1);
      chosen := Choose(chosen, TargetCall.CreateZStencil(a, zview));
    }

    method DestroyZStencil(a: Addr)
      requires Valid() && CallOk(chosen, TargetCall.DestroyZStencil(a))
      modifies this
      ensures Valid() && chosen == Choose(old(chosen), TargetCall.DestroyZStencil(a))
    {
      ChooseWellFormed(chosen, TargetCall.DestroyZStencil(a));
      OtherObjectsKeepOutputs(chosen, TargetCall.DestroyZStencil(a));
      world := world.(zbuffers := world.zbuffers - {a});
      chosen := Choose(chosen, TargetCall.DestroyZStencil(a));
    }

    method CreateSwapChain(a: Addr, t: Addr, z: Addr, linear: bool, zview: bool)
      requires Valid() && CallOk(chosen, TargetCall.CreateSwapChain(a, t, z, linear, zview))
      modifies this
      ensures Valid() && chosen == Choose(old(chosen), TargetCall.CreateSwapChain(a, t, z, linear, zview))
    {
      ChooseWellFormed(chosen, TargetCall.CreateSwapChain(a, t, z, linear, zview));
      OtherObjectsKeepOutputs(chosen, TargetCall.CreateSwapChain(a, t, z, linear, zview));
      world := AddChain(world, a, t, z, linear, zview);
      chosen := Choose(chosen, TargetCall.CreateSwapChain(a, t, z, linear, zview));
    }

    /** Destroying the current chain first switches to none. */
    method DestroySwapChain(a: Addr)
      requires Valid() && CallOk(chosen, TargetCall.DestroySwapChain(a))
      modifies this
      ensures Valid() && chosen == Choose(old(chosen), TargetCall.DestroySwapChain(a))
    {
      ghost var before := chosen;
      assert !InUse(world, NULL) && InUse(world, a);
      if curSwapChain == a {
        LoadSwapChain(NULL);
      }
      DeleteChain(a);
      assert chosen == Choose(before, TargetCall.DestroySwapChain(a));
    }

    method DeleteChain(a: Addr)
      requires Valid() && a in world.chains && a != curSwapChain
      modifies this
      ensures Valid() && chosen == old(chosen).(world := RemoveChain(old(world), a))
    {
      ChooseWellFormed(chosen, TargetCall.DestroySwapChain(a));
      OtherObjectsKeepOutputs(chosen, TargetCall.DestroySwapChain(a));
      world := RemoveChain(world, a);
      chosen := Choose(chosen, TargetCall.DestroySwapChain(a));
    }

    method Perform(c: TargetCall)
      requires Valid() && CallOk(chosen, c)
      modifies this
      ensures Valid() && chosen == Choose(old(chosen), c)
    {
      match c {
        case SetRenderTarget(t, z) => SetRenderTarget(t, z);
        case SetCubeRenderTarget(t, side, z) => SetCubeRenderTarget(t, side, z);
        case SetFramebufferSrgb(on) => SetFramebufferSrgb(on);
        case LoadSwapChain(s) => LoadSwapChain(s);
        case Resize(linear, zview) => Resize(linear, zview);
        case CreateTexture(a, kind, views, linear) => CreateTexture(a, kind, views, linear);
        case DestroyTexture(a) => DestroyTexture(a);
        case CreateZStencil(a, zview) => CreateZStencil(a, zview);
        case DestroyZStencil(a) => DestroyZStencil(a);
        case CreateSwapChain(a, t, z, linear, zview) => CreateSwapChain(a, t, z, linear, zview);
        case DestroySwapChain(a) => DestroySwapChain(a);
      }
    }
  }
}
