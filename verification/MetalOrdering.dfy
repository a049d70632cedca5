/**
 Command ordering in the Metal renderer.

 Draws and clears are encoded into one lazily created command buffer that is committed
 late; some copies go into command buffers of their own that are committed at once.  A
 pending-writes flag on every texture decides when the shared buffer must be committed
 first.  The commands are numbered in the order the client issued them; the queue lists
 these numbers in the order the GPU receives them.
 */
module MetalOrdering {
  import opened Wrappers

  // A render writes to a texture or to its sRGB view, with a depth attachment.  Writes made by copy
  // destinations are not part of this model.
  datatype Command = Render(target: nat, srgb: bool, depth: Option<nat>) | Blit(source: nat)

  // What the client issued: a command, whether it is committed at once, and how many commands in front
  // of it were committed by then through a flush or for a read of a pending texture.
  datatype Issue = Issue(command: Command, atOnce: bool, settled: nat)

  predicate ReadsAfter(write: Command, read: Command) {
    write.Render? && read.Blit? && write.target == read.source
  }

  /** Each issued command is in the queue exactly once. */
  ghost predicate IsSchedule(issued: seq<Issue>, queue: seq<nat>) {
    && |queue| == |issued|
    && (forall p :: 0 <= p < |queue| ==> queue[p] < |issued|)
    && (forall i :: 0 <= i < |issued| ==> i in queue)
    && (forall p, q :: 0 <= p < q < |queue| ==> queue[p] != queue[q])
  }

  /** No blit was moved ahead of an earlier render into the texture it reads. */
  ghost predicate NoneOvertaken(issued: seq<Issue>, queue: seq<nat>)
    requires forall p :: 0 <= p < |queue| ==> queue[p] < |issued|
  {
    forall p, q :: 0 <= p < q < |queue| && queue[q] < queue[p] ==>
      !ReadsAfter(issued[queue[q]].command, issued[queue[p]].command)
  }

  ghost predicate QueuedBefore(queue: seq<nat>, i: nat, j: nat) {
    exists p, q :: 0 <= p < q < |queue| && queue[p] == i && queue[q] == j
  }

  /** Every read is queued behind every earlier render into the texture it reads. */
  ghost predicate ReadsInOrder(issued: seq<Issue>, queue: seq<nat>) {
    forall i, j :: 0 <= i < j < |issued| && ReadsAfter(issued[i].command, issued[j].command) ==>
      QueuedBefore(queue, i, j)
  }

  /** A later command stays behind an earlier one unless it alone is committed at once, with the earlier
      one still waiting in the shared buffer. */
  predicate KeepsOrder(issued: seq<Issue>, i: nat, j: nat)
    requires i < j < |issued|
  {
    !issued[j].atOnce || issued[i].atOnce || i < issued[j].settled
  }

  /** The order of any two commands in the queue. */
  ghost predicate OrderedExactly(issued: seq<Issue>, queue: seq<nat>) {
    forall i, j :: 0 <= i < j < |issued| ==>
      if KeepsOrder(issued, i, j) then QueuedBefore(queue, i, j) else QueuedBefore(queue, j, i)
  }

  lemma {:induction false} NoneOvertakenIsInOrder(issued: seq<Issue>, queue: seq<nat>)
    requires IsSchedule(issued, queue) && NoneOvertaken(issued, queue)
    ensures ReadsInOrder(issued, queue)
  {
    forall i, j | 0 <= i < j < |issued| && ReadsAfter(issued[i].command, issued[j].command)
      ensures QueuedBefore(queue, i, j)
    {
      assert i in queue && j in queue;
      var p :| 0 <= p < |queue| && queue[p] == i;
      var q :| 0 <= q < |queue| && queue[q] == j;
      assert p < q;
    }
  }

  /** Putting a new command at position n keeps a good schedule if it reads nothing that a
      command behind that position renders into. */
  lemma {:induction false} InsertSchedule(issued: seq<Issue>, queue: seq<nat>, n: nat, c: Issue)
    requires IsSchedule(issued, queue) && NoneOvertaken(issued, queue) && n <= |queue|
    requires forall k :: n <= k < |queue| ==> !ReadsAfter(issued[queue[k]].command, c.command)
    ensures IsSchedule(issued + [c], queue[..n] + [|issued|] + queue[n..])
    ensures NoneOvertaken(issued + [c], queue[..n] + [|issued|] + queue[n..])
  {
    var queue' := queue[..n] + [|issued|] + queue[n..];
    InsertIsPermutation(issued, queue, n, c);
    forall p, q | 0 <= p < q < |queue'| && queue'[q] < queue'[p]
      ensures !ReadsAfter((issued + [c])[queue'[q]].command, (issued + [c])[queue'[p]].command)
    {
      var p', q' := if p <= n then p else p - 1, if q <= n then q else q - 1;
      if p == n {
        assert queue'[q] == queue[q'];
      } else {
        assert queue'[p] == queue[p'] && q != n && queue'[q] == queue[q'];
      }
    }
  }

  lemma {:induction false} InsertIsPermutation(issued: seq<Issue>, queue: seq<nat>, n: nat, c: Issue)
    requires IsSchedule(issued, queue) && n <= |queue|
    ensures IsSchedule(issued + [c], queue[..n] + [|issued|] + queue[n..])
  {
    var queue' := queue[..n] + [|issued|] + queue[n..];
    assert forall p :: 0 <= p < |queue'| ==>
      queue'[p] == if p < n then queue[p] else if p == n then |issued| else queue[p - 1];
    forall i | 0 <= i <= |issued| ensures i in queue' {
      if i == |issued| {
        assert queue'[n] == i;
      } else {
        assert i in queue;
        var p :| 0 <= p < |queue| && queue[p] == i;
        assert queue'[if p < n then p else p + 1] == i;
      }
    }
  }

  lemma {:induction false} InsertKeepsBefore(queue: seq<nat>, n: nat, c: nat, i: nat, j: nat)
    requires n <= |queue| && QueuedBefore(queue, i, j)
    ensures QueuedBefore(queue[..n] + [c] + queue[n..], i, j)
  {
    var p, q :| 0 <= p < q < |queue| && queue[p] == i && queue[q] == j;
    var queue' := queue[..n] + [c] + queue[n..];
    var p', q' := if p < n then p else p + 1, if q < n then q else q + 1;
    assert queue'[p'] == i && queue'[q'] == j;
  }

  lemma {:induction false} InsertedBetween(queue: seq<nat>, n: nat, c: nat, i: nat)
    requires n <= |queue|
    ensures i in queue[..n] ==> QueuedBefore(queue[..n] + [c] + queue[n..], i, c)
    ensures i in queue[n..] ==> QueuedBefore(queue[..n] + [c] + queue[n..], c, i)
  {
    var queue' := queue[..n] + [c] + queue[n..];
    if p :| 0 <= p < n && queue[p] == i {
      assert queue'[p] == i && queue'[n] == c;
    }
    if q :| n <= q < |queue| && queue[q] == i {
      assert queue'[q + 1] == i && queue'[n] == c;
    }
  }

  /** A new command at position n is ordered exactly if it has to stay behind just what is in front of n. */
  lemma {:induction false} InsertOrdered(issued: seq<Issue>, queue: seq<nat>, n: nat, c: Issue)
    requires IsSchedule(issued, queue) && OrderedExactly(issued, queue) && n <= |queue|
    requires forall i :: 0 <= i < |issued| ==>
      (if KeepsOrder(issued + [c], i, |issued|) then i in queue[..n] else i in queue[n..])
    ensures OrderedExactly(issued + [c], queue[..n] + [|issued|] + queue[n..])
  {
    var longer, queue' := issued + [c], queue[..n] + [|issued|] + queue[n..];
    forall i, j | 0 <= i < j < |longer|
      ensures if KeepsOrder(longer, i, j) then QueuedBefore(queue', i, j) else QueuedBefore(queue', j, i)
    {
      if j == |issued| {
        InsertedBetween(queue, n, |issued|, i);
      } else if KeepsOrder(issued, i, j) {
        InsertKeepsBefore(queue, n, |issued|, i, j);
      } else {
        InsertKeepsBefore(queue, n, |issued|, j, i);
      }
    }
  }

  class MetalTexture {
    const id: nat
    const hasSrgbView: bool
    var hasPendingWrites: bool

    constructor (id: nat, hasSrgbView: bool)
      ensures this.id == id && this.hasSrgbView == hasSrgbView && !hasPendingWrites
    {
      this.id := id;
      this.hasSrgbView := hasSrgbView;
      hasPendingWrites := false;
    }
  }

  // how far a clear or a draw gets: before or behind the marking of its target, or through
  datatype Outcome = NotReady | FailsMarked | Encoded

  datatype Call =
    | BeginFrame
    | SetRenderTarget(tex: Option<nat>, zstencil: Option<nat>)
    | EnableFramebufferSrgb(enable: bool)
    | LoadSwapChain(tex: Option<nat>, srgb: bool)   // None: its texture could not be made
    | Clear(outcome: Outcome)
    | Draw(outcome: Outcome)
    | CopyTexture(source: nat)
    | StageOrCopyRegion(source: nat)
    | Flush

  // ---- What the client asks for -----------------------------------------------------------

  // the chosen target, gamma and depth attachment, the targets written to since commands were settled
  // last, how many commands had been issued then, and all that was issued
  datatype Client = Client(target: Option<nat>, srgb: bool, depth: Option<nat>, pending: set<nat>,
                           settled: nat, issued: seq<Issue>)

  const NO_CALLS := Client(None, false, None, {}, 0, [])

  function Settle(c: Client): Client {
    c.(pending := {}, settled := |c.issued|)
  }

  function Add(c: Client, command: Command, atOnce: bool): Client {
    c.(issued := c.issued + [Issue(command, atOnce, c.settled)])
  }

  /** What a clear or a draw adds; views says which textures have an sRGB view. */
  function Rendered(c: Client, views: seq<bool>, outcome: Outcome): Client {
    if c.target.None? || c.target.value >= |views| || outcome.NotReady? then c
    else
      var marked := c.(pending := c.pending + {c.target.value});
      if outcome.FailsMarked? then marked
      else Add(marked, Render(c.target.value, c.srgb && views[c.target.value], c.depth), false)
  }

  /** What a read adds; it settles everything first if its source was written to. */
  function Read(c: Client, source: nat, atOnce: bool): Client {
    Add(if source in c.pending then Settle(c) else c, Blit(source), atOnce)
  }

  function Step(c: Client, views: seq<bool>, call: Call): Client {
    match call
    case BeginFrame => c.(target := None, srgb := false)
    case SetRenderTarget(tex, zstencil) => c.(target := tex, depth := zstencil)
    case EnableFramebufferSrgb(on) => c.(srgb := on)
    case LoadSwapChain(tex, srgb) =>
      if tex.None? then c.(srgb := srgb) else c.(target := tex, srgb := srgb, depth := None)
    case Clear(outcome) => Rendered(c, views, outcome)
    case Draw(outcome) => Rendered(c, views, outcome)
    case CopyTexture(source) => Read(c, source, false)
    case StageOrCopyRegion(source) => Read(c, source, true)
    case Flush => Settle(c)
  }

  predicate CallOk(c: Call, count: nat) {
    match c
    case SetRenderTarget(Some(t), _) => t < count
    case LoadSwapChain(Some(t), _) => t < count
    case CopyTexture(t) => t < count
    case StageOrCopyRegion(t) => t < count
    case _ => true
  }

  function After(views: seq<bool>, calls: seq<Call>, n: nat): Client
    requires n <= |calls|
  {
    if n == 0 then NO_CALLS else Step(After(views, calls, n - 1), views, calls[n - 1])
  }

  // ---- The device -----------------------------------------------------------------------------

  class MetalDevice {
    var renderTarget: MetalTexture?
    var depthStencilAttachment: Option<nat>
    var isRendertargetChanged: bool
    var useSRGBGamma: bool
    var inFlight: set<MetalTexture>
    var commandBuffer: Option<seq<nat>>   // the commands encoded and not yet committed

    // the render pass descriptor: the texture it writes to, in which view, and the depth attachment
    var attachment: MetalTexture?
    var attachmentSrgb: bool
    var attachmentDepth: Option<nat>

    // the trace of issued commands, the ones the queue has received, and how many had been issued when
    // everything was committed last
    var issued: seq<Issue>
    var committed: seq<nat>
    var settled: nat

    const textures: seq<MetalTexture>

    ghost function Encoded(): seq<nat>
      reads this`commandBuffer
    {
      if commandBuffer.Some? then commandBuffer.value else []
    }

    ghost function Queue(): seq<nat>
      reads this`commandBuffer, this`committed
    {
      committed + Encoded()
    }

    ghost predicate Identified()
      reads textures
    {
      forall i :: 0 <= i < |textures| ==> textures[i].id == i
    }

    // an uncommitted render into a texture implies its flag; the flag is membership in the
    // in-flight set; a non-nil render target implies the changed flag
    ghost predicate FlagsValid()
      reads this`inFlight, this`commandBuffer, this`issued, this`renderTarget, this`isRendertargetChanged, textures
    {
      && (forall t :: t in inFlight ==> t in textures)
      && (forall t :: t in textures ==> (t.hasPendingWrites <==> t in inFlight))
      && (inFlight != {} ==> commandBuffer.Some?)
      && (forall k :: 0 <= k < |Encoded()| && Encoded()[k] < |issued| && issued[Encoded()[k]].command.Render? ==>
            exists t :: t in inFlight && t.id == issued[Encoded()[k]].command.target)
      && (renderTarget != null ==> isRendertargetChanged && renderTarget in textures)
    }

    // the shared buffer holds exactly what was encoded into it since everything was committed
    ghost predicate BufferValid()
      reads this`settled, this`issued, this`commandBuffer, this`committed
    {
      && settled <= |issued|
      && forall i :: 0 <= i < |issued| ==>
           (if !issued[i].atOnce && i >= settled then i in Encoded() else i in committed)
    }

    ghost predicate Valid()
      reads this, textures
    {
      && Identified() && FlagsValid() && BufferValid()
      && IsSchedule(issued, Queue()) && NoneOvertaken(issued, Queue()) && OrderedExactly(issued, Queue())
    }

    ghost function TargetId(): Option<nat>
      reads this
    {
      if renderTarget == null then None else Some(renderTarget.id)
    }

    ghost function Pending(): set<nat>
      reads this
    {
      set t | t in inFlight :: t.id
    }

    /** What the client has asked for so far. */
    ghost function State(): Client
      reads this
    {
      Client(TargetId(), useSRGBGamma, depthStencilAttachment, Pending(), settled, issued)
    }

    ghost function Views(): (views: seq<bool>)
      ensures |views| == |textures| && forall i :: 0 <= i < |textures| ==> views[i] == textures[i].hasSrgbView
    {
      seq(|textures|, i requires 0 <= i < |textures| => textures[i].hasSrgbView)
    }

    constructor (textures: seq<MetalTexture>)
      requires forall i :: 0 <= i < |textures| ==> textures[i].id == i && !textures[i].hasPendingWrites
      ensures Valid() && State() == NO_CALLS && this.textures == textures
    {
      renderTarget, depthStencilAttachment, isRendertargetChanged, useSRGBGamma := null, None, false, false;
      attachment, attachmentSrgb, attachmentDepth := null, false, None;
      inFlight, commandBuffer := {}, None;
      this.textures := textures;
      issued, committed, settled := [], [], 0;
    }

    method EnsureCommandBuffer()
      requires Valid()
      modifies this`commandBuffer
      ensures Valid() && commandBuffer.Some? && Queue() == old(Queue()) && Encoded() == old(Encoded())
    {
      if commandBuffer.None? {
        commandBuffer := Some([]);
        assert Queue() == old(Queue());
      }
    }

    /** Commits the shared buffer; nothing is in flight afterwards. */
    method FinishPendingCommands()
      requires Valid()
      modifies this`committed, this`inFlight, this`commandBuffer, this`settled, textures
      ensures Valid() && Queue() == old(Queue()) && State() == Settle(old(State()))
      ensures commandBuffer.None? && inFlight == {} && committed == old(Queue())
    {
      hide IsSchedule, NoneOvertaken, OrderedExactly;
      settled := |issued|;
      if commandBuffer.None? {
        return;
      }
      committed := committed + commandBuffer.value;
      forall t | t in inFlight {
        t.hasPendingWrites := false;
      }
      inFlight := {};
      commandBuffer := None;
      assert Queue() == old(Queue());
    }

    /** Encodes into the shared buffer, behind everything issued so far. */
    method Encode(c: Command)
      requires Valid() && commandBuffer.Some?
      requires c.Render? ==> exists t :: t in inFlight && t.id == c.target
      modifies this`issued, this`commandBuffer
      ensures Valid() && commandBuffer.Some? && State() == Add(old(State()), c, false)
      ensures Queue() == old(Queue()) + [|old(issued)|]
    {
      ghost var before := Queue();
      AppendedLast(issued, before, Issue(c, false, settled));
      commandBuffer := Some(commandBuffer.value + [|issued|]);
      issued := issued + [Issue(c, false, settled)];
      assert Queue() == before + [|old(issued)|];
    }

    /** Encodes into a command buffer of its own and commits that at once, ahead of the shared one. */
    method CommitNow(c: Command)
      requires Valid() && c.Blit?
      requires forall t :: t in inFlight ==> t.id != c.source
      modifies this`issued, this`committed
      ensures Valid() && State() == Add(old(State()), c, true)
      ensures committed == old(committed) + [|old(issued)|]
    {
      var issue := Issue(c, true, settled);
      ghost var encoded := Encoded();
      InsertsAtOnce(issue);
      hide IsSchedule, NoneOvertaken, OrderedExactly;
      committed := committed + [|issued|];
      issued := issued + [issue];
      assert Encoded() == encoded && FlagsValid();
    }

    /** A command that reads nothing in flight can go ahead of the shared buffer. */
    lemma {:induction false} InsertsAtOnce(c: Issue)
      requires Valid() && c.command.Blit? && c.atOnce && c.settled == settled
      requires forall t :: t in inFlight ==> t.id != c.command.source
      ensures
        var queue := committed + [|issued|] + Encoded();
        && IsSchedule(issued + [c], queue) && NoneOvertaken(issued + [c], queue)
        && OrderedExactly(issued + [c], queue)
    {
      var n, queue := |committed|, Queue();
      assert queue[..n] == committed && queue[n..] == Encoded();
      forall k | n <= k < |queue| ensures !ReadsAfter(issued[queue[k]].command, c.command) {
        assert queue[k] == Encoded()[k - n];
      }
      hide IsSchedule, NoneOvertaken, OrderedExactly, FlagsValid;
      InsertSchedule(issued, queue, n, c);
      InsertOrdered(issued, queue, n, c);
    }

    method MarkPending(t: MetalTexture)
      requires Valid() && commandBuffer.Some? && t in textures
      modifies this`inFlight, t`hasPendingWrites
      ensures Valid() && t in inFlight && t.hasPendingWrites
      ensures State() == old(State()).(pending := old(Pending()) + {t.id})
    {
      t.hasPendingWrites := true;
      inFlight := inFlight + {t};
    }

    lemma {:induction false} TargetIsMarked()
      requires Valid() && renderTarget != null
      ensures isRendertargetChanged && renderTarget in textures && renderTarget.id < |textures|
      ensures renderTarget.id < |Views()| && Views()[renderTarget.id] == renderTarget.hasSrgbView
    {}

    /** A clear marks its target before its encoder is made, which may fail. */
    method Clear(outcome: Outcome)
      requires Valid()
      modifies this, textures
      ensures Valid() && State() == Rendered(old(State()), Views(), outcome)
      ensures renderTarget != null && !outcome.NotReady? ==> renderTarget.hasPendingWrites && renderTarget in inFlight
    {
      EnsureCommandBuffer();
      if renderTarget == null || outcome.NotReady? {
        return;
      }
      var srgb := useSRGBGamma && renderTarget.hasSrgbView;
      MarkPending(renderTarget);
      if outcome.FailsMarked? {
        return;
      }
      Encode(Render(renderTarget.id, srgb, depthStencilAttachment));
    }

    /** The part of a draw that updates the pass descriptor and marks its target. */
    method RefreshAttachments()
      requires Valid() && commandBuffer.Some? && renderTarget != null
      modifies this`attachment, this`attachmentSrgb, this`attachmentDepth, this`inFlight, textures`hasPendingWrites
      ensures Valid() && renderTarget in inFlight && renderTarget.id < |Views()|
      ensures attachment == renderTarget && attachmentSrgb == (useSRGBGamma && Views()[renderTarget.id])
      ensures attachmentDepth == depthStencilAttachment
      ensures State() == old(State()).(pending := old(Pending()) + {renderTarget.id})
    {
      hide IsSchedule, NoneOvertaken, OrderedExactly, BufferValid, FlagsValid;
      TargetIsMarked();
      if isRendertargetChanged {
        attachment := renderTarget;
        attachmentSrgb := useSRGBGamma && renderTarget.hasSrgbView;
        MarkPending(renderTarget);
        attachmentDepth := depthStencilAttachment;
      }
    }

    /** Draws write to what the pass descriptor names, which is refreshed only under the changed flag; it is
        nevertheless always the current render target in the current view, with the current depth attachment. */
    method Draw(outcome: Outcome)
      requires Valid()
      modifies this, textures
      ensures Valid() && State() == Rendered(old(State()), Views(), outcome)
    {
      hide IsSchedule, NoneOvertaken, OrderedExactly, BufferValid, FlagsValid;
      EnsureCommandBuffer();
      if renderTarget == null || outcome.NotReady? {
        return;
      }
      RefreshAttachments();
      if outcome.FailsMarked? {
        return;
      }
      Encode(Render(attachment.id, attachmentSrgb, attachmentDepth));
    }

    /** Blits into the shared command buffer. */
    method CopyTexture(source: MetalTexture)
      requires Valid() && source in textures
      modifies this, textures
      ensures Valid() && State() == Read(old(State()), source.id, false)
    {
      SourceIsPending(source);
      if source.hasPendingWrites {
        FinishPendingCommands();
      }
      EnsureCommandBuffer();
      Encode(Blit(source.id));
    }

    /** stageTexture, stageTextureToBuffer and copyTextureRegion: a command buffer of their own. */
    method StageOrCopyRegion(source: MetalTexture)
      requires Valid() && source in textures
      modifies this, textures
      ensures Valid() && State() == Read(old(State()), source.id, true)
      ensures committed != [] && committed[|committed| - 1] == |old(issued)|
    {
      SourceIsPending(source);
      if source.hasPendingWrites {
        FinishPendingCommands();
      }
      CommitNow(Blit(source.id));
    }

    lemma {:induction false} SourceIsPending(source: MetalTexture)
      requires Valid() && source in textures
      ensures source.hasPendingWrites <==> source.id in Pending()
      ensures !source.hasPendingWrites ==> forall t :: t in inFlight ==> t.id != source.id
    {}

    method BeginFrame()
      requires Valid()
      modifies this`useSRGBGamma, this`renderTarget
      ensures Valid() && State() == Step(old(State()), Views(), Call.BeginFrame)
    {
      hide IsSchedule, NoneOvertaken, OrderedExactly, BufferValid;
      useSRGBGamma := false;
      renderTarget := null;
    }

    method SetRenderTarget(tex: MetalTexture?, zstencil: Option<nat>)
      requires Valid() && (tex != null ==> tex in textures)
      modifies this`renderTarget, this`depthStencilAttachment, this`isRendertargetChanged
      ensures Valid() && renderTarget == tex
      ensures State() == Step(old(State()), Views(), Call.SetRenderTarget(TargetId(), zstencil))
    {
      hide IsSchedule, NoneOvertaken, OrderedExactly, BufferValid;
      if tex != null {
        renderTarget := tex;
        isRendertargetChanged := true;
      } else {
        renderTarget := null;
      }
      depthStencilAttachment := zstencil;
      if zstencil.Some? {
        isRendertargetChanged := true;
      }
    }

    method EnableFramebufferSrgb(enable: bool)
      requires Valid()
      modifies this`useSRGBGamma, this`isRendertargetChanged
      ensures Valid() && State() == Step(old(State()), Views(), Call.EnableFramebufferSrgb(enable))
    {
      if useSRGBGamma != enable {
        useSRGBGamma := enable;
        isRendertargetChanged := true;
      }
    }

    method LoadSwapChain(tex: MetalTexture?, srgb: bool)
      requires Valid() && (tex != null ==> tex in textures)
      modifies this`useSRGBGamma, this`renderTarget, this`depthStencilAttachment, this`isRendertargetChanged
      ensures Valid() && renderTarget == if tex != null then tex else old(renderTarget)
      ensures State() ==
        Step(old(State()), Views(), Call.LoadSwapChain(if tex == null then None else Some(tex.id), srgb))
    {
      hide IsSchedule, NoneOvertaken, OrderedExactly, BufferValid;
      useSRGBGamma := srgb;
      if tex == null {
        return;
      }
      renderTarget := tex;
      depthStencilAttachment := None;
      isRendertargetChanged := true;
    }

    method Perform(c: Call)
      requires Valid() && CallOk(c, |textures|)
      modifies this, textures
      ensures Valid() && State() == Step(old(State()), Views(), c)
      ensures c.Flush? ==> Encoded() == [] && inFlight == {} && committed == old(Queue())
    {
      hide IsSchedule, NoneOvertaken, OrderedExactly, FlagsValid, BufferValid;
      match c {
        case BeginFrame => BeginFrame();
        case SetRenderTarget(tex, z) => SetRenderTarget(if tex.Some? then textures[tex.value] else null, z);
        case EnableFramebufferSrgb(on) => EnableFramebufferSrgb(on);
        case LoadSwapChain(tex, srgb) => LoadSwapChain(if tex.Some? then textures[tex.value] else null, srgb);
        case Clear(outcome) => Clear(outcome);
        case Draw(outcome) => Draw(outcome);
        case CopyTexture(t) => CopyTexture(textures[t]);
        case StageOrCopyRegion(t) => StageOrCopyRegion(textures[t]);
        case Flush => FinishPendingCommands();
      }
    }

    method PerformAll(views: seq<bool>, calls: seq<Call>)
      requires Valid() && State() == NO_CALLS && views == Views()
      requires forall i :: 0 <= i < |calls| ==> CallOk(calls[i], |textures|)
      modifies this, textures
      ensures Valid() && State() == After(views, calls, |calls|)
    {
      hide IsSchedule, NoneOvertaken, OrderedExactly, FlagsValid, BufferValid, Step;
      for i := 0 to |calls|
        invariant Valid() && State() == After(views, calls, i)
      {
        Perform(calls[i]);
      }
    }
  }

  /** A command encoded into the shared buffer goes behind everything. */
  lemma {:induction false} AppendedLast(issued: seq<Issue>, queue: seq<nat>, c: Issue)
    requires IsSchedule(issued, queue) && NoneOvertaken(issued, queue) && OrderedExactly(issued, queue) && !c.atOnce
    ensures IsSchedule(issued + [c], queue + [|issued|])
    ensures NoneOvertaken(issued + [c], queue + [|issued|])
    ensures OrderedExactly(issued + [c], queue + [|issued|])
  {
    var n := |queue|;
    assert queue[..n] == queue && queue[n..] == [];
    assert queue[..n] + [|issued|] + queue[n..] == queue + [|issued|];
    InsertSchedule(issued, queue, n, c);
    InsertOrdered(issued, queue, n, c);
  }

  // ---- Runs ---------------------------------------------------------------------------

  /** Everything issued by the first n calls is settled by a flush. */
  ghost predicate FlushSeparates(views: seq<bool>, calls: seq<Call>, k: nat, queue: seq<nat>)
    requires k < |calls|
  {
    forall i, j :: 0 <= i < |After(views, calls, k).issued| <= j < |After(views, calls, |calls|).issued| ==>
      QueuedBefore(queue, i, j)
  }

  lemma {:induction false} StepExtends(c: Client, views: seq<bool>, call: Call)
    ensures c.issued <= Step(c, views, call).issued
    ensures c.settled <= |c.issued| ==>
      c.settled <= Step(c, views, call).settled <= |Step(c, views, call).issued|
    ensures forall j :: |c.issued| <= j < |Step(c, views, call).issued| && c.settled <= |c.issued| ==>
      Step(c, views, call).issued[j].settled >= c.settled
  {}

  lemma {:induction false} SettledBehindFlush(views: seq<bool>, calls: seq<Call>, k: nat, n: nat)
    requires k < n <= |calls| && calls[k].Flush?
    ensures
      var before, after := After(views, calls, k), After(views, calls, n);
      && before.issued <= after.issued && |before.issued| <= after.settled <= |after.issued|
      && forall j :: |before.issued| <= j < |after.issued| ==> after.issued[j].settled >= |before.issued|
    decreases n
  {
    if n > k + 1 {
      SettledBehindFlush(views, calls, k, n - 1);
      StepExtends(After(views, calls, n - 1), views, calls[n - 1]);
      hide Step;
    }
  }

  /** What was issued in front of a flush is queued before everything that is issued behind it. */
  lemma {:induction false} FlushIsBarrier(views: seq<bool>, calls: seq<Call>, k: nat, queue: seq<nat>)
    requires k < |calls| && calls[k].Flush? && OrderedExactly(After(views, calls, |calls|).issued, queue)
    ensures FlushSeparates(views, calls, k, queue)
  {
    SettledBehindFlush(views, calls, k, |calls|);
    hide After, QueuedBefore;
  }

  /** A clear of one texture, then a staging copy of another, which overtakes it unless a flush is between. */
  lemma {:induction false} FlushMatters(flush: bool)
    ensures
      var start := [SetRenderTarget(Some(0), None), Clear(Outcome.Encoded)];
      var calls := start + (if flush then [Flush] else []) + [StageOrCopyRegion(1)];
      var issued := After([false, false], calls, |calls|).issued;
      && (forall i :: 0 <= i < |calls| ==> CallOk(calls[i], 2))
      && |issued| == 2 && issued[0].command == Render(0, false, None) && issued[1].command == Blit(1)
      && (KeepsOrder(issued, 0, 1) <==> flush)
  {
    var start := [SetRenderTarget(Some(0), None), Clear(Outcome.Encoded)];
    var calls := start + (if flush then [Flush] else []) + [StageOrCopyRegion(1)];
    var views := [false, false];
    assert After(views, calls, 0) == NO_CALLS;
    assert After(views, calls, 1) == NO_CALLS.(target := Some(0));
    assert After(views, calls, 2).issued == [Issue(Render(0, false, None), false, 0)];
    assert After(views, calls, 2).pending == {0} && After(views, calls, 2).settled == 0;
    if flush {
      assert After(views, calls, 3).settled == 1 && After(views, calls, 3).pending == {};
      assert After(views, calls, 4).issued == After(views, calls, 2).issued + [Issue(Blit(1), true, 1)];
    } else {
      assert After(views, calls, 3).issued == After(views, calls, 2).issued + [Issue(Blit(1), true, 0)];
    }
  }

  method CreateTextures(views: seq<bool>) returns (list: seq<MetalTexture>)
    ensures |list| == |views|
    ensures forall i :: 0 <= i < |views| ==>
      fresh(list[i]) && list[i].id == i && list[i].hasSrgbView == views[i] && !list[i].hasPendingWrites
  {
    list := [];
    for i := 0 to |views|
      invariant |list| == i
      invariant forall k :: 0 <= k < i ==>
        fresh(list[k]) && list[k].id == k && list[k].hasSrgbView == views[k] && !list[k].hasPendingWrites
    {
      var t := new MetalTexture(i, views[i]);
      list := list + [t];
    }
  }

  /**
   For every run of calls, closed by a flush: the queue received exactly the commands the client
   issued, every read comes after every earlier draw or clear into its source, a command overtakes
   an earlier one only if it is committed at once and the other one is waiting, and nothing moves
   across a flush.
   */
  method Run(views: seq<bool>, calls: seq<Call>) returns (queue: seq<nat>)
    requires forall i :: 0 <= i < |calls| ==> CallOk(calls[i], |views|)
    ensures
      var issued := After(views, calls, |calls|).issued;
      IsSchedule(issued, queue) && ReadsInOrder(issued, queue) && OrderedExactly(issued, queue)
    ensures forall k :: 0 <= k < |calls| && calls[k].Flush? ==> FlushSeparates(views, calls, k, queue)
  {
    hide After, Step;
    var textures := CreateTextures(views);
    var device := new MetalDevice(textures);
    assert views == device.Views();
    device.PerformAll(views, calls);
    device.FinishPendingCommands();
    queue := device.committed;
    assert device.Queue() == queue;
    NoneOvertakenIsInOrder(device.issued, queue);
    forall k | 0 <= k < |calls| && calls[k].Flush? ensures FlushSeparates(views, calls, k, queue) {
      FlushIsBarrier(views, calls, k, queue);
    }
  }
}
