/**
 The vertex binding cache of the D3D11 device.

 The device binds vertex buffers only when the current pair of vertex buffer and shader differs
 from the pair it bound last, comparing addresses.  Addresses are reused: an object that is
 destroyed may be followed by another one in the same place.
 */
module VertexBinding {
  import opened Wrappers
  import opened VertexSlots

  const INPUT_SLOTS := 32

  // an address; 0 is the null pointer
  type Address = nat

  datatype Slot = Slot(buffer: Option<nat>, stride: nat)

  datatype Call =
    | CreateBuffer(at: Address, buffer: VertexBuffer)
    | CreateShader(at: Address, expected: Expected)
    | DestroyBuffer(at: Address)
    | DestroyShader(at: Address)
    | LoadVertexBuffer(at: Address)
    | LoadVertexShader(at: Address)
    | LoadBufferData
    | Rebuild(again: map<Address, VertexBuffer>)   // device loss: every vertex buffer with new sub-buffers

  // ---- What the client did ----------------------------------------------------------------------

  // the objects that exist, the chosen ones, the pair of the latest binding call without what was
  // destroyed since, and whether the device was lost without another pair being bound since
  datatype Client = Client(buffers: map<Address, VertexBuffer>, shaders: map<Address, Expected>,
                           curBuffer: Address, curShader: Address,
                           seenBuffer: Address, seenShader: Address, lost: bool)

  const NO_CLIENT := Client(map[], map[], 0, 0, 0, 0, false)

  predicate SameAsSeen(c: Client) {
    c.curBuffer == c.seenBuffer && c.curShader == c.seenShader
  }

  function Forget(seen: Address, at: Address): Address {
    if seen == at then 0 else seen
  }

  function Step(c: Client, call: Call): Client {
    match call
    case CreateBuffer(at, buffer) => c.(buffers := c.buffers[at := buffer])
    case CreateShader(at, expected) => c.(shaders := c.shaders[at := expected])
    case DestroyBuffer(at) => c.(buffers := c.buffers - {at}, seenBuffer := Forget(c.seenBuffer, at))
    case DestroyShader(at) => c.(shaders := c.shaders - {at}, seenShader := Forget(c.seenShader, at))
    case LoadVertexBuffer(at) => c.(curBuffer := at)
    case LoadVertexShader(at) => c.(curShader := at)
    case LoadBufferData =>
      c.(seenBuffer := c.curBuffer, seenShader := c.curShader, lost := c.lost && SameAsSeen(c))
    case Rebuild(again) => c.(buffers := again, curBuffer := 0, curShader := 0, lost := true)
  }

  predicate BothLive(c: Client) {
    c.curBuffer in c.buffers && c.curShader in c.shaders
  }

  /** New objects take a free address; other calls name live objects or null, and no dangling pair is used. */
  ghost predicate CallOk(c: Client, call: Call) {
    match call
    case CreateBuffer(at, buffer) => at != 0 && at !in c.buffers && at !in c.shaders && buffer.points.Some?
    case CreateShader(at, expected) =>
      at != 0 && at !in c.buffers && at !in c.shaders && NumBuffersExpected(expected) <= INPUT_SLOTS
    case DestroyBuffer(at) => at == 0 || at in c.buffers
    case DestroyShader(at) => at == 0 || at in c.shaders
    case LoadVertexBuffer(at) => at == 0 || at in c.buffers
    case LoadVertexShader(at) => at == 0 || at in c.shaders
    case LoadBufferData =>
      (c.curBuffer == 0 || c.curBuffer in c.buffers) && (c.curShader == 0 || c.curShader in c.shaders)
    case Rebuild(again) => again.Keys == c.buffers.Keys && forall a :: a in again ==> again[a].points.Some?
  }

  function After(calls: seq<Call>, n: nat): Client
    requires n <= |calls|
  {
    if n == 0 then NO_CLIENT else Step(After(calls, n - 1), calls[n - 1])
  }

  ghost predicate ValidRun(calls: seq<Call>) {
    forall i :: 0 <= i < |calls| ==> CallOk(After(calls, i), calls[i])
  }

  /** What the current pair should see in the input slots. */
  function Wanted(c: Client): seq<Binding>
    requires BothLive(c)
  {
    BufferList(c.buffers[c.curBuffer], c.shaders[c.curShader])
  }

  predicate SlotsHold(slots: seq<Slot>, list: seq<Binding>) {
    && |list| <= |slots|
    && forall i :: 0 <= i < |list| ==> slots[i] == Slot(Some(list[i].buffer), list[i].stride)
  }

  /** A live current pair sees its own buffers, unless it was the remembered one of a lost device. */
  ghost predicate FrameOk(c: Client, slots: seq<Slot>) {
    BothLive(c) ==> (SlotsHold(slots, Wanted(c)) <==> !(c.lost && SameAsSeen(c)))
  }

  function NoSlots(): (slots: seq<Slot>)
    ensures |slots| == INPUT_SLOTS && forall i :: 0 <= i < INPUT_SLOTS ==> slots[i] == Slot(None, 0)
  {
    seq(INPUT_SLOTS, _ => Slot(None, 0))
  }

  /** The first n slots are empty. */
  predicate Cleared(slots: seq<Slot>, n: nat) {
    n <= |slots| && forall i :: 0 <= i < n ==> slots[i] == Slot(None, 0)
  }

  /** The slots from n on are as before. */
  predicate RestKept(before: seq<Slot>, after: seq<Slot>, n: nat) {
    |after| == |before| && forall i :: n <= i < |before| ==> after[i] == before[i]
  }

  /**
   What a call does to the slots.  Binding does nothing for the remembered pair or without a shader, puts the
   pair's list in front, and empties the slots of a shader that has no vertex buffer.
   */
  ghost predicate SlotsFollow(c: Client, call: Call, before: seq<Slot>, after: seq<Slot>) {
    if call.Rebuild? then after == NoSlots()
    else if !call.LoadBufferData? || SameAsSeen(c) || c.curShader !in c.shaders then after == before
    else if c.curBuffer in c.buffers then SlotsHold(after, Wanted(c)) && RestKept(before, after, |Wanted(c)|)
    else
      var n := NumBuffersExpected(c.shaders[c.curShader]);
      Cleared(after, n) && RestKept(before, after, n)
  }

  /** Loading the same pair again after a device loss reaches the state in which nothing is bound. */
  lemma {:induction false} LostPairIsReached(vb: VertexBuffer, e: Expected) returns (calls: seq<Call>)
    requires vb.points.Some? && NumBuffersExpected(e) <= INPUT_SLOTS
    ensures ValidRun(calls) && |calls| == 9 && calls[8].LoadBufferData?
    ensures BothLive(After(calls, 8)) && After(calls, 8).lost && SameAsSeen(After(calls, 8))
    ensures forall slots :: FrameOk(After(calls, 8), slots) ==> !SlotsHold(slots, BufferList(vb, e))
  {
    var choose := [LoadVertexBuffer(1), LoadVertexShader(2), LoadBufferData];
    calls := [CreateBuffer(1, vb), CreateShader(2, e)] + choose + [Rebuild(map[1 := vb])] + choose;
    assert After(calls, 0) == NO_CLIENT;
    assert After(calls, 1) == Client(map[1 := vb], map[], 0, 0, 0, 0, false);
    assert After(calls, 2) == Client(map[1 := vb], map[2 := e], 0, 0, 0, 0, false);
    assert After(calls, 3) == Client(map[1 := vb], map[2 := e], 1, 0, 0, 0, false);
    assert After(calls, 4) == Client(map[1 := vb], map[2 := e], 1, 2, 0, 0, false);
    assert After(calls, 5) == Client(map[1 := vb], map[2 := e], 1, 2, 1, 2, false);
    assert After(calls, 6) == Client(map[1 := vb], map[2 := e], 0, 0, 1, 2, true);
    assert After(calls, 7) == Client(map[1 := vb], map[2 := e], 1, 0, 1, 2, true);
    assert After(calls, 8) == Client(map[1 := vb], map[2 := e], 1, 2, 1, 2, true);
    hide After, BufferList;
  }

  lemma {:induction false} ListStartsWithPoints(vb: VertexBuffer, e: Expected)
    requires vb.points.Some?
    ensures BufferList(vb, e) != []
  {}

  /** The first n slots hold what the arrays held, and the arrays what the pair needs. */
  lemma {:induction false} BoundFollows(c: Client, before: seq<Slot>, after: seq<Slot>, n: nat,
                                        buffers: seq<Option<nat>>, strides: seq<nat>)
    requires !SameAsSeen(c) && n <= |buffers| == |strides| && |before| == |after| && n <= |after|
    requires c.curShader == 0 || c.curShader in c.shaders
    requires 0 !in c.shaders && (c.curBuffer in c.buffers || c.curBuffer == 0)
    requires forall i :: 0 <= i < n ==> after[i] == Slot(buffers[i], strides[i])
    requires forall i :: n <= i < |after| ==> after[i] == before[i]
    requires if BothLive(c) then n == |Wanted(c)| && forall i :: 0 <= i < n ==>
                 buffers[i] == Some(Wanted(c)[i].buffer) && strides[i] == Wanted(c)[i].stride
             else && n == (if c.curShader in c.shaders then NumBuffersExpected(c.shaders[c.curShader]) else 0)
                  && forall i :: 0 <= i < n ==> buffers[i] == None && strides[i] == 0
    ensures SlotsFollow(c, LoadBufferData, before, after) && FrameOk(c, after)
    ensures BothLive(c) ==> SlotsHold(after, Wanted(c))
  {
    hide BufferList, NumBuffersExpected;
    if c.curShader !in c.shaders {
      assert after == before;
    }
  }

  // ---- The device ---------------------------------------------------------------------------------

  class Device {
    // the heap objects behind the addresses
    var buffers: map<Address, VertexBuffer>
    var shaders: map<Address, Expected>

    var curVertexBuffer: Address
    var curVertexShader: Address
    var lastVertexBuffer: Address
    var lastVertexShader: Address

    // the context's input slots
    var slots: seq<Slot>

    // the slots were cleared by a device loss, and nothing was bound since
    ghost var lost: bool

    constructor ()
      ensures Valid() && State() == NO_CLIENT && slots == NoSlots()
    {
      buffers, shaders := map[], map[];
      curVertexBuffer, curVertexShader, lastVertexBuffer, lastVertexShader := 0, 0, 0, 0;
      slots := NoSlots();
      lost := false;
    }

    ghost function State(): Client
      reads this
    {
      Client(buffers, shaders, curVertexBuffer, curVertexShader, lastVertexBuffer, lastVertexShader, lost)
    }

    /** A remembered pair still exists and is what the slots hold. */
    ghost predicate Valid()
      reads this
    {
      && |slots| == INPUT_SLOTS
      && 0 !in buffers && 0 !in shaders
      && (forall a :: a in buffers ==> buffers[a].points.Some?)
      && (lost ==> forall i :: 0 <= i < INPUT_SLOTS ==> slots[i].buffer == None)
      && (forall a :: a in shaders ==> NumBuffersExpected(shaders[a]) <= INPUT_SLOTS)
      && (lastVertexBuffer != 0 && lastVertexShader != 0 ==>
            && lastVertexBuffer in buffers && lastVertexShader in shaders
            && (lost || SlotsHold(slots, BufferList(buffers[lastVertexBuffer], shaders[lastVertexShader]))))
    }

    method IASetVertexBuffers(numBuffers: nat, bound: array<Option<nat>>, strides: array<nat>)
      requires |slots| == INPUT_SLOTS && numBuffers <= INPUT_SLOTS
      requires numBuffers <= bound.Length && numBuffers <= strides.Length
      modifies this`slots
      ensures |slots| == INPUT_SLOTS
      ensures forall i :: 0 <= i < numBuffers ==> slots[i] == Slot(bound[i], strides[i])
      ensures forall i :: numBuffers <= i < INPUT_SLOTS ==> slots[i] == old(slots)[i]
    {
      for k := 0 to numBuffers
        invariant |slots| == INPUT_SLOTS
        invariant forall i :: 0 <= i < k ==> slots[i] == Slot(bound[i], strides[i])
        invariant forall i :: k <= i < INPUT_SLOTS ==> slots[i] == old(slots)[i]
      {
        slots := slots[k := Slot(bound[k], strides[k])];
      }
    }

    method LoadVertexBufferData()
      requires Valid() && CallOk(State(), LoadBufferData)
      modifies this
      ensures Valid() && State() == Step(old(State()), LoadBufferData)
      ensures FrameOk(old(State()), slots) && SlotsFollow(old(State()), LoadBufferData, old(slots), slots)
    {
      if curVertexBuffer == lastVertexBuffer && curVertexShader == lastVertexShader {
        AlreadyLoaded();
        return;
      }
      hide SlotsFollow, FrameOk;
      var numBuffers, bound, strides := CollectBuffers();
      IASetVertexBuffers(numBuffers, bound, strides);
      BoundFollows(old(State()), old(slots), slots, numBuffers, bound[..], strides[..]);

      lastVertexBuffer := curVertexBuffer;
      lastVertexShader := curVertexShader;
      lost := false;
    }

    /** The arrays to bind: the list of the current pair, or null for each buffer expected. */
    method CollectBuffers() returns (numBuffers: nat, bound: array<Option<nat>>, strides: array<nat>)
      requires Valid() && CallOk(State(), LoadBufferData)
      ensures numBuffers <= INPUT_SLOTS == bound.Length == strides.Length && fresh(bound) && fresh(strides)
      ensures BothLive(State()) ==> numBuffers == |Wanted(State())| && Holds(bound, strides, Wanted(State()))
      ensures !BothLive(State()) ==>
        && numBuffers == (if curVertexShader in shaders then NumBuffersExpected(shaders[curVertexShader]) else 0)
        && forall i :: 0 <= i < numBuffers ==> bound[i] == None && strides[i] == 0
    {
      hide BufferList, SlotsHold, Holds;
      bound, strides := new Option<nat>[INPUT_SLOTS], new nat[INPUT_SLOTS];
      if curVertexBuffer != 0 && curVertexShader != 0 {
        var vb, e := buffers[curVertexBuffer], shaders[curVertexShader];
        ListIsComplete(vb, e);
        numBuffers := MakeBufferList(vb, e, bound, strides);
      } else {
        numBuffers := if curVertexShader != 0 then NumBuffersExpected(shaders[curVertexShader]) else 0;
        for i := 0 to numBuffers
          modifies bound, strides
          invariant forall k :: 0 <= k < i ==> bound[k] == None && strides[k] == 0
        {
          bound[i] := None;
          strides[i] := 0;
        }
      }
    }

    lemma {:induction false} AlreadyLoaded()
      requires Valid() && SameAsSeen(State())
      ensures FrameOk(State(), slots)
    {
      if BothLive(State()) && lost {
        ListStartsWithPoints(buffers[curVertexBuffer], shaders[curVertexShader]);
        assert slots[0].buffer == None;
      }
    }

    method LoadBuffer(at: Address)
      requires Valid()
      modifies this`curVertexBuffer
      ensures Valid() && State() == Step(old(State()), LoadVertexBuffer(at))
    {
      if curVertexBuffer == at {
        return;
      }
      curVertexBuffer := at;
    }

    method LoadShader(at: Address)
      requires Valid()
      modifies this`curVertexShader
      ensures Valid() && State() == Step(old(State()), LoadVertexShader(at))
    {
      if curVertexShader == at {
        return;
      }
      curVertexShader := at;
    }

    method DestroyVertexBuffer(at: Address)
      requires Valid() && CallOk(State(), DestroyBuffer(at))
      modifies this`buffers, this`lastVertexBuffer
      ensures Valid() && State() == Step(old(State()), DestroyBuffer(at))
    {
      if at != 0 && lastVertexBuffer == at {
        lastVertexBuffer := 0;
      }
      buffers := buffers - {at};
    }

    method DestroyVertexShader(at: Address)
      requires Valid() && CallOk(State(), DestroyShader(at))
      modifies this`shaders, this`lastVertexShader
      ensures Valid() && State() == Step(old(State()), DestroyShader(at))
    {
      if at != 0 && lastVertexShader == at {
        lastVertexShader := 0;
      }
      shaders := shaders - {at};
    }

    /** A new context with empty slots; the chosen pair is reset and the remembered one is not. */
    method RebuildDevice(again: map<Address, VertexBuffer>)
      requires Valid() && CallOk(State(), Rebuild(again))
      modifies this
      ensures Valid() && State() == Step(old(State()), Rebuild(again)) && slots == NoSlots()
    {
      slots := NoSlots();
      buffers := again;
      curVertexBuffer, curVertexShader := 0, 0;
      lost := true;
    }

    method Perform(call: Call)
      requires Valid() && CallOk(State(), call)
      modifies this
      ensures Valid() && State() == Step(old(State()), call)
      ensures call.LoadBufferData? ==> FrameOk(old(State()), slots)
      ensures SlotsFollow(old(State()), call, old(slots), slots)
    {
      match call {
        case CreateBuffer(at, buffer) => buffers := buffers[at := buffer];
        case CreateShader(at, expected) => shaders := shaders[at := expected];
        case DestroyBuffer(at) => DestroyVertexBuffer(at);
        case DestroyShader(at) => DestroyVertexShader(at);
        case LoadVertexBuffer(at) => LoadBuffer(at);
        case LoadVertexShader(at) => LoadShader(at);
        case LoadBufferData => LoadVertexBufferData();
        case Rebuild(again) => RebuildDevice(again);
      }
    }
  }

  /** What the slots held in front of call i. */
  function Before(frames: seq<seq<Slot>>, i: nat): seq<Slot>
    requires i <= |frames|
  {
    if i == 0 then NoSlots() else frames[i - 1]
  }

  /**
   In every run, whenever binding returns with a live current pair, the input slots hold that
   pair's buffer list if and only if it is not the pair a lost device had bound last.  What every
   call leaves in the slots follows from what was in them before.
   */
  method Run(calls: seq<Call>) returns (frames: seq<seq<Slot>>)
    requires ValidRun(calls)
    ensures |frames| == |calls| && forall i :: 0 <= i < |frames| ==> |frames[i]| == 32
    ensures forall i :: 0 <= i < |calls| && calls[i].LoadBufferData? ==> FrameOk(After(calls, i), frames[i])
    ensures forall i :: 0 <= i < |calls| ==>
      SlotsFollow(After(calls, i), calls[i], Before(frames, i), frames[i])
  {
    hide FrameOk, CallOk, Step, SlotsFollow, FramesFollow, Before;
    var device := new Device();
    frames := [];
    NoFrames(calls);
    for n := 0 to |calls|
      invariant device.Valid() && device.State() == After(calls, n) && fresh(device)
      invariant |frames| == n && device.slots == Before(frames, n) && FramesFollow(calls, frames)
    {
      device.Perform(calls[n]);
      NextFrame(calls, frames, device.slots);
      frames := frames + [device.slots];
    }
    AllFrames(calls, frames);
  }

  /** What each call leaves in the slots follows from what was in them before. */
  ghost predicate FramesFollow(calls: seq<Call>, frames: seq<seq<Slot>>) {
    && |frames| <= |calls| && (forall i :: 0 <= i < |frames| ==> |frames[i]| == INPUT_SLOTS)
    && (forall i :: 0 <= i < |frames| && calls[i].LoadBufferData? ==> FrameOk(After(calls, i), frames[i]))
    && (forall i :: 0 <= i < |frames| ==> SlotsFollow(After(calls, i), calls[i], Before(frames, i), frames[i]))
  }

  lemma {:induction false} NoFrames(calls: seq<Call>)
    ensures FramesFollow(calls, []) && Before([], 0) == NoSlots()
  {}

  lemma {:induction false} NextFrame(calls: seq<Call>, frames: seq<seq<Slot>>, slots: seq<Slot>)
    requires FramesFollow(calls, frames) && |frames| < |calls| && |slots| == INPUT_SLOTS
    requires calls[|frames|].LoadBufferData? ==> FrameOk(After(calls, |frames|), slots)
    requires SlotsFollow(After(calls, |frames|), calls[|frames|], Before(frames, |frames|), slots)
    ensures FramesFollow(calls, frames + [slots]) && Before(frames + [slots], |frames| + 1) == slots
  {
    hide FrameOk, SlotsFollow, After, Before;
    var more := frames + [slots];
    forall i | 0 <= i < |more| ensures SlotsFollow(After(calls, i), calls[i], Before(more, i), more[i]) {
      BeforeKept(frames, slots, i);
      if i < |frames| {
        assert SlotsFollow(After(calls, i), calls[i], Before(frames, i), frames[i]);
      }
    }
    BeforeKept(frames, slots, |more|);
  }

  lemma {:induction false} BeforeKept(frames: seq<seq<Slot>>, slots: seq<Slot>, i: nat)
    requires i <= |frames| + 1
    ensures Before(frames + [slots], i) == if i <= |frames| then Before(frames, i) else slots
  {}

  lemma {:induction false} AllFrames(calls: seq<Call>, frames: seq<seq<Slot>>)
    requires FramesFollow(calls, frames) && |frames| == |calls|
    ensures forall i :: 0 <= i < |frames| ==> |frames[i]| == INPUT_SLOTS
    ensures forall i :: 0 <= i < |calls| && calls[i].LoadBufferData? ==> FrameOk(After(calls, i), frames[i])
    ensures forall i :: 0 <= i < |calls| ==> SlotsFollow(After(calls, i), calls[i], Before(frames, i), frames[i])
  {
    hide FrameOk, SlotsFollow, After, Before;
  }
}
