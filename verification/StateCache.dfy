/**
 The memo table of immutable pipeline state objects kept by the D3D11 device.

 The source has three copies of this code, for depth-stencil, rasterizer and blend
 settings; here one generic class stands for all of them.  Addresses are numbers that
 the driver may hand out again once an object is gone, and 0 is the null pointer.
 */
module StateCache {
  import opened Wrappers
  import Sets

  type Addr = nat

  const NULL: Addr := 0

  function Above(taken: set<Addr>, low: Addr): set<Addr> {
    set x | x in taken && low <= x
  }

  /** The allocator: the address proposed by the environment, or the next one not taken. */
  function FreshFrom(hint: Addr, taken: set<Addr>): (a: Addr)
    ensures a !in taken
    ensures hint !in taken ==> a == hint
    decreases |Above(taken, hint)|
  {
    if hint !in taken then hint else
      assert hint in Above(taken, hint) && hint !in Above(taken, hint + 1);
      assert Above(taken, hint + 1) < Above(taken, hint);
      Sets.ProperSubsetIsSmaller(Above(taken, hint + 1), Above(taken, hint));
      FreshFrom(hint + 1, taken)
  }

  datatype Saved<K, D> = Saved(key: K, desc: D, state: Addr)

  class StateCache<K(==), D(==)> {
    const convert: K -> D

    var settings: K
    var changed: bool
    var states: seq<Saved<K, D>>
    var cur: Addr

    // the driver's side: live state objects and the one bound in the context
    var objects: map<Addr, D>
    var bound: Option<D>

    ghost predicate OnePerSettings()
      reads this`states
    {
      forall i, j :: 0 <= i < j < |states| ==> states[i].key != states[j].key
    }

    ghost predicate Stored(s: Saved<K, D>)
      reads this`objects
    {
      s.desc == convert(s.key) && s.state != NULL && s.state in objects && objects[s.state] == s.desc
    }

    ghost predicate TableValid()
      reads this`states, this`objects
    {
      OnePerSettings() && forall i :: 0 <= i < |states| ==> Stored(states[i])
    }

    ghost predicate Valid()
      reads this
    {
      && TableValid()
      && (cur != NULL ==> cur in objects && bound == Some(objects[cur]))
      && (!changed ==> bound == Some(convert(settings)))
    }

    constructor (convert: K -> D, settings: K)
      ensures Valid() && this.convert == convert && this.settings == settings
      ensures changed && states == []
    {
      this.convert := convert;
      this.settings := settings;
      changed, states, cur, objects, bound := true, [], NULL, map[], None;
    }

    /** A setter: records the value and raises the flag only when it differs. */
    method Set(value: K)
      requires Valid()
      modifies this`settings, this`changed
      ensures Valid() && settings == value
    {
      if value == settings {
        return;
      }
      settings := value;
      changed := true;
    }

    /** The scissor setter raises the flag without comparing. */
    method SetAlways(value: K)
      requires Valid()
      modifies this`settings, this`changed
      ensures Valid() && settings == value
    {
      settings := value;
      changed := true;
    }

    method AddState(hint: Addr) returns (state: Addr)
      requires Valid()
      requires forall i :: 0 <= i < |states| ==> states[i].key != settings
      modifies this`states, this`objects
      ensures Valid()
      ensures states == old(states) + [Saved(settings, convert(settings), state)]
      ensures state != NULL && state in objects && objects[state] == convert(settings)
    {
      var desc := convert(settings);
      // the driver may return an existing object, but only for an equal descriptor
      state := FreshFrom(hint, (set a | a in objects && objects[a] != desc) + {NULL});
      objects := objects[state := desc];
      states := states + [Saved(settings, desc, state)];
    }

    /** Flushes the settings: afterwards the context has bound what they describe. */
    method Update(hint: Addr)
      requires Valid()
      modifies this
      ensures Valid() && settings == old(settings) && !changed
      ensures bound == Some(convert(settings))
      ensures old(states) <= states
      ensures states != old(states) ==>
                |states| == |old(states)| + 1 && states[|old(states)|].key == settings
    {
      if !changed {
        return;
      }

      var state := NULL;
      var i := 0;
      while i < |states|
        invariant 0 <= i <= |states|
        invariant state == NULL
        invariant forall k :: 0 <= k < i ==> states[k].key != settings
      {
        if states[i].key == settings {
          state := states[i].state;
          assert Stored(states[i]);
          break;
        }
        i := i + 1;
      }

      if state == NULL {
        state := AddState(hint);
      }

      if state != cur {
        bound := Some(objects[state]);
        cur := state;
      }

      changed := false;
    }

    /** The table after the old device is gone: no object is alive, and the new context has none bound. */
    ghost predicate Lost()
      reads this`states, this`objects, this`bound
    {
      && OnePerSettings() && objects == map[] && bound == None
      && forall i :: 0 <= i < |states| ==> states[i].desc == convert(states[i].key)
    }

    /** What the loss of the device does to the driver's side. */
    method Lose()
      requires Valid()
      modifies this`objects, this`bound
      ensures Lost()
    {
      assert forall i :: 0 <= i < |states| ==> Stored(states[i]);
      objects, bound := map[], None;
    }

    /** Recreates every object at whatever address the driver now chooses, and forgets which was bound. */
    method Recreate(hints: nat -> Addr)
      requires Lost()
      modifies this
      ensures Valid() && settings == old(settings) && bound == None
      ensures |states| == |old(states)|
      ensures forall i :: 0 <= i < |states| ==> states[i].key == old(states)[i].key
    {
      changed, cur := true, NULL;

      var i := 0;
      while i < |states|
        invariant 0 <= i <= |states| == |old(states)|
        invariant settings == old(settings) && bound == None && changed && cur == NULL
        invariant forall k :: 0 <= k < |states| ==>
                    states[k].key == old(states)[k].key && states[k].desc == old(states)[k].desc
        invariant forall k :: 0 <= k < i ==> Stored(states[k])
      {
        var desc := states[i].desc;
        var state := FreshFrom(hints(i), (set a | a in objects && objects[a] != desc) + {NULL});
        objects := objects[state := desc];
        states := states[i := states[i].(state := state)];
        i := i + 1;
      }
    }
  }
}
