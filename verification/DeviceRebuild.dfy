/**
 Rebuilding the device after it is lost.

 The object list is walked twice: once to release every resource of the old device, and once to
 make them again on the new one.  The two planes of a texture share one resource, which is made
 for the luma plane and handed on to the chroma plane.
 */
module DeviceRebuild {
  import opened ObjectList

  datatype Event = Released(obj: Obj) | Rebuilt(obj: Obj)

  // what the walks look at
  datatype Item = Item(obj: Obj, paired: Obj?)

  ghost function ItemsOf(s: seq<Obj>): (items: seq<Item>)
    reads s
    ensures |items| == |s| && forall i :: 0 <= i < |s| ==> items[i] == Item(s[i], s[i].paired)
  {
    seq(|s|, i requires 0 <= i < |s| reads s => Item(s[i], s[i].paired))
  }

  predicate IsLuma(item: Item) {
    item.obj.kind == Texture2D && item.paired != null && !item.obj.chroma
  }

  predicate IsChroma(item: Item) {
    item.obj.kind == Texture2D && item.paired != null && item.obj.chroma
  }

  /** Every listed luma plane has its chroma plane in the list, and that one points back. */
  ghost predicate PlanesListed(items: seq<Item>) {
    && (forall i, j :: 0 <= i < j < |items| ==> items[i].obj != items[j].obj)
    && (forall i :: 0 <= i < |items| && IsLuma(items[i]) ==>
          exists j :: 0 <= j < |items| && IsPlaneOf(items[i], items[j]))
  }

  ghost predicate IsPlaneOf(luma: Item, chroma: Item) {
    IsLuma(luma) && IsChroma(chroma) && luma.paired == chroma.obj && chroma.paired == luma.obj
  }

  // ---- The log ------------------------------------------------------------------------------

  function Releases(items: seq<Item>, n: nat): (log: seq<Event>)
    requires n <= |items|
  {
    if n == 0 then [] else Releases(items, n - 1) + [Released(items[n - 1].obj)]
  }

  /** What the second walk does for one object; the duplicators in fails cannot start. */
  function RebuildEvents(item: Item, fails: set<Obj>): seq<Event> {
    if IsChroma(item) then []
    else if IsLuma(item) then [Rebuilt(item.obj), Rebuilt(item.paired)]
    else if item.obj.kind == Duplicator && item.obj in fails then [Rebuilt(item.obj), Released(item.obj)]
    else [Rebuilt(item.obj)]
  }

  function Rebuilds(items: seq<Item>, n: nat, fails: set<Obj>): (log: seq<Event>)
    requires n <= |items|
  {
    if n == 0 then [] else Rebuilds(items, n - 1, fails) + RebuildEvents(items[n - 1], fails)
  }

  // ---- Once each ----------------------------------------------------------------------------

  lemma {:induction false} ReleasesOnce(items: seq<Item>, n: nat, k: nat)
    requires n <= |items| && k < |items| && PlanesListed(items)
    ensures multiset(Releases(items, n))[Released(items[k].obj)] == if k < n then 1 else 0
    ensures forall o :: Rebuilt(o) !in Releases(items, n)
  {
    if n > 0 {
      ReleasesOnce(items, n - 1, k);
    }
  }

  /** Item i brings the object back. */
  ghost predicate Makes(item: Item, obj: Obj) {
    !IsChroma(item) && (item.obj == obj || (IsLuma(item) && item.paired == obj))
  }

  /** The one item that brings an object back, if there is one. */
  ghost predicate IsMaker(items: seq<Item>, m: nat, k: nat)
    requires k < |items|
  {
    m < |items| && Makes(items[m], items[k].obj)
  }

  lemma {:induction false} MakerIsUnique(items: seq<Item>, k: nat, m: nat, n: nat)
    requires PlanesListed(items) && k < |items| && IsMaker(items, m, k) && IsMaker(items, n, k)
    ensures m == n
    ensures m != k ==> IsPlaneOf(items[m], items[k])
  {
    MakerIs(items, k, m);
    MakerIs(items, k, n);
  }

  lemma {:induction false} MakerIs(items: seq<Item>, k: nat, m: nat)
    requires PlanesListed(items) && k < |items| && IsMaker(items, m, k)
    ensures if IsChroma(items[k]) then IsPlaneOf(items[m], items[k]) else m == k
  {
    if IsLuma(items[m]) {
      var j :| 0 <= j < |items| && IsPlaneOf(items[m], items[j]);
    }
  }

  ghost predicate MadeBefore(items: seq<Item>, n: nat, k: nat)
    requires n <= |items| && k < |items|
  {
    exists m :: 0 <= m < n && IsMaker(items, m, k)
  }

  lemma {:induction false} EventsOnce(items: seq<Item>, i: nat, obj: Obj, fails: set<Obj>)
    requires PlanesListed(items) && i < |items|
    ensures multiset(RebuildEvents(items[i], fails))[Rebuilt(obj)] == if Makes(items[i], obj) then 1 else 0
  {
    if IsLuma(items[i]) {
      var j :| 0 <= j < |items| && IsPlaneOf(items[i], items[j]);
      assert items[i].paired != items[i].obj;
    }
  }

  lemma {:induction false} RebuildsOnce(items: seq<Item>, n: nat, k: nat, fails: set<Obj>)
    requires PlanesListed(items) && n <= |items| && k < |items|
    ensures multiset(Rebuilds(items, n, fails))[Rebuilt(items[k].obj)] == if MadeBefore(items, n, k) then 1 else 0
  {
    hide PlanesListed, Makes, RebuildEvents;
    if n > 0 {
      RebuildsOnce(items, n - 1, k, fails);
      EventsOnce(items, n - 1, items[k].obj, fails);
      RebuildsStep(items, n, fails, Rebuilt(items[k].obj));
      hide *;
      MadeOnce(items, n, k);
    }
  }

  lemma {:induction false} RebuildsStep(items: seq<Item>, n: nat, fails: set<Obj>, event: Event)
    requires 0 < n <= |items|
    ensures multiset(Rebuilds(items, n, fails))[event] ==
      multiset(Rebuilds(items, n - 1, fails))[event] + multiset(RebuildEvents(items[n - 1], fails))[event]
  {
    hide RebuildEvents;
    assert multiset(Rebuilds(items, n, fails))
        == multiset(Rebuilds(items, n - 1, fails)) + multiset(RebuildEvents(items[n - 1], fails));
  }

  lemma {:induction false} MadeOnce(items: seq<Item>, n: nat, k: nat)
    requires PlanesListed(items) && 0 < n <= |items| && k < |items|
    ensures MadeBefore(items, n, k) <==> MadeBefore(items, n - 1, k) || IsMaker(items, n - 1, k)
    ensures !(MadeBefore(items, n - 1, k) && IsMaker(items, n - 1, k))
  {
    hide PlanesListed, Makes;
    if IsMaker(items, n - 1, k) && MadeBefore(items, n - 1, k) {
      var m :| 0 <= m < n - 1 && IsMaker(items, m, k);
      MakerIsUnique(items, k, m, n - 1);
      assert false;
    }
  }

  /** A chroma plane is brought back exactly if its luma plane is listed; anything else always is. */
  lemma {:induction false} RebuiltExactlyWhen(items: seq<Item>, k: nat)
    requires PlanesListed(items) && k < |items|
    ensures MadeBefore(items, |items|, k) <==>
      (IsChroma(items[k]) ==> HasLuma(items, k))
  {
    if MadeBefore(items, |items|, k) && IsChroma(items[k]) {
      var m :| 0 <= m < |items| && IsMaker(items, m, k);
      MakerIs(items, k, m);
    }
    if IsChroma(items[k]) {
      if m :| 0 <= m < |items| && IsPlaneOf(items[m], items[k]) {
        assert IsMaker(items, m, k);
      }
    } else {
      assert IsMaker(items, k, k);
    }
  }

  /**
   In whatever order objects are listed, each is released once before any is brought back, and
   then brought back once, except a chroma plane whose luma plane is gone, which never is.
   */
  lemma {:induction false} EachObjectOnce(items: seq<Item>, k: nat, fails: set<Obj>)
    requires PlanesListed(items) && k < |items|
    ensures multiset(Releases(items, |items|))[Released(items[k].obj)] == 1
    ensures forall o :: Rebuilt(o) !in Releases(items, |items|)
    ensures multiset(Rebuilds(items, |items|, fails))[Rebuilt(items[k].obj)]
         == if IsChroma(items[k]) && !HasLuma(items, k) then 0 else 1
  {
    ReleasesOnce(items, |items|, k);
    RebuildsOnce(items, |items|, k, fails);
    RebuiltExactlyWhen(items, k);
  }

  ghost predicate HasLuma(items: seq<Item>, k: nat)
    requires k < |items|
  {
    exists m :: 0 <= m < |items| && IsPlaneOf(items[m], items[k])
  }

  /** After its luma plane is destroyed, a chroma plane alone in the list stays without a resource. */
  lemma {:induction false} OrphanedChroma(chroma: Obj, luma: Obj, first: nat, fails: set<Obj>)
    requires chroma.kind == Texture2D && chroma.chroma && luma != chroma
    ensures PlanesListed([Item(chroma, luma)])
    ensures Rebuilds([Item(chroma, luma)], 1, fails) == []
    ensures ResourceAfter([Item(chroma, luma)], 1, 0, first, fails) == 0
  {
    var items := [Item(chroma, luma)];
    assert PlanesListed(items);
    RebuiltExactlyWhen(items, 0);
    assert Rebuilds(items, 0, fails) == [];
  }

  // ---- What the second walk touches -------------------------------------------------------------

  ghost predicate IsListed(items: seq<Item>, obj: Obj) {
    exists j :: 0 <= j < |items| && items[j].obj == obj
  }

  lemma {:induction false} EventOfItem(items: seq<Item>, n: nat, fails: set<Obj>, e: Event)
    requires n <= |items|
    ensures e in Rebuilds(items, n, fails) <==> exists i :: 0 <= i < n && e in RebuildEvents(items[i], fails)
  {
    hide RebuildEvents;
    if n > 0 {
      EventOfItem(items, n - 1, fails, e);
    }
  }

  /**
   The second walk touches listed objects only, and follows no pointer to a destroyed one, if and
   only if the chroma plane of every listed luma plane is listed.
   */
  lemma {:induction false} WalkStaysInList(items: seq<Item>, fails: set<Obj>)
    ensures (forall e :: e in Rebuilds(items, |items|, fails) ==> IsListed(items, e.obj))
       <==> (forall i :: 0 <= i < |items| && IsLuma(items[i]) ==> IsListed(items, items[i].paired))
  {
    hide Rebuilds;
    if forall e :: e in Rebuilds(items, |items|, fails) ==> IsListed(items, e.obj) {
      forall i | 0 <= i < |items| && IsLuma(items[i]) ensures IsListed(items, items[i].paired) {
        var e := Rebuilt(items[i].paired);
        assert e in RebuildEvents(items[i], fails);
        EventOfItem(items, |items|, fails, e);
      }
    }
    if forall i :: 0 <= i < |items| && IsLuma(items[i]) ==> IsListed(items, items[i].paired) {
      forall e | e in Rebuilds(items, |items|, fails) ensures IsListed(items, e.obj) {
        EventOfItem(items, |items|, fails, e);
        var i :| 0 <= i < |items| && e in RebuildEvents(items[i], fails);
        assert e.obj == items[i].obj || (IsLuma(items[i]) && e.obj == items[i].paired);
      }
    }
  }

  /** A luma plane alone in the list, as after its chroma plane is destroyed: the walk follows the old pointer. */
  lemma {:induction false} DestroyedChromaIsTouched(luma: Obj, chroma: Obj, fails: set<Obj>)
    requires luma.kind == Texture2D && !luma.chroma && luma != chroma
    ensures Rebuilt(chroma) in Rebuilds([Item(luma, chroma)], 1, fails)
    ensures !IsListed([Item(luma, chroma)], chroma)
  {
    var items := [Item(luma, chroma)];
    assert Rebuilds(items, 0, fails) == [];
    assert RebuildEvents(items[0], fails)[1] == Rebuilt(chroma);
    assert Rebuilds(items, 1, fails) == RebuildEvents(items[0], fails);
  }

  // ---- The walks --------------------------------------------------------------------------------

  /** The resource object k has after n steps of the second walk, when step m makes resource first + m. */
  ghost function ResourceAfter(items: seq<Item>, n: nat, k: nat, first: nat, fails: set<Obj>): nat
    requires n <= |items| && k < |items|
  {
    if !MadeBefore(items, n, k) || CannotStart(items[k].obj, fails) then 0
    else
      var m :| 0 <= m < n && IsMaker(items, m, k);
      first + m
  }

  predicate CannotStart(obj: Obj, fails: set<Obj>) {
    obj.kind == Duplicator && obj in fails
  }

  lemma {:induction false} ResourceStep(items: seq<Item>, n: nat, k: nat, first: nat, fails: set<Obj>)
    requires PlanesListed(items) && n < |items| && k < |items|
    ensures ResourceAfter(items, n + 1, k, first, fails) ==
      if IsMaker(items, n, k) then (if CannotStart(items[k].obj, fails) then 0 else first + n)
      else ResourceAfter(items, n, k, first, fails)
  {
    hide PlanesListed, Makes;
    MadeOnce(items, n + 1, k);
    if MadeBefore(items, n + 1, k) {
      forall i, j | 0 <= i <= n && 0 <= j <= n && IsMaker(items, i, k) && IsMaker(items, j, k) ensures i == j {
        MakerIsUnique(items, k, i, j);
      }
    }
  }

  /** A rebuilt chroma plane has the new resource of its luma plane. */
  lemma {:induction false} PlanesShare(items: seq<Item>, m: nat, k: nat, first: nat, fails: set<Obj>)
    requires PlanesListed(items) && m < |items| && k < |items| && IsPlaneOf(items[m], items[k])
    ensures ResourceAfter(items, |items|, k, first, fails) == first + m
    ensures ResourceAfter(items, |items|, m, first, fails) == first + m
  {
    assert IsMaker(items, m, k) && IsMaker(items, m, m);
    forall i | 0 <= i < |items| && IsMaker(items, i, k) ensures i == m {
      MakerIsUnique(items, k, i, m);
    }
    forall i | 0 <= i < |items| && IsMaker(items, i, m) ensures i == m {
      MakerIsUnique(items, m, i, m);
    }
  }

  /** Rebuilds a luma plane with its chroma plane. */
  method RebuildPairedY(luma: Obj, made: nat)
    requires luma.paired != null
    modifies luma`resource, luma.paired`resource
    ensures luma.resource == made && luma.paired.resource == made
  {
    luma.resource := made;
    var chroma := luma.paired;
    chroma.resource := luma.resource;
  }

  method RebuildObject(obj: Obj, made: nat, fails: set<Obj>) returns (log: seq<Event>)
    requires IsLuma(Item(obj, obj.paired)) ==> obj.paired.kind == Texture2D
    modifies obj`resource, (if IsLuma(Item(obj, obj.paired)) then {obj.paired} else {})`resource
    ensures log == RebuildEvents(Item(obj, obj.paired), fails)
    ensures forall o :: o == obj || o == obj.paired ==>
      o.resource == if !Makes(Item(obj, obj.paired), o) then old(o.resource)
                    else if CannotStart(o, fails) then 0
                    else made
  {
    log := [];
    match obj.kind {
      case Texture2D =>
        if obj.paired == null {
          obj.resource := made;
          log := [Rebuilt(obj)];
        } else if !obj.chroma {
          RebuildPairedY(obj, made);
          log := [Rebuilt(obj), Rebuilt(obj.paired)];
        }
      case Duplicator =>
        log := [Rebuilt(obj)];
        if obj in fails {
          obj.resource := 0;
          log := log + [Released(obj)];
        } else {
          obj.resource := made;
        }
      case OtherKind =>
        obj.resource := made;
        log := [Rebuilt(obj)];
    }
  }

  /** The planes of every listed object, and the resource each has. */
  ghost predicate Holds(items: seq<Item>, n: nat, first: nat, fails: set<Obj>)
    requires n <= |items|
    reads set i | 0 <= i < |items| :: items[i].obj
  {
    forall k :: 0 <= k < |items| ==> items[k].obj.resource == ResourceAfter(items, n, k, first, fails)
  }

  lemma {:induction false} NothingMade(items: seq<Item>, first: nat, fails: set<Obj>)
    requires forall k :: 0 <= k < |items| ==> items[k].obj.resource == 0
    ensures Holds(items, 0, first, fails)
  {}

  /** One step of the second walk. */
  method RebuildNext(obj: Obj, made: nat, fails: set<Obj>, ghost s: seq<Obj>, ghost n: nat, ghost first: nat,
                     ghost head: Obj?)
    returns (log: seq<Event>)
    requires n < |s| && obj == s[n] && PlanesListed(ItemsOf(s)) && made == first + n
    requires Holds(ItemsOf(s), n, first, fails) && Chain(head, s)
    modifies s`resource
    ensures Chain(head, s)
    ensures log == RebuildEvents(ItemsOf(s)[n], fails)
    ensures ItemsOf(s) == old(ItemsOf(s)) && Holds(ItemsOf(s), n + 1, first, fails)
  {
    ghost var items := ItemsOf(s);
    PlanesOf(s, n);
    hide PlanesListed, ResourceAfter, RebuildEvents, CannotStart, ItemsOf;
    log := RebuildObject(obj, made, fails);
    assert ItemsOf(s) == items;
    forall k | 0 <= k < |items| ensures s[k].resource == ResourceAfter(items, n + 1, k, first, fails) {
      ResourceStep(items, n, k, first, fails);
      assert s[k] != obj && s[k] != obj.paired ==> !IsMaker(items, n, k);
    }
  }

  lemma {:induction false} PlanesOf(s: seq<Obj>, n: nat)
    requires n < |s| && PlanesListed(ItemsOf(s))
    ensures s[n].kind == Texture2D && s[n].paired != null && !s[n].chroma ==>
      s[n].paired in s && s[n].paired.kind == Texture2D
  {
    var items := ItemsOf(s);
    if IsLuma(items[n]) {
      var j :| 0 <= j < |items| && IsPlaneOf(items[n], items[j]);
      assert s[j] in s;
    }
  }

  /** The two walks over the object list. */
  method RebuildDevice(device: Device, fails: set<Obj>, first: nat) returns (log: seq<Event>)
    requires device.Linked() && PlanesListed(ItemsOf(device.listed)) && first > 0
    modifies device.listed`resource
    ensures ItemsOf(device.listed) == old(ItemsOf(device.listed))
    ensures var items := ItemsOf(device.listed);
      && log == Releases(items, |items|) + Rebuilds(items, |items|, fails)
      && Holds(items, |items|, first, fails)
  {
    ghost var s := device.listed;
    Following(device.firstObj, s, LinksOf(s));
    assert Chain(device.firstObj, s);
    hide *;
    log := ReleaseAll(device.firstObj, s);
    var more := RebuildAll(device.firstObj, fails, first, s);
    log := log + more;
  }

  /** Following the links from here passes through these objects. */
  ghost predicate Chain(head: Obj?, s: seq<Obj>)
    reads s
  {
    head == Nth(s, 0) && forall i :: 0 <= i < |s| ==> s[i].next == Nth(s, i + 1)
  }

  lemma {:induction false} ChainAt(head: Obj?, s: seq<Obj>, n: nat)
    requires Chain(head, s)
    ensures Nth(s, n) == null <==> n >= |s|
    ensures n < |s| ==> Nth(s, n) == s[n] && s[n].next == Nth(s, n + 1)
    ensures head == Nth(s, 0)
  {}

  method RebuildAll(head: Obj?, fails: set<Obj>, first: nat, ghost s: seq<Obj>) returns (log: seq<Event>)
    requires Chain(head, s) && PlanesListed(ItemsOf(s))
    requires forall o :: o in s ==> o.resource == 0
    modifies s`resource
    ensures ItemsOf(s) == old(ItemsOf(s))
    ensures log == Rebuilds(ItemsOf(s), |s|, fails)
    ensures Holds(ItemsOf(s), |s|, first, fails)
  {
    ghost var items := ItemsOf(s);
    NothingMade(items, first, fails);
    hide PlanesListed, Holds, RebuildEvents, ItemsOf, Nth, Chain;
    log := [];
    var obj, made := head, first;
    ghost var n := 0;
    ChainAt(head, s, 0);
    while obj != null
      invariant 0 <= n <= |s| && obj == Nth(s, n) && (obj == null <==> n == |s|) && made == first + n
      invariant Chain(head, s)
      invariant log == Rebuilds(items, n, fails)
      invariant ItemsOf(s) == items && Holds(items, n, first, fails)
      decreases |s| - n
    {
      ChainAt(head, s, n);
      var more := RebuildNext(obj, made, fails, s, n, first, head);
      log := log + more;
      ChainAt(head, s, n);
      ChainAt(head, s, n + 1);
      made := made + 1;
      obj := obj.next;
      n := n + 1;
    }
  }

  method ReleaseAll(head: Obj?, ghost s: seq<Obj>) returns (log: seq<Event>)
    requires Chain(head, s)
    modifies s`resource
    ensures ItemsOf(s) == old(ItemsOf(s)) && Chain(head, s)
    ensures log == Releases(ItemsOf(s), |s|)
    ensures forall o :: o in s ==> o.resource == 0
  {
    ghost var items := ItemsOf(s);
    hide ItemsOf, Nth, Chain;
    log := [];
    var obj := head;
    ghost var n := 0;
    ChainAt(head, s, 0);
    while obj != null
      invariant 0 <= n <= |s| && obj == Nth(s, n) && (obj == null <==> n == |s|)
      invariant Chain(head, s) && ItemsOf(s) == items
      invariant log == Releases(items, n)
      invariant forall k :: 0 <= k < n ==> s[k].resource == 0
      decreases |s| - n
    {
      ChainAt(head, s, n);
      ReleaseNext(obj, s, head);
      log := log + [Released(obj)];
      ChainAt(head, s, n);
      ChainAt(head, s, n + 1);
      obj := obj.next;
      n := n + 1;
    }
  }

  /** Releasing one object leaves the links and the pairing of textures alone. */
  method ReleaseNext(obj: Obj, ghost s: seq<Obj>, ghost head: Obj?)
    requires obj in s && Chain(head, s)
    modifies obj`resource
    ensures obj.resource == 0 && ItemsOf(s) == old(ItemsOf(s)) && Chain(head, s)
  {
    hide ItemsOf, Nth;
    ghost var items := ItemsOf(s);
    obj.resource := 0;
    forall i | 0 <= i < |s| ensures ItemsOf(s)[i] == items[i] {}
    assert ItemsOf(s) == items;
  }
}
