/**
 The device's list of graphics objects.

 Every object links itself in at the front when it is made and unlinks itself when it goes.
 Each one remembers the cell that points at it, which is the device's head pointer or the next
 field of its predecessor; objects made without a device are never linked.
 */
module ObjectList {
  // the place that holds a pointer to an object
  datatype Cell = NoCell | Head | NextOf(node: Obj)

  datatype Kind = Texture2D | Duplicator | OtherKind

  class Obj {
    const id: nat
    const kind: Kind
    const chroma: bool
    var next: Obj?
    var prevNext: Cell

    // the other plane of a two-plane texture
    var paired: Obj?
    // the driver resource, or 0
    var resource: nat

    /** An object without a device. */
    constructor Unlisted(id: nat, kind: Kind, chroma: bool)
      ensures this.id == id && this.kind == kind && this.chroma == chroma
      ensures next == null && prevNext == NoCell && paired == null && resource == 0
    {
      this.id, this.kind, this.chroma := id, kind, chroma;
      next, prevNext, paired, resource := null, NoCell, null, 0;
    }

    constructor (device: Device, id: nat, kind: Kind, chroma: bool)
      requires device.Linked()
      modifies device, device.listed`prevNext
      ensures this.id == id && this.kind == kind && this.chroma == chroma && paired == null && resource == 0
      ensures device.Linked() && device.listed == [this] + old(device.listed)
    {
      this.id, this.kind, this.chroma := id, kind, chroma;
      prevNext := Head;
      next := device.firstObj;
      paired, resource := null, 0;
      new;
      hide IsList, Nth, CellOf, Pushed;
      ghost var s, links := device.listed, LinksOf(device.listed);
      assert this !in s;
      FirstOf(next, s, links);
      ghost var head := next;
      device.firstObj := this;
      if next != null {
        next.prevNext := NextOf(this);
      }
      device.listed := [this] + s;
      LinkedInFront(this, head, s, links);
      PushFront(this, head, s, links);
    }
  }

  function Without<T>(s: seq<T>, i: nat): (r: seq<T>)
    requires i < |s|
    ensures |r| == |s| - 1 && forall k :: 0 <= k < |r| ==> r[k] == if k < i then s[k] else s[k + 1]
  {
    s[..i] + s[i + 1..]
  }

  function Nth(s: seq<Obj>, i: int): Obj? {
    if 0 <= i < |s| then s[i] else null
  }

  /** The cell that points at object i of a list. */
  function CellOf(s: seq<Obj>, i: nat): Cell
    requires i < |s|
  {
    if i == 0 then Head else NextOf(s[i - 1])
  }

  // the two pointer fields of an object
  datatype Link = Link(next: Obj?, prevNext: Cell)

  ghost function LinksOf(s: seq<Obj>): (links: seq<Link>)
    reads s
    ensures |links| == |s| && forall i :: 0 <= i < |s| ==> links[i] == Link(s[i].next, s[i].prevNext)
  {
    seq(|s|, i requires 0 <= i < |s| reads s => Link(s[i].next, s[i].prevNext))
  }

  /** Each listed object's remembered cell is the one that holds it. */
  predicate IsList(first: Obj?, s: seq<Obj>, links: seq<Link>) {
    && |links| == |s|
    && first == Nth(s, 0)
    && (forall i :: 0 <= i < |s| ==> links[i] == Link(Nth(s, i + 1), CellOf(s, i)))
    && (forall i, j :: 0 <= i < j < |s| ==> s[i] != s[j])
  }

  lemma {:induction false} Following(first: Obj?, s: seq<Obj>, links: seq<Link>)
    requires IsList(first, s, links)
    ensures first == Nth(s, 0) && |links| == |s| && forall i :: 0 <= i < |s| ==> links[i].next == Nth(s, i + 1)
  {}

  lemma {:induction false} FirstOf(first: Obj?, s: seq<Obj>, links: seq<Link>)
    requires IsList(first, s, links)
    ensures first == null <==> s == []
    ensures first != null ==> first in s
    ensures forall k :: 0 <= k < |s| ==> (s[k] == first <==> k == 0)
  {}

  /** The fields after an object is linked in at the front. */
  function Pushed(obj: Obj, first: Obj?, links: seq<Link>): (r: seq<Link>)
    ensures |r| == |links| + 1
  {
    [Link(first, Head)] + if links == [] then [] else [Link(links[0].next, NextOf(obj))] + links[1..]
  }

  lemma {:induction false} PushedAt(obj: Obj, first: Obj?, links: seq<Link>, i: nat)
    requires i <= |links|
    ensures Pushed(obj, first, links)[i] ==
      if i == 0 then Link(first, Head) else if i == 1 then Link(links[0].next, NextOf(obj)) else links[i - 1]
  {}

  lemma {:induction false} LinkedInFront(obj: Obj, first: Obj?, s: seq<Obj>, links: seq<Link>)
    requires |links| == |s| && obj.next == first && obj.prevNext == Head
    requires forall k :: 0 <= k < |s| ==> s[k].next == links[k].next
    requires forall k :: 0 <= k < |s| ==> s[k].prevNext == if k == 0 then NextOf(obj) else links[k].prevNext
    ensures LinksOf([obj] + s) == Pushed(obj, first, links)
  {
    var now := LinksOf([obj] + s);
    forall i | 0 <= i < |now| ensures now[i] == Pushed(obj, first, links)[i] {
      PushedAt(obj, first, links, i);
    }
  }

  lemma {:induction false} PushFront(obj: Obj, first: Obj?, s: seq<Obj>, links: seq<Link>)
    requires IsList(first, s, links) && obj !in s
    ensures IsList(obj, [obj] + s, Pushed(obj, first, links))
  {
    var r := [obj] + s;
    forall i | 0 <= i < |r| ensures Pushed(obj, first, links)[i] == Link(Nth(r, i + 1), CellOf(r, i)) {
      if i > 0 {
        assert links[i - 1] == Link(Nth(s, i), CellOf(s, i - 1));
      }
    }
  }

  /** What two stores around object i do to the fields of the listed objects. */
  function Bypass(s: seq<Obj>, links: seq<Link>, i: nat): (r: seq<Link>)
    requires i < |s| == |links|
    ensures |r| == |s|
  {
    seq(|s|, k requires 0 <= k < |s| =>
      Link(if k + 1 == i then links[i].next else links[k].next,
           if k == i + 1 then links[i].prevNext else links[k].prevNext))
  }

  lemma {:induction false} BypassAt(s: seq<Obj>, links: seq<Link>, i: nat, k: nat)
    requires i < |s| == |links| && k < |s|
    ensures Bypass(s, links, i)[k].next == if k + 1 == i then links[i].next else links[k].next
    ensures Bypass(s, links, i)[k].prevNext == if k == i + 1 then links[i].prevNext else links[k].prevNext
  {}

  /** The fields of an object name its two neighbours, and nothing else in the list is one of them. */
  lemma {:induction false} Neighbours(first: Obj?, s: seq<Obj>, links: seq<Link>, i: nat)
    requires IsList(first, s, links) && i < |s|
    ensures links[i].next == null <==> i + 1 == |s|
    ensures links[i].next != null ==> links[i].next in s
    ensures links[i].prevNext.NextOf? ==> links[i].prevNext.node in s
    ensures forall k :: 0 <= k < |s| ==> (links[i].next == s[k] <==> k == i + 1)
    ensures links[i].prevNext == Head <==> i == 0
    ensures i > 0 ==> links[i].prevNext.NextOf?
    ensures forall k :: 0 <= k < |s| ==> (links[i].prevNext == NextOf(s[k]) <==> k + 1 == i)
    ensures forall k :: 0 <= k < |s| ==> (s[i] == s[k] <==> k == i)
  {}

  lemma {:induction false} LinksWithout(s: seq<Obj>, i: nat)
    requires i < |s|
    ensures LinksOf(Without(s, i)) == Without(LinksOf(s), i)
  {}

  /** Those stores take the object out, and leave the others in their order. */
  lemma {:induction false} BypassRemoves(first: Obj?, s: seq<Obj>, links: seq<Link>, i: nat)
    requires IsList(first, s, links) && i < |s|
    ensures IsList(if i == 0 then links[0].next else first, Without(s, i), Without(Bypass(s, links, i), i))
  {
    var r, after := Without(s, i), Without(Bypass(s, links, i), i);
    DistinctWithout(s, i);
    hide CellOf, Bypass, Without;
    forall k | 0 <= k < |r| ensures after[k] == Link(Nth(r, k + 1), CellOf(r, k)) {
      LinkAround(first, s, links, i, k);
    }
  }

  lemma {:induction false} LinkAround(first: Obj?, s: seq<Obj>, links: seq<Link>, i: nat, k: nat)
    requires IsList(first, s, links) && i < |s| && k < |s| - 1
    ensures Without(Bypass(s, links, i), i)[k] == Link(Nth(Without(s, i), k + 1), CellOf(Without(s, i), k))
  {}

  lemma {:induction false} DistinctWithout(s: seq<Obj>, i: nat)
    requires i < |s| && forall i, j :: 0 <= i < j < |s| ==> s[i] != s[j]
    ensures forall j, k :: 0 <= j < k < |s| - 1 ==> Without(s, i)[j] != Without(s, i)[k]
  {}

  class Device {
    var firstObj: Obj?
    ghost var listed: seq<Obj>

    constructor ()
      ensures Linked() && listed == []
    {
      firstObj := null;
      listed := [];
    }

    ghost predicate Linked()
      reads this, listed
    {
      IsList(firstObj, listed, LinksOf(listed))
    }

    /** Stores a pointer in a cell. */
    method Store(cell: Cell, target: Obj?)
      modifies this`firstObj, (if cell.NextOf? then {cell.node} else {})`next
      ensures firstObj == if cell == Head then target else old(firstObj)
      ensures cell.NextOf? ==> cell.node.next == target
    {
      match cell {
        case NoCell =>
        case Head => firstObj := target;
        case NextOf(node) => node.next := target;
      }
    }

    /** The object's destructor. */
    method Destroy(obj: Obj)
      requires Linked()
      requires obj in listed || (obj.next == null && obj.prevNext == NoCell)
      modifies this, listed`next, listed`prevNext
      ensures Linked()
      ensures obj !in old(listed) ==> listed == old(listed)
      ensures forall i :: 0 <= i < |old(listed)| && old(listed)[i] == obj ==> listed == Without(old(listed), i)
    {
      hide IsList, Nth, CellOf, Bypass, Without, LinksOf;
      ghost var s, links := listed, LinksOf(listed);
      ghost var i: int := if obj in listed then IndexOf(obj) else -1;
      if i >= 0 {
        Neighbours(firstObj, s, links, i);
      }
      if obj.prevNext != NoCell {
        Store(obj.prevNext, obj.next);
      }
      if obj.next != null {
        obj.next.prevNext := obj.prevNext;
      }
      if i >= 0 {
        forall k | 0 <= k < |s| ensures LinksOf(s)[k] == Bypass(s, links, i)[k] {
          BypassAt(s, links, i, k);
          assert links[k] == old(LinksOf(s))[k];
        }
        assert LinksOf(s) == Bypass(s, links, i);
        BypassRemoves(old(firstObj), s, links, i);
        listed := Without(s, i);
        LinksWithout(s, i);
      }
    }

    ghost function IndexOf(obj: Obj): (i: nat)
      requires obj in listed
      reads this
      ensures i < |listed| && listed[i] == obj
    {
      var i :| 0 <= i < |listed| && listed[i] == obj; i
    }

    /** Follows the links from the head. */
    method Walk() returns (ids: seq<nat>)
      requires Linked()
      ensures ids == Ids(listed)
    {
      hide IsList;
      ids := [];
      var obj := firstObj;
      Following(firstObj, listed, LinksOf(listed));
      ghost var i := 0;
      while obj != null
        invariant 0 <= i <= |listed| && obj == Nth(listed, i) && ids == Ids(listed[..i])
        decreases |listed| - i
      {
        ids := ids + [obj.id];
        assert listed[..i + 1] == listed[..i] + [obj];
        obj := obj.next;
        i := i + 1;
      }
      assert listed[..i] == listed;
    }
  }

  ghost function Ids(objs: seq<Obj>): (ids: seq<nat>)
    ensures |ids| == |objs| && forall i :: 0 <= i < |objs| ==> ids[i] == objs[i].id
  {
    seq(|objs|, i requires 0 <= i < |objs| => objs[i].id)
  }

  // ---- Runs -------------------------------------------------------------------------------------

  datatype Op = Make(kind: Kind, chroma: bool) | MakeUnlisted(kind: Kind, chroma: bool) | Delete(id: nat)

  // objects are numbered as they are made
  datatype Ledger = Ledger(made: nat, alive: set<nat>, listed: seq<nat>)

  function Dropped(s: seq<nat>, id: nat): seq<nat> {
    if s == [] then [] else if s[0] == id then s[1..] else [s[0]] + Dropped(s[1..], id)
  }

  /** Making links in at the front; deleting takes out that object and no other. */
  function Step(l: Ledger, op: Op): Ledger {
    match op
    case Make(_, _) => Ledger(l.made + 1, l.alive + {l.made}, [l.made] + l.listed)
    case MakeUnlisted(_, _) => Ledger(l.made + 1, l.alive + {l.made}, l.listed)
    case Delete(id) => Ledger(l.made, l.alive - {id}, Dropped(l.listed, id))
  }

  function After(ops: seq<Op>, n: nat): Ledger
    requires n <= |ops|
  {
    if n == 0 then Ledger(0, {}, []) else Step(After(ops, n - 1), ops[n - 1])
  }

  /** What the list should hold after operation i. */
  function Expected(ops: seq<Op>, i: nat): seq<nat>
    requires i < |ops|
  {
    After(ops, i + 1).listed
  }

  /** Every deletion is of an object that is alive. */
  ghost predicate ValidRun(ops: seq<Op>) {
    forall i :: 0 <= i < |ops| && ops[i].Delete? ==> ops[i].id in After(ops, i).alive
  }

  lemma {:induction false} DroppedAt(s: seq<nat>, id: nat, i: nat)
    requires i < |s| && s[i] == id && id !in s[..i]
    ensures Dropped(s, id) == Without(s, i)
  {
    if i > 0 {
      assert s[..i][0] == s[0];
      assert s[1..][..i - 1] == s[..i][1..];
      DroppedAt(s[1..], id, i - 1);
      assert Without(s, i) == [s[0]] + Without(s[1..], i - 1);
    }
  }

  lemma {:induction false} DroppedNothing(s: seq<nat>, id: nat)
    requires id !in s
    ensures Dropped(s, id) == s
  {
    if s != [] {
      DroppedNothing(s[1..], id);
    }
  }

  /** The heap is in the ledger's state. */
  ghost predicate Matches(device: Device, objs: seq<Obj>, l: Ledger)
    reads device, objs, device.listed
  {
    device.Linked() && ListMatches(device.listed, objs, l) && Unlinked(objs, l)
  }

  ghost predicate ListMatches(listed: seq<Obj>, objs: seq<Obj>, l: Ledger) {
    && |objs| == l.made && (forall k :: 0 <= k < l.made ==> objs[k].id == k)
    && (forall i, j :: 0 <= i < j < |l.listed| ==> l.listed[i] != l.listed[j])
    && |listed| == |l.listed|
    && (forall i :: 0 <= i < |l.listed| ==> l.listed[i] in l.alive && l.listed[i] < l.made)
    && (forall i :: 0 <= i < |l.listed| ==> listed[i] == objs[l.listed[i]])
    && (forall k :: k in l.alive ==> k < l.made)
  }

  ghost predicate Unlinked(objs: seq<Obj>, l: Ledger)
    reads objs
  {
    forall k :: k in l.alive && k < |objs| && k !in l.listed ==> objs[k].next == null && objs[k].prevNext == NoCell
  }

  lemma {:induction false} NotListed(listed: seq<Obj>, objs: seq<Obj>, l: Ledger, k: nat)
    requires ListMatches(listed, objs, l) && k < l.made && k !in l.listed
    ensures objs[k] !in listed
  {
    forall i | 0 <= i < |listed| ensures listed[i] != objs[k] {
      assert listed[i].id == l.listed[i];
    }
  }

  lemma {:induction false} ListMatchesAfterDelete(listed: seq<Obj>, objs: seq<Obj>, l: Ledger, i: nat)
    requires ListMatches(listed, objs, l) && i < |l.listed|
    ensures ListMatches(Without(listed, i), objs, Step(l, Delete(l.listed[i])))
    ensures forall k :: k in l.listed && k != l.listed[i] ==> k in Step(l, Delete(l.listed[i])).listed
  {
    DroppedAt(l.listed, l.listed[i], i);
    MembersWithout(l.listed, i);
    hide Dropped, Without;
  }

  lemma {:induction false} MembersWithout(s: seq<nat>, i: nat)
    requires i < |s|
    ensures forall k :: k in s && k != s[i] ==> k in Without(s, i)
  {
    forall k | k in s && k != s[i] ensures k in Without(s, i) {
      var j :| 0 <= j < |s| && s[j] == k;
      assert Without(s, i)[if j < i then j else j - 1] == k;
    }
  }

  lemma {:induction false} DeleteFacts(listed: seq<Obj>, objs: seq<Obj>, l: Ledger, id: nat)
    requires ListMatches(listed, objs, l) && id in l.alive
    ensures id < |objs| && forall o :: o in listed ==> o in objs
    ensures id in l.listed ==>
      exists i :: && 0 <= i < |listed| && listed[i] == objs[id]
                  && ListMatches(Without(listed, i), objs, Step(l, Delete(id)))
    ensures id !in l.listed ==> objs[id] !in listed && ListMatches(listed, objs, Step(l, Delete(id)))
    ensures forall k :: k in Step(l, Delete(id)).alive && k < |objs| && k !in Step(l, Delete(id)).listed ==>
      k in l.alive && k !in l.listed && objs[k] !in listed
  {
    hide Dropped, Without;
    forall k | k in l.alive && k !in l.listed ensures objs[k] !in listed {
      NotListed(listed, objs, l, k);
    }
    if id in l.listed {
      var i :| 0 <= i < |l.listed| && l.listed[i] == id;
      ListMatchesAfterDelete(listed, objs, l, i);
    } else {
      DroppedNothing(l.listed, id);
    }
  }

  /** However objects come and go, following the links lists the live linked ones, newest first. */
  method Run(ops: seq<Op>) returns (walks: seq<seq<nat>>)
    requires ValidRun(ops)
    ensures |walks| == |ops|
    ensures forall i :: 0 <= i < |ops| ==> walks[i] == Expected(ops, i)
  {
    hide Matches, Step;
    var device := Start();
    var objs: seq<Obj> := [];
    ghost var repr: set<Obj> := {};
    walks := [];
    for n := 0 to |ops|
      invariant fresh(device) && fresh(repr) && (forall o :: o in objs ==> o in repr)
      invariant Matches(device, objs, After(ops, n))
      invariant |walks| == n && forall i :: 0 <= i < n ==> walks[i] == Expected(ops, i)
    {
      var walk;
      objs, repr, walk := Perform(device, objs, repr, ops[n], After(ops, n));
      walks := walks + [walk];
    }
  }

  method Start() returns (device: Device)
    ensures fresh(device) && Matches(device, [], Ledger(0, {}, []))
  {
    device := new Device();
  }

  method Perform(device: Device, objs: seq<Obj>, ghost repr: set<Obj>, op: Op, ghost l: Ledger)
    returns (after: seq<Obj>, ghost larger: set<Obj>, walk: seq<nat>)
    requires Matches(device, objs, l) && (op.Delete? ==> op.id in l.alive) && forall o :: o in objs ==> o in repr
    modifies device, repr
    ensures Matches(device, after, Step(l, op)) && walk == Step(l, op).listed
    ensures repr <= larger && fresh(larger - repr) && forall o :: o in after ==> o in larger
  {
    hide Matches, Step;
    if op.Delete? {
      after, larger := objs, repr;
      DeleteOne(device, objs, repr, op.id, l);
    } else {
      after, larger := MakeOne(device, objs, repr, op, l);
    }
    walk := WalkAll(device, after, Step(l, op));
  }

  method WalkAll(device: Device, ghost objs: seq<Obj>, ghost l: Ledger) returns (ids: seq<nat>)
    requires Matches(device, objs, l)
    ensures ids == l.listed
  {
    hide IsList;
    ids := device.Walk();
  }

  method MakeOne(device: Device, objs: seq<Obj>, ghost repr: set<Obj>, op: Op, ghost l: Ledger)
    returns (after: seq<Obj>, ghost larger: set<Obj>)
    requires Matches(device, objs, l) && !op.Delete? && forall o :: o in objs ==> o in repr
    modifies device, repr
    ensures Matches(device, after, Step(l, op))
    ensures repr <= larger && fresh(larger - repr) && forall o :: o in after ==> o in larger
  {
    hide IsList, LinksOf, ListMatches, Step, Device.Linked;
    MadeFacts(device.listed, objs, l);
    if op.Make? {
      var obj := new Obj(device, |objs|, op.kind, op.chroma);
      MadeListed(old(device.listed), objs, l, op, obj);
      after, larger := objs + [obj], repr + {obj};
    } else {
      var obj := new Obj.Unlisted(|objs|, op.kind, op.chroma);
      MadeUnlisted(device.listed, objs, l, op, obj);
      after, larger := objs + [obj], repr + {obj};
    }
  }

  lemma {:induction false} MadeFacts(listed: seq<Obj>, objs: seq<Obj>, l: Ledger)
    requires ListMatches(listed, objs, l)
    ensures |objs| == l.made && forall o :: o in listed ==> o in objs
    ensures forall k :: k in l.alive && k < |objs| && k !in l.listed ==> objs[k] !in listed
  {
    forall k | k in l.alive && k !in l.listed ensures objs[k] !in listed {
      NotListed(listed, objs, l, k);
    }
  }

  lemma {:induction false} MadeListed(listed: seq<Obj>, objs: seq<Obj>, l: Ledger, op: Op, obj: Obj)
    requires ListMatches(listed, objs, l) && op.Make? && obj.id == |objs|
    ensures ListMatches([obj] + listed, objs + [obj], Step(l, op))
    ensures forall k :: k in Step(l, op).alive && k !in Step(l, op).listed ==>
      k in l.alive && k !in l.listed && k < |objs|
  {
    assert ([obj] + listed)[0] == obj && ([l.made] + l.listed)[0] == l.made;
    assert forall k :: k in l.listed ==> k in [l.made] + l.listed;
    assert l.made in [l.made] + l.listed;
  }

  lemma {:induction false} MadeUnlisted(listed: seq<Obj>, objs: seq<Obj>, l: Ledger, op: Op, obj: Obj)
    requires ListMatches(listed, objs, l) && op.MakeUnlisted? && obj.id == |objs|
    ensures ListMatches(listed, objs + [obj], Step(l, op))
    ensures forall k :: k in Step(l, op).alive && k !in Step(l, op).listed ==> k < |objs + [obj]|
    ensures forall k :: k in Step(l, op).alive && k !in Step(l, op).listed && k < |objs| ==>
      k in l.alive && k !in l.listed
  {}

  method DeleteOne(device: Device, objs: seq<Obj>, ghost repr: set<Obj>, id: nat, ghost l: Ledger)
    requires Matches(device, objs, l) && id in l.alive && forall o :: o in objs ==> o in repr
    modifies device, repr
    ensures Matches(device, objs, Step(l, Delete(id)))
  {
    ghost var s := device.listed;
    DeleteFacts(s, objs, l, id);
    hide *;
    ghost var next := Step(l, Delete(id));
    DestroyAlive(device, objs, l, id, next);
  }

  method DestroyAlive(device: Device, objs: seq<Obj>, ghost l: Ledger, id: nat, ghost next: Ledger)
    requires device.Linked() && id < |objs|
    requires id in l.alive && Unlinked(objs, l)
    requires id in l.listed ==>
      exists i :: && 0 <= i < |device.listed| && device.listed[i] == objs[id]
                  && ListMatches(Without(device.listed, i), objs, next)
    requires id !in l.listed ==> objs[id] !in device.listed && ListMatches(device.listed, objs, next)
    requires forall k :: k in next.alive && k < |objs| && k !in next.listed ==>
      k in l.alive && k !in l.listed && objs[k] !in device.listed
    modifies device, device.listed
    ensures Matches(device, objs, next)
  {
    hide IsList, Step, ListMatches, LinksOf, Without, Device.Linked;
    device.Destroy(objs[id]);
  }
}
