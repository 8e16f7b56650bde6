/** The event queue of lab3/eventq.c in its own form: a linked list of pending events and one of free
    records. */
module EventQueue {
  import opened EventList
  import opened Sequences

  class Desc {
    var next: Desc?
    var due: int
    var id: nat
    var action: Action

    constructor ()
      ensures next == null
    {
      next := null;
    }

    ghost function Held(): Event
      reads this`due, this`id, this`action
    {
      Event(due, id, action)
    }
  }

  function At(s: seq<Desc>, i: int): Desc? {
    if 0 <= i < |s| then s[i] else null
  }

  /** `chain` is a singly linked list of different records from `first`. */
  ghost predicate Linked(chain: seq<Desc>, first: Desc?)
    reads chain`next
  {
    && first == At(chain, 0) && (forall i, j | 0 <= i < j < |chain| :: chain[i] != chain[j])
    && forall i {:trigger chain[i].next} | 0 <= i < |chain| :: chain[i].next == At(chain, i + 1)
  }

  ghost predicate Inside(chain: seq<Desc>, repr: set<object>) {
    forall i {:trigger chain[i]} | 0 <= i < |chain| :: chain[i] in repr
  }

  ghost predicate Apart(a: seq<Desc>, b: seq<Desc>) {
    forall i, j {:trigger a[i], b[j]} | 0 <= i < |a| && 0 <= j < |b| :: a[i] != b[j]
  }

  ghost function Contents(chain: seq<Desc>): (l: seq<Event>)
    reads chain`due, chain`id, chain`action
    ensures |l| == |chain| && forall i {:trigger l[i]} | 0 <= i < |l| :: l[i] == chain[i].Held()
  {
    if chain == [] then [] else Contents(chain[..|chain| - 1]) + [chain[|chain| - 1].Held()]
  }

  function Put(s: seq<Desc>, k: nat, d: Desc): (r: seq<Desc>)
    requires k <= |s|
    ensures |r| == |s| + 1
    ensures forall i {:trigger r[i]} | 0 <= i < |r| :: r[i] == if i < k then s[i] else if i == k then d else s[i - 1]
  {
    s[..k] + [d] + s[k..]
  }

  /** Takes the record at `k`, found after `prev`, out of its list. */
  method Unlink(ghost chain: seq<Desc>, first: Desc?, prev: Desc?, ev: Desc, ghost k: nat) returns (first': Desc?)
    requires Linked(chain, first) && k < |chain| && ev == chain[k] && prev == At(chain, k - 1)
    modifies chain`next
    ensures Linked(Without(chain, k), first')
    ensures forall i {:trigger chain[i]} | 0 <= i < |chain| && i != k - 1 :: chain[i].next == old(chain[i].next)
  {
    first' := first;
    if prev != null {
      prev.next := ev.next;
    } else {
      first' := ev.next;
    }
  }

  /** Puts a record into a list after `prev`. */
  method Link(ghost chain: seq<Desc>, first: Desc?, prev: Desc?, d: Desc, ghost k: nat) returns (first': Desc?)
    requires Linked(chain, first) && k <= |chain| && prev == At(chain, k - 1)
    requires forall i {:trigger chain[i]} | 0 <= i < |chain| :: chain[i] != d
    modifies chain`next, d`next
    ensures Linked(Put(chain, k, d), first')
  {
    first' := first;
    if prev != null {
      d.next := prev.next;
      prev.next := d;
    } else {
      d.next := first;
      first' := d;
    }
  }

  class EventQ {
    var pending: Desc?
    var free: Desc?
    var nextId: nat
    /** What the actions write to through their pointers. */
    var world: World
    ghost var pend: seq<Desc>
    ghost var freed: seq<Desc>
    ghost var repr: set<object>

    ghost predicate Stored()
      reads this, repr
    {
      && this !in repr && Inside(pend, repr) && Inside(freed, repr) && Apart(pend, freed)
      && Linked(pend, pending) && Linked(freed, free)
    }

    /** The pending list is by time, the newest first among equal times, with different ids, and shares no
        record with the free list. */
    ghost predicate Valid()
      reads this, repr
    {
      Stored() && Ordered(Contents(pend)) && IdsBelow(Contents(pend), nextId)
    }

    ghost function List(): seq<Event>
      requires Stored()
      reads this, repr
    {
      Contents(pend)
    }

    /** eventq_init */
    constructor (w: World)
      ensures Valid() && List() == [] && world == w && repr == {}
    {
      pending, free, nextId, world := null, null, 1, w;
      pend, freed, repr := [], [], {};
    }

    /** A free record, made if there is none. */
    method TakeFree() returns (d: Desc)
      requires Valid()
      modifies this`free, this`freed, this`repr
      ensures Valid() && List() == old(List()) && fresh(repr - old(repr)) && old(repr) <= repr
      ensures d in repr && NotIn(d, pend) && NotIn(d, freed)
    {
      hide Ordered, IdsBelow, Contents, Linked, Inside, Apart, NotIn;
      if free == null {
        d := new Desc();
        Grown(pend, repr, d);
        Grown(freed, repr, d);
        repr := repr + {d};
      } else {
        HeadOff(freed, free, pend, repr);
        d := free;
        free := free.next;
        freed := freed[1..];
      }
    }

    /** __QUEUE_EVENT with its action: the event goes before the first one that is not earlier. */
    method Queue(due: int, action: Action) returns (id: nat)
      requires Valid()
      modifies this`pending, this`free, this`nextId, this`pend, this`freed, this`repr, repr
      ensures Valid() && fresh(repr - old(repr))
      ensures id == old(nextId) && List() == Inserted(old(List()), Event(due, id, action))
    {
      hide Ordered, IdsBelow, Linked, Inside, Apart, NotIn, Inserted, Contents;
      ghost var l := List();
      var d := TakeFree();
      id := nextId;
      nextId := nextId + 1;
      InsertedOrdered(l, Event(due, id, action));
      Fill(d, due, id, action);
      Insert(d, l);
    }

    method Fill(d: Desc, due: int, id: nat, action: Action)
      requires Stored() && d in repr && NotIn(d, pend)
      modifies d`due, d`id, d`action
      ensures d.Held() == Event(due, id, action) && Stored() && List() == old(List())
    {
      hide Linked, Inside, Apart;
      d.due, d.id, d.action := due, id, action;
      assert Contents(pend) == old(Contents(pend));
    }

    method FindPlace(due: int, ghost l: seq<Event>) returns (prev: Desc?, ghost k: nat)
      requires Stored() && l == List()
      ensures k == Before(l, due) <= |pend| && prev == At(pend, k - 1)
    {
      var ev := pending;
      prev, k := null, 0;
      while ev != null && ev.due < due
        invariant k <= |pend| && ev == At(pend, k) && prev == At(pend, k - 1)
        invariant forall i {:trigger l[i]} | 0 <= i < k :: l[i].due < due
        decreases |pend| - k
      {
        prev, ev, k := ev, ev.next, k + 1;
      }
      BeforeIs(l, k, due);
    }

    /** Finds the insertion point and links the record there. */
    method Insert(d: Desc, ghost l: seq<Event>)
      requires Stored() && l == List() && d in repr && NotIn(d, pend) && NotIn(d, freed)
      modifies this`pending, this`pend, repr
      ensures Stored() && List() == Inserted(l, old(d.Held()))
    {
      hide Linked, Inside, Apart, NotIn, Inserted, Before, Put, Contents;
      var prev; ghost var k;
      prev, k := FindPlace(d.due, l);
      Members(pend, repr);
      NotInMeans(pend, d);
      NotInMeans(freed, d);
      ApartMeans(pend, freed, d);
      PutKeeps(pend, freed, repr, k, d);
      PutContents(pend, l, k, d);
      var first := Link(pend, pending, prev, d, k);
      pending := first;
      pend := Put(pend, k, d);
    }

    // -------------------------------------------------------------- finding and removing

    /** The search of eventq_execute and eventq_remove. */
    method FindId(id: nat, ghost l: seq<Event>) returns (prev: Desc?, ev: Desc?, ghost k: nat)
      requires Stored() && l == List()
      ensures k == Position(l, id) <= |pend| == |l| && prev == At(pend, k - 1) && ev == At(pend, k)
    {
      prev, ev, k := null, pending, 0;
      while ev != null && ev.id != id
        invariant k <= |pend| && ev == At(pend, k) && prev == At(pend, k - 1)
        invariant forall i {:trigger l[i]} | 0 <= i < k :: l[i].id != id
        decreases |pend| - k
      {
        prev, ev, k := ev, ev.next, k + 1;
      }
      PositionIs(l, k, id);
    }

    /** Unlinks the found record and puts it on the free list. */
    method Discard(prev: Desc?, ev: Desc, ghost l: seq<Event>, ghost k: nat)
      requires Stored() && l == List() && k < |pend| == |l| && prev == At(pend, k - 1) && ev == pend[k]
      modifies this`pending, this`pend, this`free, this`freed, repr
      ensures Stored() && List() == Without(l, k)
    {
      hide Linked, Inside, Apart, NotIn, Without, Contents;
      Members(pend, repr);
      ApartMeans(pend, freed, ev);
      RemovedKeeps(pend, pending, freed, repr, k);
      RemovedContents(pend, l, k);
      var first := Unlink(pend, pending, prev, ev, k);
      pending := first;
      pend := Without(pend, k);
      Release(ev);
    }

    method Release(ev: Desc)
      requires Stored() && ev in repr && NotIn(ev, pend) && NotIn(ev, freed)
      modifies this`free, this`freed, ev`next
      ensures Stored() && List() == old(List())
    {
      hide Linked, Inside, Apart, NotIn, Contents;
      NotInMeans(pend, ev);
      NotInMeans(freed, ev);
      ConsKeeps(pend, freed, repr, ev);
      ev.next := free;
      LinkedKept(freed, free, ev);
      free := ev;
      freed := [ev] + freed;
    }

    // -------------------------------------------------------------- execute, remove, service

    /** EXECUTE_ACTION */
    method Act(a: Action, now: int)
      modifies this`world
      ensures world == Acted(old(world), a, now)
    {
      match a {
        case SetBit(m, b) => world := world.(bits := world.bits + {(m, b)});
        case ClearBit(m, b) => world := world.(bits := world.bits - {(m, b)});
        case SetFlag(c, v) => world := world.(cells := world.cells[c := v]);
        case AddOp(c, v) => world := world.(cells := world.cells[c := Cell(world, c) + v]);
        case Callback(f, x) => world := world.(calls := world.calls + [(f, now, x)]);
      }
    }

    /** eventq_execute: exactly the named event acts, at time zero, and is gone. */
    method Execute(id: nat) returns (found: bool)
      requires Valid()
      modifies this, repr
      ensures Valid() && repr == old(repr) && nextId == old(nextId)
      ensures var k := Position(old(List()), id);
        && found == (k < |old(List())|)
        && (!found ==> List() == old(List()) && world == old(world))
        && (found ==> List() == Without(old(List()), k) && world == Acted(old(world), old(List())[k].action, 0))
    {
      hide Ordered, IdsBelow, Linked, Inside, Apart, NotIn, Position, Acted, Contents, Without;
      ghost var l := List();
      var prev, ev; ghost var k;
      prev, ev, k := FindId(id, l);
      if ev == null {
        return false;
      }
      WithoutOrdered(l, k, nextId);
      Act(ev.action, 0);
      Discard(prev, ev, l, k);
      found := true;
    }

    /** eventq_remove: exactly the named event is gone, and never acts. */
    method Remove(id: nat) returns (found: bool)
      requires Valid()
      modifies this`pending, this`pend, this`free, this`freed, repr
      ensures Valid()
      ensures var k := Position(old(List()), id);
        && found == (k < |old(List())|)
        && List() == if found then Without(old(List()), k) else old(List())
    {
      hide Ordered, IdsBelow, Linked, Inside, Apart, NotIn, Position, Contents, Without;
      ghost var l := List();
      var prev, ev; ghost var k;
      prev, ev, k := FindId(id, l);
      if ev == null {
        return false;
      }
      WithoutOrdered(l, k, nextId);
      Discard(prev, ev, l, k);
      found := true;
    }

    /** eventq_service_events */
    method ServiceEvents(now: int)
      requires Valid()
      modifies this, repr
      ensures Valid() && repr == old(repr) && nextId == old(nextId)
      ensures (world, List()) == Served(old(world), old(List()), now)
    {
      hide Ordered, IdsBelow, Linked, Inside, Apart, NotIn, Contents, Acted, Effect, Due, Without;
      ghost var l := List();
      ghost var n: nat := 0;
      AtStart(world, l, now);
      while pending != null && pending.due <= now
        invariant Valid() && repr == old(repr) && nextId == old(nextId)
        invariant n <= |l| && List() == l[n..] && n <= Due(l, now) && world == Effect(old(world), l[..n], now)
        decreases |l| - n
      {
        ghost var rest := List();
        ServesOne(old(world), l, n, now);
        FirstOf(rest);
        var ev := pending;
        WithoutOrdered(rest, 0, nextId);
        FirstGone(rest, l, n);
        Act(ev.action, now);
        Discard(null, ev, rest, 0);
        n := n + 1;
      }
      AtEnd(l, n, now);
    }

    lemma {:induction false} FirstOf(rest: seq<Event>)
      requires Stored() && rest == List()
      ensures |rest| == |pend| && (pending == null <==> rest == [])
      ensures pending != null ==> pend != [] && pend[0] == pending && rest[0] == pending.Held()
    {
    }

    lemma {:induction false} AtEnd(l: seq<Event>, n: nat, now: int)
      requires Stored() && n <= Due(l, now) && List() == l[n..] && !(pending != null && pending.due <= now)
      ensures n == Due(l, now)
    {
      FirstOf(l[n..]);
    }
  }

  lemma {:induction false} AtStart(w: World, l: seq<Event>, now: int)
    ensures l[0..] == l && Effect(w, l[..0], now) == w
  {
  }

  lemma {:induction false} FirstGone(rest: seq<Event>, l: seq<Event>, n: nat)
    requires n < |l| && rest == l[n..]
    ensures rest != [] && rest[0] == l[n] && Without(rest, 0) == l[n + 1..]
  {
  }

  lemma {:induction false} ServesOne(w: World, l: seq<Event>, n: nat, now: int)
    requires n <= |l| && n <= Due(l, now)
    ensures n < |l| && l[n].due <= now ==>
              n + 1 <= Due(l, now) && Effect(w, l[..n + 1], now) == Acted(Effect(w, l[..n], now), l[n].action, now)
  {
    if n < |l| {
      assert l[..n + 1] == l[..n] + [l[n]];
      EffectConcat(w, l[..n], [l[n]], now);
      assert [l[n]][1..] == [];
    }
  }

  // ---------------------------------------------------------------- records in and out of lists

  ghost predicate NotIn(d: Desc, chain: seq<Desc>) {
    forall i {:trigger chain[i]} | 0 <= i < |chain| :: chain[i] != d
  }

  lemma {:induction false} Grown(chain: seq<Desc>, repr: set<object>, d: Desc)
    requires Inside(chain, repr) && d !in repr
    ensures Inside(chain, repr + {d}) && NotIn(d, chain)
  {
  }

  lemma {:induction false} HeadOff(chain: seq<Desc>, first: Desc, other: seq<Desc>, repr: set<object>)
    requires Linked(chain, first) && Apart(other, chain) && Inside(chain, repr)
    ensures chain != [] && chain[0] == first && first in repr
    ensures Linked(chain[1..], first.next) && Apart(other, chain[1..]) && Inside(chain[1..], repr)
    ensures NotIn(first, other) && NotIn(first, chain[1..])
  {
    var t := chain[1..];
    assert forall i | 0 <= i < |t| :: t[i] == chain[i + 1];
  }

  lemma {:induction false} Members(chain: seq<Desc>, repr: set<object>)
    requires Inside(chain, repr)
    ensures forall i {:trigger chain[i]} | 0 <= i < |chain| :: chain[i] in repr
  {
  }

  lemma {:induction false} NotInMeans(chain: seq<Desc>, d: Desc)
    requires NotIn(d, chain)
    ensures forall i {:trigger chain[i]} | 0 <= i < |chain| :: chain[i] != d
  {
  }

  lemma {:induction false} ApartMeans(a: seq<Desc>, b: seq<Desc>, d: Desc)
    requires Apart(a, b)
    ensures forall i, j {:trigger a[i], b[j]} | 0 <= i < |a| && 0 <= j < |b| :: a[i] != b[j]
    ensures d in a ==> NotIn(d, b)
  {
  }

  lemma {:induction false} PutKeeps(pend: seq<Desc>, freed: seq<Desc>, repr: set<object>, k: nat, d: Desc)
    requires Inside(pend, repr) && Apart(pend, freed) && d in repr && NotIn(d, freed) && k <= |pend|
    ensures Inside(Put(pend, k, d), repr) && Apart(Put(pend, k, d), freed)
  {
  }

  lemma {:induction false} PutContents(pend: seq<Desc>, l: seq<Event>, k: nat, d: Desc)
    requires l == Contents(pend) && k == Before(l, d.due)
    ensures k <= |pend| && Contents(Put(pend, k, d)) == Inserted(l, d.Held())
  {
    assert d.Held().due == d.due;
  }

  lemma {:induction false} RemovedKeeps(pend: seq<Desc>, first: Desc?, freed: seq<Desc>, repr: set<object>, k: nat)
    requires Linked(pend, first) && Inside(pend, repr) && Apart(pend, freed) && k < |pend|
    ensures Inside(Without(pend, k), repr) && Apart(Without(pend, k), freed) && NotIn(pend[k], Without(pend, k))
            && NotIn(pend[k], freed)
  {
  }

  lemma {:induction false} RemovedContents(pend: seq<Desc>, l: seq<Event>, k: nat)
    requires l == Contents(pend) && k < |pend|
    ensures |l| == |pend| && Contents(Without(pend, k)) == Without(l, k)
  {
  }

  lemma {:induction false} ConsKeeps(pend: seq<Desc>, freed: seq<Desc>, repr: set<object>, d: Desc)
    requires Inside(freed, repr) && Apart(pend, freed) && d in repr && NotIn(d, pend)
    ensures Inside([d] + freed, repr) && Apart(pend, [d] + freed)
  {
    var f := [d] + freed;
    assert forall i | 0 < i < |f| :: f[i] == freed[i - 1];
  }

  lemma {:induction false} LinkedKept(chain: seq<Desc>, first: Desc?, d: Desc)
    requires Linked(chain, first) && NotIn(d, chain) && d.next == first
    ensures Linked([d] + chain, d)
  {
    var f := [d] + chain;
    assert forall i | 0 < i < |f| :: f[i] == chain[i - 1];
  }
}
