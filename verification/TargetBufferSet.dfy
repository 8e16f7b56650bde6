/** A set of the branch target buffer in its own form: a row of entries, each pointing to its neighbours
    in the order of use. */
module TargetBufferSet {
  import opened Sequences
  import opened TargetBuffer
  import opened Wrappers

  class Entry {
    var addr: nat
    var target: nat
    var prev: Entry?
    var next: Entry?

    constructor ()
      ensures addr == 0 && target == 0 && prev == null && next == null
    {
      addr, target, prev, next := 0, 0, null, null;
    }

    ghost function Held(): Target
      reads this`addr, this`target
    {
      Target(addr, target)
    }
  }

  function At(s: seq<Entry>, i: int): Entry? {
    if 0 <= i < |s| then s[i] else null
  }

  ghost predicate Distinct(s: seq<Entry>) {
    forall i, j | 0 <= i < j < |s| :: s[i] != s[j]
  }

  /** `order` is doubly linked. */
  ghost predicate Chained(order: seq<Entry>)
    reads order`prev, order`next
  {
    && Distinct(order)
    && (forall i {:trigger order[i].next} | 0 <= i < |order| :: order[i].next == At(order, i + 1))
    && (forall i {:trigger order[i].prev} | 0 <= i < |order| :: order[i].prev == At(order, i - 1))
  }

  /** The two sequences have the same entries, each once. */
  ghost predicate Lists(order: seq<Entry>, ents: seq<Entry>) {
    && |order| == |ents| && Distinct(order) && Distinct(ents)
    && (forall i {:trigger order[i]} | 0 <= i < |order| :: order[i] in ents)
    && (forall i {:trigger ents[i]} | 0 <= i < |ents| :: ents[i] in order)
  }

  ghost function Contents(order: seq<Entry>): (r: seq<Target>)
    reads order`addr, order`target
    ensures |r| == |order|
    ensures forall i {:trigger r[i]} | 0 <= i < |order| :: r[i] == order[i].Held()
  {
    if order == [] then [] else Contents(order[..|order| - 1]) + [order[|order| - 1].Held()]
  }

  /** Only the ends of a list lack a neighbour, and no entry has the same one twice. */
  lemma {:induction false} Ends(order: seq<Entry>, k: nat)
    requires Chained(order) && k < |order|
    ensures order[k].prev == null <==> k == 0
    ensures order[k].next == null <==> k == |order| - 1
    ensures |order| > 1 ==> order[k].prev != order[k].next
  {
    if 0 < k < |order| - 1 {
      assert order[k - 1] != order[k + 1];
    }
  }

  /** No nonzero address is held twice. */
  ghost predicate Unique(list: seq<Target>) {
    forall i, j | 0 <= i < j < |list| && list[i].addr == list[j].addr :: list[i].addr == 0
  }

  lemma {:induction false} UpdatedUnique(list: seq<Target>, t: Taken)
    requires Unique(list) && list != [] && t.addr != 0
    ensures Unique(Updated(list, t))
  {
    var k := Source(list, t.addr);
    var u := Updated(list, t);
    assert forall j | 0 < j < |u| :: u[j] == (if j <= k then list[j - 1] else list[j]) && u[j].addr != t.addr;
  }

  lemma {:induction false} MovedLists(order: seq<Entry>, ents: seq<Entry>, k: nat)
    requires Lists(order, ents) && k < |order|
    ensures Lists(Front(order, k), ents)
  {
    var m := Front(order, k);
    assert Distinct(m);
    forall i | 0 <= i < |ents| ensures ents[i] in m {
      var j := PosOf(order, ents[i]);
      assert m[if j == k then 0 else if j < k then j + 1 else j] == ents[i];
    }
  }

  lemma {:induction false} MovedContents(order: seq<Entry>, list: seq<Target>, k: nat)
    requires list == Contents(order) && k < |order|
    ensures |list| == |order| && Contents(Front(order, k)) == Front(list, k)
  {
  }

  /** Splices an entry out and puts it before the head. */
  method Splice(ghost order: seq<Entry>, head: Entry, e: Entry, ghost k: nat)
    requires Chained(order) && 0 < k < |order| && head == order[0] && e == order[k]
    modifies order`prev, order`next
    ensures Chained(Front(order, k))
  {
    assert Distinct(Front(order, k));
    if e.prev != null {
      e.prev.next := e.next;
    }
    if e.next != null {
      e.next.prev := e.prev;
    }
    e.next := head;
    e.prev := null;
    head.prev := e;
  }

  class BtbSet {
    const ents: seq<Entry>
    ghost var order: seq<Entry>

    ghost predicate Valid()
      reads this, ents
    {
      && |ents| > 0 && Lists(order, ents)
      && (|ents| > 1 ==> Chained(order))
      && Unique(Contents(order))
    }

    /** The entries in the order of use. */
    ghost function List(): (list: seq<Target>)
      requires Valid()
      reads this, ents
      ensures |list| == |ents|
    {
      Contents(order)
    }

    /** Where the entry with a nonzero address stands in the order of use. */
    lemma {:induction false} FoundAt(addr: nat, e: Entry?) returns (k: nat)
      requires Valid() && addr != 0
      requires if e == null then forall i {:trigger ents[i]} | 0 <= i < |ents| ::
               ents[i].addr != addr else e in ents && e.addr == addr
      ensures k == TargetBuffer.Find(List(), addr) <= |order| == |ents|
      ensures if e == null then k == |order| else k < |order| && order[k] == e
    {
      k := if e == null then |order| else PosOf(order, e);
      forall j | 0 <= j < k ensures List()[j].addr != addr {
        var i := PosOf(ents, order[j]);
        assert ents[i].addr == List()[j].addr;
        assert k < |order| ==> List()[k].addr == addr;
      }
      FindIs(List(), k, addr);
    }

    /** The search of bpred_lookup. */
    method Lookup(addr: nat) returns (target: Option<nat>)
      requires Valid() && addr != 0
      ensures var k := TargetBuffer.Find(List(), addr);
        target == if k < |ents| then Some(List()[k].target) else None
    {
      var i := 0;
      while i < |ents|
        invariant i <= |ents| && forall j {:trigger ents[j]} | 0 <= j < i :: ents[j].addr != addr
      {
        if ents[i].addr == addr {
          ghost var k := FoundAt(addr, ents[i]);
          return Some(ents[i].target);
        }
        i := i + 1;
      }
      ghost var k := FoundAt(addr, null);
      target := None;
    }

    /** The scan of bpred_update over the set: the matching entry, the head and the tail of the list.
        None of the asserts of the source can fire. */
    method Scan(addr: nat) returns (hit: Entry?, head: Entry?, tail: Entry?)
      requires Valid() && addr != 0 && |ents| > 1
      ensures |order| > 0 && head == order[0] && tail == order[|order| - 1]
      ensures if hit == null then forall i {:trigger ents[i]} | 0 <= i < |ents| :: ents[i].addr != addr
              else hit in ents && hit.addr == addr
    {
      hit, head, tail := null, null, null;
      var i := 0;
      while i < |ents|
        invariant i <= |ents|
        invariant if hit == null then forall j {:trigger ents[j]} | 0 <= j < i :: ents[j].addr != addr
                  else hit in ents[..i] && hit.addr == addr
        invariant head == if order[0] in ents[..i] then order[0] else null
        invariant tail == if order[|order| - 1] in ents[..i] then order[|order| - 1] else null
      {
        ghost var k := Place(i);
        OneMore(i);
        if ents[i].addr == addr {
          assert hit == null;
          hit := ents[i];
        }
        assert ents[i].prev != ents[i].next;
        if ents[i].prev == null {
          assert head == null;
          head := ents[i];
        }
        if ents[i].next == null {
          assert tail == null;
          tail := ents[i];
        }
        i := i + 1;
      }
      assert ents[..i] == ents;
      assert head != null && tail != null;
    }

    lemma {:induction false} Place(i: nat) returns (k: nat)
      requires Valid() && |ents| > 1 && i < |ents|
      ensures k < |order| == |ents| && order[k] == ents[i]
      ensures ents[i].prev == null <==> ents[i] == order[0]
      ensures ents[i].next == null <==> ents[i] == order[|order| - 1]
      ensures ents[i].prev != ents[i].next
      ensures order[0] in ents && order[|order| - 1] in ents
      ensures forall j {:trigger ents[j]} | 0 <= j < |ents| && ents[j].addr == ents[i].addr && ents[i].addr != 0 ::
              ents[j] == ents[i]
    {
      k := PosOf(order, ents[i]);
      Ends(order, k);
      forall j {:trigger ents[j]} | 0 <= j < |ents| && ents[j].addr == ents[i].addr && ents[i].addr != 0
          ensures ents[j] == ents[i] {
        var l := PosOf(order, ents[j]);
        assert Contents(order)[l].addr == Contents(order)[k].addr;
      }
    }

    lemma {:induction false} OneMore(i: nat)
      requires Valid() && i < |ents|
      ensures forall e :: e in ents[..i + 1] <==> e in ents[..i] || e == ents[i]
      ensures ents[i] !in ents[..i]
      ensures forall e <- ents[..i] :: e in ents
    {
      assert ents[..i + 1] == ents[..i] + [ents[i]];
    }

    /** The entry to update: the match, or the least recently used one. */
    method Choose(addr: nat, ghost list: seq<Target>) returns (e: Entry, head: Entry, ghost k: nat)
      requires Valid() && addr != 0 && list == List()
      ensures k == Source(list, addr) < |order| == |list| && order[k] == e && head == order[0] && e in ents
    {
      if |ents| > 1 {
        var hit, first, last := Scan(addr);
        k := FoundAt(addr, hit);
        k := Source(list, addr);
        e, head := if hit != null then hit else last, first;
      } else {
        k := 0;
        e, head := ents[0], ents[0];
      }
    }

    /** The chosen entry becomes the most recently used one. */
    method Promote(e: Entry, head: Entry, ghost list: seq<Target>, ghost k: nat)
      requires Valid() && list == List() && k < |order| == |list| && order[k] == e && head == order[0]
      modifies this`order, ents`prev, ents`next
      ensures Lists(order, ents) && (|ents| > 1 ==> Chained(order))
      ensures Contents(order) == Front(list, k) && order != [] && order[0] == e
    {
      hide Lists, Distinct, Chained, Unique, Contents, Front;
      HeadOnly(k);
      MovedLists(order, ents, k);
      InRow();
      ghost var was := order;
      if e != head {
        Splice(order, head, e, k);
        order := Front(order, k);
      }
      assert Contents(was) == list;
      MovedContents(was, list, k);
      assert Front(was, k)[0] == e;
    }

    lemma {:induction false} HeadOnly(k: nat)
      requires Valid() && k < |order|
      ensures order[k] == order[0] <==> k == 0
      ensures k == 0 ==> Front(order, k) == order
      ensures k > 0 ==> |ents| > 1
    {
    }

    lemma {:induction false} InRow()
      requires Valid()
      ensures |order| == |ents| && forall i {:trigger order[i]} | 0 <= i < |order| :: order[i] in ents
    {
    }

    /** The entry at the front takes the branch and its target. */
    method Store(e: Entry, t: Taken, ghost list: seq<Target>)
      requires Lists(order, ents) && order != [] && order[0] == e && list == Contents(order)
      modifies e`addr, e`target
      ensures Contents(order) == list[0 := NewEntry(list[0], t)]
    {
      if e.addr == t.addr {
        if !t.correct {
          e.target := t.target;
        }
      } else {
        e.addr, e.target := t.addr, t.target;
      }
    }

    /** The BTB part of bpred_update for a taken branch. */
    method Update(t: Taken)
      requires Valid() && t.addr != 0
      modifies this, ents
      ensures Valid() && List() == Updated(old(List()), t)
    {
      hide Lists, Distinct, Chained, Unique, Source, Contents;
      ghost var list := List();
      UpdatedUnique(list, t);
      var e, head; ghost var k;
      e, head, k := Choose(t.addr, list);
      Promote(e, head, list, k);
      Store(e, t, Front(list, k));
    }

    /** A run of updates of a new set. */
    method UpdateAll(ts: seq<Taken>)
      requires Valid() && List() == Zeroed(|ents|) && NonZero(ts)
      modifies this, ents
      ensures Valid() && List() == Run(|ents|, ts)
    {
      hide Updated;
      var n := 0;
      while n < |ts|
        invariant n <= |ts| && Valid() && List() == Run(|ents|, ts[..n])
      {
        assert ts[..n + 1][..n] == ts[..n];
        Update(ts[n]);
        n := n + 1;
      }
      assert ts[..n] == ts;
    }

    constructor (assoc: nat)
      requires assoc > 0
      ensures Valid() && |ents| == assoc && List() == Zeroed(assoc)
      ensures forall i {:trigger ents[i]} | 0 <= i < assoc :: fresh(ents[i])
    {
      var es := NewRow(assoc);
      ents, order := es, es;
    }
  }

  /** The linking loop of bpred_create over one set. */
  method NewRow(assoc: nat) returns (es: seq<Entry>)
    requires assoc > 0
    ensures |es| == assoc && Distinct(es) && Chained(es)
    ensures forall i {:trigger es[i]} | 0 <= i < assoc :: fresh(es[i]) && es[i].Held() == Target(0, 0)
  {
    es := [];
    while |es| < assoc
      invariant |es| <= assoc && Distinct(es)
      invariant forall i {:trigger es[i]} | 0 <= i < |es| ::
                  fresh(es[i]) && es[i].Held() == Target(0, 0) && es[i].next == null && es[i].prev == null
    {
      var e := new Entry();
      es := es + [e];
    }
    var i := 0;
    while i + 1 < assoc
      invariant i + 1 <= assoc
      invariant forall j {:trigger es[j]} | 0 <= j < assoc :: fresh(es[j]) && es[j].Held() == Target(0, 0)
      invariant forall j {:trigger es[j].next} | 0 <= j < assoc :: es[j].next == if j < i then es[j + 1] else null
      invariant forall j {:trigger es[j].prev} | 0 <= j < assoc :: es[j].prev == if 0 < j <= i then es[j - 1] else null
    {
      es[i].next := es[i + 1];
      es[i + 1].prev := es[i];
      i := i + 1;
    }
  }
}
