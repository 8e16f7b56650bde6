/** One set of the branch target buffer of lab4/bpred.c: entries in a doubly linked list, the most
    recently updated one first. */
module TargetBuffer {
  import opened Recency
  import opened Sequences

  // ---------------------------------------------------------------- the list as a value

  datatype Target = Target(addr: nat, target: nat)

  /** A taken branch; `correct` says that the address predicted for it was right. */
  datatype Taken = Taken(addr: nat, target: nat, correct: bool)

  function Find(list: seq<Target>, addr: nat): (k: nat)
    ensures k <= |list|
    ensures k < |list| ==> list[k].addr == addr
    ensures forall j | 0 <= j < k :: list[j].addr != addr
  {
    if list == [] || list[0].addr == addr then 0 else 1 + Find(list[1..], addr)
  }

  lemma {:induction false} FindIs(list: seq<Target>, k: nat, addr: nat)
    requires k <= |list| && (forall j | 0 <= j < k :: list[j].addr != addr) && (k < |list| ==> list[k].addr == addr)
    ensures Find(list, addr) == k
  {
  }

  /** Where the updated entry is taken from: its place, or the end of the list. */
  function Source(list: seq<Target>, addr: nat): (k: nat)
    requires list != []
    ensures k < |list|
  {
    if Find(list, addr) < |list| then Find(list, addr) else |list| - 1
  }

  function NewEntry(was: Target, t: Taken): Target {
    if was.addr == t.addr && t.correct then was else Target(t.addr, t.target)
  }

  /** A hit goes to the front; a miss takes the place of the last entry. */
  function Updated(list: seq<Target>, t: Taken): (r: seq<Target>)
    requires list != []
    ensures |r| == |list|
  {
    var k := Source(list, t.addr);
    Front(list, k)[0 := NewEntry(list[k], t)]
  }

  function Zeroed(assoc: nat): seq<Target> { seq(assoc, _ => Target(0, 0)) }

  function Run(assoc: nat, ts: seq<Taken>): (r: seq<Target>)
    requires assoc > 0
    ensures |r| == assoc
  {
    if ts == [] then Zeroed(assoc) else Updated(Run(assoc, ts[..|ts| - 1]), ts[|ts| - 1])
  }

  ghost predicate NonZero(ts: seq<Taken>) { forall i {:trigger ts[i]} | 0 <= i < |ts| :: ts[i].addr != 0 }

  // ---------------------------------------------------------------- what the list must be

  /** The different addresses of some taken branches, the most recent first. */
  function Recent(ts: seq<Taken>): seq<nat> {
    if ts == [] then [] else [ts[|ts| - 1].addr] + Minus(Recent(ts[..|ts| - 1]), ts[|ts| - 1].addr)
  }

  function Addrs(list: seq<Target>): (r: seq<nat>)
    ensures |r| == |list|
    ensures forall i {:trigger r[i]} | 0 <= i < |r| :: r[i] == list[i].addr
  {
    seq(|list|, i requires 0 <= i < |list| => list[i].addr)
  }

  /** `r` padded with zeros to length `n`. */
  function Padded(s: seq<nat>, n: nat): seq<nat>
    requires |s| <= n
  {
    s + seq(n - |s|, _ => 0)
  }

  ghost predicate AllNonZero(s: seq<nat>) { forall i {:trigger s[i]} | 0 <= i < |s| :: s[i] != 0 }

  lemma {:induction false} RenewedDistinct(s: seq<nat>, x: nat)
    requires NoRepeat(s) && AllNonZero(s) && x != 0
    ensures NoRepeat([x] + Minus(s, x)) && AllNonZero([x] + Minus(s, x))
  {
    hide Minus;
    var k := MinusAt(s, x);
    OneOut(s, x, k, Minus(s, x));
  }

  lemma {:induction false} OneOut(s: seq<nat>, x: nat, k: nat, m: seq<nat>)
    requires NoRepeat(s) && AllNonZero(s) && x != 0 && k <= |s| && m == if k < |s| then Without(s, k) else s
    requires forall j | 0 <= j < |s| && j != k :: s[j] != x
    ensures NoRepeat([x] + m) && AllNonZero([x] + m)
  {
    hide Without;
    OthersLeft(s, k);
    var r := [x] + m;
    forall i, j | 0 <= i < j < |r| ensures r[i] != r[j] {
      assert r[j] == m[j - 1];
      assert i > 0 ==> r[i] == m[i - 1];
    }
    forall i {:trigger r[i]} | 0 <= i < |r| ensures r[i] != 0 {
      assert i > 0 ==> r[i] == m[i - 1];
    }
  }

  lemma {:induction false} OthersLeft(s: seq<nat>, k: nat)
    requires k <= |s|
    ensures var m := if k < |s| then Without(s, k) else s;
      forall j {:trigger m[j]} | 0 <= j < |m| :: m[j] == if j < k then s[j] else s[j + 1]
  {
  }

  lemma {:induction false} RecentDistinct(ts: seq<Taken>)
    requires NonZero(ts)
    ensures NoRepeat(Recent(ts)) && AllNonZero(Recent(ts))
  {
    hide NoRepeat, AllNonZero, Minus;
    if ts == [] {
      NoneDistinct();
    } else {
      var n := |ts| - 1;
      assert forall i | 0 <= i < n :: ts[..n][i] == ts[i];
      RecentDistinct(ts[..n]);
      RenewedDistinct(Recent(ts[..n]), ts[n].addr);
    }
  }

  lemma {:induction false} NoneDistinct()
    ensures NoRepeat([]) && AllNonZero([])
  {
  }

  // ---------------------------------------------------------------- and is

  lemma {:induction false} FindInAddrs(list: seq<Target>, addr: nat)
    ensures var k := Find(list, addr);
      && k <= |list| && (k < |list| ==> Addrs(list)[k] == addr) && forall j | 0 <= j < k :: Addrs(list)[j] != addr
  {
  }

  lemma {:induction false} UpdatedAddrs(list: seq<Target>, t: Taken)
    requires list != []
    ensures Addrs(Updated(list, t)) == [t.addr] + Without(Addrs(list), Source(list, t.addr))
  {
  }

  lemma {:induction false} NothingRecent(assoc: nat)
    ensures Addrs(Zeroed(assoc)) == Padded(Take([], assoc), assoc)
  {
  }

  /** After any updates of nonzero addresses the list has the most recently updated addresses, most
      recent first and each once, as many as fit, then the entries never used. */
  lemma {:induction false} KeepsMostRecent(assoc: nat, ts: seq<Taken>)
    requires assoc > 0 && NonZero(ts)
    ensures Addrs(Run(assoc, ts)) == Padded(Take(Recent(ts), assoc), assoc)
  {
    hide NoRepeat, Minus, Padded, Take, Addrs, Updated, Find, Source;
    if ts == [] {
      NothingRecent(assoc);
    } else {
      var n := |ts| - 1;
      assert forall i | 0 <= i < n :: ts[..n][i] == ts[i];
      KeepsMostRecent(assoc, ts[..n]);
      RecentDistinct(ts[..n]);
      var list, r, x := Run(assoc, ts[..n]), Recent(ts[..n]), ts[n].addr;
      var k := MinusAt(r, x);
      SourceInAddrs(list, x);
      UpdatedAddrs(list, ts[n]);
      StepAddrs(r, assoc, x, k, Addrs(list), Source(list, x));
    }
  }

  lemma {:induction false} SourceInAddrs(list: seq<Target>, x: nat)
    requires list != []
    ensures var a, src := Addrs(list), Source(list, x);
      (src == |list| - 1 && forall j | 0 <= j < |list| :: a[j] != x)
          || (a[src] == x && forall j | 0 <= j < src :: a[j] != x)
  {
    FindInAddrs(list, x);
  }

  lemma {:induction false} StepAddrs(r: seq<nat>, assoc: nat, x: nat, k: nat, a: seq<nat>, src: nat)
    requires assoc > 0 && a == Padded(Take(r, assoc), assoc) && x != 0 && NoRepeat(r) && src < assoc
    requires AllNonZero(r)
    requires k <= |r| && (k < |r| ==> r[k] == x) && (forall j | 0 <= j < |r| && j != k :: r[j] != x)
    requires (src == assoc - 1 && forall j | 0 <= j < assoc :: a[j] != x)
             || (a[src] == x && forall j | 0 <= j < src :: a[j] != x)
    ensures [x] + Without(a, src) == Padded(Take([x] + (if k < |r| then Without(r, k) else r), assoc), assoc)
  {
    assert forall j | 0 <= j < assoc :: a[j] == if j < |r| then r[j] else 0;
    assert k < |r| && k < assoc ==> src == k;
    assert !(k < |r| && k < assoc) ==> src == assoc - 1;
    var r' := if k < |r| then Without(r, k) else r;
    var lhs, rhs := [x] + Without(a, src), Padded(Take([x] + r', assoc), assoc);
    forall j | 0 <= j < assoc ensures lhs[j] == rhs[j] {
      if j > 0 {
        assert lhs[j] == Without(a, src)[j - 1];
        assert rhs[j] == if j - 1 < |r'| then r'[j - 1] else 0;
      }
    }
  }

  // ---------------------------------------------------------------- the targets

  /** Where the branch at `addr` last went. */
  function LastTarget(ts: seq<Taken>, addr: nat): nat {
    if ts == [] then 0
    else if ts[|ts| - 1].addr == addr then ts[|ts| - 1].target else LastTarget(ts[..|ts| - 1], addr)
  }

  /** An address prediction is called correct only if the entry held the target. */
  ghost predicate Honest(assoc: nat, ts: seq<Taken>)
    requires assoc > 0
  {
    ts == [] ||
    var n := |ts| - 1;
    var list := Run(assoc, ts[..n]);
    && Honest(assoc, ts[..n])
    && (ts[n].correct && Find(list, ts[n].addr) < assoc ==> list[Find(list, ts[n].addr)].target == ts[n].target)
  }

  /** Every used entry holds the last target of its branch. */
  lemma {:induction false} HoldsLastTarget(assoc: nat, ts: seq<Taken>, i: nat)
    requires assoc > 0 && NonZero(ts) && Honest(assoc, ts) && i < assoc && Run(assoc, ts)[i].addr != 0
    ensures Run(assoc, ts)[i].target == LastTarget(ts, Run(assoc, ts)[i].addr)
  {
    if ts != [] {
      var n := |ts| - 1;
      assert forall j | 0 <= j < n :: ts[..n][j] == ts[j];
      var list := Run(assoc, ts[..n]);
      var k := Source(list, ts[n].addr);
      if i > 0 {
        var j := if i <= k then i - 1 else i;
        assert Run(assoc, ts)[i] == list[j];
        HoldsLastTarget(assoc, ts[..n], j);
        NotTwice(assoc, ts, i);
      }
    }
  }

  /** The address just updated stands at the front only. */
  lemma {:induction false} NotTwice(assoc: nat, ts: seq<Taken>, i: nat)
    requires assoc > 0 && NonZero(ts) && ts != [] && 0 < i < assoc
    ensures Run(assoc, ts)[i].addr != ts[|ts| - 1].addr
  {
    KeepsMostRecent(assoc, ts);
    RecentDistinct(ts);
    var a := Addrs(Run(assoc, ts));
    assert a[i] == if i < |Recent(ts)| then Recent(ts)[i] else 0;
    assert Recent(ts)[0] == ts[|ts| - 1].addr;
  }

  /** A branch hits exactly if it is among the `assoc` different branches most recently updated, and then
      the target found is where it last went. */
  lemma {:induction false} HitIffRecent(assoc: nat, ts: seq<Taken>, addr: nat)
    requires assoc > 0 && NonZero(ts) && addr != 0
    ensures var k := Find(Run(assoc, ts), addr);
      && (k < assoc <==> addr in Take(Recent(ts), assoc))
      && (k < assoc && Honest(assoc, ts) ==> Run(assoc, ts)[k].target == LastTarget(ts, addr))
  {
    hide Honest, Recent, Run, LastTarget;
    KeepsMostRecent(assoc, ts);
    var list, r := Run(assoc, ts), Take(Recent(ts), assoc);
    var k := Find(list, addr);
    assert forall i | 0 <= i < assoc :: Addrs(list)[i] == if i < |r| then r[i] else 0;
    if k < assoc {
      assert Addrs(list)[k] == addr == r[k];
      if Honest(assoc, ts) {
        HoldsLastTarget(assoc, ts, k);
      }
    }
    if addr in r {
      var i :| 0 <= i < |r| && r[i] == addr;
      assert list[i].addr == addr;
    }
  }
}
