/** What the return-address stack of lab4/bpred.c has left after a mispredicted path: recovery puts the top
    back, and hopes that the table was not overwritten. */
module StackRecovery {
  import opened ReturnStack
  import opened Wrappers

  // ---------------------------------------------------------------- the height of a path

  /** Calls less returns, and the greatest height on the way. */
  function Height(es: seq<Event>): int {
    if es == [] then 0 else Height(es[..|es| - 1]) + if es[|es| - 1].Call? then 1 else -1
  }

  function Highest(es: seq<Event>): (h: int)
    ensures h >= 0 && h >= Height(es)
  {
    if es == [] then 0 else
    var l := Highest(es[..|es| - 1]);
    if Height(es) > l then Height(es) else l
  }

  // ---------------------------------------------------------------- places round the table

  /** The place `h` above `tos`. */
  function Slot(tos: nat, h: int, size: nat): (i: nat)
    requires size > 0
    ensures i < size
  {
    (tos + h) % size
  }

  lemma {:induction false} ModIs(q: int, r: nat, d: nat)
    requires r < d
    ensures (q * d + r) % d == r
  {
    var x := q * d + r;
    var p := x / d;
    assert x == p * d + x % d;
    assert (p - q) * d == r - x % d;
    SmallMultiple(p - q, d);
  }

  lemma {:induction false} Multiple(k: int, d: nat)
    ensures k >= 1 ==> k * d >= d
    ensures k <= -1 ==> k * d <= 0 - d
  {
    if k >= 1 {
      assert (k - 1) * d >= 0;
      assert k * d == (k - 1) * d + d;
    } else if k <= -1 {
      assert (-1 - k) * d >= 0;
      assert k * d == 0 - (-1 - k) * d - d;
    }
  }

  lemma {:induction false} SmallMultiple(k: int, d: nat)
    requires 0 - d < k * d < d
    ensures k == 0
  {
    Multiple(k, d);
  }

  lemma {:induction false} SlotNext(tos: nat, h: int, size: nat)
    requires size > 0
    ensures (Slot(tos, h, size) + 1) % size == Slot(tos, h + 1, size)
    ensures (Slot(tos, h, size) + size - 1) % size == Slot(tos, h - 1, size)
  {
    var x := tos + h;
    var q, r := x / size, x % size;
    assert x == q * size + r;
    if r + 1 < size {
      ModIs(q, r + 1, size);
      ModIs(0, r + 1, size);
    } else {
      assert (q + 1) * size + 0 == x + 1;
      ModIs(q + 1, 0, size);
      ModIs(1, 0, size);
    }
    if r > 0 {
      ModIs(q, r - 1, size);
      assert 1 * size + (r - 1) == r + size - 1;
      ModIs(1, r - 1, size);
    } else {
      assert (q - 1) * size + (size - 1) == x - 1;
      ModIs(q - 1, size - 1, size);
      ModIs(0, size - 1, size);
    }
  }

  lemma {:induction false} SlotsMeet(tos: nat, a: int, b: int, size: nat)
    requires size > 0
    ensures Slot(tos, a, size) == Slot(tos, b, size) <==> (a - b) % size == 0
  {
    var x, y := tos + a, tos + b;
    var p, q := x / size, y / size;
    assert x == p * size + x % size && y == q * size + y % size;
    var d := (p - q) * size;
    assert d == p * size - q * size;
    if x % size == y % size {
      assert (p - q) * size + 0 == a - b;
      ModIs(p - q, 0, size);
    }
    if (a - b) % size == 0 {
      var k := (a - b) / size;
      assert a - b == k * size;
      assert (q + k) * size == q * size + k * size;
      assert (q + k) * size + y % size == x;
      ModIs(q + k, y % size, size);
    }
  }

  lemma {:induction false} BelowIsSlot(tos: nat, i: nat, size: nat)
    requires tos < size && i < size
    ensures RetStack.Below(tos, i, size) == Slot(tos, 0 - i, size)
  {
    if i <= tos {
      ModIs(0, tos - i, size);
    } else {
      assert (0 - 1) * size + (tos + size - i) == tos - i;
      ModIs(0 - 1, tos + size - i, size);
    }
  }

  // ---------------------------------------------------------------- what a path overwrites

  /** Event `n` of a path is a call that is put where the entry at depth `i` was. */
  predicate Overwrites(es: seq<Event>, size: nat, i: nat, n: nat)
    requires size > 0 && n < |es|
  {
    es[n].Call? && (Height(es[..n + 1]) + i) % size == 0
  }

  /** The target that the last such call left there. */
  function LastWrite(es: seq<Event>, size: nat, i: nat): Option<nat>
    requires size > 0
  {
    if es == [] then None
    else if es[|es| - 1].Call? && (Height(es) + i) % size == 0 then Some(es[|es| - 1].addr + INST_SIZE)
    else LastWrite(es[..|es| - 1], size, i)
  }

  /** The entry at depth `i` after the path and recovery, if it was `was`. */
  function EntryAfter(es: seq<Event>, size: nat, i: nat, was: nat): nat
    requires size > 0
  {
    match LastWrite(es, size, i) case None => was case Some(target) => target
  }

  lemma {:induction false} OverwritesFront(es: seq<Event>, size: nat, i: nat, n: nat)
    requires size > 0 && n < |es|
    ensures if n == |es| - 1 then Overwrites(es, size, i, n) <==> es[n].Call? && (Height(es) + i) % size == 0
            else Overwrites(es, size, i, n) == Overwrites(es[..|es| - 1], size, i, n)
  {
    assert es[..|es|] == es;
    assert n < |es| - 1 ==> es[..n + 1] == es[..|es| - 1][..n + 1];
  }

  lemma {:induction false} WrittenIff(es: seq<Event>, size: nat, i: nat)
    requires size > 0
    ensures LastWrite(es, size, i).Some?
            <==> exists n: nat {:trigger Overwrites(es, size, i, n)} :: n < |es| && Overwrites(es, size, i, n)
  {
    hide Overwrites, Height;
    if es != [] {
      var p := es[..|es| - 1];
      WrittenIff(p, size, i);
      OverwritesFront(es, size, i, |p|);
      if LastWrite(p, size, i).Some? {
        var n: nat :| n < |p| && Overwrites(p, size, i, n);
        OverwritesFront(es, size, i, n);
      }
      forall n: nat | n < |p| ensures Overwrites(es, size, i, n) == Overwrites(p, size, i, n) {
        OverwritesFront(es, size, i, n);
      }
    }
  }

  // ---------------------------------------------------------------- which entries survive

  /** The same calls and returns, the calls from other addresses perhaps. */
  ghost predicate SameShape(es: seq<Event>, fs: seq<Event>) {
    |es| == |fs| && forall n {:trigger es[n]} {:trigger fs[n]} | 0 <= n < |es| :: es[n].Call? == fs[n].Call?
  }

  function CallsFrom(es: seq<Event>, addr: nat): (fs: seq<Event>)
    ensures SameShape(es, fs) && forall n {:trigger fs[n]} | 0 <= n < |es| ::
            fs[n] == if es[n].Call? then Call(addr) else Return
  {
    seq(|es|, n requires 0 <= n < |es| => if es[n].Call? then Call(addr) else Return)
  }

  lemma {:induction false} ShapeDecides(es: seq<Event>, fs: seq<Event>, size: nat, i: nat)
    requires size > 0 && SameShape(es, fs)
    ensures Height(es) == Height(fs) && LastWrite(es, size, i).Some? == LastWrite(fs, size, i).Some?
  {
    if es != [] {
      var l := |es| - 1;
      assert es[l].Call? == fs[l].Call?;
      assert forall n | 0 <= n < l :: es[..l][n] == es[n] && fs[..l][n] == fs[n];
      ShapeDecides(es[..l], fs[..l], size, i);
    }
  }

  lemma {:induction false} WritesItsAddress(es: seq<Event>, addr: nat, size: nat, i: nat)
    requires size > 0
    ensures LastWrite(CallsFrom(es, addr), size, i) in {None, Some(addr + INST_SIZE)}
  {
    if es != [] {
      assert CallsFrom(es, addr)[..|es| - 1] == CallsFrom(es[..|es| - 1], addr);
      WritesItsAddress(es[..|es| - 1], addr, size, i);
    }
  }

  /** An entry survives the squashed path, wherever its calls come from, exactly if none of them reaches its
      place round the table. */
  lemma {:induction false} SurvivesIff(es: seq<Event>, size: nat, i: nat, was: nat)
    requires size > 0
    ensures (forall fs {:trigger SameShape(es, fs)} | SameShape(es, fs) :: EntryAfter(fs, size, i, was) == was)
            <==> forall n: nat {:trigger Overwrites(es, size, i, n)} | n < |es| :: !Overwrites(es, size, i, n)
  {
    hide Height, Overwrites;
    WrittenIff(es, size, i);
    if LastWrite(es, size, i).Some? {
      var fs := CallsFrom(es, was + 1);
      ShapeDecides(es, fs, size, i);
      WritesItsAddress(es, was + 1, size, i);
      assert EntryAfter(fs, size, i, was) != was;
    } else {
      forall fs {:trigger SameShape(es, fs)} | SameShape(es, fs) ensures EntryAfter(fs, size, i, was) == was {
        ShapeDecides(es, fs, size, i);
      }
    }
  }

  /** A path that only ever stands at or above its start. */
  ghost predicate NeverSinks(es: seq<Event>) {
    forall n {:trigger es[..n]} | 0 <= n <= |es| :: Height(es[..n]) >= 0
  }

  lemma {:induction false} EachHeightCalled(es: seq<Event>, h: int) returns (n: nat)
    requires 1 <= h <= Highest(es)
    ensures n < |es| && es[n].Call? && Height(es[..n + 1]) == h
  {
    var p := es[..|es| - 1];
    assert es[..|es|] == es;
    if h <= Highest(p) {
      n := EachHeightCalled(p, h);
      assert p[..n + 1] == es[..n + 1];
    } else {
      n := |es| - 1;
    }
  }

  lemma {:induction false} CallsStayBelow(es: seq<Event>, n: nat)
    requires n <= |es|
    ensures Height(es[..n]) <= Highest(es)
  {
    if n < |es| {
      assert es[..|es| - 1][..n] == es[..n];
      CallsStayBelow(es[..|es| - 1], n);
    } else {
      assert es[..n] == es;
    }
  }

  /** Such a path loses exactly as many of the oldest entries as it stacked at its highest. */
  lemma {:induction false} ClimbingLoses(es: seq<Event>, size: nat, i: nat)
    requires i < size && NeverSinks(es)
    ensures LastWrite(es, size, i).Some? <==> i >= size - Highest(es)
  {
    hide Highest;
    WrittenIff(es, size, i);
    if i >= size - Highest(es) {
      var n := EachHeightCalled(es, size - i);
      ModIs(1, 0, size);
      assert Overwrites(es, size, i, n);
      assert es[n].Call?;
    }
    if LastWrite(es, size, i).Some? {
      var n: nat :| n < |es| && Overwrites(es, size, i, n);
      CallsStayBelow(es, n + 1);
      CalledAbove(es, n);
      Rounds(Height(es[..n + 1]) + i, size);
    }
  }

  lemma {:induction false} CalledAbove(es: seq<Event>, n: nat)
    requires n < |es| && NeverSinks(es) && es[n].Call?
    ensures Height(es[..n + 1]) >= 1
  {
    assert es[..n + 1][..n] == es[..n];
    assert Height(es[..n]) >= 0;
  }

  lemma {:induction false} Rounds(x: int, size: nat)
    requires size > 0 && x > 0 && x % size == 0
    ensures x >= size
  {
    Multiple(x / size, size);
  }

  // ---------------------------------------------------------------- a squashed path

  /** How many of the newest `n` entries are left before the first that was overwritten. */
  function Unwritten(es: seq<Event>, size: nat, n: nat): (k: nat)
    requires size > 0
    ensures k <= n && (k < n ==> LastWrite(es, size, k).Some?)
    ensures forall i: nat {:trigger LastWrite(es, size, i)} | i < k :: LastWrite(es, size, i) == None
  {
    if n == 0 then 0 else
    var k := Unwritten(es, size, n - 1);
    if k == n - 1 && LastWrite(es, size, k) == None then n else k
  }

  function Kept(known: seq<nat>, size: nat, es: seq<Event>): (r: seq<nat>)
    ensures r <= known
  {
    if size == 0 then [] else known[..Unwritten(es, size, |known|)]
  }

  lemma {:induction false} StartsHere(tos: nat, size: nat)
    requires tos < size
    ensures Slot(tos, 0, size) == tos && Height([]) == 0
  {
    ModIs(0, tos, size);
  }

  /** What one more event does to the entry at depth `i`. */
  lemma {:induction false} OneMore(es: seq<Event>, n: nat, tos: nat, size: nat, i: nat)
    requires n < |es| && tos < size && i < size
    ensures Height(es[..n + 1]) == Height(es[..n]) + if es[n].Call? then 1 else -1
    ensures LastWrite(es[..n + 1], size, i)
            == if es[n].Call? && RetStack.Below(tos, i, size) == Slot(tos, Height(es[..n + 1]), size)
               then Some(es[n].addr + INST_SIZE) else LastWrite(es[..n], size, i)
  {
    hide Slot;
    var p := es[..n + 1];
    assert p[..n] == es[..n] && p[n] == es[n];
    BelowIsSlot(tos, i, size);
    SlotsMeet(tos, Height(p), 0 - i, size);
  }

  /** A wrong path is predicted, then squashed.  Each entry is the target of the last call that the path put in
      its place, or as it was without one; what is known is up to the newest that was overwritten. */
  method Squash(s: RetStack, es: seq<Event>)
    requires s.Valid()
    modifies s, s.stack
    ensures s.Valid() && s.tos == old(s.tos)
    ensures forall i: nat {:trigger RetStack.Below(s.tos, i, s.stack.Length)} | i < s.stack.Length ::
              var j := RetStack.Below(s.tos, i, s.stack.Length);
              s.stack[j] == EntryAfter(es, s.stack.Length, i, old(s.stack[..])[j])
    ensures s.known == Kept(old(s.known), s.stack.Length, es)
  {
    hide RetStack.Below, Slot, LastWrite, Bounded;
    var recover, size := s.tos, s.stack.Length;
    ghost var was := s.stack[..];
    if size == 0 {
      return;
    }
    StartsHere(recover, size);
    NothingWritten(size);
    var n := 0;
    assert es[..0] == [];
    while n < |es|
      invariant n <= |es| && s.Valid() && s.tos == Slot(recover, Height(es[..n]), size)
      invariant forall i: nat {:trigger RetStack.Below(recover, i, size)} | i < size ::
                  s.stack[RetStack.Below(recover, i, size)]
                  == EntryAfter(es[..n], size, i, was[RetStack.Below(recover, i, size)])
    {
      SlotNext(recover, Height(es[..n]), size);
      forall i: nat {:trigger RetStack.Below(recover, i, size)} | i < size
        ensures LastWrite(es[..n + 1], size, i)
                == if es[n].Call? && RetStack.Below(recover, i, size) == Slot(recover, Height(es[..n + 1]), size)
                   then Some(es[n].addr + INST_SIZE) else LastWrite(es[..n], size, i)
      {
        OneMore(es, n, recover, size, i);
      }
      OneMore(es, n, recover, size, 0);
      match es[n] {
        case Call(addr) => s.Push(addr);
        case Return => var target := s.Pop();
      }
      n := n + 1;
    }
    assert es[..n] == es;
    ghost var kept := Kept(old(s.known), size, es);
    forall i: nat {:trigger kept[i]} | i < |kept| ensures s.stack[RetStack.Below(recover, i, size)] == kept[i] {
      assert LastWrite(es, size, i) == None && old(s.known)[i] == was[RetStack.Below(recover, i, size)];
    }
    s.Recover(recover, kept);
  }

  lemma {:induction false} NothingWritten(size: nat)
    requires size > 0
    ensures forall i: nat {:trigger LastWrite([], size, i)} :: LastWrite([], size, i) == None
  {
  }

  /** A lone return loses nothing; a return and then a call lose the newest entry, whatever the size. */
  lemma {:induction false} ReturnThenCall(size: nat, baddr: nat)
    requires size > 0
    ensures forall i: nat {:trigger LastWrite([Return], size, i)} :: LastWrite([Return], size, i) == None
    ensures LastWrite([Return, Call(baddr)], size, 0) == Some(baddr + INST_SIZE)
  {
    var es := [Return, Call(baddr)];
    assert es[..1] == [Return] && [Return][..0] == [];
    assert Height([Return]) == -1;
    ModIs(0, 0, size);
  }

  // ---------------------------------------------------------------- a call and its return

  /** Calls that all return, nested less than `size` deep. */
  ghost predicate Nested(bs: seq<Event>, size: nat) {
    Height(bs) == 0 && forall n {:trigger bs[..n]} | 0 <= n <= |bs| :: 0 <= Height(bs[..n]) < size
  }

  /** While they run, the entry below them stays. */
  lemma {:induction false} StaysBelow(s: seq<nat>, size: nat, bs: seq<Event>, n: nat)
    requires 0 < |s| <= size && n <= |bs| && forall m {:trigger bs[..m]} | 0 <= m <= |bs| :: 0 <= Height(bs[..m]) < size
    ensures var r := RunBounded(s, size, bs[..n]);
      0 <= Height(bs[..n]) < |r| && r[Height(bs[..n])] == s[0]
  {
    if n > 0 {
      StaysBelow(s, size, bs, n - 1);
      assert bs[..n][..n - 1] == bs[..n - 1];
    }
  }

  lemma {:induction false} RunBoundedConcat(s: seq<nat>, size: nat, a: seq<Event>, b: seq<Event>)
    requires |s| <= size
    ensures RunBounded(s, size, a + b) == RunBounded(RunBounded(s, size, a), size, b)
  {
    hide Bounded;
    if b == [] {
      assert a + b == a;
    } else {
      assert (a + b)[..|a + b| - 1] == a + b[..|b| - 1];
      RunBoundedConcat(s, size, a, b[..|b| - 1]);
    }
  }

  /** Whatever came before: a call's return is predicted to go to the instruction after it, eight bytes on, if the
      calls between them have returned and were nested less deep than the stack. */
  lemma {:induction false} CallReturns(size: nat, es: seq<Event>, addr: nat, bs: seq<Event>)
    requires size > 0 && Nested(bs, size)
    ensures var r := RunBounded([], size, es + [Call(addr)] + bs); r != [] && r[0] == addr + 8
  {
    var s := RunBounded([], size, es + [Call(addr)]);
    assert (es + [Call(addr)])[..|es|] == es;
    RunBoundedConcat([], size, es + [Call(addr)], bs);
    assert bs[..|bs|] == bs;
    StaysBelow(s, size, bs, |bs|);
  }
}
