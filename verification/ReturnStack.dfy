/** The return-address stack of lab4/bpred.c: a circular table that remembers the newest calls. */
module ReturnStack {
  import opened Bits
  import opened Wrappers

  /** sizeof(md_inst_t): a return goes to the instruction after the call. */
  const INST_SIZE := 8

  datatype Event = Call(addr: nat) | Return

  // ---------------------------------------------------------------- a stack that forgets its oldest

  /** Return targets, newest first; at most `size` of them. */
  function Pushed(s: seq<nat>, size: nat, target: nat): (r: seq<nat>)
    requires |s| <= size
    ensures |r| <= size
  {
    if size == 0 then [] else [target] + (if |s| == size then s[..size - 1] else s)
  }

  function Popped(s: seq<nat>): seq<nat> { if s == [] then [] else s[1..] }

  function Bounded(s: seq<nat>, size: nat, e: Event): (r: seq<nat>)
    requires |s| <= size
    ensures |r| <= size
  {
    match e
    case Call(addr) => Pushed(s, size, addr + INST_SIZE)
    case Return => Popped(s)
  }

  /** The stack that a program really has. */
  function Unbounded(s: seq<nat>, e: Event): seq<nat> {
    match e
    case Call(addr) => [addr + INST_SIZE] + s
    case Return => Popped(s)
  }

  function RunBounded(s: seq<nat>, size: nat, es: seq<Event>): (r: seq<nat>)
    requires |s| <= size
    ensures |r| <= size
  {
    if es == [] then s else Bounded(RunBounded(s, size, es[..|es| - 1]), size, es[|es| - 1])
  }

  function RunUnbounded(s: seq<nat>, es: seq<Event>): seq<nat> {
    if es == [] then s else Unbounded(RunUnbounded(s, es[..|es| - 1]), es[|es| - 1])
  }

  // ---------------------------------------------------------------- what is remembered

  /** Whatever the calls and returns, what is remembered is the newest part of the real stack: so a
      return with a remembered entry is predicted right. */
  lemma {:induction false} RemembersNewest(size: nat, es: seq<Event>)
    ensures RunBounded([], size, es) <= RunUnbounded([], es)
    ensures var r := RunBounded([], size, es); r != [] ==> r[0] == RunUnbounded([], es)[0]
  {
    if es != [] {
      var n := |es| - 1;
      RemembersNewest(size, es[..n]);
      var r, u := RunBounded([], size, es[..n]), RunUnbounded([], es[..n]);
      assert r == u[..|r|];
      if es[n].Call? && size > 0 {
        var x := es[n].addr + INST_SIZE;
        assert ([x] + u)[..|Pushed(r, size, x)|] == Pushed(r, size, x);
      } else if es[n].Return? && r != [] {
        assert u[1..][..|r| - 1] == r[1..];
      }
    }
  }

  /** The real stack never holds more than `size` entries. */
  ghost predicate NeverDeeper(size: nat, es: seq<Event>) {
    forall n {:trigger es[..n]} | 0 <= n <= |es| :: |RunUnbounded([], es[..n])| <= size
  }

  ghost predicate AlwaysExact(size: nat, es: seq<Event>) {
    forall n {:trigger es[..n]} | 0 <= n <= |es| :: RunBounded([], size, es[..n]) == RunUnbounded([], es[..n])
  }

  lemma {:induction false} ExactSoFar(size: nat, es: seq<Event>, n: nat)
    requires NeverDeeper(size, es) && n <= |es|
    ensures RunBounded([], size, es[..n]) == RunUnbounded([], es[..n])
  {
    if n > 0 {
      ExactSoFar(size, es, n - 1);
      assert es[..n][..n - 1] == es[..n - 1];
      assert |RunUnbounded([], es[..n])| <= size;
    }
  }

  /** Nothing is ever forgotten, so that every matched return is predicted, exactly if the nesting never
      goes deeper than the size. */
  lemma {:induction false} ExactIffShallow(size: nat, es: seq<Event>)
    ensures AlwaysExact(size, es) <==> NeverDeeper(size, es)
  {
    if NeverDeeper(size, es) {
      forall n {:trigger es[..n]} | 0 <= n <= |es| ensures RunBounded([], size, es[..n]) == RunUnbounded([], es[..n]) {
        ExactSoFar(size, es, n);
      }
    }
  }

  // ---------------------------------------------------------------- the circular table

  class RetStack {
    const stack: array<nat>
    var tos: nat
    ghost var known: seq<nat>

    /** `tos` is in range, and the known targets lie below it, newest first, round the table. */
    ghost predicate Valid()
      reads this, stack
    {
      && |known| <= stack.Length
      && (stack.Length > 0 ==> tos < stack.Length)
      && forall i: nat {:trigger known[i]} | i < |known| :: stack[Below(tos, i, stack.Length)] == known[i]
    }

    static function Below(tos: nat, i: nat, size: nat): (j: nat)
      requires tos < size && i < size
      ensures j < size
    {
      if i <= tos then tos - i else tos + size - i
    }

    static function Next(tos: nat, size: nat): (j: nat)
      requires tos < size
      ensures j < size && forall i: nat {:trigger Below(tos, i, size)} | i < size - 1 ::
              Below(j, i + 1, size) == Below(tos, i, size) != j
      ensures Below(j, 0, size) == j
    {
      if tos + 1 < size then tos + 1 else 0
    }

    static function Previous(tos: nat, size: nat): (j: nat)
      requires tos < size
      ensures j < size && forall i: nat {:trigger Below(j, i, size)} | i < size - 1 ::
              Below(j, i, size) == Below(tos, i + 1, size)
    {
      if tos > 0 then tos - 1 else size - 1
    }

    /** The source's remainders step round the table. */
    static lemma {:induction false} Steps(tos: nat, size: nat)
      requires tos < size
      ensures (tos + 1) % size == Next(tos, size) && (tos + size - 1) % size == Previous(tos, size)
    {
      DivModUnique(if tos + 1 < size then 0 else 1, Next(tos, size), size);
      DivModUnique(if tos > 0 then 1 else 0, Previous(tos, size), size);
    }

    constructor (size: nat)
      ensures Valid() && known == [] && stack.Length == size && fresh(stack)
    {
      stack := new nat[size](_ => 0);
      tos := if size == 0 then 0 else size - 1;
      known := [];
    }

    /** The part of bpred_lookup for a call. */
    method Push(baddr: nat)
      requires Valid()
      modifies this, stack
      ensures Valid() && known == Bounded(old(known), stack.Length, Call(baddr))
      ensures stack.Length > 0 ==>
                tos == (old(tos) + 1) % stack.Length && stack[..] == old(stack[..])[tos := baddr + INST_SIZE]
    {
      hide Below;
      if stack.Length > 0 {
        Steps(tos, stack.Length);
        tos := (tos + 1) % stack.Length;
        stack[tos] := baddr + INST_SIZE;
      }
      known := Pushed(known, stack.Length, baddr + INST_SIZE);
    }

    /** The part of bpred_lookup for a return: a known target is predicted; with no table there is no
        prediction, and with nothing known it is whatever the table holds. */
    method Pop() returns (target: Option<nat>)
      requires Valid()
      modifies this
      ensures Valid() && known == Bounded(old(known), stack.Length, Return)
      ensures stack.Length > 0 ==> tos == (old(tos) + stack.Length - 1) % stack.Length
      ensures target.Some? <==> stack.Length > 0
      ensures old(known) != [] ==> target == Some(old(known)[0])
    {
      if stack.Length == 0 {
        return None;
      }
      Steps(tos, stack.Length);
      target := Some(stack[tos]);
      assert known != [] ==> known[0] == stack[tos];
      tos := (tos + stack.Length - 1) % stack.Length;
      known := Popped(known);
    }

    /** bpred_recover: the top goes back to where it was; what is known there is what `was` says. */
    method Recover(index: nat, ghost was: seq<nat>)
      requires |was| <= stack.Length && (stack.Length > 0 ==> index < stack.Length)
      requires forall i: nat {:trigger was[i]} | i < |was| :: stack[Below(index, i, stack.Length)] == was[i]
      modifies this
      ensures Valid() && tos == index && known == was
    {
      tos := index;
      known := was;
    }

    /** A whole run: each return that has a known entry is predicted by it. */
    method Trace(es: seq<Event>) returns (predicted: seq<Option<nat>>)
      requires Valid() && known == []
      modifies this, stack
      ensures Valid() && known == RunBounded([], stack.Length, es) && |predicted| == |es|
      ensures forall n {:trigger es[..n]} | 0 <= n < |es| && es[n].Return?
                && RunBounded([], stack.Length, es[..n]) != [] ::
                RunUnbounded([], es[..n]) != [] && predicted[n] == Some(RunUnbounded([], es[..n])[0])
    {
      predicted := [];
      var n := 0;
      while n < |es|
        invariant n <= |es| && |predicted| == n && Valid() && known == RunBounded([], stack.Length, es[..n])
        invariant forall m {:trigger es[..m]} | 0 <= m < n && es[m].Return?
                    && RunBounded([], stack.Length, es[..m]) != [] ::
                    RunUnbounded([], es[..m]) != [] && predicted[m] == Some(RunUnbounded([], es[..m])[0])
      {
        RemembersNewest(stack.Length, es[..n]);
        assert es[..n + 1][..n] == es[..n];
        var p: Option<nat> := None;
        match es[n] {
          case Call(addr) => Push(addr);
          case Return => p := Pop();
        }
        predicted := predicted + [p];
        n := n + 1;
      }
      assert es[..n] == es;
    }
  }
}
