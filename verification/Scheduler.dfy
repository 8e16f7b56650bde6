/** The scheduler of lab3/tomasulo.c in its own form: tables updated in place, cycle by cycle.  Every
    stage is proved to compute the stage function of module Pipeline on the abstract state. */
module Scheduler {
  import opened InstrTrace
  import opened Wrappers
  import opened Pipeline
  import opened PipelineInvariant
  import opened PipelineRun
  import PipelineTheorems
  import PipelineFetch

  // ---------------------------------------------------------------- facts about the stage functions

  lemma {:induction false} OldestIs(c: set<nat>, r: Ref)
    requires IsOldest(r, c)
    ensures Oldest(c) == r
  {
  }

  lemma {:induction false} FreedTwice(prog: seq<Op>, s: State, a: set<nat>, b: set<nat>)
    ensures Freed(prog, Freed(prog, s, a), b) == Freed(prog, s, a + b)
  {
    var x, y := Freed(prog, Freed(prog, s, a), b), Freed(prog, s, a + b);
    assert x.intBank.rs == y.intBank.rs && x.intBank.fu == y.intBank.fu;
    assert x.fpBank.rs == y.fpBank.rs && x.fpBank.fu == y.fpBank.fu;
  }

  lemma {:induction false} FreedNothing(prog: seq<Op>, s: State)
    ensures Freed(prog, s, {}) == s
  {
    var x := Freed(prog, s, {});
    assert x.intBank.rs == s.intBank.rs && x.intBank.fu == s.intBank.fu;
    assert x.fpBank.rs == s.fpBank.rs && x.fpBank.fu == s.fpBank.fu;
  }

  /** Finished slots among some entries of a unit table. */
  ghost function FinishedIn(prog: seq<Op>, stamp: seq<Stamp>, fu: seq<Ref>, c: int): set<nat>
    requires |stamp| == |prog|
  {
    set i: nat | i < |prog| && Some(i) in fu && Complete(prog, stamp, c, i)
  }

  lemma {:induction false} FinishedStep(prog: seq<Op>, stamp: seq<Stamp>, fu: seq<Ref>, c: int, k: nat)
    requires |stamp| == |prog| && k < |fu| && InRange(fu, |prog|)
    ensures FinishedIn(prog, stamp, fu[..k + 1], c) ==
            FinishedIn(prog, stamp, fu[..k], c) +
            (if fu[k].Some? && Complete(prog, stamp, c, fu[k].value) then {fu[k].value} else {})
  {
    assert fu[..k + 1] == fu[..k] + [fu[k]];
  }

  lemma {:induction false} ReadyStep(rs: seq<Ref>, stamp: seq<Stamp>, c: int, k: nat)
    requires k < |rs| && InRange(rs, |stamp|)
    ensures ReadySet(rs[..k + 1], stamp, c) ==
            ReadySet(rs[..k], stamp, c) +
            (if rs[k].Some? && Ready(stamp, c, rs[k].value) then {rs[k].value} else {})
  {
    assert rs[..k + 1] == rs[..k] + [rs[k]];
  }

  /** How looking at one more unit changes the silent finished slots and the finished writers. */
  lemma {:induction false} ScanStep(prog: seq<Op>, stamp: seq<Stamp>, c: int, seen: set<nat>, before: set<nat>,
                                    after: set<nat>, r: Ref)
    requires |stamp| == |prog| && (forall i <- seen :: i < |prog|) && (forall i <- before :: i < |prog|)
             && (r.Some? ==> r.value < |prog|)
    requires after == before + (if r.Some? && Complete(prog, stamp, c, r.value) then {r.value} else {})
    ensures (forall i <- after :: i < |prog|) && (forall i <- seen + after :: i < |prog|)
    ensures forall i <- seen + before :: i < |prog|
    ensures var hit := r.Some? && Complete(prog, stamp, c, r.value);
      var writes := hit && prog[r.value].cls.WritesCdb();
      && Silent(prog, after) == Silent(prog, before) + (if hit && !writes then {r.value} else {})
      && Writers(prog, seen + after) == Writers(prog, seen + before) + (if writes then {r.value} else {})
  {
  }

  ghost function FuOf(s: State, ints: bool): seq<Ref> {
    if ints then s.intBank.fu else s.fpBank.fu
  }

  /** Freeing leaves a unit alone or empties it. */
  lemma {:induction false} FreedUnit(prog: seq<Op>, s: State, before: set<nat>, ints: bool, k: nat)
    requires (forall i <- before :: i < |prog|) && k < |FuOf(s, ints)|
    ensures var fu, fu' := FuOf(s, ints), FuOf(Freed(prog, s, Silent(prog, before)), ints);
      |fu'| == |fu| && (fu'[k] == fu[k] || (fu'[k] == None && fu[k].Some? && fu[k].value in before))
  {
  }

  /** The finished slots after one more unit, read from the partly freed table. */
  lemma {:induction false} ScanNext(prog: seq<Op>, s: State, was: seq<Ref>, c: int, k: nat, before: set<nat>,
                                    ints: bool, r: Ref)
    returns (after: set<nat>)
    requires |s.stamp| == |prog| && was == FuOf(s, ints) && InRange(was, |prog|) && k < |was|
    requires before == FinishedIn(prog, s.stamp, was[..k], c) && (forall i <- before :: i < |prog|)
    requires r == FuOf(Freed(prog, s, Silent(prog, before)), ints)[k]
    ensures r.Some? ==> r.value < |prog|
    ensures after == before + (if r.Some? && Complete(prog, s.stamp, c, r.value) then {r.value} else {})
    ensures after == FinishedIn(prog, s.stamp, was[..k + 1], c)
  {
    FinishedStep(prog, s.stamp, was, c, k);
    FreedUnit(prog, s, before, ints, k);
    after := FinishedIn(prog, s.stamp, was[..k + 1], c);
  }

  /** Everything silent belongs to the integer bank. */
  lemma {:induction false} FpBankKept(prog: seq<Op>, s: State, c: int)
    requires Shape(prog, s)
    ensures Freed(prog, s, Silent(prog, FinishedIn(prog, s.stamp, s.intBank.fu, c))).fpBank == s.fpBank
  {
    var t := Freed(prog, s, Silent(prog, FinishedIn(prog, s.stamp, s.intBank.fu, c)));
    assert t.fpBank.rs == s.fpBank.rs && t.fpBank.fu == s.fpBank.fu;
  }

  // ---------------------------------------------------------------- the instruction queue

  /** The circular buffer of queued instructions. */
  class InstrQueue {
    const buffer: array<Ref>
    var size: nat
    var headIdx: nat
    var tailIdx: nat

    ghost predicate Valid()
      reads this, buffer
    {
      && buffer.Length == IFQ_SIZE
      && size <= IFQ_SIZE && headIdx < IFQ_SIZE && tailIdx == Wrap(headIdx, size)
      && forall k: nat | k < size :: buffer[Wrap(headIdx, k)].Some?
    }

    static function Wrap(head: nat, k: nat): (i: nat)
      ensures i < IFQ_SIZE
    {
      (head + k) % IFQ_SIZE
    }

    static lemma {:induction false} WrapNext(head: nat, k: nat)
      requires head < IFQ_SIZE
      ensures Wrap((head + 1) % IFQ_SIZE, k) == Wrap(head, k + 1) == (Wrap(head, k) + 1) % IFQ_SIZE
    {
      var q := (head + k) / IFQ_SIZE;
      assert head + k == q * IFQ_SIZE + Wrap(head, k);
    }

    static lemma {:induction false} WrapDistinct(head: nat, n: nat)
      requires head < IFQ_SIZE && n < IFQ_SIZE
      ensures forall k: nat | k < n :: Wrap(head, k) != Wrap(head, n)
    {
    }

    /** The buffer read from head to tail. */
    ghost function Contents(): (q: seq<nat>)
      requires Valid()
      reads this, buffer
    {
      seq(size, k requires 0 <= k < size && Valid() reads this, buffer => buffer[Wrap(headIdx, k)].value)
    }

    constructor ()
      ensures Valid() && Contents() == [] && fresh(buffer)
    {
      buffer := new Ref[IFQ_SIZE](_ => None);
      size, headIdx, tailIdx := 0, 0, 0;
    }

    method Push(i: nat)
      requires Valid() && size < IFQ_SIZE
      modifies this, buffer
      ensures Valid() && Contents() == old(Contents()) + [i]
    {
      WrapNext(headIdx, size);
      WrapDistinct(headIdx, size);
      buffer[tailIdx] := Some(i);
      tailIdx := (tailIdx + 1) % IFQ_SIZE;
      size := size + 1;
      assert forall k: nat | k < size - 1 :: buffer[Wrap(headIdx, k)] == old(buffer[Wrap(headIdx, k)]);
      assert Contents() == old(Contents()) + [i];
    }

    method Pop()
      requires Valid() && size > 0
      modifies this
      ensures Valid() && Contents() == old(Contents())[1..]
    {
      var next := (headIdx + 1) % IFQ_SIZE;
      forall k: nat | k < size ensures Wrap(next, k) == Wrap(headIdx, k + 1) {
        WrapNext(headIdx, k);
      }
      headIdx := next;
      size := size - 1;
      assert forall k: nat | k < size :: buffer[Wrap(headIdx, k)].Some?;
      assert Contents() == old(Contents())[1..];
    }

    method Head() returns (r: Ref)
      requires Valid()
      ensures r == if Contents() == [] then None else Some(Contents()[0])
    {
      if size != 0 { r := buffer[headIdx]; } else { r := None; }
      assert Wrap(headIdx, 0) == headIdx;
    }

    method Tail() returns (r: Ref)
      requires Valid()
      ensures r == if Contents() == [] then None else Some(Contents()[|Contents()| - 1])
    {
      if size != 0 {
        r := buffer[(tailIdx + IFQ_SIZE - 1) % IFQ_SIZE];
        assert (tailIdx + IFQ_SIZE - 1) % IFQ_SIZE == Wrap(headIdx, size - 1);
      } else {
        r := None;
      }
    }
  }

  // ---------------------------------------------------------------- where a run stands

  /** The run passes the end test after `k` cycles. */
  ghost predicate Passes(prog: seq<Op>, k: nat)
    requires ValidProgram(prog)
  {
    Done(After(prog, k), |prog| - 1)
  }

  /** None of the cycles 1 to `n - 1` ends with the end test passed. */
  ghost predicate NonePassesBefore(prog: seq<Op>, n: nat)
    requires ValidProgram(prog)
  {
    n <= 1 || (!Passes(prog, n - 1) && NonePassesBefore(prog, n - 1))
  }

  /** Where the loop stands after `k` cycles. */
  ghost predicate Going(prog: seq<Op>, k: nat, done: bool)
    requires ValidProgram(prog)
  {
    if done then k > 0 && Passes(prog, k) && NonePassesBefore(prog, k) else NonePassesBefore(prog, k + 1)
  }

  /** `s` is the state after `k` cycles, and the first to pass the end test. */
  ghost predicate Ended(prog: seq<Op>, s: State, k: nat)
    requires ValidProgram(prog)
  {
    s == After(prog, k) && Going(prog, k, true)
  }

  lemma {:induction false} AfterZero(prog: seq<Op>)
    requires ValidProgram(prog)
    ensures After(prog, 0) == Init(prog)
  {
  }

  lemma {:induction false} NextState(prog: seq<Op>, k: nat, s: State) returns (s': State)
    requires ValidProgram(prog) && s == After(prog, k) && Going(prog, k, false)
    ensures Inv(prog, s, Through(k)) && s' == After(prog, k + 1) == Stages(prog, s, k + 1).fetched
    ensures Going(prog, k + 1, Done(s', |prog| - 1))
  {
    AfterStep(prog, k + 1);
    s' := After(prog, k + 1);
  }

  // ---------------------------------------------------------------- the machine

  /** What fetch finds in a cycle, and what it leaves. */
  lemma {:induction false} CycleFacts(prog: seq<Op>, s: State, c: int)
    requires c > 0 && Inv(prog, s, Through(c - 1))
    ensures ValidProgram(prog) && Shape(prog, Stages(prog, s, c).issued)
    ensures Stages(prog, s, c).fetched == PipelineFetch.FetchAndDispatch(prog, Stages(prog, s, c).issued, c)
    ensures Inv(prog, Stages(prog, s, c).fetched, Through(c))
  {
    StagesInv(prog, s, c);
  }

  class Machine {
    const prog: seq<Op>
    const stamps: array<Stamp>
    const ifq: InstrQueue
    const reservInt: array<Ref>
    const reservFp: array<Ref>
    const fuInt: array<Ref>
    const fuFp: array<Ref>
    var commonDataBus: Ref
    const mapTable: array<Ref>
    var fetchIndex: nat

    ghost predicate Valid()
      reads ifq, ifq.buffer
    {
      && ifq.Valid()
      && stamps.Length == |prog|
      && ifq.buffer != reservInt && ifq.buffer != reservFp && ifq.buffer != fuInt && ifq.buffer != fuFp
      && ifq.buffer != mapTable
      && reservInt != reservFp && reservInt != fuInt && reservInt != fuFp && reservInt != mapTable
      && reservFp != fuInt && reservFp != fuFp && reservFp != mapTable
      && fuInt != fuFp && fuInt != mapTable && fuFp != mapTable
    }

    ghost function Abs(): State
      requires Valid()
      reads this, stamps, ifq, ifq.buffer, reservInt, reservFp, fuInt, fuFp, mapTable
    {
      State(stamps[..], ifq.Contents(), Bank(reservInt[..], fuInt[..]), Bank(reservFp[..], fuFp[..]),
            commonDataBus, mapTable[..], fetchIndex)
    }

    /** The initialisation at the start of runTomasulo, over zeroed statics and a zeroed trace. */
    constructor (program: seq<Op>)
      requires ValidProgram(program)
      ensures prog == program && Valid() && Abs() == Init(program)
      ensures fresh(stamps) && fresh(ifq) && fresh(ifq.buffer) && fresh(reservInt) && fresh(reservFp)
      ensures fresh(fuInt) && fresh(fuFp) && fresh(mapTable)
    {
      prog := program;
      stamps := new Stamp[|program|](_ => NO_STAMP);
      ifq := new InstrQueue();
      reservInt := new Ref[RESERV_INT_SIZE](_ => None);
      reservFp := new Ref[RESERV_FP_SIZE](_ => None);
      fuInt := new Ref[FU_INT_SIZE](_ => None);
      fuFp := new Ref[FU_FP_SIZE](_ => None);
      commonDataBus := None;
      mapTable := new Ref[TOTAL_REGS](_ => None);
      fetchIndex := 0;
      new;
      ghost var init := Init(program);
      assert stamps[..] == init.stamp && mapTable[..] == init.mapTable;
      assert reservInt[..] == init.intBank.rs && fuInt[..] == init.intBank.fu;
      assert reservFp[..] == init.fpBank.rs && fuFp[..] == init.fpBank.fu;
    }

    // -------------------------------------------------------------- tables

    method ClearRef(a: array<Ref>, i: nat)
      modifies a
      ensures a[..] == Emptied(old(a[..]), {i})
    {
      var k := 0;
      while k < a.Length
        invariant 0 <= k <= a.Length
        invariant forall j | 0 <= j < k :: a[j] == if old(a[j]) == Some(i) then None else old(a[j])
        invariant forall j | k <= j < a.Length :: a[j] == old(a[j])
      {
        if a[k] == Some(i) { a[k] := None; }
        k := k + 1;
      }
      assert a[..] == Emptied(old(a[..]), {i});
    }

    method FreeRsAndFu(i: nat)
      requires Valid() && i < |prog|
      modifies reservInt, reservFp, fuInt, fuFp
      ensures Valid() && Abs() == Freed(prog, old(Abs()), {i})
    {
      ghost var s := Abs();
      if prog[i].cls.UsesIntFu() {
        ClearRef(reservInt, i);
        ClearRef(fuInt, i);
      }
      if prog[i].cls.UsesFpFu() {
        ClearRef(reservFp, i);
        ClearRef(fuFp, i);
      }
      ghost var f := Freed(prog, s, {i});
      ghost var t := Abs();
      assert t.intBank.rs == f.intBank.rs && t.intBank.fu == f.intBank.fu;
      assert t.fpBank.rs == f.fpBank.rs && t.fpBank.fu == f.fpBank.fu;
    }

    method ClearMapTableEntry(i: nat)
      requires Valid() && i < |prog| && |prog[i].rOut| == 2 && mapTable.Length == TOTAL_REGS
      requires forall k | 0 <= k < 2 :: prog[i].rOut[k] >= DNA
      modifies mapTable
      ensures mapTable[..] == Cleared(old(mapTable[..]), prog[i], i)
    {
      for k := 0 to 2
        invariant forall r | 0 <= r < TOTAL_REGS ::
                    mapTable[r] == if r in prog[i].rOut[..k] && old(mapTable[r]) == Some(i) then None
                        else old(mapTable[r])
      {
        var reg := prog[i].rOut[k];
        assert prog[i].rOut[..k + 1] == prog[i].rOut[..k] + [reg];
        if reg != DNA && reg < TOTAL_REGS && mapTable[reg] == Some(i) { mapTable[reg] := None; }
      }
      assert prog[i].rOut[..2] == prog[i].rOut;
      assert mapTable[..] == Cleared(old(mapTable[..]), prog[i], i);
    }

    method UpdateQFromMapTable(i: nat)
      requires Valid() && i < |prog| && |prog[i].rIn| == 3 && mapTable.Length == TOTAL_REGS
      requires forall k | 0 <= k < 3 :: prog[i].rIn[k] >= DNA
      modifies stamps
      ensures |stamps[i].q| == 3
      ensures stamps[..] == old(stamps[..])[i := old(stamps[i]).(q := Tags(mapTable[..], prog[i]))]
    {
      var q: seq<Ref> := [];
      for k := 0 to 3
        invariant |q| == k
        invariant forall j | 0 <= j < k :: q[j] == Tags(mapTable[..], prog[i])[j]
      {
        var reg := prog[i].rIn[k];
        if reg != DNA && reg < TOTAL_REGS && mapTable[reg] != None {
          q := q + [mapTable[reg]];
        } else {
          q := q + [None];
        }
      }
      assert q == Tags(mapTable[..], prog[i]);
      stamps[i] := stamps[i].(q := q);
    }

    method UpdateMapTable(i: nat)
      requires Valid() && i < |prog| && |prog[i].rOut| == 2 && mapTable.Length == TOTAL_REGS
      requires forall k | 0 <= k < 2 :: prog[i].rOut[k] >= DNA
      modifies mapTable
      ensures mapTable[..] == Renamed(old(mapTable[..]), prog[i], i)
    {
      for k := 0 to 2
        invariant forall r | 0 <= r < TOTAL_REGS ::
                    mapTable[r] == if r in prog[i].rOut[..k] then Some(i) else old(mapTable[r])
      {
        var reg := prog[i].rOut[k];
        assert prog[i].rOut[..k + 1] == prog[i].rOut[..k] + [reg];
        if reg != DNA && reg < TOTAL_REGS { mapTable[reg] := Some(i); }
      }
      assert prog[i].rOut[..2] == prog[i].rOut;
      assert mapTable[..] == Renamed(old(mapTable[..]), prog[i], i);
    }

    // -------------------------------------------------------------- stages

    method CdbToRetire()
      requires Valid() && ValidProgram(prog) && Shape(prog, Abs())
      modifies `commonDataBus, mapTable
      ensures Valid() && Abs() == Retire(prog, old(Abs()))
    {
      if commonDataBus.Some? {
        assert [Abs().bus][0] == commonDataBus;
        ClearMapTableEntry(commonDataBus.value);
        commonDataBus := None;
      }
    }

    /** One unit of the scan: what finished without a result is freed, a writer competes for the bus. */
    method ScanUnit(instr: Ref, c: int, best: Ref, ghost s: State, ghost seen: set<nat>, ghost before: set<nat>)
      returns (oldest: Ref)
      requires Valid() && (instr.Some? ==> instr.value < |prog|)
      requires (forall i <- seen :: i < |prog|) && (forall i <- before :: i < |prog|)
      requires Abs() == Freed(prog, s, Silent(prog, before)) && (forall i <- seen + before :: i < |prog|)
      requires IsOldest(best, Writers(prog, seen + before))
      modifies reservInt, reservFp, fuInt, fuFp
      ensures Valid() && stamps[..] == old(stamps[..])
      ensures var after := before +
          (if instr.Some? && Complete(prog, stamps[..], c, instr.value) then {instr.value} else {});
        && (forall i <- after :: i < |prog|) && (forall i <- seen + after :: i < |prog|)
        && Abs() == Freed(prog, s, Silent(prog, after))
        && IsOldest(oldest, Writers(prog, seen + after))
    {
      oldest := best;
      ghost var after := before +
          (if instr.Some? && Complete(prog, stamps[..], c, instr.value) then {instr.value} else {});
      ScanStep(prog, stamps[..], c, seen, before, after, instr);
      if instr.Some? && IsExecuteComplete(instr.value, c) {
        if prog[instr.value].cls.WritesCdb() {
          if oldest == None || oldest.value > instr.value { oldest := instr; }
        } else {
          FreedTwice(prog, s, Silent(prog, before), {instr.value});
          FreeRsAndFu(instr.value);
        }
      }
    }

    /** One pass over the units of a bank: frees what finished without a result and keeps the oldest
        finished writer seen so far. */
    method ScanUnits(fu: array<Ref>, c: int, best: Ref, ghost seen: set<nat>) returns (oldest: Ref)
      requires Valid() && InRange(fu[..], |prog|) && (fu == fuInt || fu == fuFp)
      requires (forall i <- seen :: i < |prog|) && IsOldest(best, Writers(prog, seen))
      modifies reservInt, reservFp, fuInt, fuFp
      ensures Valid()
      ensures var done := FinishedIn(prog, old(stamps[..]), old(fu[..]), c);
        && Abs() == Freed(prog, old(Abs()), Silent(prog, done))
        && (forall i <- seen + done :: i < |prog|)
        && IsOldest(oldest, Writers(prog, seen + done))
    {
      hide Freed, IsOldest;
      ghost var s := Abs();
      ghost var was := fu[..];
      oldest := best;
      ghost var before: set<nat> := {};
      FreedNothing(prog, s);
      assert Silent(prog, before) == {} && seen + before == seen;
      assert before == FinishedIn(prog, s.stamp, was[..0], c);
      var k := 0;
      while k < fu.Length
        invariant 0 <= k <= fu.Length && Valid() && stamps[..] == s.stamp
        invariant before == FinishedIn(prog, s.stamp, was[..k], c)
        invariant (forall i <- before :: i < |prog|) && (forall i <- seen + before :: i < |prog|)
        invariant Abs() == Freed(prog, s, Silent(prog, before))
        invariant IsOldest(oldest, Writers(prog, seen + before))
      {
        var instr := fu[k];
        ghost var after := ScanNext(prog, s, was, c, k, before, fu == fuInt, instr);
        oldest := ScanUnit(instr, c, oldest, s, seen, before);
        before := after;
        k := k + 1;
      }
      assert was[..fu.Length] == was;
    }

    predicate IsExecuteComplete(i: nat, c: int)
      requires i < |prog| && stamps.Length == |prog|
      reads stamps
    {
      if prog[i].cls.UsesIntFu() then c - stamps[i].execute >= FU_INT_LATENCY
      else if prog[i].cls.UsesFpFu() then c - stamps[i].execute >= FU_FP_LATENCY
      else false
    }

    method ExecuteToCdb(c: int)
      requires Valid() && ValidProgram(prog) && Shape(prog, Abs())
      modifies this`commonDataBus, stamps, reservInt, reservFp, fuInt, fuFp
      ensures Valid() && Abs() == Broadcast(prog, old(Abs()), c)
    {
      ghost var s := Abs();
      ghost var ints := FinishedIn(prog, s.stamp, s.intBank.fu, c);
      ghost var fps := FinishedIn(prog, s.stamp, s.fpBank.fu, c);
      ghost var done := Finished(prog, s, c);
      assert done == ints + fps;
      var oldest := ScanUnits(fuInt, c, None, {});
      assert {} + ints == ints;
      ghost var u := Abs();
      FpBankKept(prog, s, c);
      oldest := ScanUnits(fuFp, c, oldest, ints);
      FreedTwice(prog, s, Silent(prog, ints), Silent(prog, fps));
      assert Silent(prog, done) == Silent(prog, ints) + Silent(prog, fps);
      OldestIs(Writers(prog, done), oldest);
      if commonDataBus == None && oldest != None {
        assert oldest.value in Writers(prog, done);
        stamps[oldest.value] := stamps[oldest.value].(cdb := c);
        commonDataBus := oldest;
          assert Abs() == Freed(prog, s, Silent(prog, done)).(
            stamp := s.stamp[oldest.value := s.stamp[oldest.value].(cdb := c)], bus := oldest);
        FreeRsAndFu(oldest.value);
      }
    }

    /** The oldest ready instruction among the stations of a bank. */
    method OldestReady(rs: array<Ref>, c: int) returns (oldest: Ref)
      requires InRange(rs[..], stamps.Length)
      ensures oldest == Oldest(ReadySet(rs[..], stamps[..], c))
    {
      oldest := None;
      assert ReadySet(rs[..][..0], stamps[..], c) == {};
      for j := 0 to rs.Length
        invariant IsOldest(oldest, ReadySet(rs[..][..j], stamps[..], c))
      {
        ReadyStep(rs[..], stamps[..], c, j);
        var instr := rs[j];
        if instr == None || stamps[instr.value].issue == 0 || stamps[instr.value].execute != 0 { continue; }
        if stamps[instr.value].issue == c { continue; }
        var hazard := HasRawHazard(instr.value, c);
        if !hazard && (oldest == None || oldest.value > instr.value) { oldest := instr; }
      }
      assert rs[..][..rs.Length] == rs[..];
      OldestIs(ReadySet(rs[..], stamps[..], c), oldest);
    }

    method HasRawHazard(i: nat, c: int) returns (hazard: bool)
      requires i < stamps.Length
      ensures hazard == !(forall k | 0 <= k < |stamps[i].q| :: Resolved(stamps[..], stamps[i].q[k], c))
    {
      hazard := false;
      var q := stamps[i].q;
      for k := 0 to |q|
        invariant hazard == !(forall j | 0 <= j < k :: Resolved(stamps[..], q[j], c))
      {
        if q[k].Some? {
          if q[k].value >= stamps.Length || stamps[q[k].value].cdb == 0 || stamps[q[k].value].cdb >= c {
            assert !Resolved(stamps[..], q[k], c);
            hazard := true;
          }
        }
      }
    }

    /** The loop over the units of one bank. */
    method StartBank(rs: array<Ref>, fu: array<Ref>, c: int)
      requires Valid() && InRange(rs[..], stamps.Length) && rs != fu
      modifies stamps, fu
      ensures rs[..] == old(rs[..])
      ensures (Bank(rs[..], fu[..]), stamps[..])
              == StartUpTo(Bank(old(rs[..]), old(fu[..])), old(stamps[..]), c, fu.Length)
    {
      ghost var b := Bank(rs[..], fu[..]);
      ghost var was := stamps[..];
      assert StartUpTo(b, was, c, 0) == (b, was);
      for i := 0 to fu.Length
        invariant rs[..] == b.rs
        invariant (Bank(rs[..], fu[..]), stamps[..]) == StartUpTo(b, was, c, i)
      {
        if fu[i] != None { continue; }
        var oldest := OldestReady(rs, c);
        if oldest != None {
          assert oldest.value in ReadySet(rs[..], stamps[..], c);
          stamps[oldest.value] := stamps[oldest.value].(execute := c);
          fu[i] := oldest;
        }
      }
    }

    method IssueToExecute(c: int)
      requires Valid() && Shape(prog, Abs())
      modifies stamps, fuInt, fuFp
      ensures Valid() && Abs() == Start(old(Abs()), c)
    {
      StartBank(reservInt, fuInt, c);
      StartBank(reservFp, fuFp, c);
    }

    /** reservINT_insert and reservFP_insert: the first empty station, if there is one. */
    method ReservInsert(rs: array<Ref>, i: nat) returns (ok: bool)
      requires Valid() && ValidProgram(prog) && i < |prog| && mapTable.Length == TOTAL_REGS
      requires rs != mapTable && ifq.buffer != rs
      modifies rs, stamps, mapTable
      ensures Valid() && ok == (FirstFree(old(rs[..])) < rs.Length)
      ensures ok ==>
        && rs[..] == old(rs[..])[FirstFree(old(rs[..])) := Some(i)]
        && stamps[..] == old(stamps[..])[i := old(stamps[i]).(q := Tags(old(mapTable[..]), prog[i]))]
        && mapTable[..] == Renamed(old(mapTable[..]), prog[i], i)
      ensures !ok ==> rs[..] == old(rs[..]) && stamps[..] == old(stamps[..]) && mapTable[..] == old(mapTable[..])
    {
      for k := 0 to rs.Length
        invariant forall j | 0 <= j < k :: rs[j] != None
        invariant rs[..] == old(rs[..]) && stamps[..] == old(stamps[..]) && mapTable[..] == old(mapTable[..])
      {
        if rs[k] == None {
          assert FirstFree(rs[..]) == k;
          UpdateQFromMapTable(i);
          UpdateMapTable(i);
          rs[k] := Some(i);
          return true;
        }
      }
      return false;
    }

    /** An instruction that gets a station is stamped and leaves the queue. */
    method InsertAndPop(rs: array<Ref>, i: nat, c: int)
      requires Valid() && ValidProgram(prog) && i < |prog| && mapTable.Length == TOTAL_REGS
      requires rs in {reservInt, reservFp} && ifq.Contents() != []
      modifies rs, stamps, mapTable, ifq, ifq.buffer
      ensures Valid()
      ensures var k := FirstFree(old(rs[..]));
        if k == rs.Length
        then rs[..] == old(rs[..]) && stamps[..] == old(stamps[..]) && mapTable[..] == old(mapTable[..])
            && ifq.Contents() == old(ifq.Contents())
        else && rs[..] == old(rs[..])[k := Some(i)] && mapTable[..] == Renamed(old(mapTable[..]), prog[i], i)
             && stamps[..] == old(stamps[..])[i := old(stamps[i]).(q := Tags(old(mapTable[..]), prog[i]), issue := c)]
             && ifq.Contents() == old(ifq.Contents())[1..]
    {
      hide Tags, Renamed;
      var ok := ReservInsert(rs, i);
      if ok {
        stamps[i] := stamps[i].(issue := c);
        ifq.Pop();
      }
    }

    method DispatchToIssue(c: int)
      requires Valid() && ValidProgram(prog) && Shape(prog, Abs())
      modifies stamps, ifq, ifq.buffer, reservInt, reservFp, mapTable
      ensures Valid() && Abs() == Issue(prog, old(Abs()), c)
    {
      hide Tags, Renamed, InRange;
      ghost var s := Abs();
      var head := ifq.Head();
      if head == None { return; }
      var i := head.value;
      assert i == s.queue[0];
      if prog[i].cls.Ctrl? {
        ifq.Pop();
      } else if prog[i].cls.UsesIntFu() {
        InsertAndPop(reservInt, i, c);
      } else if prog[i].cls.UsesFpFu() {
        InsertAndPop(reservFp, i, c);
      } else {
        ifq.Pop();
      }
    }

    /** The chunked trace holds the program; and it shares nothing with the machine. */
    ghost predicate Holds(trace: Trace<Op>)
      reads trace, trace.repr
    {
      && trace.Valid() && trace.Length() == |prog|
      && forall k: nat {:trigger trace.Item(k)} | k < |prog| :: trace.Item(k) == prog[k]
    }

    ghost predicate Apart(trace: Trace<Op>)
      reads trace
    {
      && this !in trace.repr && stamps !in trace.repr && ifq !in trace.repr && ifq.buffer !in trace.repr
      && reservInt !in trace.repr && reservFp !in trace.repr && fuInt !in trace.repr && fuFp !in trace.repr
      && mapTable !in trace.repr
    }

    lemma {:induction false} HoldsAt(trace: Trace<Op>, k: nat)
      requires Holds(trace) && k < |prog|
      ensures trace.Valid() && k < trace.Length() && trace.Item(k) == prog[k]
    {
    }

    /** Takes the next instruction that is not skipped, if the queue has room. */
    method FetchNext(trace: Trace<Op>)
      requires Valid() && ValidProgram(prog) && Shape(prog, Abs()) && Holds(trace) && Apart(trace)
      modifies `fetchIndex, stamps, ifq, ifq.buffer
      ensures Valid() && Abs() == Fetch(prog, old(Abs())) && Holds(trace) && Apart(trace)
    {
      hide Holds, Trace.Valid, Trace.Item, Trace.Length;
      if ifq.size < IFQ_SIZE {
        while fetchIndex < |prog|
          invariant old(fetchIndex) <= fetchIndex <= |prog| && Valid() && Holds(trace) && Apart(trace)
          invariant NextSlot(prog, fetchIndex) == NextSlot(prog, old(fetchIndex))
          invariant Abs() == old(Abs()).(fetched := fetchIndex)
          decreases |prog| - fetchIndex
        {
          var i := fetchIndex;
          HoldsAt(trace, i);
          var instr := trace.GetInstr(i);
          fetchIndex := fetchIndex + 1;
          if !instr.cls.Trap? && i > 0 {
            stamps[i] := stamps[i].(dispatch := 0, issue := 0, execute := 0, cdb := 0);
            ifq.Push(i);
            return;
          }
        }
      }
    }

    method FetchToDispatch(trace: Trace<Op>, c: int)
      requires Valid() && ValidProgram(prog) && Shape(prog, Abs()) && Holds(trace) && Apart(trace)
      modifies `fetchIndex, stamps, ifq, ifq.buffer
      ensures Valid() && Abs() == PipelineFetch.FetchAndDispatch(prog, old(Abs()), c) && Holds(trace) && Apart(trace)
    {
      hide Holds, Trace.Valid, Trace.Item, Trace.Length;
      FetchNext(trace);
      var tail := ifq.Tail();
      if tail == None { return; }
      assert tail.value in ifq.Contents();
      if stamps[tail.value].dispatch == 0 {
        stamps[tail.value] := stamps[tail.value].(dispatch := c);
      }
    }

    // -------------------------------------------------------------- the run

    method IsAllNone(a: array<Ref>) returns (b: bool)
      ensures b == AllNone(a[..])
    {
      for k := 0 to a.Length
        invariant forall j | 0 <= j < k :: a[j] == None
      {
        if a[k] != None {
          assert a[..][k] != None;
          return false;
        }
      }
      return true;
    }

    method IsSimulationDone(n: nat) returns (done: bool)
      requires Valid()
      ensures done <==> Done(Abs(), n)
    {
      if fetchIndex < n { return false; }
      if ifq.size != 0 { return false; }
      done := IsAllNone(reservInt);
      if !done { return; }
      done := IsAllNone(reservFp);
      if !done { return; }
      done := IsAllNone(fuInt);
      if !done { return; }
      done := IsAllNone(fuFp);
      if !done { return; }
      if commonDataBus != None { return false; }
      done := IsAllNone(mapTable);
    }

    /** The stages before fetch. */
    method BackStages(c: nat)
      requires Valid() && c > 0 && Inv(prog, Abs(), Through(c - 1))
      modifies this`commonDataBus, stamps, ifq, ifq.buffer, reservInt, reservFp, fuInt, fuFp, mapTable
      ensures Valid() && Abs() == Stages(prog, old(Abs()), c).issued
    {
      ghost var s := Abs();
      ghost var x := Stages(prog, s, c);
      StagesInv(prog, s, c);
      CdbToRetire();
      ExecuteToCdb(c);
      IssueToExecute(c);
      DispatchToIssue(c);
    }

    /** The body of the main loop. */
    method RunCycle(trace: Trace<Op>, c: nat)
      requires Valid() && Holds(trace) && Apart(trace) && c > 0 && Inv(prog, Abs(), Through(c - 1))
      modifies this, stamps, ifq, ifq.buffer, reservInt, reservFp, fuInt, fuFp, mapTable
      ensures Valid() && Holds(trace) && Apart(trace) && Inv(prog, Abs(), Through(c))
      ensures Abs() == Stages(prog, old(Abs()), c).fetched
    {
      hide Holds, Trace.Valid, Trace.Item, Trace.Length, PipelineInvariant.Inv, Shape, ValidProgram;
      ghost var s := Abs();
      CycleFacts(prog, s, c);
      BackStages(c);
      FetchToDispatch(trace, c);
    }

    /** One iteration of the main loop with its end test. */
    method Iterate(trace: Trace<Op>, c: nat, ghost s: State) returns (done: bool)
      requires Valid() && Holds(trace) && Apart(trace) && c > 0 && s == Abs() && Inv(prog, s, Through(c - 1))
      modifies this, stamps, ifq, ifq.buffer, reservInt, reservFp, fuInt, fuFp, mapTable
      ensures Valid() && Holds(trace) && Apart(trace) && Abs() == Stages(prog, s, c).fetched
      ensures done == Done(Stages(prog, s, c).fetched, |prog| - 1)
    {
      hide PipelineInvariant.Inv;
      hide Holds, Trace.Valid, Trace.Item, Trace.Length;
      RunCycle(trace, c);
      done := IsSimulationDone(|prog| - 1);
    }

    /** One iteration, placed in the run. */
    method Turn(trace: Trace<Op>, c: nat, ghost k: nat, ghost s: State) returns (done: bool, ghost s': State)
      requires ValidProgram(prog) && Valid() && Holds(trace) && Apart(trace) && c == k + 1 && s == Abs()
      requires s == After(prog, k) && Going(prog, k, false)
      modifies this, stamps, ifq, ifq.buffer, reservInt, reservFp, fuInt, fuFp, mapTable
      ensures Valid() && Holds(trace) && Apart(trace) && s' == Abs() && s' == After(prog, k + 1)
              && Going(prog, k + 1, done)
    {
      hide PipelineInvariant.Inv;
      hide Holds, Trace.Valid, Trace.Item, Trace.Length;
      hide PipelineRun.After;
      s' := NextState(prog, k, s);
      done := Iterate(trace, c, s);
    }

    /** runTomasulo after its initialisation: ends for every program, within the cycle bound, in the
        first state of the run that passes the end test.  Everything proved about the states
        `After(prog, k)` holds of the result. */
    method Run(trace: Trace<Op>) returns (cycles: nat, ghost k: nat)
      requires ValidProgram(prog) && Valid() && Holds(trace) && Apart(trace) && Abs() == Init(prog)
      modifies this, stamps, ifq, ifq.buffer, reservInt, reservFp, fuInt, fuFp, mapTable
      ensures Valid() && cycles == k + 1 && k <= 11 * |prog| && Ended(prog, Abs(), k)
    {
      hide PipelineInvariant.Inv;
      hide Holds, Trace.Valid, Trace.Item, Trace.Length;
      hide PipelineRun.After;
      ghost var last := PipelineTheorems.Terminates(prog);
      ghost var s := Abs();
      k := 0;
      AfterZero(prog);
      cycles := 1;
      var done := false;
      while !done
        invariant Valid() && Holds(trace) && Apart(trace) && cycles == k + 1 && k <= last && Abs() == s
        invariant s == After(prog, k) && Going(prog, k, done)
        invariant !done ==> k < last
        decreases last - k, !done
      {
        done, s := Turn(trace, cycles, k, s);
        k, cycles := k + 1, cycles + 1;
      }
    }
  }
}
