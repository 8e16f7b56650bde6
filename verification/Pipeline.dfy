/** The five stages of the Tomasulo scheduler (lab3/tomasulo.c) as functions on a value state.
    A pointer to an instruction is the number of its slot in the trace, which is also its `index`
    field; `None` is the null pointer.  An instruction record is split in two: `Op` holds the fields
    that the scheduler only reads and `Stamp` the ones it writes. */
module Pipeline {
  import opened Wrappers

  const IFQ_SIZE := 16
  const RESERV_INT_SIZE := 5
  const RESERV_FP_SIZE := 3
  const FU_INT_SIZE := 3
  const FU_FP_SIZE := 1
  const FU_INT_LATENCY := 5
  const FU_FP_LATENCY := 7
  const TOTAL_REGS := 70
  const DNA := -1

  type Ref = Option<nat>

  datatype OpClass = Int | Load | Store | Fp | Ctrl | Trap | Other {
    predicate UsesIntFu() { Int? || Load? || Store? }
    predicate UsesFpFu() { Fp? }
    predicate UsesFu() { UsesIntFu() || UsesFpFu() }
    predicate WritesCdb() { Int? || Load? || Fp? }
    function Latency(): nat { if Fp? then FU_FP_LATENCY else FU_INT_LATENCY }
  }

  datatype Op = Op(cls: OpClass, rOut: seq<int>, rIn: seq<int>)

  datatype Stamp = Stamp(q: seq<Ref>, dispatch: int, issue: int, execute: int, cdb: int)

  /** Reservation stations and functional units of one kind. */
  datatype Bank = Bank(rs: seq<Ref>, fu: seq<Ref>)

  datatype State = State(
    stamp: seq<Stamp>, queue: seq<nat>, intBank: Bank, fpBank: Bank, bus: Ref, mapTable: seq<Ref>, fetched: nat)

  /** Two outputs and three inputs, `DNA` where there is none; a store has no output. */
  ghost predicate ValidOp(op: Op) {
    && |op.rOut| == 2 && op.rOut[0] >= DNA && op.rOut[1] >= DNA
    && |op.rIn| == 3 && op.rIn[0] >= DNA && op.rIn[1] >= DNA && op.rIn[2] >= DNA
    && (op.cls.Store? ==> op.rOut == [DNA, DNA])
  }

  /** Slot 0 of the trace is a placeholder; slots 1.. hold the `|prog| - 1` simulated instructions. */
  ghost predicate ValidProgram(prog: seq<Op>) {
    |prog| > 0 && forall i {:trigger prog[i]} | 0 <= i < |prog| :: ValidOp(prog[i])
  }

  /** Lengths of every table; what the array declarations of the source fix. */
  ghost predicate Shape(prog: seq<Op>, s: State) {
    && |s.stamp| == |prog|
    && s.fetched <= |prog|
    && |s.intBank.rs| == RESERV_INT_SIZE && |s.intBank.fu| == FU_INT_SIZE
    && |s.fpBank.rs| == RESERV_FP_SIZE && |s.fpBank.fu| == FU_FP_SIZE
    && |s.mapTable| == TOTAL_REGS
    && (forall i {:trigger s.queue[i]} | 0 <= i < |s.queue| :: s.queue[i] < |prog|)
    && InRange(s.intBank.rs, |prog|) && InRange(s.intBank.fu, |prog|)
    && InRange(s.fpBank.rs, |prog|) && InRange(s.fpBank.fu, |prog|)
    && InRange([s.bus], |prog|) && InRange(s.mapTable, |prog|)
    && (forall i {:trigger s.stamp[i]} | 0 <= i < |prog| :: InRange(s.stamp[i].q, |prog|))
  }

  ghost predicate InRange(xs: seq<Ref>, n: nat) {
    forall k {:trigger xs[k]} | 0 <= k < |xs| :: xs[k].Some? ==> xs[k].value < n
  }

  predicate Fetchable(prog: seq<Op>, i: nat)
    requires i < |prog|
  {
    i > 0 && !prog[i].cls.Trap?
  }

  predicate Real(reg: int) { reg != DNA && reg < TOTAL_REGS }

  // ---------------------------------------------------------------- oldest of a set

  ghost predicate IsOldest(r: Ref, c: set<nat>) {
    match r
    case None => c == {}
    case Some(m) => m in c && forall j <- c :: m <= j
  }

  lemma {:induction false} OldestExists(c: set<nat>) returns (r: Ref)
    ensures IsOldest(r, c)
  {
    if c == {} {
      r := None;
    } else {
      var x :| x in c;
      var rest := OldestExists(c - {x});
      assert c == (c - {x}) + {x};
      r := if rest.None? || x < rest.value then Some(x) else rest;
    }
  }

  /** The instruction with the smallest index among `c`. */
  ghost function Oldest(c: set<nat>): (r: Ref)
    ensures IsOldest(r, c)
  {
    assert exists r :: IsOldest(r, c) by { var r := OldestExists(c); }
    var r :| IsOldest(r, c);
    r
  }

  // ---------------------------------------------------------------- CDB_To_retire

  /** Map table with the entries of `op`'s outputs that still name `w` cleared. */
  ghost function Cleared(m: seq<Ref>, op: Op, w: nat): (m': seq<Ref>) {
    seq(|m|, r requires 0 <= r < |m| => if r in op.rOut && m[r] == Some(w) then None else m[r])
  }

  ghost function Retire(prog: seq<Op>, s: State): State
    requires Shape(prog, s)
  {
    match s.bus
    case None => s
    case Some(w) =>
      assert [s.bus][0] == s.bus;
      s.(mapTable := Cleared(s.mapTable, prog[w], w), bus := None)
  }

  // ---------------------------------------------------------------- execute_To_CDB

  ghost predicate Complete(prog: seq<Op>, stamp: seq<Stamp>, c: int, i: nat)
    requires i < |prog| == |stamp|
  {
    prog[i].cls.UsesFu() && c - stamp[i].execute >= prog[i].cls.Latency()
  }

  /** Slots in a functional unit of either bank whose execution is over. */
  ghost function Finished(prog: seq<Op>, s: State, c: int): set<nat>
    requires Shape(prog, s)
  {
    set i: nat | i < |prog| && (Some(i) in s.intBank.fu || Some(i) in s.fpBank.fu) && Complete(prog, s.stamp, c, i)
  }

  ghost function Emptied(xs: seq<Ref>, gone: set<nat>): (ys: seq<Ref>)
  {
    seq(|xs|, k requires 0 <= k < |xs| => if xs[k].Some? && xs[k].value in gone then None else xs[k])
  }

  /** Frees the stations and units of the slots in `gone`, each in the bank of its class. */
  ghost function Freed(prog: seq<Op>, s: State, gone: set<nat>): State
  {
    var ints := set i <- gone | i < |prog| && prog[i].cls.UsesIntFu();
    var fps := set i <- gone | i < |prog| && prog[i].cls.UsesFpFu();
    s.(intBank := Bank(Emptied(s.intBank.rs, ints), Emptied(s.intBank.fu, ints)),
       fpBank := Bank(Emptied(s.fpBank.rs, fps), Emptied(s.fpBank.fu, fps)))
  }

  ghost function Silent(prog: seq<Op>, c: set<nat>): set<nat>
    requires forall i <- c :: i < |prog|
  {
    set i <- c | !prog[i].cls.WritesCdb()
  }

  ghost function Writers(prog: seq<Op>, c: set<nat>): set<nat>
    requires forall i <- c :: i < |prog|
  {
    set i <- c | prog[i].cls.WritesCdb()
  }

  ghost function Broadcast(prog: seq<Op>, s: State, c: int): State
    requires Shape(prog, s)
  {
    var done := Finished(prog, s, c);
    var w := Oldest(Writers(prog, done));
    var t := Freed(prog, s, Silent(prog, done));
    if s.bus == None && w.Some? then
      Freed(prog, t.(stamp := t.stamp[w.value := t.stamp[w.value].(cdb := c)], bus := w), {w.value})
    else
      t
  }

  // ---------------------------------------------------------------- issue_To_execute

  /** A source operand tag that no longer blocks execution at cycle `c`. */
  ghost predicate Resolved(stamp: seq<Stamp>, tag: Ref, c: int) {
    tag.Some? ==> tag.value < |stamp| && stamp[tag.value].cdb != 0 && stamp[tag.value].cdb < c
  }

  ghost predicate Ready(stamp: seq<Stamp>, c: int, i: nat) {
    && i < |stamp|
    && stamp[i].issue != 0 && stamp[i].execute == 0 && stamp[i].issue != c
    && forall k | 0 <= k < |stamp[i].q| :: Resolved(stamp, stamp[i].q[k], c)
  }

  ghost function ReadySet(rs: seq<Ref>, stamp: seq<Stamp>, c: int): set<nat> {
    set i: nat | i < |stamp| && Some(i) in rs && Ready(stamp, c, i)
  }

  /** What one free unit `k` does: take the oldest ready instruction of the bank, if any. */
  ghost function StartOne(b: Bank, stamp: seq<Stamp>, c: int, k: nat): (Bank, seq<Stamp>)
    requires k < |b.fu|
  {
    var w := Oldest(ReadySet(b.rs, stamp, c));
    if b.fu[k] == None && w.Some? then
      (b.(fu := b.fu[k := w]), stamp[w.value := stamp[w.value].(execute := c)])
    else
      (b, stamp)
  }

  ghost function StartUpTo(b: Bank, stamp: seq<Stamp>, c: int, k: nat): (r: (Bank, seq<Stamp>))
    requires k <= |b.fu|
    ensures |r.0.fu| == |b.fu|
  {
    if k == 0 then (b, stamp) else
    var r := StartUpTo(b, stamp, c, k - 1);
    StartOne(r.0, r.1, c, k - 1)
  }

  ghost function StartInt(s: State, c: int): State {
    var r := StartUpTo(s.intBank, s.stamp, c, |s.intBank.fu|);
    s.(intBank := r.0, stamp := r.1)
  }

  ghost function StartFp(s: State, c: int): State {
    var r := StartUpTo(s.fpBank, s.stamp, c, |s.fpBank.fu|);
    s.(fpBank := r.0, stamp := r.1)
  }

  ghost function Start(s: State, c: int): State {
    StartFp(StartInt(s, c), c)
  }

  // ---------------------------------------------------------------- dispatch_To_issue

  ghost function Tags(m: seq<Ref>, op: Op): (q: seq<Ref>)
    requires |m| == TOTAL_REGS && |op.rIn| == 3 && forall k | 0 <= k < 3 :: op.rIn[k] >= DNA
  {
    seq(3, k requires 0 <= k < 3 => if Real(op.rIn[k]) then m[op.rIn[k]] else None)
  }

  ghost function Renamed(m: seq<Ref>, op: Op, i: nat): (m': seq<Ref>) {
    seq(|m|, r requires 0 <= r < |m| => if r in op.rOut then Some(i) else m[r])
  }

  /** The first empty reservation station, in station order. */
  function FirstFree(rs: seq<Ref>): (k: nat)
    ensures k <= |rs|
    ensures k < |rs| ==> rs[k] == None
    ensures forall j | 0 <= j < k :: rs[j] != None
  {
    if rs == [] || rs[0] == None then 0 else 1 + FirstFree(rs[1..])
  }

  ghost function Issue(prog: seq<Op>, s: State, c: int): State
    requires ValidProgram(prog) && Shape(prog, s)
  {
    if s.queue == [] then s else
    var i := s.queue[0];
    var op := prog[i];
    var popped := s.(queue := s.queue[1..]);
    if op.cls.Ctrl? then popped
    else if op.cls.UsesFu() then
      var rs := if op.cls.UsesIntFu() then s.intBank.rs else s.fpBank.rs;
      var k := FirstFree(rs);
      if k == |rs| then s else
      var renamed := popped.(
        stamp := s.stamp[i := s.stamp[i].(q := Tags(s.mapTable, op), issue := c)],
        mapTable := Renamed(s.mapTable, op, i));
      if op.cls.UsesIntFu()
      then renamed.(intBank := s.intBank.(rs := rs[k := Some(i)]))
      else renamed.(fpBank := s.fpBank.(rs := rs[k := Some(i)]))
    else popped
  }

  // ---------------------------------------------------------------- fetch_To_dispatch

  /** The first slot at or after `f` that fetch does not skip; the trace length if there is none. */
  function NextSlot(prog: seq<Op>, f: nat): (i: nat)
    requires f <= |prog|
    ensures f <= i <= |prog|
    ensures i < |prog| ==> Fetchable(prog, i)
    ensures forall j: nat | f <= j < i :: !Fetchable(prog, j)
    decreases |prog| - f
  {
    if f == |prog| || Fetchable(prog, f) then f else NextSlot(prog, f + 1)
  }

  ghost function Fetch(prog: seq<Op>, s: State): State
    requires Shape(prog, s)
  {
    if |s.queue| >= IFQ_SIZE then s else
    var i := NextSlot(prog, s.fetched);
    if i == |prog| then s.(fetched := i) else
    s.(fetched := i + 1, queue := s.queue + [i],
       stamp := s.stamp[i := s.stamp[i].(dispatch := 0, issue := 0, execute := 0, cdb := 0)])
  }

  /** Stamps the youngest queued instruction with its dispatch cycle, once. */
  ghost function Dispatch(s: State, c: int): State
    requires forall i {:trigger s.queue[i]} | 0 <= i < |s.queue| :: s.queue[i] < |s.stamp|
  {
    if s.queue == [] then s else
    var i := s.queue[|s.queue| - 1];
    if s.stamp[i].dispatch == 0 then s.(stamp := s.stamp[i := s.stamp[i].(dispatch := c)]) else s
  }

  // ---------------------------------------------------------------- the end test

  predicate AllNone(xs: seq<Ref>) { forall k | 0 <= k < |xs| :: xs[k] == None }

  /** What is_simulation_done tests, with `n` the number of simulated instructions. */
  ghost predicate Done(s: State, n: nat) {
    && s.fetched >= n && s.queue == []
    && AllNone(s.intBank.rs) && AllNone(s.fpBank.rs) && AllNone(s.intBank.fu) && AllNone(s.fpBank.fu)
    && s.bus == None && AllNone(s.mapTable)
  }
}
