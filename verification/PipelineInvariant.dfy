/** What every stage of the scheduler keeps. */
module PipelineInvariant {
  import opened Wrappers
  import opened Pipeline

  // ---------------------------------------------------------------- program order

  ghost predicate WritesReg(prog: seq<Op>, j: nat, reg: int)
    requires j < |prog|
  {
    Fetchable(prog, j) && prog[j].cls.WritesCdb() && reg in prog[j].rOut
  }

  /** The program-order latest writer of `reg` before slot `i`: the true producer of that operand. */
  ghost function LastWriter(prog: seq<Op>, reg: int, i: nat): (w: Ref)
    requires i <= |prog|
    ensures w.Some? ==> w.value < i && WritesReg(prog, w.value, reg)
    ensures forall j: nat | (if w.Some? then w.value + 1 else 0) <= j < i :: !WritesReg(prog, j, reg)
  {
    if i == 0 then None
    else if WritesReg(prog, i - 1, reg) then Some(i - 1)
    else LastWriter(prog, reg, i - 1)
  }

  lemma {:induction false} LastWriterSkips(prog: seq<Op>, reg: int, a: nat, b: nat)
    requires a <= b <= |prog|
    requires forall j: nat | a <= j < b :: !WritesReg(prog, j, reg)
    ensures LastWriter(prog, reg, b) == LastWriter(prog, reg, a)
  {
    if a < b {
      LastWriterSkips(prog, reg, a, b - 1);
    }
  }

  // ---------------------------------------------------------------- the invariant

  /** First slot, in program order, that issue has not yet taken. */
  ghost function Frontier(s: State): nat {
    if s.queue == [] then s.fetched else s.queue[0]
  }

  /** Fetched and not skipped. */
  ghost predicate Seen(prog: seq<Op>, s: State, j: nat) {
    j < |prog| && j < s.fetched && Fetchable(prog, j)
  }

  /** Has been given a reservation station at some point. */
  ghost predicate Issued(prog: seq<Op>, s: State, j: nat) {
    Seen(prog, s, j) && j < Frontier(s) && prog[j].cls.UsesFu()
  }

  ghost predicate Resident(s: State, j: nat) {
    Some(j) in s.intBank.rs || Some(j) in s.fpBank.rs
  }

  /** The queue holds exactly the seen slots from the frontier on, in program order. */
  ghost predicate QueueOk(prog: seq<Op>, s: State)
    requires Shape(prog, s)
  {
    && |s.queue| <= IFQ_SIZE
    && (forall a, b | 0 <= a < b < |s.queue| :: s.queue[a] < s.queue[b])
    && (forall a {:trigger s.queue[a]} | 0 <= a < |s.queue| :: Seen(prog, s, s.queue[a]))
    && (forall j: nat | Seen(prog, s, j) && j >= Frontier(s) :: j in s.queue)
  }

  /** Stations hold issued, not yet broadcast instructions of their class; a unit holds a distinct
      resident of its bank, and every resident that has started is in a unit. */
  ghost predicate BankOk(prog: seq<Op>, s: State, b: Bank, ints: bool)
    requires Shape(prog, s)
  {
    && (forall v: nat | Some(v) in b.rs ::
          Issued(prog, s, v) && prog[v].cls.UsesIntFu() == ints && s.stamp[v].cdb == 0)
    && (forall v: nat | v < |prog| && Some(v) in b.rs :: s.stamp[v].execute > 0 <==> Some(v) in b.fu)
    && (forall v: nat | Some(v) in b.fu :: Some(v) in b.rs)
    && Distinct(b.rs) && Distinct(b.fu)
  }

  ghost predicate Distinct(xs: seq<Ref>) {
    forall a, b | 0 <= a < b < |xs| && xs[a].Some? :: xs[a] != xs[b]
  }

  /** Upper bounds on the cycle numbers recorded so far, stage by stage. */
  datatype Clock = Clock(dispatch: int, issue: int, execute: int, cdb: int)

  ghost predicate TimesOk(prog: seq<Op>, s: State, t: Clock, j: nat)
    requires Shape(prog, s) && j < |prog|
  {
    var x := s.stamp[j];
    && 0 < x.dispatch <= t.dispatch
    && (!Issued(prog, s, j) ==> x.issue == 0 && x.execute == 0 && x.cdb == 0)
    && (Issued(prog, s, j) ==>
          && x.dispatch < x.issue <= t.issue
          && (x.execute == 0 ==> Resident(s, j) && x.cdb == 0)
          && (x.execute != 0 ==> x.issue < x.execute <= t.execute)
          && (x.cdb == 0 ==> Resident(s, j) || !prog[j].cls.WritesCdb())
          && (x.cdb != 0 ==>
                && prog[j].cls.WritesCdb() && !Resident(s, j)
                && x.execute + prog[j].cls.Latency() <= x.cdb <= t.cdb
                && (x.cdb == t.cdb ==> s.bus == Some(j))))
  }

  ghost predicate BusOk(prog: seq<Op>, s: State, t: Clock)
    requires Shape(prog, s)
  {
    s.bus.Some? ==>
      Issued(prog, s, s.bus.value) && s.stamp[s.bus.value].cdb == t.cdb > 0
  }

  /** Dispatch and issue happen in program order, one a cycle; so do broadcasts, in any order. */
  ghost predicate OrderOk(prog: seq<Op>, s: State, i: nat, j: nat)
    requires Shape(prog, s) && i < |prog| && j < |prog|
  {
    && (i < j && Seen(prog, s, i) && Seen(prog, s, j) ==> s.stamp[i].dispatch < s.stamp[j].dispatch)
    && (i < j && Issued(prog, s, i) && Issued(prog, s, j) ==>
          && s.stamp[i].issue < s.stamp[j].issue
          && (s.stamp[i].cdb != 0 ==> s.stamp[i].cdb != s.stamp[j].cdb))
  }

  /** The map table names the youngest issued writer of each register until its result is retired. */
  ghost function ExpectedMap(prog: seq<Op>, s: State, reg: nat): Ref
    requires Shape(prog, s) && Frontier(s) <= |prog|
  {
    var w := LastWriter(prog, reg, Frontier(s));
    if w.Some? && (s.stamp[w.value].cdb == 0 || s.bus == w) then w else None
  }

  ghost predicate MapOk(prog: seq<Op>, s: State)
    requires Shape(prog, s)
  {
    && Frontier(s) <= |prog|
    && forall r: nat {:trigger s.mapTable[r]} | r < TOTAL_REGS :: s.mapTable[r] == ExpectedMap(prog, s, r)
  }

  /** Operand `k` of `j` waits for its true producer, or that producer had broadcast before issue. */
  ghost predicate TagOk(prog: seq<Op>, stamp: seq<Stamp>, j: nat, k: nat)
    requires j < |prog| == |stamp|
  {
    && |stamp[j].q| == 3 == |prog[j].rIn|
    && (k < 3 ==>
          var reg := prog[j].rIn[k];
          var w := if Real(reg) then LastWriter(prog, reg, j) else None;
          if w.None? then stamp[j].q[k] == None
          else stamp[j].q[k] == w || (stamp[j].q[k] == None && 0 < stamp[w.value].cdb < stamp[j].issue))
  }

  /** Every true producer of `j`'s operands broadcast strictly before `j` began to execute. */
  ghost predicate Safe(prog: seq<Op>, stamp: seq<Stamp>, j: nat, k: nat)
    requires j < |prog| == |stamp|
  {
    k < 3 == |prog[j].rIn| && Real(prog[j].rIn[k]) && stamp[j].execute > 0 ==>
      var w := LastWriter(prog, prog[j].rIn[k], j);
      w.Some? ==> 0 < stamp[w.value].cdb < stamp[j].execute
  }

  ghost predicate TimesAll(prog: seq<Op>, s: State, t: Clock)
    requires Shape(prog, s)
  {
    forall j: nat | Seen(prog, s, j) :: TimesOk(prog, s, t, j)
  }

  ghost predicate OrderAll(prog: seq<Op>, s: State)
    requires Shape(prog, s)
  {
    forall i: nat, j: nat | i < j < |prog| :: OrderOk(prog, s, i, j)
  }

  ghost predicate OperandsAll(prog: seq<Op>, s: State)
    requires Shape(prog, s)
  {
    forall j: nat, k: nat | Issued(prog, s, j) && k < 3 :: TagOk(prog, s.stamp, j, k) && Safe(prog, s.stamp, j, k)
  }

  ghost predicate Inv(prog: seq<Op>, s: State, t: Clock) {
    && ValidProgram(prog) && Shape(prog, s)
    && QueueOk(prog, s)
    && BankOk(prog, s, s.intBank, true) && BankOk(prog, s, s.fpBank, false)
    && TimesAll(prog, s, t)
    && BusOk(prog, s, t)
    && OrderAll(prog, s)
    && MapOk(prog, s)
    && OperandsAll(prog, s)
  }

  // ---------------------------------------------------------------- retire

  lemma {:induction false} RetireShape(prog: seq<Op>, s: State)
    requires Shape(prog, s)
    ensures Shape(prog, Retire(prog, s))
  {
    var s' := Retire(prog, s);
    assert [s'.bus][0] == s'.bus;
    if s.bus.Some? {
      assert [s.bus][0] == s.bus;
      forall r | 0 <= r < TOTAL_REGS && s'.mapTable[r].Some? ensures s'.mapTable[r].value < |prog| {
        assert s'.mapTable[r] == s.mapTable[r];
      }
    }
  }

  lemma {:induction false} RetireMap(prog: seq<Op>, s: State, t: Clock)
    requires ValidProgram(prog) && Shape(prog, s) && Shape(prog, Retire(prog, s))
    requires BusOk(prog, s, t) && MapOk(prog, s)
    ensures MapOk(prog, Retire(prog, s))
  {
    var s' := Retire(prog, s);
    assert Frontier(s') == Frontier(s);
    forall r: nat | r < TOTAL_REGS
      ensures s'.mapTable[r] == ExpectedMap(prog, s', r)
    {
      assert s.mapTable[r] == ExpectedMap(prog, s, r);
    }
  }

  lemma {:induction false} RetireTimes(prog: seq<Op>, s: State, t: Clock, c: int)
    requires Shape(prog, s) && Shape(prog, Retire(prog, s)) && TimesAll(prog, s, t) && OrderAll(prog, s) && t.cdb < c
    ensures TimesAll(prog, Retire(prog, s), t.(cdb := c)) && OrderAll(prog, Retire(prog, s))
  {
    var s' := Retire(prog, s);
    assert Frontier(s') == Frontier(s);
    forall j: nat | Seen(prog, s', j) ensures TimesOk(prog, s', t.(cdb := c), j) {
      assert Seen(prog, s, j) && TimesOk(prog, s, t, j);
    }
    forall i: nat, j: nat | i < j < |prog| ensures OrderOk(prog, s', i, j) {
      assert OrderOk(prog, s, i, j);
    }
  }

  /** Queue, banks and operands see nothing of a retirement. */
  lemma {:induction false} RetireRest(prog: seq<Op>, s: State)
    requires Shape(prog, s) && Shape(prog, Retire(prog, s)) && QueueOk(prog, s) && OperandsAll(prog, s)
    requires BankOk(prog, s, s.intBank, true) && BankOk(prog, s, s.fpBank, false)
    ensures var s' := Retire(prog, s);
      && QueueOk(prog, s') && OperandsAll(prog, s')
      && BankOk(prog, s', s'.intBank, true) && BankOk(prog, s', s'.fpBank, false)
  {
    hide TagOk, Safe, Cleared;
    var s' := Retire(prog, s);
    assert Frontier(s') == Frontier(s) && s'.stamp == s.stamp;
    assert forall j: nat :: Issued(prog, s', j) <==> Issued(prog, s, j);
    assert forall j: nat :: Seen(prog, s', j) <==> Seen(prog, s, j);
  }

  lemma {:induction false} RetireKeeps(prog: seq<Op>, s: State, t: Clock, c: int)
    requires Inv(prog, s, t) && t.cdb < c
    ensures Inv(prog, Retire(prog, s), t.(cdb := c))
  {
    hide BankOk, OrderAll, OperandsAll, TimesAll, QueueOk, MapOk;
    RetireShape(prog, s);
    RetireMap(prog, s, t);
    RetireTimes(prog, s, t, c);
    RetireRest(prog, s);
    assert Retire(prog, s).bus == None;
  }
}
