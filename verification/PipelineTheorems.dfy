/** What the scheduler guarantees about every run. */
module PipelineTheorems {
  import opened Wrappers
  import opened Pipeline
  import opened PipelineInvariant
  import opened PipelineRun
  import opened PipelineTermination
  import PB = PipelineBroadcast
  import PS = PipelineStart
  import PF = PipelineFetch

  /** `w` is the program-order latest earlier Int/Load/Fp writer of `reg`, seen from slot `j`. */
  ghost predicate IsProducer(prog: seq<Op>, w: nat, reg: int, j: nat) {
    && w < j < |prog|
    && WritesReg(prog, w, reg)
    && forall v: nat | w < v < j :: !WritesReg(prog, v, reg)
  }

  lemma {:induction false} SafeState(prog: seq<Op>, s: State, t: Clock, j: nat, x: nat, w: nat)
    requires Inv(prog, s, t) && j < |prog| && x < 3
    requires Seen(prog, s, j) && s.stamp[j].execute != 0
    requires Real(prog[j].rIn[x]) && IsProducer(prog, w, prog[j].rIn[x], j)
    ensures 0 < s.stamp[w].cdb < s.stamp[j].execute <= t.execute
  {
    assert TimesOk(prog, s, t, j);
    assert Issued(prog, s, j);
    assert Safe(prog, s.stamp, j, x);
    var p := LastWriter(prog, prog[j].rIn[x], j);
    assert p == Some(w) by {
      assert p.Some? ==> WritesReg(prog, p.value, prog[j].rIn[x]);
    }
  }

  /** Renaming is correct over every run: whenever an instruction has begun to execute, the true
      producer of each of its register inputs had broadcast in a strictly earlier cycle. */
  lemma {:induction false} ProducersBroadcastFirst(prog: seq<Op>, k: nat, j: nat, x: nat, w: nat)
    requires ValidProgram(prog) && j < |prog| && x < 3
    requires Seen(prog, After(prog, k), j) && After(prog, k).stamp[j].execute != 0
    requires Real(prog[j].rIn[x]) && IsProducer(prog, w, prog[j].rIn[x], j)
    ensures 0 < After(prog, k).stamp[w].cdb < After(prog, k).stamp[j].execute <= k
  {
    SafeState(prog, After(prog, k), Through(k), j, x, w);
  }

  lemma {:induction false} FetchExhausts(prog: seq<Op>, s: State, t: Clock, c: int)
    requires Inv(prog, s, t) && c > 0
    ensures var s' := PF.FetchAndDispatch(prog, s, c);
      s'.fetched < |prog| ==> s'.queue != []
  {
    PF.FetchEffect(prog, s, t, c);
  }

  /** After at least one cycle, slots that are still to be fetched keep the queue nonempty, so that
      the end test's `fetch_index < sim_insn` never ends a run with a slot left. */
  lemma {:induction false} UnfetchedKeepsQueue(prog: seq<Op>, k: nat)
    requires ValidProgram(prog) && k > 0
    ensures After(prog, k).fetched < |prog| ==> After(prog, k).queue != []
  {
    AfterStep(prog, k);
    StagesInv(prog, After(prog, k - 1), k);
    FetchExhausts(prog, Stages(prog, After(prog, k - 1), k).issued, Clock(k - 1, k, k, k), k);
  }

  lemma {:induction false} QuietTables(prog: seq<Op>, s: State, t: Clock)
    requires Inv(prog, s, t) && Quiet(prog, s)
    ensures Done(s, |prog| - 1)
  {
    forall i | 0 <= i < |s.intBank.rs| ensures s.intBank.rs[i] == None { assert s.intBank.rs[i] in s.intBank.rs; }
    forall i | 0 <= i < |s.fpBank.rs| ensures s.fpBank.rs[i] == None { assert s.fpBank.rs[i] in s.fpBank.rs; }
    forall i | 0 <= i < |s.intBank.fu| ensures s.intBank.fu[i] == None { assert s.intBank.fu[i] in s.intBank.fu; }
    forall i | 0 <= i < |s.fpBank.fu| ensures s.fpBank.fu[i] == None { assert s.fpBank.fu[i] in s.fpBank.fu; }
    forall r: nat | r < TOTAL_REGS ensures s.mapTable[r] == None {
      assert s.mapTable[r] == ExpectedMap(prog, s, r);
      var w := LastWriter(prog, r, Frontier(s));
      if w.Some? {
        assert Issued(prog, s, w.value) && TimesOk(prog, s, t, w.value);
      }
    }
  }

  lemma {:induction false} DoneTables(prog: seq<Op>, s: State)
    requires |prog| > 0 && Done(s, |prog| - 1) && s.fetched <= |prog| && (s.fetched < |prog| ==> s.queue != [])
    ensures Quiet(prog, s)
  {
  }

  /** The end test is true exactly when nothing is left anywhere. */
  lemma {:induction false} DoneIsQuiet(prog: seq<Op>, k: nat)
    requires ValidProgram(prog) && k > 0
    ensures Done(After(prog, k), |prog| - 1) <==> Quiet(prog, After(prog, k))
  {
    var s := After(prog, k);
    UnfetchedKeepsQueue(prog, k);
    if Quiet(prog, s) {
      QuietTables(prog, s, Through(k));
    } else if Done(s, |prog| - 1) {
      DoneTables(prog, s);
    }
  }

  /** runTomasulo returns, for every trace, within 11 cycles for each of its slots. */
  lemma {:induction false} Terminates(prog: seq<Op>) returns (k: nat)
    requires ValidProgram(prog)
    ensures 1 <= k <= 11 * |prog| && Done(After(prog, k), |prog| - 1)
  {
    FirstTotal(prog, After(prog, 0));
    k := GoesQuiet(prog, 0);
    DoneIsQuiet(prog, k);
  }

  lemma {:induction false} QuietStamps(prog: seq<Op>, s: State, t: Clock, j: nat)
    requires Inv(prog, s, t) && Quiet(prog, s) && j < |prog| && Fetchable(prog, j) && prog[j].cls.UsesFu()
    ensures Issued(prog, s, j)
    ensures var x := s.stamp[j];
      && 0 < x.dispatch < x.issue < x.execute <= t.execute
      && (prog[j].cls.WritesCdb() ==> x.execute + prog[j].cls.Latency() <= x.cdb <= t.cdb)
      && (!prog[j].cls.WritesCdb() ==> x.cdb == 0)
  {
    assert Seen(prog, s, j) && TimesOk(prog, s, t, j);
  }

  /** When the end test succeeds, every slot of the trace has been fetched, and every instruction that
      uses a functional unit went through dispatch, issue, execution and (if it writes) broadcast,
      in that order and with its full latency. */
  lemma {:induction false} CompleteAtEnd(prog: seq<Op>, k: nat, j: nat)
    requires ValidProgram(prog) && k > 0 && Done(After(prog, k), |prog| - 1)
    requires j < |prog| && Fetchable(prog, j) && prog[j].cls.UsesFu()
    ensures After(prog, k).fetched == |prog|
    ensures var x := After(prog, k).stamp[j];
      && 0 < x.dispatch < x.issue < x.execute <= k
      && (prog[j].cls.WritesCdb() ==> x.execute + prog[j].cls.Latency() <= x.cdb <= k)
      && (!prog[j].cls.WritesCdb() ==> x.cdb == 0)
  {
    DoneIsQuiet(prog, k);
    QuietStamps(prog, After(prog, k), Through(k), j);
  }

  lemma {:induction false} OrderedState(prog: seq<Op>, s: State, i: nat, j: nat)
    requires Shape(prog, s) && OrderAll(prog, s) && i < j < |prog| && Seen(prog, s, i) && Seen(prog, s, j)
    ensures s.stamp[i].dispatch < s.stamp[j].dispatch
    ensures Issued(prog, s, i) && Issued(prog, s, j) ==>
              && s.stamp[i].issue < s.stamp[j].issue
              && (s.stamp[i].cdb != 0 ==> s.stamp[i].cdb != s.stamp[j].cdb)
  {
    assert OrderOk(prog, s, i, j);
  }

  /** At every point of a run, dispatch and issue cycles strictly increase in program order, and no
      two results share a bus cycle. */
  lemma {:induction false} InProgramOrder(prog: seq<Op>, k: nat, i: nat, j: nat)
    requires ValidProgram(prog) && i < j < |prog|
    requires Seen(prog, After(prog, k), i) && Seen(prog, After(prog, k), j)
    ensures After(prog, k).stamp[i].dispatch < After(prog, k).stamp[j].dispatch
    ensures Issued(prog, After(prog, k), i) && Issued(prog, After(prog, k), j) ==>
              && After(prog, k).stamp[i].issue < After(prog, k).stamp[j].issue
              && (After(prog, k).stamp[i].cdb != 0 ==> After(prog, k).stamp[i].cdb != After(prog, k).stamp[j].cdb)
  {
    OrderedState(prog, After(prog, k), i, j);
  }

  lemma {:induction false} MapState(prog: seq<Op>, s: State, r: nat, w: nat)
    requires ValidProgram(prog) && Shape(prog, s) && QueueOk(prog, s) && MapOk(prog, s) && r < TOTAL_REGS && w < |prog|
    ensures s.mapTable[r] == Some(w) <==>
            && Issued(prog, s, w) && WritesReg(prog, w, r)
            && (forall v: nat | w < v < |prog| && Issued(prog, s, v) :: !WritesReg(prog, v, r))
            && (s.stamp[w].cdb == 0 || s.bus == Some(w))
  {
    assert s.mapTable[r] == ExpectedMap(prog, s, r);
    var p := LastWriter(prog, r, Frontier(s));
    assert Frontier(s) <= s.fetched by {
      assert s.queue != [] ==> Seen(prog, s, s.queue[0]);
    }
    assert p.Some? ==> Issued(prog, s, p.value);
    if Issued(prog, s, w) && WritesReg(prog, w, r) {
      assert p.Some? && p.value >= w;
    }
  }

  /** At every point of a run, the map table entry of a register names the youngest issued writer of
      that register, exactly as long as its result has not been retired. */
  lemma {:induction false} MapNamesYoungest(prog: seq<Op>, k: nat, r: nat, w: nat)
    requires ValidProgram(prog) && r < TOTAL_REGS && w < |prog|
    ensures var s := After(prog, k);
      s.mapTable[r] == Some(w) <==>
        && Issued(prog, s, w) && WritesReg(prog, w, r)
        && (forall v: nat | w < v < |prog| && Issued(prog, s, v) :: !WritesReg(prog, v, r))
        && (s.stamp[w].cdb == 0 || s.bus == Some(w))
  {
    hide BankOk, OrderAll, OperandsAll, TimesAll, BusOk;
    MapState(prog, After(prog, k), r, w);
  }

  /** An instruction occupies a unit exactly while it is in a station of the same bank and has started;
      no instruction occupies two units, or two stations, of a bank. */
  lemma {:induction false} UnitsHoldResidents(prog: seq<Op>, k: nat, v: nat, ints: bool)
    requires ValidProgram(prog) && v < |prog|
    ensures var s := After(prog, k);
      var b := if ints then s.intBank else s.fpBank;
      && (Some(v) in b.fu <==> Some(v) in b.rs && s.stamp[v].execute > 0)
      && (Some(v) in b.rs ==> prog[v].cls.UsesFu() && prog[v].cls.UsesIntFu() == ints && s.stamp[v].cdb == 0)
      && Distinct(b.rs) && Distinct(b.fu)
  {
    hide OrderAll, OperandsAll, TimesAll, BusOk, MapOk, QueueOk;
  }

  /** A stamp, once given, stays; it is given in the cycle it names. */
  ghost predicate OnceGiven(x: int, x': int, c: int) { x' == x || (x == 0 && x' == c) }

  ghost predicate OnceStamped(x: Stamp, x': Stamp, c: int) {
    && OnceGiven(x.dispatch, x'.dispatch, c) && OnceGiven(x.issue, x'.issue, c)
    && OnceGiven(x.execute, x'.execute, c) && OnceGiven(x.cdb, x'.cdb, c)
  }

  lemma {:induction false} BackStamps(prog: seq<Op>, s: State, t: Clock, c: int, j: nat)
    requires Inv(prog, s, t) && s.bus == None && c > 0 && j < |prog| && Seen(prog, s, j)
    ensures |Start(Broadcast(prog, s, c), c).stamp| == |prog|
    ensures OnceStamped(s.stamp[j], Start(Broadcast(prog, s, c), c).stamp[j], c)
  {
    hide OrderAll, OperandsAll, MapOk, QueueOk;
    PB.BroadcastEffect(prog, s, c);
    PB.GoneFinished(prog, s, c);
    PS.StartEffect(Broadcast(prog, s, c), c);
    if PB.Winner(prog, s, c) == Some(j) {
      assert Resident(s, j);
    }
  }

  lemma {:induction false} IssueStamps(prog: seq<Op>, s: State, t: Clock, c: int, j: nat)
    requires Inv(prog, s, t) && c > 0 && j < |prog| && Seen(prog, s, j)
    ensures var u := Issue(prog, s, c);
      && |u.stamp| == |prog| && u.fetched == s.fetched
      && u.stamp[j].dispatch == s.stamp[j].dispatch && OnceGiven(s.stamp[j].issue, u.stamp[j].issue, c)
      && u.stamp[j].execute == s.stamp[j].execute && u.stamp[j].cdb == s.stamp[j].cdb
  {
    hide OrderAll, OperandsAll, MapOk, BankOk, BusOk;
    if s.queue != [] && s.queue[0] == j {
      assert TimesOk(prog, s, t, j);
    }
  }

  lemma {:induction false} FrontStamps(prog: seq<Op>, s: State, t: Clock, u: State, t': Clock, c: int, j: nat)
    requires Inv(prog, s, t) && u == Issue(prog, s, c) && Inv(prog, u, t') && c > 0 && j < |prog| && Seen(prog, s, j)
    ensures |PF.FetchAndDispatch(prog, u, c).stamp| == |prog|
    ensures var x := PF.FetchAndDispatch(prog, u, c).stamp[j];
      && x.dispatch == s.stamp[j].dispatch && OnceGiven(s.stamp[j].issue, x.issue, c)
      && x.execute == s.stamp[j].execute && x.cdb == s.stamp[j].cdb
  {
    hide OrderAll, OperandsAll, MapOk, BankOk, BusOk, TimesAll, QueueOk, Issue, PF.FetchAndDispatch;
    IssueStamps(prog, s, t, c, j);
    PF.FetchEffect(prog, u, t', c);
  }

  lemma {:induction false} CycleStamps(prog: seq<Op>, s: State, x: Inside, c: int, j: nat)
    requires c > 0 && Inv(prog, s, Through(c - 1)) && j < |prog| && Seen(prog, s, j)
    requires IsStages(prog, s, c, x) && CycleInv(prog, x, c) && |x.fetched.stamp| == |prog|
    ensures OnceStamped(s.stamp[j], x.fetched.stamp[j], c)
  {
    hide OrderAll, OperandsAll, MapOk, BankOk, BusOk, TimesAll, QueueOk;
    assert x.retired.stamp == s.stamp && Seen(prog, x.retired, j);
    BackStamps(prog, x.retired, Clock(c - 1, c - 1, c - 1, c), c, j);
    assert x.broadcast.fetched == s.fetched;
    PS.StartEffect(x.broadcast, c);
    assert Seen(prog, x.started, j);
    FrontStamps(prog, x.started, Clock(c - 1, c - 1, c, c), x.issued, Clock(c - 1, c, c, c), c, j);
  }

  /** Over a run, every stamp is given once, with the number of the cycle in which it is given. */
  lemma {:induction false} StampsAreFinal(prog: seq<Op>, k: nat, j: nat)
    requires ValidProgram(prog) && j < |prog| && Seen(prog, After(prog, k), j)
    ensures OnceStamped(After(prog, k).stamp[j], After(prog, k + 1).stamp[j], k + 1)
  {
    hide OrderAll, OperandsAll, MapOk, BankOk, BusOk, TimesAll, QueueOk;
    AfterStep(prog, k + 1);
    StagesInv(prog, After(prog, k), k + 1);
    CycleStamps(prog, After(prog, k), Stages(prog, After(prog, k), k + 1), k + 1, j);
  }
}
