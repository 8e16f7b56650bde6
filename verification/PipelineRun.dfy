/** Whole runs of the scheduler: the state after any number of cycles, and the invariant over all of them. */
module PipelineRun {
  import opened Wrappers
  import opened Pipeline
  import opened PipelineInvariant
  import PipelineBroadcast
  import PipelineStart
  import PipelineIssue
  import PipelineFetch

  /** Every cycle number up to `c` may have been recorded. */
  ghost function Through(c: int): Clock { Clock(c, c, c, c) }

  const NO_STAMP := Stamp([None, None, None], 0, 0, 0, 0)

  /** Everything empty, nothing fetched; the records of the trace start zeroed. */
  ghost function Init(prog: seq<Op>): State {
    State(seq(|prog|, _ => NO_STAMP), [],
          Bank(Nulls(RESERV_INT_SIZE), Nulls(FU_INT_SIZE)), Bank(Nulls(RESERV_FP_SIZE), Nulls(FU_FP_SIZE)),
          None, Nulls(TOTAL_REGS), 0)
  }

  ghost function Nulls(n: nat): seq<Ref> { seq(n, _ => None) }

  lemma {:induction false} InitInv(prog: seq<Op>)
    requires ValidProgram(prog)
    ensures Inv(prog, Init(prog), Through(0))
  {
    var s := Init(prog);
    assert [s.bus][0] == None;
    assert forall j: nat :: !Seen(prog, s, j);
    forall r: nat | r < TOTAL_REGS ensures s.mapTable[r] == ExpectedMap(prog, s, r) {
    }
  }

  /** The five states inside cycle `c`: after retire, broadcast, start, issue, fetch. */
  datatype Inside = Inside(retired: State, broadcast: State, started: State, issued: State, fetched: State)

  ghost predicate CycleInv(prog: seq<Op>, x: Inside, c: int) {
    && Inv(prog, x.retired, Clock(c - 1, c - 1, c - 1, c)) && x.retired.bus == None
    && Inv(prog, x.broadcast, Clock(c - 1, c - 1, c - 1, c))
    && Inv(prog, x.broadcast, Clock(c - 1, c - 1, c, c))
    && Inv(prog, x.started, Clock(c - 1, c - 1, c, c))
    && Inv(prog, x.issued, Clock(c - 1, c, c, c))
    && Inv(prog, x.fetched, Through(c))
  }

  lemma {:induction false} LaterExecuteBound(prog: seq<Op>, s: State, t: Clock, c: int)
    requires Inv(prog, s, t) && t.execute <= c
    ensures Inv(prog, s, t.(execute := c))
  {
    forall j: nat | Seen(prog, s, j) ensures TimesOk(prog, s, t.(execute := c), j) {
      assert TimesOk(prog, s, t, j);
    }
  }

  /** The stages in the order of the main loop of runTomasulo. */
  ghost predicate IsStages(prog: seq<Op>, s: State, c: int, x: Inside) {
    && ValidProgram(prog) && Shape(prog, s) && Shape(prog, x.retired) && Shape(prog, x.started) && Shape(prog, x.issued)
    && x.retired == Retire(prog, s) && x.broadcast == Broadcast(prog, x.retired, c)
    && x.started == Start(x.broadcast, c) && x.issued == Issue(prog, x.started, c)
    && x.fetched == PipelineFetch.FetchAndDispatch(prog, x.issued, c)
  }

  lemma {:induction false} StagesKeep(prog: seq<Op>, s: State, c: int) returns (x: Inside)
    requires c > 0 && Inv(prog, s, Through(c - 1))
    ensures IsStages(prog, s, c, x) && CycleInv(prog, x, c)
  {
    PipelineInvariant.RetireKeeps(prog, s, Through(c - 1), c);
    var s1 := Retire(prog, s);
    PipelineBroadcast.BroadcastKeeps(prog, s1, Clock(c - 1, c - 1, c - 1, c), c);
    var s2 := Broadcast(prog, s1, c);
    LaterExecuteBound(prog, s2, Clock(c - 1, c - 1, c - 1, c), c);
    PipelineStart.StartKeeps(prog, s2, Clock(c - 1, c - 1, c, c), c);
    var s3 := Start(s2, c);
    PipelineIssue.IssueKeeps(prog, s3, Clock(c - 1, c - 1, c, c), c);
    var s4 := Issue(prog, s3, c);
    PipelineFetch.FetchKeeps(prog, s4, Clock(c - 1, c, c, c), c);
    x := Inside(s1, s2, s3, s4, PipelineFetch.FetchAndDispatch(prog, s4, c));
  }

  /** One iteration of the main loop of runTomasulo, at cycle `c`. */
  ghost function Stages(prog: seq<Op>, s: State, c: int): (x: Inside)
    requires c > 0 && Inv(prog, s, Through(c - 1))
    ensures IsStages(prog, s, c, x)
  {
    assert exists x :: IsStages(prog, s, c, x) by { var x := StagesKeep(prog, s, c); }
    var x :| IsStages(prog, s, c, x);
    x
  }

  lemma {:induction false} StagesInv(prog: seq<Op>, s: State, c: int)
    requires c > 0 && Inv(prog, s, Through(c - 1))
    ensures CycleInv(prog, Stages(prog, s, c), c)
  {
    var x := StagesKeep(prog, s, c);
    assert x == Stages(prog, s, c);
  }

  /** The state after `k` cycles. */
  ghost function After(prog: seq<Op>, k: nat): (s: State)
    requires ValidProgram(prog)
    ensures Inv(prog, s, Through(k))
  {
    if k == 0 then InitInv(prog); Init(prog)
    else StagesInv(prog, After(prog, k - 1), k); Stages(prog, After(prog, k - 1), k).fetched
  }

  /** The run, one step at a time. */
  lemma {:induction false} AfterStep(prog: seq<Op>, k: nat)
    requires ValidProgram(prog) && k > 0
    ensures Inv(prog, After(prog, k - 1), Through(k - 1))
    ensures After(prog, k) == Stages(prog, After(prog, k - 1), k).fetched
  {
  }
}
