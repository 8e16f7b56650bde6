/** Nothing waits without a reason: what each cycle of a run must do, said from the states before and
    after it alone. */
module PipelineProgress {
  import opened Wrappers
  import opened Pipeline
  import opened PipelineInvariant
  import opened PipelineRun
  import opened PipelineArbitration
  import PB = PipelineBroadcast
  import PS = PipelineStart
  import PI = PipelineIssue
  import PF = PipelineFetch
  import PT = PipelineTheorems

  ghost predicate AllTaken(xs: seq<Ref>) { forall k | 0 <= k < |xs| :: xs[k].Some? }

  // ---------------------------------------------------------------- issue

  lemma {:induction false} IssueMovesHead(prog: seq<Op>, s: State, c: int)
    requires PI.Inv0(prog, s) && s.queue != [] && c > 0
    ensures var u := Issue(prog, s, c);
      var h := s.queue[0];
      && |u.stamp| == |prog| && u.fetched == s.fetched
      && if !prog[h].cls.UsesFu() then u.queue == s.queue[1..]
         else || (u.queue == s.queue[1..] && u.stamp[h].issue == c)
              || (u == s && AllTaken(PS.BankOf(s, prog[h].cls.UsesIntFu()).rs))
  {
  }

  /** A cycle: its state before, the states inside it and the facts that hold of them. */
  lemma {:induction false} Cycle(prog: seq<Op>, k: nat) returns (x: Inside)
    requires ValidProgram(prog)
    ensures Inv(prog, After(prog, k), Through(k)) && x.fetched == After(prog, k + 1)
    ensures IsStages(prog, After(prog, k), k + 1, x) && CycleInv(prog, x, k + 1)
  {
    AfterStep(prog, k + 1);
    x := Stages(prog, After(prog, k), k + 1);
    StagesInv(prog, After(prog, k), k + 1);
  }

  lemma {:induction false} QueueUntilIssue(prog: seq<Op>, s: State, x: Inside, c: int)
    requires c > 0 && Inv(prog, s, Through(c - 1)) && IsStages(prog, s, c, x) && CycleInv(prog, x, c)
    ensures x.started.queue == s.queue && x.started.fetched == s.fetched
  {
    hide OrderAll, OperandsAll, TimesAll, MapOk, QueueOk, BusOk;
    PB.BroadcastEffect(prog, x.retired, c);
    PS.StartEffect(x.broadcast, c);
  }

  lemma {:induction false} FetchAppends(prog: seq<Op>, s: State, t: Clock, c: int)
    requires Inv(prog, s, t) && c > 0
    ensures var s' := PF.FetchAndDispatch(prog, s, c);
      && s'.intBank == s.intBank && s'.fpBank == s.fpBank && s'.bus == s.bus
      && s.queue <= s'.queue && |s'.stamp| == |prog|
      && (forall j: nat | j in s'.queue[|s.queue|..] :: s.fetched <= j)
      && (forall j: nat | Seen(prog, s, j) :: s'.stamp[j] == s.stamp[j])
  {
    hide OrderAll, OperandsAll, TimesAll, MapOk, BankOk, BusOk, PF.FetchAndDispatch;
    PF.FetchEffect(prog, s, t, c);
  }

  lemma {:induction false} HeadIsFirst(prog: seq<Op>, s: State, t: Clock)
    requires Inv(prog, s, t) && s.queue != []
    ensures Seen(prog, s, s.queue[0]) && s.queue[0] !in s.queue[1..]
    ensures !Issued(prog, s, s.queue[0]) && s.stamp[s.queue[0]].issue == 0
  {
    hide OrderAll, OperandsAll, MapOk, BankOk, BusOk;
    assert Seen(prog, s, s.queue[0]) && TimesOk(prog, s, t, s.queue[0]);
  }

  /** The head of the queue leaves it in the next cycle, into a station if it uses a unit, unless
      every station of its bank is taken even after the releases of that cycle. */
  lemma {:induction false} HeadIssues(prog: seq<Op>, k: nat)
    requires ValidProgram(prog) && After(prog, k).queue != []
    ensures var s, s' := After(prog, k), After(prog, k + 1);
      var h := s.queue[0];
      if !prog[h].cls.UsesFu() then h !in s'.queue && s.queue[1..] <= s'.queue
      else || (s'.stamp[h].issue == k + 1 && h !in s'.queue && s.queue[1..] <= s'.queue)
           || (s'.stamp[h].issue == 0 && s.queue <= s'.queue && AllTaken(PS.BankOf(s', prog[h].cls.UsesIntFu()).rs))
  {
    hide OrderAll, OperandsAll, MapOk, BankOk, BusOk, QueueOk, TimesAll, Issue, PF.FetchAndDispatch, After;
    var x := Cycle(prog, k);
    QueueUntilIssue(prog, After(prog, k), x, k + 1);
    HeadIsFirst(prog, After(prog, k), Through(k));
    IssueMovesHead(prog, x.started, k + 1);
    FetchAppends(prog, x.issued, Clock(k, k + 1, k + 1, k + 1), k + 1);
    var s, s' := After(prog, k), After(prog, k + 1);
    assert Seen(prog, x.issued, s.queue[0]);
    if x.issued.queue == s.queue[1..] {
      assert s'.queue == s.queue[1..] + s'.queue[|s.queue| - 1..];
    } else {
      assert s'.queue[0] == s.queue[0];
      HeadIsFirst(prog, s', Through(k + 1));
    }
  }

  // ---------------------------------------------------------------- fetch

  ghost predicate IsNext(prog: seq<Op>, f: nat, i: nat) {
    f <= i < |prog| && Fetchable(prog, i) && forall j: nat | f <= j < i :: !Fetchable(prog, j)
  }

  lemma {:induction false} FetchTakes(prog: seq<Op>, s: State, t: Clock, c: int, i: nat)
    requires Inv(prog, s, t) && c > 0 && IsNext(prog, s.fetched, i)
    ensures var s' := PF.FetchAndDispatch(prog, s, c);
      if |s.queue| < IFQ_SIZE
      then s'.queue == s.queue + [i] && |s'.stamp| == |prog| && s'.stamp[i].dispatch == c && s'.fetched == i + 1
      else s' == s && |s.queue| == IFQ_SIZE
  {
    hide OrderAll, OperandsAll, TimesAll, MapOk, BankOk, BusOk, PF.FetchAndDispatch;
    PF.FetchEffect(prog, s, t, c);
  }

  /** The next slot that is not skipped is fetched and dispatched in the next cycle, unless the queue
      is full even after an issue. */
  lemma {:induction false} NextIsFetched(prog: seq<Op>, k: nat, i: nat)
    requires ValidProgram(prog) && IsNext(prog, After(prog, k).fetched, i)
    ensures var s, s' := After(prog, k), After(prog, k + 1);
      || (s'.fetched == i + 1 && s'.stamp[i].dispatch == k + 1 && s'.queue != [] && s'.queue[|s'.queue| - 1] == i)
      || (s'.fetched == s.fetched && |s'.queue| == IFQ_SIZE)
  {
    hide OrderAll, OperandsAll, MapOk, BankOk, BusOk, TimesAll, QueueOk, Issue, PF.FetchAndDispatch, After, IsNext;
    var x := Cycle(prog, k);
    QueueUntilIssue(prog, After(prog, k), x, k + 1);
    IssueFetched(prog, x.started, k + 1);
    FetchTakes(prog, x.issued, Clock(k, k + 1, k + 1, k + 1), k + 1, i);
  }

  lemma {:induction false} IssueFetched(prog: seq<Op>, s: State, c: int)
    requires PI.Inv0(prog, s)
    ensures Issue(prog, s, c).fetched == s.fetched
  {
  }

  // ---------------------------------------------------------------- the bus

  /** A writer that has been executing for its latency at cycle `c` and has not broadcast. */
  ghost predicate Due(prog: seq<Op>, s: State, c: int, v: nat)
    requires Shape(prog, s)
  {
    && Issued(prog, s, v) && prog[v].cls.WritesCdb() && s.stamp[v].execute != 0 && s.stamp[v].cdb == 0
    && s.stamp[v].execute + prog[v].cls.Latency() <= c
  }

  lemma {:induction false} DueAreFinished(prog: seq<Op>, s: State, t: Clock, c: int, v: nat)
    requires Inv(prog, s, t)
    ensures v in Writers(prog, Finished(prog, s, c)) <==> Due(prog, s, c, v)
  {
    hide OrderAll, OperandsAll, MapOk, BusOk, QueueOk;
    if Issued(prog, s, v) {
      assert Seen(prog, s, v) && TimesOk(prog, s, t, v);
    }
  }

  lemma {:induction false} BusKept(prog: seq<Op>, s: State, x: Inside, c: int)
    requires c > 0 && Inv(prog, s, Through(c - 1)) && IsStages(prog, s, c, x) && CycleInv(prog, x, c)
    ensures x.fetched.bus == PB.Winner(prog, x.retired, c) && x.retired.stamp == s.stamp
    ensures forall v: nat :: Issued(prog, x.retired, v) <==> Issued(prog, s, v)
  {
    hide OrderAll, OperandsAll, TimesAll, MapOk, QueueOk, BusOk, BankOk, PF.FetchAndDispatch, Broadcast, Start;
    PB.BroadcastEffect(prog, x.retired, c);
    PS.StartEffect(x.broadcast, c);
    FetchAppends(prog, x.issued, Clock(c - 1, c, c, c), c);
  }

  /** The bus goes to the oldest writer that is due, and is empty only if none is. */
  ghost predicate BusRule(prog: seq<Op>, s: State, s': State, c: int)
    requires Shape(prog, s) && Shape(prog, s')
  {
    match s'.bus
    case None => forall v: nat :: !Due(prog, s, c, v)
    case Some(w) => Due(prog, s, c, w) && s'.stamp[w].cdb == c && forall v: nat | Due(prog, s, c, v) :: w <= v
  }

  lemma {:induction false} BusIn(prog: seq<Op>, s: State, x: Inside, c: int)
    requires c > 0 && Inv(prog, s, Through(c - 1)) && IsStages(prog, s, c, x) && CycleInv(prog, x, c)
    ensures BusRule(prog, s, x.fetched, c)
  {
    hide OrderAll, OperandsAll, TimesAll, MapOk, QueueOk, BankOk, PF.FetchAndDispatch, Issue, Due, Finished, Start;
    BusKept(prog, s, x, c);
    var done := Finished(prog, x.retired, c);
    assert forall v <- done :: v < |prog| by { FinishedInRange(prog, x.retired, c); }
    forall v: nat ensures v in Writers(prog, done) <==> Due(prog, s, c, v) {
      DueAreFinished(prog, x.retired, Clock(c - 1, c - 1, c - 1, c), c, v);
      SameDue(prog, s, x.retired, c, v);
    }
  }

  lemma {:induction false} FinishedInRange(prog: seq<Op>, s: State, c: int)
    requires Shape(prog, s)
    ensures forall v <- Finished(prog, s, c) :: v < |prog|
  {
  }

  lemma {:induction false} OldestDueBroadcasts(prog: seq<Op>, k: nat)
    requires ValidProgram(prog)
    ensures BusRule(prog, After(prog, k), After(prog, k + 1), k + 1)
  {
    hide Inv, Stages, BusRule, After;
    var x := Cycle(prog, k);
    BusIn(prog, After(prog, k), x, k + 1);
  }

  lemma {:induction false} SameDue(prog: seq<Op>, s: State, s': State, c: int, v: nat)
    requires Shape(prog, s) && Shape(prog, s') && s'.stamp == s.stamp && (Issued(prog, s', v) <==> Issued(prog, s, v))
    ensures Due(prog, s', c, v) <==> Due(prog, s, c, v)
  {
  }

  // ---------------------------------------------------------------- start

  lemma {:induction false} LeftIsBlockedOrBusy(prog: seq<Op>, b: State, t: Clock, c: int, v: nat)
    requires Inv(prog, Start(b, c), t) && t.issue < c && c > 0
    requires Issued(prog, Start(b, c), v) && Start(b, c).stamp[v].execute == 0
    ensures var u := Start(b, c);
      (exists o: nat :: Blocked(prog, u.stamp, v, o, c)) || AllTaken(PS.BankOf(u, prog[v].cls.UsesIntFu()).fu)
  {
    hide OrderAll, OperandsAll, MapOk, QueueOk, BusOk, Start, Blocked;
    var u := Start(b, c);
    assert Seen(prog, u, v) && TimesOk(prog, u, t, v);
    if Ready(u.stamp, c, v) {
      ReadyLeftMeansBusy(b, c, v, prog[v].cls.UsesIntFu());
    } else {
      var o := NotReadyIsBlocked(prog, u, t, c, v);
    }
  }

  lemma {:induction false} UnitsAfterStart(prog: seq<Op>, s: State, x: Inside, c: int)
    requires c > 0 && Inv(prog, s, Through(c - 1)) && IsStages(prog, s, c, x) && CycleInv(prog, x, c)
    ensures x.fetched.intBank.fu == x.started.intBank.fu && x.fetched.fpBank.fu == x.started.fpBank.fu
    ensures forall v: nat :: Issued(prog, s, v) ==> Issued(prog, x.started, v) && Seen(prog, x.issued, v)
    ensures forall v: nat | Seen(prog, x.started, v) ::
              x.fetched.stamp[v].execute == x.started.stamp[v].execute
                  && x.fetched.stamp[v].cdb == x.started.stamp[v].cdb
  {
    hide OrderAll, OperandsAll, TimesAll, MapOk, QueueOk, BusOk, BankOk, PF.FetchAndDispatch, Start, Broadcast;
    QueueUntilIssue(prog, s, x, c);
    FetchAppends(prog, x.issued, Clock(c - 1, c, c, c), c);
  }

  /** A producer of one of its operands has not broadcast before cycle `c`, or every unit is busy. */
  ghost predicate Held(prog: seq<Op>, s: State, c: int, v: nat)
    requires v < |prog| == |s.stamp|
  {
    || (exists o: nat :: Blocked(prog, s.stamp, v, o, c))
    || AllTaken(PS.BankOf(s, prog[v].cls.UsesIntFu()).fu)
  }

  lemma {:induction false} StartsNow(prog: seq<Op>, s: State, x: Inside, c: int, v: nat)
    requires c > 0 && Inv(prog, s, Through(c - 1)) && IsStages(prog, s, c, x) && CycleInv(prog, x, c)
    requires Seen(prog, s, v) && s.stamp[v].execute == 0
    ensures x.started.stamp[v].execute == 0 || x.started.stamp[v].execute == c
  {
    hide OrderAll, OperandsAll, TimesAll, MapOk, QueueOk, BankOk, BusOk, Start, Broadcast, Issue;
    assert Seen(prog, x.retired, v);
    PT.BackStamps(prog, x.retired, Clock(c - 1, c - 1, c - 1, c), c, v);
  }

  lemma {:induction false} StillBlocked(prog: seq<Op>, u: State, s': State, c: int, v: nat, o: nat)
    requires |u.stamp| == |s'.stamp| == |prog| && Seen(prog, u, v) && Blocked(prog, u.stamp, v, o, c)
    requires forall w: nat | Seen(prog, u, w) :: s'.stamp[w].cdb == u.stamp[w].cdb
    ensures Blocked(prog, s'.stamp, v, o, c)
  {
    var w := LastWriter(prog, prog[v].rIn[o], v).value;
    assert Seen(prog, u, w);
  }

  lemma {:induction false} StartsIn(prog: seq<Op>, s: State, x: Inside, c: int, v: nat)
    requires c > 0 && Inv(prog, s, Through(c - 1)) && IsStages(prog, s, c, x) && CycleInv(prog, x, c)
    requires Issued(prog, s, v) && s.stamp[v].execute == 0 && |x.fetched.stamp| == |prog|
    ensures x.fetched.stamp[v].execute == c || (x.fetched.stamp[v].execute == 0 && Held(prog, x.fetched, c, v))
  {
    hide OrderAll, OperandsAll, TimesAll, MapOk, QueueOk, BankOk, BusOk, PF.FetchAndDispatch, Start, Broadcast, Issue;
    UnitsAfterStart(prog, s, x, c);
    StartsNow(prog, s, x, c, v);
    var u := x.started;
    if u.stamp[v].execute == 0 {
      LeftIsBlockedOrBusy(prog, x.broadcast, Clock(c - 1, c - 1, c, c), c, v);
      if o: nat :| Blocked(prog, u.stamp, v, o, c) {
        StillBlocked(prog, u, x.fetched, c, v, o);
      }
    }
  }

  /** An issued instruction starts in the next cycle unless it is held. */
  lemma {:induction false} StartsUnlessHeld(prog: seq<Op>, k: nat, v: nat)
    requires ValidProgram(prog) && Issued(prog, After(prog, k), v) && After(prog, k).stamp[v].execute == 0
    ensures var s' := After(prog, k + 1);
      s'.stamp[v].execute == k + 1 || (s'.stamp[v].execute == 0 && Held(prog, s', k + 1, v))
  {
    hide QueueOk, BankOk, TimesAll, BusOk, OrderAll, MapOk, OperandsAll, Stages, Held, After;
    var x := Cycle(prog, k);
    StartsIn(prog, After(prog, k), x, k + 1, v);
  }

  // ---------------------------------------------------------------- stations

  /** Whether `v` is over at cycle `c`: broadcast, or executed for its latency if it has no result. */
  ghost predicate Over(prog: seq<Op>, s: State, c: int, v: nat)
    requires v < |prog| == |s.stamp|
  {
    if prog[v].cls.WritesCdb() then s.stamp[v].cdb != 0
    else s.stamp[v].execute != 0 && s.stamp[v].execute + prog[v].cls.Latency() <= c
  }

  ghost predicate StationsOk(prog: seq<Op>, s: State, c: int)
    requires |prog| == |s.stamp|
  {
    forall v: nat | Issued(prog, s, v) :: Resident(s, v) <==> !Over(prog, s, c, v)
  }

  lemma {:induction false} BroadcastStations(prog: seq<Op>, s: State, t: Clock, c: int)
    requires Inv(prog, s, t) && s.bus == None && c > 0 && StationsOk(prog, s, c - 1)
    ensures |Broadcast(prog, s, c).stamp| == |prog| && StationsOk(prog, Broadcast(prog, s, c), c)
  {
    hide OrderAll, OperandsAll, MapOk, QueueOk, BusOk, Broadcast;
    PB.BroadcastEffect(prog, s, c);
    PB.GoneFinished(prog, s, c);
    var b := Broadcast(prog, s, c);
    assert Frontier(b) == Frontier(s);
    forall v: nat | Issued(prog, b, v) ensures Resident(b, v) <==> !Over(prog, b, c, v) {
      assert Issued(prog, s, v) && TimesOk(prog, s, t, v);
      var gone := PB.Gone(prog, s, c);
      assert Resident(b, v) <==> Resident(s, v) && v !in gone;
      if prog[v].cls.WritesCdb() {
        assert v in gone <==> PB.Winner(prog, s, c) == Some(v);
      } else {
        assert v in gone <==> v in Finished(prog, s, c);
        assert Resident(s, v) ==> (s.stamp[v].execute > 0 <==> Some(v) in s.intBank.fu || Some(v) in s.fpBank.fu);
      }
    }
  }

  lemma {:induction false} StartStations(prog: seq<Op>, b: State, t: Clock, c: int)
    requires Inv(prog, b, t) && Inv(prog, Start(b, c), t) && c > 0 && StationsOk(prog, b, c)
    ensures StationsOk(prog, Start(b, c), c)
  {
    hide OrderAll, OperandsAll, MapOk, QueueOk, BusOk, Start;
    PS.StartEffect(b, c);
    var u := Start(b, c);
    assert Frontier(u) == Frontier(b);
    forall v: nat | Issued(prog, u, v) ensures Resident(u, v) <==> !Over(prog, u, c, v) {
      assert Issued(prog, b, v) && TimesOk(prog, b, t, v);
      assert u.stamp[v].execute != b.stamp[v].execute ==> !Over(prog, b, c, v);
    }
  }

  lemma {:induction false} IssueResidents(prog: seq<Op>, s: State, c: int, v: nat)
    requires PI.Inv0(prog, s)
    ensures var u := Issue(prog, s, c);
      && u.fetched == s.fetched && |u.stamp| == |prog|
      && (Resident(s, v) ==> Resident(u, v))
      && (s.queue == [] || v != s.queue[0] ==> Resident(u, v) == Resident(s, v))
      && (v < |prog| ==> u.stamp[v].execute == s.stamp[v].execute && u.stamp[v].cdb == s.stamp[v].cdb)
  {
    var u := Issue(prog, s, c);
    if s.queue != [] && u != s && prog[s.queue[0]].cls.UsesFu() {
      var rs := PS.BankOf(s, prog[s.queue[0]].cls.UsesIntFu()).rs;
      PI.AddedByUpdate(rs, FirstFree(rs), s.queue[0]);
    }
  }

  lemma {:induction false} IssueStations(prog: seq<Op>, s: State, t: Clock, c: int)
    requires Inv(prog, s, t) && Inv(prog, Issue(prog, s, c), t.(issue := c)) && StationsOk(prog, s, c)
    ensures StationsOk(prog, Issue(prog, s, c), c)
  {
    hide OrderAll, OperandsAll, MapOk, BankOk, BusOk, QueueOk, Issue, Resident;
    var u := Issue(prog, s, c);
    forall v: nat | Issued(prog, u, v) ensures Resident(u, v) <==> !Over(prog, u, c, v) {
      IssueResidents(prog, s, c, v);
      if s.queue != [] {
        HeadIsFirst(prog, s, t);
      }
      assert Seen(prog, s, v) && TimesOk(prog, s, t, v) && TimesOk(prog, u, t.(issue := c), v);
    }
  }

  lemma {:induction false} FetchStations(prog: seq<Op>, s: State, t: Clock, c: int)
    requires Inv(prog, s, t) && c > 0 && StationsOk(prog, s, c)
    ensures |PF.FetchAndDispatch(prog, s, c).stamp| == |prog| && StationsOk(prog, PF.FetchAndDispatch(prog, s, c), c)
  {
    hide OrderAll, OperandsAll, MapOk, BankOk, BusOk, QueueOk, TimesAll, PF.FetchAndDispatch;
    FetchAppends(prog, s, t, c);
    PF.FetchFrontier(prog, s, t, c);
    var s' := PF.FetchAndDispatch(prog, s, c);
    forall v: nat | Issued(prog, s', v) ensures Resident(s', v) <==> !Over(prog, s', c, v) {
      assert Issued(prog, s, v);
    }
  }

  lemma {:induction false} CycleStations(prog: seq<Op>, s: State, x: Inside, c: int)
    requires c > 0 && Inv(prog, s, Through(c - 1)) && IsStages(prog, s, c, x) && CycleInv(prog, x, c)
    requires StationsOk(prog, s, c - 1)
    ensures |x.fetched.stamp| == |prog| && StationsOk(prog, x.fetched, c)
  {
    hide OrderAll, OperandsAll, MapOk, BankOk, BusOk, QueueOk, TimesAll, PF.FetchAndDispatch, Issue, Broadcast, Start;
    assert forall v: nat :: Issued(prog, x.retired, v) <==> Issued(prog, s, v);
    BroadcastStations(prog, x.retired, Clock(c - 1, c - 1, c - 1, c), c);
    StartStations(prog, x.broadcast, Clock(c - 1, c - 1, c, c), c);
    IssueStations(prog, x.started, Clock(c - 1, c - 1, c, c), c);
    FetchStations(prog, x.issued, Clock(c - 1, c, c, c), c);
  }

  lemma {:induction false} NextStations(prog: seq<Op>, k: nat)
    requires ValidProgram(prog) && StationsOk(prog, After(prog, k), k)
    ensures StationsOk(prog, After(prog, k + 1), k + 1)
  {
    hide QueueOk, BankOk, TimesAll, BusOk, OrderAll, MapOk, OperandsAll, Stages, After, StationsOk;
    var x := Cycle(prog, k);
    CycleStations(prog, After(prog, k), x, k + 1);
  }

  lemma {:induction false} InitStations(prog: seq<Op>)
    requires ValidProgram(prog)
    ensures |After(prog, 0).stamp| == |prog| && StationsOk(prog, After(prog, 0), 0)
  {
    assert forall v: nat :: !Seen(prog, Init(prog), v);
  }

  /** After every cycle of a run exactly those issued instructions hold a station that have not broadcast
      or, without a result, have not been executing for their latency: no station is freed early or late. */
  lemma {:induction false} StationsHeld(prog: seq<Op>, k: nat)
    requires ValidProgram(prog)
    ensures StationsOk(prog, After(prog, k), k)
  {
    hide After, StationsOk, Shape, ValidProgram, QueueOk, BankOk, TimesAll, BusOk, OrderAll, MapOk, OperandsAll;
    if k == 0 {
      InitStations(prog);
    } else {
      StationsHeld(prog, k - 1);
      NextStations(prog, k - 1);
    }
  }
}
