/** Every run ends, within 11 cycles for each slot of the trace: a weight that counts what each slot
    still has to go through drops in every cycle. */
module PipelineTermination {
  import opened Wrappers
  import opened Pipeline
  import opened PipelineInvariant
  import opened PipelineRun
  import PB = PipelineBroadcast
  import PS = PipelineStart
  import PI = PipelineIssue
  import PF = PipelineFetch

  function Max(a: int, b: int): int { if a < b then b else a }

  /** Work left for slot `i` at clock `c`. */
  ghost function Weight(prog: seq<Op>, s: State, c: int, i: nat): nat
    requires Shape(prog, s) && i < |prog|
  {
    if i >= s.fetched then 11
    else if i in s.queue then 10
    else if Resident(s, i) then
      if s.stamp[i].execute == 0 then 9
      else 2 + Max(0, s.stamp[i].execute + prog[i].cls.Latency() - c)
    else if s.bus == Some(i) then 1
    else 0
  }

  ghost function Total(prog: seq<Op>, s: State, c: int, n: nat): nat
    requires Shape(prog, s) && n <= |prog|
  {
    if n == 0 then 0 else Total(prog, s, c, n - 1) + Weight(prog, s, c, n - 1)
  }

  /** No slot has more work left in `s'` at clock `c'` than in `s` at clock `c`. */
  ghost predicate NoMore(prog: seq<Op>, s: State, c: int, s': State, c': int) {
    && Shape(prog, s) && Shape(prog, s')
    && forall i: nat | i < |prog| :: Weight(prog, s', c', i) <= Weight(prog, s, c, i)
  }

  ghost predicate Less(prog: seq<Op>, s: State, c: int, s': State, c': int) {
    && NoMore(prog, s, c, s', c')
    && exists i: nat :: i < |prog| && Weight(prog, s', c', i) < Weight(prog, s, c, i)
  }

  lemma {:induction false} TotalMonotone(prog: seq<Op>, s: State, c: int, s': State, c': int, n: nat)
    requires NoMore(prog, s, c, s', c') && n <= |prog|
    ensures Total(prog, s', c', n) <= Total(prog, s, c, n)
    ensures (exists i: nat :: i < n && Weight(prog, s', c', i) < Weight(prog, s, c, i)) ==>
              Total(prog, s', c', n) < Total(prog, s, c, n)
  {
    if n > 0 {
      TotalMonotone(prog, s, c, s', c', n - 1);
    }
  }

  // ---------------------------------------------------------------- stage by stage

  lemma {:induction false} RetireWeight(prog: seq<Op>, s: State, t: Clock, c: int)
    requires Inv(prog, s, t)
    ensures NoMore(prog, s, c, Retire(prog, s), c)
    ensures s.bus.Some? ==> Less(prog, s, c, Retire(prog, s), c)
  {
    RetireShape(prog, s);
    var s' := Retire(prog, s);
    if s.bus.Some? {
      var w := s.bus.value;
      assert TimesOk(prog, s, t, w);
      QueuedAreLate(prog, s);
      assert Weight(prog, s', c, w) < Weight(prog, s, c, w);
    }
  }

  lemma {:induction false} BroadcastWeight(prog: seq<Op>, s: State, t: Clock, c: int)
    requires Inv(prog, s, t) && s.bus == None
    ensures NoMore(prog, s, c, Broadcast(prog, s, c), c)
    ensures Finished(prog, s, c) != {} ==> Less(prog, s, c, Broadcast(prog, s, c), c)
  {
    PB.BroadcastShape(prog, s, c);
    PB.BroadcastEffect(prog, s, c);
    PB.GoneFinished(prog, s, c);
    var s' := Broadcast(prog, s, c);
    var gone := PB.Gone(prog, s, c);
    forall i: nat | i < |prog|
      ensures Weight(prog, s', c, i) <= Weight(prog, s, c, i)
      ensures i in gone ==> Weight(prog, s', c, i) < Weight(prog, s, c, i)
    {
      if i in gone {
        ResidentNotQueued(prog, s, i);
      }
    }
    if Finished(prog, s, c) != {} {
      var i :| i in Finished(prog, s, c);
      assert prog[i].cls.WritesCdb() ==> i in Writers(prog, Finished(prog, s, c));
      assert gone != {};
      var g :| g in gone;
      assert Weight(prog, s', c, g) < Weight(prog, s, c, g);
    }
  }

  lemma {:induction false} ResidentNotQueued(prog: seq<Op>, s: State, i: nat)
    requires Shape(prog, s) && QueueOk(prog, s) && Resident(s, i)
    requires BankOk(prog, s, s.intBank, true) && BankOk(prog, s, s.fpBank, false)
    ensures i < s.fetched && i !in s.queue
  {
    QueuedAreLate(prog, s);
  }

  lemma {:induction false} QueuedAreLate(prog: seq<Op>, s: State)
    requires Shape(prog, s) && QueueOk(prog, s)
    ensures forall j: nat | j in s.queue :: Frontier(s) <= j
  {
  }

  lemma {:induction false} StartWeight(prog: seq<Op>, s: State, c: int)
    requires Shape(prog, s) && Shape(prog, Start(s, c)) && c > 0
    ensures NoMore(prog, s, c, Start(s, c), c)
  {
    PS.StartEffect(s, c);
  }

  /** Taking the head of the queue takes weight from it alone. */
  lemma {:induction false} TakenWeight(prog: seq<Op>, s: State, s': State, c: int, h: nat)
    requires Shape(prog, s) && Shape(prog, s') && s.queue == [h] + s'.queue && h !in s'.queue
             && h < s.fetched == s'.fetched
    requires s'.bus == s.bus && s.bus != Some(h) && !Resident(s, h) && s'.stamp[h].execute == 0
    requires forall i: nat | i != h :: Resident(s', i) <==> Resident(s, i)
    requires forall i: nat | i != h && i < |prog| :: s'.stamp[i] == s.stamp[i]
    ensures Less(prog, s, c, s', c)
  {
    hide InRange;
    forall i: nat | i < |prog| ensures Weight(prog, s', c, i) <= Weight(prog, s, c, i) {
    }
    assert Weight(prog, s', c, h) < Weight(prog, s, c, h);
  }

  lemma {:induction false} IssueWeight(prog: seq<Op>, s: State, t: Clock, c: int)
    requires Inv(prog, s, t) && Shape(prog, Issue(prog, s, c))
    ensures NoMore(prog, s, c, Issue(prog, s, c), c)
    ensures s.queue != [] && Issue(prog, s, c) != s ==> Less(prog, s, c, Issue(prog, s, c), c)
  {
    hide MapOk, OrderAll, OperandsAll, Weight;
    var s' := Issue(prog, s, c);
    if s' != s {
      var h := s.queue[0];
      assert Seen(prog, s, h) && TimesOk(prog, s, t, h);
      assert s.queue == [h] + s'.queue;
      assert h !in s'.queue;
      if prog[h].cls.UsesFu() {
        var rs := if prog[h].cls.UsesIntFu() then s.intBank.rs else s.fpBank.rs;
        PI.AddedByUpdate(rs, FirstFree(rs), h);
      }
      TakenWeight(prog, s, s', c, h);
    }
  }

  lemma {:induction false} FetchWeight(prog: seq<Op>, s: State, t: Clock, c: int)
    requires Inv(prog, s, t) && c > 0
    requires Shape(prog, PF.FetchAndDispatch(prog, s, c))
    ensures NoMore(prog, s, c, PF.FetchAndDispatch(prog, s, c), c)
    ensures s.queue == [] && s.fetched < |prog| ==> Less(prog, s, c, PF.FetchAndDispatch(prog, s, c), c)
  {
    hide TagOk;
    hide MapOk, OrderAll, OperandsAll, BusOk, TimesAll;
    PF.FetchEffect(prog, s, t, c);
    var s' := PF.FetchAndDispatch(prog, s, c);
    forall i: nat | i < |prog| ensures Weight(prog, s', c, i) <= Weight(prog, s, c, i) {
      if Resident(s, i) {
        ResidentNotQueued(prog, s, i);
      }
    }
    if s.queue == [] && s.fetched < |prog| {
      assert Weight(prog, s', c, s.fetched) < 11;
    }
  }

  // ---------------------------------------------------------------- the clock

  ghost predicate Running(prog: seq<Op>, s: State, c: int, i: nat) {
    && i < |prog| == |s.stamp| && i < s.fetched && i !in s.queue && Resident(s, i)
    && s.stamp[i].execute > 0 && s.stamp[i].execute + prog[i].cls.Latency() > c
  }

  lemma {:induction false} TickWeight(prog: seq<Op>, s: State, c: int)
    requires Shape(prog, s)
    ensures NoMore(prog, s, c, s, c + 1)
    ensures (exists i: nat :: Running(prog, s, c, i)) ==> Less(prog, s, c, s, c + 1)
  {
    if i: nat :| Running(prog, s, c, i) {
      assert Weight(prog, s, c + 1, i) < Weight(prog, s, c, i);
    }
  }

  lemma {:induction false} RunningThroughIssue(prog: seq<Op>, s: State, t: Clock, c: int, i: nat)
    requires Inv(prog, s, t) && Shape(prog, Issue(prog, s, c)) && Running(prog, s, c, i)
    ensures Running(prog, Issue(prog, s, c), c, i)
  {
    hide MapOk, OrderAll, OperandsAll, BusOk, TimesAll;
    var u := Issue(prog, s, c);
    if u != s {
      var h := s.queue[0];
      assert s.queue == [h] + u.queue;
      if prog[h].cls.UsesFu() {
        var rs := if prog[h].cls.UsesIntFu() then s.intBank.rs else s.fpBank.rs;
        PI.AddedByUpdate(rs, FirstFree(rs), h);
      }
    }
  }

  lemma {:induction false} RunningThroughFetch(prog: seq<Op>, s: State, t: Clock, c: int, i: nat)
    requires Inv(prog, s, t) && c > 0 && Running(prog, s, c, i)
    ensures Running(prog, PF.FetchAndDispatch(prog, s, c), c, i)
  {
    PF.FetchEffect(prog, s, t, c);
  }

  // ---------------------------------------------------------------- something always moves

  ghost predicate AnyResident(s: State) { exists i: nat :: Resident(s, i) }

  ghost predicate AnyUnit(s: State) { exists i: nat :: Some(i) in s.intBank.fu || Some(i) in s.fpBank.fu }

  lemma {:induction false} OldestResident(prog: seq<Op>, s: State) returns (j: nat)
    requires Shape(prog, s) && AnyResident(s)
    ensures Resident(s, j) && forall i: nat | Resident(s, i) :: j <= i
  {
    var c := set i: nat | i < |prog| && Resident(s, i);
    var any: nat :| Resident(s, any);
    assert any in c;
    j := Oldest(c).value;
    assert forall i: nat | Resident(s, i) :: i in c;
  }

  /** With all units and the bus idle, the oldest waiting instruction is ready. */
  lemma {:induction false} OldestIsReady(prog: seq<Op>, s: State, t: Clock, c: int, j: nat)
    requires Inv(prog, s, t) && t.cdb == c && t.issue < c && s.bus == None && !AnyUnit(s)
    requires Resident(s, j) && forall i: nat | Resident(s, i) :: j <= i
    ensures j < |prog| && Ready(s.stamp, c, j)
  {
    assert TimesOk(prog, s, t, j);
    forall k: nat | k < |s.stamp[j].q| ensures Resolved(s.stamp, s.stamp[j].q[k], c) {
      assert TagOk(prog, s.stamp, j, 0);
      assert TagOk(prog, s.stamp, j, k);
      var tag := s.stamp[j].q[k];
      if tag.Some? {
        assert Issued(prog, s, tag.value) && TimesOk(prog, s, t, tag.value);
      }
    }
  }

  /** An idle unit takes a ready instruction of its bank. */
  lemma {:induction false} IdleUnitStarts(b: Bank, stamp: seq<Stamp>, c: int, j: nat) returns (w: nat)
    requires c > 0 && |b.fu| > 0 && b.fu[0] == None && Some(j) in b.rs && Ready(stamp, c, j)
    ensures |StartUpTo(b, stamp, c, |b.fu|).1| == |stamp|
    ensures Some(w) in b.rs && w < |stamp| && StartUpTo(b, stamp, c, |b.fu|).1[w].execute == c
  {
    assert j in ReadySet(b.rs, stamp, c);
    w := Oldest(ReadySet(b.rs, stamp, c)).value;
    assert w in ReadySet(b.rs, stamp, c);
    var r := StartUpTo(b, stamp, c, 1);
    assert r == StartOne(b, stamp, c, 0) by {
      assert StartUpTo(b, stamp, c, 0) == (b, stamp);
    }
    StartsPersist(b, stamp, c, 1, |b.fu|, w);
  }

  lemma {:induction false} StartsPersist(b: Bank, stamp: seq<Stamp>, c: int, k: nat, n: nat, w: nat)
    requires c > 0 && k <= n <= |b.fu| && w < |stamp| == |StartUpTo(b, stamp, c, k).1|
    requires StartUpTo(b, stamp, c, k).1[w].execute == c
    ensures |StartUpTo(b, stamp, c, n).1| == |stamp| && StartUpTo(b, stamp, c, n).1[w].execute == c
  {
    if k < n {
      StartsPersist(b, stamp, c, k, n - 1, w);
    }
  }

  lemma {:induction false} StartsSomething(prog: seq<Op>, s: State, t: Clock, c: int)
    requires Inv(prog, s, t) && t.cdb == c > 0 && t.issue < c && s.bus == None && !AnyUnit(s) && AnyResident(s)
    requires Shape(prog, Start(s, c))
    ensures exists i: nat :: Running(prog, Start(s, c), c, i)
  {
    hide MapOk, OrderAll, OperandsAll, BusOk, TimesAll;
    var j := OldestResident(prog, s);
    OldestIsReady(prog, s, t, c, j);
    PS.StartEffect(s, c);
    var u := StartInt(s, c);
    PS.StartUpToEffect(s.intBank, s.stamp, c, |s.intBank.fu|);
    PS.StartUpToEffect(u.fpBank, u.stamp, c, |u.fpBank.fu|);
    var w: nat;
    if Some(j) in s.intBank.rs {
      assert s.intBank.fu[0] in s.intBank.fu;
      w := IdleUnitStarts(s.intBank, s.stamp, c, j);
      assert u.stamp[w].execute == c;
    } else {
      assert s.fpBank.fu[0] in s.fpBank.fu;
      FpStillReady(prog, s, t, c, j);
      w := IdleUnitStarts(u.fpBank, u.stamp, c, j);
    }
    ResidentNotQueued(prog, s, w);
    assert Running(prog, Start(s, c), c, w);
  }

  /** Serving the integer units does not disturb a ready floating-point instruction. */
  lemma {:induction false} FpStillReady(prog: seq<Op>, s: State, t: Clock, c: int, j: nat)
    requires Inv(prog, s, t) && c > 0 && Some(j) in s.fpBank.rs && Ready(s.stamp, c, j)
    ensures Ready(StartInt(s, c).stamp, c, j)
  {
    PS.StartUpToEffect(s.intBank, s.stamp, c, |s.intBank.fu|);
    var u := StartInt(s, c);
    IntStartsOnly(s.intBank, s.stamp, c, |s.intBank.fu|, j);
    forall k | 0 <= k < |u.stamp[j].q| ensures Resolved(u.stamp, u.stamp[j].q[k], c) {
      assert Resolved(s.stamp, s.stamp[j].q[k], c);
    }
  }

  lemma {:induction false} IntStartsOnly(b: Bank, stamp: seq<Stamp>, c: int, k: nat, j: nat)
    requires c > 0 && k <= |b.fu| && j < |stamp| && Some(j) !in b.rs
    ensures |StartUpTo(b, stamp, c, k).1| == |stamp| && StartUpTo(b, stamp, c, k).1[j] == stamp[j]
  {
    if k > 0 {
      IntStartsOnly(b, stamp, c, k - 1, j);
      PS.StartUpToEffect(b, stamp, c, k - 1);
      var r := StartUpTo(b, stamp, c, k - 1);
      var w := Oldest(ReadySet(r.0.rs, r.1, c));
      assert w.Some? ==> w.value in ReadySet(r.0.rs, r.1, c);
    }
  }

  /** Nothing left anywhere. */
  ghost predicate Quiet(prog: seq<Op>, s: State) {
    s.fetched == |prog| && s.queue == [] && !AnyResident(s) && s.bus == None
  }

  /** With every station free, the head of the queue is taken. */
  lemma {:induction false} IssueMoves(prog: seq<Op>, s: State, t: Clock, c: int)
    requires Inv(prog, s, t) && Shape(prog, Issue(prog, s, c)) && !AnyResident(s) && s.queue != []
    ensures Less(prog, s, c, Issue(prog, s, c), c)
  {
    assert s.intBank.rs[0].Some? ==> Resident(s, s.intBank.rs[0].value);
    assert s.fpBank.rs[0].Some? ==> Resident(s, s.fpBank.rs[0].value);
    assert |Issue(prog, s, c).queue| < |s.queue|;
    IssueWeight(prog, s, t, c);
  }

  lemma {:induction false} Chain(prog: seq<Op>, s: State, c: int, s': State, c': int, s'': State, c'': int)
    requires NoMore(prog, s, c, s', c') && NoMore(prog, s', c', s'', c'')
    ensures NoMore(prog, s, c, s'', c'')
    ensures Less(prog, s, c, s', c') || Less(prog, s', c', s'', c'') ==> Less(prog, s, c, s'', c'')
  {
    forall i: nat | i < |prog| ensures Weight(prog, s'', c'', i) <= Weight(prog, s, c, i) {
      assert Weight(prog, s', c', i) <= Weight(prog, s, c, i);
    }
    if Less(prog, s, c, s', c') {
      var i: nat :| i < |prog| && Weight(prog, s', c', i) < Weight(prog, s, c, i);
      assert Weight(prog, s'', c'', i) < Weight(prog, s, c, i);
    } else if Less(prog, s', c', s'', c'') {
      var i: nat :| i < |prog| && Weight(prog, s'', c'', i) < Weight(prog, s', c', i);
      assert Weight(prog, s'', c'', i) < Weight(prog, s, c, i);
    }
  }

  /** With nothing finished, what holds a unit still runs after the start stage. */
  lemma {:induction false} StillRunning(prog: seq<Op>, u: State, b: State, t: Clock, c: int, i: nat)
    requires Inv(prog, u, t.(execute := c - 1)) && u.bus == None && Finished(prog, u, c) == {}
    requires b == Broadcast(prog, u, c) && Inv(prog, b, t) && c > 0 && Shape(prog, Start(b, c))
    requires Some(i) in b.intBank.fu || Some(i) in b.fpBank.fu
    ensures Running(prog, Start(b, c), c, i)
  {
    hide OrderAll, OperandsAll, MapOk, QueueOk, BusOk, TimesAll, Start, Broadcast;
    PB.BroadcastEffect(prog, u, c);
    PB.GoneFinished(prog, u, c);
    PS.StartEffect(b, c);
    assert i !in Finished(prog, u, c);
    ResidentNotQueued(prog, b, i);
  }

  /** With nothing finished and the bus idle, either something runs after the start stage or no
      station is in use. */
  lemma {:induction false} StartMoves(prog: seq<Op>, u: State, b: State, t: Clock, c: int)
    requires Inv(prog, u, t.(execute := c - 1)) && u.bus == None && Finished(prog, u, c) == {}
    requires b == Broadcast(prog, u, c) && Inv(prog, b, t)
    requires t.cdb == t.execute == c > 0 && t.issue < c && Shape(prog, Start(b, c))
    ensures (exists i: nat :: Running(prog, Start(b, c), c, i)) || (!AnyResident(b) && !AnyResident(Start(b, c)))
  {
    hide OrderAll, OperandsAll, MapOk, QueueOk, BusOk, TimesAll, BankOk, Start, Broadcast, Running;
    if AnyUnit(b) {
      var i: nat :| Some(i) in b.intBank.fu || Some(i) in b.fpBank.fu;
      StillRunning(prog, u, b, t, c, i);
    } else {
      StartsFromIdle(prog, u, b, t, c);
    }
  }

  lemma {:induction false} StartsFromIdle(prog: seq<Op>, u: State, b: State, t: Clock, c: int)
    requires Inv(prog, u, t.(execute := c - 1)) && u.bus == None && Finished(prog, u, c) == {}
    requires b == Broadcast(prog, u, c) && Inv(prog, b, t) && !AnyUnit(b)
    requires t.cdb == t.execute == c > 0 && t.issue < c && Shape(prog, Start(b, c))
    ensures (exists i: nat :: Running(prog, Start(b, c), c, i)) || (!AnyResident(b) && !AnyResident(Start(b, c)))
  {
    hide OrderAll, OperandsAll, MapOk, QueueOk, BusOk, TimesAll, BankOk, Start, Broadcast, Running, AnyUnit;
    if AnyResident(b) {
      PB.BroadcastEffect(prog, u, c);
      PB.GoneFinished(prog, u, c);
      StartsSomething(prog, b, t, c);
    } else {
      PS.StartEffect(b, c);
      assert forall i: nat | Resident(Start(b, c), i) :: Resident(b, i);
    }
  }

  lemma {:induction false} NothingResident(prog: seq<Op>, u: State, c: int)
    requires Shape(prog, u) && u.bus == None && Finished(prog, u, c) == {} && !AnyResident(Broadcast(prog, u, c))
    requires BankOk(prog, u, u.intBank, true) && BankOk(prog, u, u.fpBank, false)
    ensures !AnyResident(u)
  {
    PB.BroadcastEffect(prog, u, c);
    PB.GoneFinished(prog, u, c);
    if i: nat :| Resident(u, i) {
      assert Resident(Broadcast(prog, u, c), i);
    }
  }

  /** Where the weight drops in a cycle that starts with the bus idle and nothing finished. */
  lemma {:induction false} IdleBusMoves(prog: seq<Op>, s: State, x: Inside, c: int)
    requires c > 0 && Inv(prog, s, Through(c - 1)) && x == Stages(prog, s, c)
    requires s.bus == None && Finished(prog, x.retired, c) == {} && !Quiet(prog, s)
    ensures Less(prog, x.started, c, x.issued, c) || Less(prog, x.issued, c, x.fetched, c)
            || Less(prog, x.fetched, c, x.fetched, c + 1)
  {
    hide BankOk, OrderAll, OperandsAll, TimesAll, QueueOk, MapOk, BusOk, Weight, Running, Less;
    hide PF.FetchAndDispatch, Start, NoMore;
    StagesInv(prog, s, c);
    assert x.retired == s;
    StartMoves(prog, s, x.broadcast, Clock(c - 1, c - 1, c, c), c);
    if i: nat :| Running(prog, x.started, c, i) {
      RunningThroughIssue(prog, x.started, Clock(c - 1, c - 1, c, c), c, i);
      RunningThroughFetch(prog, x.issued, Clock(c - 1, c, c, c), c, i);
      TickWeight(prog, x.fetched, c);
    } else {
      NothingResident(prog, s, c);
      PS.StartEffect(x.broadcast, c);
      PB.BroadcastEffect(prog, s, c);
      if s.queue != [] {
        IssueMoves(prog, x.started, Clock(c - 1, c - 1, c, c), c);
      } else {
        FetchWeight(prog, x.issued, Clock(c - 1, c, c, c), c);
      }
    }
  }

  /** No stage, nor the clock, adds weight. */
  ghost predicate NeverMore(prog: seq<Op>, s: State, x: Inside, c: int) {
    && NoMore(prog, s, c, x.retired, c)
    && NoMore(prog, x.retired, c, x.broadcast, c)
    && NoMore(prog, x.broadcast, c, x.started, c)
    && NoMore(prog, x.started, c, x.issued, c)
    && NoMore(prog, x.issued, c, x.fetched, c)
    && NoMore(prog, x.fetched, c, x.fetched, c + 1)
  }

  lemma {:induction false} StageWeights(prog: seq<Op>, s: State, x: Inside, c: int)
    requires c > 0 && Inv(prog, s, Through(c - 1)) && IsStages(prog, s, c, x) && CycleInv(prog, x, c)
    ensures NeverMore(prog, s, x, c)
    ensures s.bus.Some? ==> Less(prog, s, c, x.retired, c)
    ensures Finished(prog, x.retired, c) != {} ==> Less(prog, x.retired, c, x.broadcast, c)
  {
    RetireWeight(prog, s, Through(c - 1), c);
    BroadcastWeight(prog, x.retired, Clock(c - 1, c - 1, c - 1, c), c);
    StartWeight(prog, x.broadcast, c);
    IssueWeight(prog, x.started, Clock(c - 1, c - 1, c, c), c);
    FetchWeight(prog, x.issued, Clock(c - 1, c, c, c), c);
    TickWeight(prog, x.fetched, c);
  }

  lemma {:induction false} SomewhereLess(prog: seq<Op>, s: State, x: Inside, c: int)
    requires NeverMore(prog, s, x, c)
    requires Less(prog, s, c, x.retired, c) || Less(prog, x.retired, c, x.broadcast, c)
             || Less(prog, x.started, c, x.issued, c) || Less(prog, x.issued, c, x.fetched, c)
             || Less(prog, x.fetched, c, x.fetched, c + 1)
    ensures Less(prog, s, c, x.fetched, c + 1)
  {
    Chain(prog, s, c, x.retired, c, x.broadcast, c);
    Chain(prog, s, c, x.broadcast, c, x.started, c);
    Chain(prog, s, c, x.started, c, x.issued, c);
    Chain(prog, s, c, x.issued, c, x.fetched, c);
    Chain(prog, s, c, x.fetched, c, x.fetched, c + 1);
  }

  /** One cycle of a run that is not over takes weight away. */
  lemma {:induction false} CycleLess(prog: seq<Op>, s: State, c: int)
    requires c > 0 && Inv(prog, s, Through(c - 1)) && !Quiet(prog, s)
    ensures Less(prog, s, c, Stages(prog, s, c).fetched, c + 1)
  {
    var x := Stages(prog, s, c);
    StagesInv(prog, s, c);
    StageWeights(prog, s, x, c);
    if s.bus == None && Finished(prog, x.retired, c) == {} {
      IdleBusMoves(prog, s, x, c);
    }
    SomewhereLess(prog, s, x, c);
  }

  // ---------------------------------------------------------------- the bound

  lemma {:induction false} TotalBound(prog: seq<Op>, s: State, c: int, n: nat)
    requires Shape(prog, s) && n <= |prog|
    requires forall i: nat | i < n :: Weight(prog, s, c, i) <= 11
    ensures Total(prog, s, c, n) <= 11 * n
  {
    if n > 0 {
      TotalBound(prog, s, c, n - 1);
    }
  }

  /** One cycle takes at least one unit of weight, unless nothing is left. */
  lemma {:induction false} CycleTotal(prog: seq<Op>, s: State, c: int)
    requires c > 0 && Inv(prog, s, Through(c - 1)) && Shape(prog, Stages(prog, s, c).fetched)
    ensures Quiet(prog, s) || Total(prog, Stages(prog, s, c).fetched, c + 1, |prog|) < Total(prog, s, c, |prog|)
  {
    hide QueueOk, BankOk, MapOk, OrderAll, OperandsAll, BusOk, TimesAll;
    if !Quiet(prog, s) {
      CycleLess(prog, s, c);
      TotalMonotone(prog, s, c, Stages(prog, s, c).fetched, c + 1, |prog|);
    }
  }

  lemma {:induction false} FirstTotal(prog: seq<Op>, s: State)
    requires Shape(prog, s) && s.fetched == 0
    ensures Total(prog, s, 1, |prog|) <= 11 * |prog|
  {
    TotalBound(prog, s, 1, |prog|);
  }

  /** Weight left after `k` cycles. */
  ghost function Left(prog: seq<Op>, k: nat): nat
    requires ValidProgram(prog)
  {
    Total(prog, After(prog, k), k + 1, |prog|)
  }

  lemma {:induction false} LeftDrops(prog: seq<Op>, k: nat)
    requires ValidProgram(prog) && !Quiet(prog, After(prog, k))
    ensures Left(prog, k + 1) < Left(prog, k)
  {
    AfterStep(prog, k + 1);
    CycleTotal(prog, After(prog, k), k + 1);
  }

  /** From any point of a run, the pipeline goes quiet within as many cycles as there is weight left. */
  lemma {:induction false} GoesQuiet(prog: seq<Op>, k: nat) returns (m: nat)
    requires ValidProgram(prog)
    ensures k <= m <= k + Left(prog, k) && Quiet(prog, After(prog, m))
    decreases Left(prog, k)
  {
    if Quiet(prog, After(prog, k)) {
      m := k;
    } else {
      LeftDrops(prog, k);
      m := GoesQuiet(prog, k + 1);
    }
  }
}
