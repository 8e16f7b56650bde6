/** Who goes first: both contended resources, the functional units and the common data bus, go to the
    oldest instruction that can use them, in every cycle of every run. */
module PipelineArbitration {
  import opened Wrappers
  import opened Pipeline
  import opened PipelineInvariant
  import opened PipelineRun
  import PB = PipelineBroadcast
  import PS = PipelineStart
  import PI = PipelineIssue
  import PF = PipelineFetch

  /** Operand `k` of `i` cannot be had at cycle `c`: its true producer has not broadcast before `c`. */
  ghost predicate Blocked(prog: seq<Op>, stamp: seq<Stamp>, i: nat, k: nat, c: int)
    requires i < |prog| == |stamp|
  {
    && k < 3 == |prog[i].rIn| && Real(prog[i].rIn[k])
    && var w := LastWriter(prog, prog[i].rIn[k], i);
       w.Some? && (stamp[w.value].cdb == 0 || stamp[w.value].cdb >= c)
  }

  /** If the younger `j` was started before the older `i` of its kind, `i` lacked an operand then. */
  ghost predicate StartFair(prog: seq<Op>, stamp: seq<Stamp>, i: nat, j: nat)
    requires i < j < |prog| == |stamp|
  {
    stamp[j].execute != 0 && (stamp[i].execute == 0 || stamp[j].execute < stamp[i].execute) ==>
      exists k: nat :: Blocked(prog, stamp, i, k, stamp[j].execute)
  }

  /** If the younger `j` got the bus before the older `i`, `i` had not finished executing then. */
  ghost predicate BusFair(prog: seq<Op>, stamp: seq<Stamp>, i: nat, j: nat)
    requires i < j < |prog| == |stamp|
  {
    stamp[j].cdb != 0 && (stamp[i].cdb == 0 || stamp[j].cdb < stamp[i].cdb) ==>
      stamp[i].execute == 0 || stamp[i].execute + prog[i].cls.Latency() > stamp[j].cdb
  }

  ghost predicate SameBank(prog: seq<Op>, i: nat, j: nat)
    requires i < |prog| && j < |prog|
  {
    prog[i].cls.UsesIntFu() == prog[j].cls.UsesIntFu()
  }

  ghost predicate Fair(prog: seq<Op>, s: State)
    requires |s.stamp| == |prog|
  {
    && (forall i: nat, j: nat | i < j < |prog| && Issued(prog, s, i) && Issued(prog, s, j) && SameBank(prog, i, j) ::
          StartFair(prog, s.stamp, i, j))
    && (forall i: nat, j: nat | i < j < |prog| && Issued(prog, s, i) && Issued(prog, s, j)
                                && prog[i].cls.WritesCdb() && prog[j].cls.WritesCdb() ::
          BusFair(prog, s.stamp, i, j))
  }

  // ---------------------------------------------------------------- broadcast

  lemma {:induction false} BroadcastStartFair(prog: seq<Op>, s: State, t: Clock, c: int, i: nat, j: nat)
    requires Inv(prog, s, t) && t.cdb == c > 0 && t.execute < c && s.bus == None
    requires i < j < |prog| && Issued(prog, s, j)
    requires StartFair(prog, s.stamp, i, j)
    ensures |Broadcast(prog, s, c).stamp| == |prog| && StartFair(prog, Broadcast(prog, s, c).stamp, i, j)
  {
    PB.BroadcastEffect(prog, s, c);
    var s' := Broadcast(prog, s, c);
    assert TimesOk(prog, s, t, j);
    if s'.stamp[j].execute != 0 && (s'.stamp[i].execute == 0 || s'.stamp[j].execute < s'.stamp[i].execute) {
      var k: nat :| Blocked(prog, s.stamp, i, k, s.stamp[j].execute);
      assert Blocked(prog, s'.stamp, i, k, s'.stamp[j].execute);
    }
  }

  lemma {:induction false} BroadcastBusFair(prog: seq<Op>, s: State, t: Clock, c: int, i: nat, j: nat)
    requires Inv(prog, s, t) && t.cdb == c > 0 && s.bus == None
    requires i < j < |prog| && Issued(prog, s, i) && Issued(prog, s, j)
    requires prog[i].cls.WritesCdb() && prog[j].cls.WritesCdb()
    requires BusFair(prog, s.stamp, i, j)
    ensures |Broadcast(prog, s, c).stamp| == |prog| && BusFair(prog, Broadcast(prog, s, c).stamp, i, j)
  {
    PB.BroadcastEffect(prog, s, c);
    assert TimesOk(prog, s, t, i) && TimesOk(prog, s, t, j);
    var done := Finished(prog, s, c);
    if PB.Winner(prog, s, c) == Some(j) && s.stamp[i].cdb == 0 && s.stamp[i].execute != 0 {
      assert Resident(s, i);
      assert i !in Writers(prog, done);
    }
  }

  lemma {:induction false} BroadcastFair(prog: seq<Op>, s: State, t: Clock, c: int)
    requires Inv(prog, s, t) && t.cdb == c > 0 && t.execute < c && s.bus == None && Fair(prog, s)
    ensures |Broadcast(prog, s, c).stamp| == |prog| && Fair(prog, Broadcast(prog, s, c))
  {
    PB.BroadcastEffect(prog, s, c);
    var s' := Broadcast(prog, s, c);
    assert Frontier(s') == Frontier(s);
    forall i: nat, j: nat | i < j < |prog| && Issued(prog, s', i) && Issued(prog, s', j) && SameBank(prog, i, j)
      ensures StartFair(prog, s'.stamp, i, j)
    {
      assert Issued(prog, s, i) && Issued(prog, s, j);
      BroadcastStartFair(prog, s, t, c, i, j);
    }
    forall i: nat, j: nat | i < j < |prog| && Issued(prog, s', i) && Issued(prog, s', j)
                            && prog[i].cls.WritesCdb() && prog[j].cls.WritesCdb()
      ensures BusFair(prog, s'.stamp, i, j)
    {
      assert Issued(prog, s, i) && Issued(prog, s, j);
      BroadcastBusFair(prog, s, t, c, i, j);
    }
  }

  // ---------------------------------------------------------------- start

  /** A waiting instruction that is not ready lacks an operand. */
  lemma {:induction false} NotReadyIsBlocked(prog: seq<Op>, s: State, t: Clock, c: int, i: nat) returns (k: nat)
    requires Inv(prog, s, t) && t.issue < c && Issued(prog, s, i) && s.stamp[i].execute == 0
    requires !Ready(s.stamp, c, i)
    ensures Blocked(prog, s.stamp, i, k, c)
  {
    assert TimesOk(prog, s, t, i);
    k :| k < |s.stamp[i].q| && !Resolved(s.stamp, s.stamp[i].q[k], c);
    assert TagOk(prog, s.stamp, i, 0);
    assert TagOk(prog, s.stamp, i, k);
    var w := LastWriter(prog, prog[i].rIn[k], i);
    assert Issued(prog, s, w.value) && TimesOk(prog, s, t, w.value);
  }

  /** When a unit starts `w`, every older waiting instruction of the bank lacks an operand. */
  lemma {:induction false} OlderBlocked(prog: seq<Op>, s: State, t: Clock, ints: bool, c: int, w: nat, i: nat)
      returns (k: nat)
    requires Inv(prog, s, t) && t.issue < c
    requires Oldest(ReadySet(PS.BankOf(s, ints).rs, s.stamp, c)) == Some(w)
    requires i < w && Issued(prog, s, i) && prog[i].cls.UsesIntFu() == ints && s.stamp[i].execute == 0
    ensures Blocked(prog, s.stamp, i, k, c)
  {
    assert TimesOk(prog, s, t, i);
    assert Some(i) in PS.BankOf(s, ints).rs;
    assert i !in ReadySet(PS.BankOf(s, ints).rs, s.stamp, c);
    k := NotReadyIsBlocked(prog, s, t, c, i);
  }

  lemma {:induction false} ServedPairFair(prog: seq<Op>, s: State, t: Clock, ints: bool, c: int, w: nat, i: nat, j: nat)
    requires Inv(prog, s, t) && t.execute == c > 0 && t.issue < c
    requires Oldest(ReadySet(PS.BankOf(s, ints).rs, s.stamp, c)) == Some(w) && w < |prog|
    requires prog[w].cls.UsesIntFu() == ints && s.stamp[w].execute == 0
    requires i < j < |prog| && Issued(prog, s, i) && Issued(prog, s, j) && SameBank(prog, i, j)
    requires StartFair(prog, s.stamp, i, j)
    ensures StartFair(prog, s.stamp[w := s.stamp[w].(execute := c)], i, j)
  {
    var stamp' := s.stamp[w := s.stamp[w].(execute := c)];
    assert TimesOk(prog, s, t, i) && TimesOk(prog, s, t, j);
    if stamp'[j].execute != 0 && (stamp'[i].execute == 0 || stamp'[j].execute < stamp'[i].execute) {
      var k: nat;
      if j == w {
        k := OlderBlocked(prog, s, t, ints, c, w, i);
      } else {
        k :| Blocked(prog, s.stamp, i, k, s.stamp[j].execute);
      }
      assert Blocked(prog, stamp', i, k, stamp'[j].execute);
    }
  }

  lemma {:induction false} ServedFair(prog: seq<Op>, s: State, t: Clock, ints: bool, c: int, k: nat)
    requires Inv(prog, s, t) && t.execute == t.cdb == c > 0 && t.issue < c && k < |PS.BankOf(s, ints).fu|
    requires Fair(prog, s)
    ensures |PS.Served(s, ints, c, k).stamp| == |prog| && Fair(prog, PS.Served(s, ints, c, k))
  {
    var r := Oldest(ReadySet(PS.BankOf(s, ints).rs, s.stamp, c));
    var s' := PS.Served(s, ints, c, k);
    if PS.BankOf(s, ints).fu[k] == None && r.Some? {
      var w := r.value;
      PS.ServedEffect(prog, s, t, ints, c, k, w);
      assert forall j: nat :: Issued(prog, s', j) <==> Issued(prog, s, j);
      forall i: nat, j: nat | i < j < |prog| && Issued(prog, s', i) && Issued(prog, s', j) && SameBank(prog, i, j)
        ensures StartFair(prog, s'.stamp, i, j)
      {
        ServedPairFair(prog, s, t, ints, c, w, i, j);
      }
      forall i: nat, j: nat | i < j < |prog| && Issued(prog, s', i) && Issued(prog, s', j)
                              && prog[i].cls.WritesCdb() && prog[j].cls.WritesCdb()
        ensures BusFair(prog, s'.stamp, i, j)
      {
        assert BusFair(prog, s.stamp, i, j) && TimesOk(prog, s, t, j);
      }
    } else {
      assert s' == s;
    }
  }

  lemma {:induction false} ServedUpToFair(prog: seq<Op>, s: State, t: Clock, ints: bool, c: int, k: nat)
    requires Inv(prog, s, t) && t.execute == t.cdb == c > 0 && t.issue < c && k <= |PS.BankOf(s, ints).fu|
    requires Fair(prog, s)
    ensures var s' := PS.With(s, ints, StartUpTo(PS.BankOf(s, ints), s.stamp, c, k));
      |s'.stamp| == |prog| && Fair(prog, s')
  {
    hide BankOk, MapOk, OrderAll, OperandsAll, BusOk, TimesAll, QueueOk, Fair;
    if k == 0 {
      assert PS.With(s, ints, StartUpTo(PS.BankOf(s, ints), s.stamp, c, k)) == s;
    } else {
      ServedUpToFair(prog, s, t, ints, c, k - 1);
      PS.ServedUpToKeeps(prog, s, t, ints, c, k - 1);
      var u := PS.With(s, ints, StartUpTo(PS.BankOf(s, ints), s.stamp, c, k - 1));
      ServedFair(prog, u, t, ints, c, k - 1);
      assert PS.Served(u, ints, c, k - 1) == PS.With(s, ints, StartUpTo(PS.BankOf(s, ints), s.stamp, c, k));
    }
  }

  lemma {:induction false} StartKeepsFair(prog: seq<Op>, s: State, t: Clock, c: int)
    requires Inv(prog, s, t) && t.execute == t.cdb == c > 0 && t.issue < c && Fair(prog, s)
    ensures |Start(s, c).stamp| == |prog| && Fair(prog, Start(s, c))
  {
    ServedUpToFair(prog, s, t, true, c, |s.intBank.fu|);
    PS.StartKeeps(prog, s, t, c);
    var u := StartInt(s, c);
    assert u == PS.With(s, true, StartUpTo(s.intBank, s.stamp, c, |s.intBank.fu|));
    ServedUpToFair(prog, u, t, false, c, |u.fpBank.fu|);
    assert Start(s, c) == PS.With(u, false, StartUpTo(u.fpBank, u.stamp, c, |u.fpBank.fu|));
  }

  // ---------------------------------------------------------------- issue and fetch

  /** Fairness only speaks of what has started, so later stages that leave those stamps alone keep it. */
  lemma {:induction false} FairPersists(prog: seq<Op>, s: State, s': State)
    requires |s.stamp| == |s'.stamp| == |prog| && ValidProgram(prog) && Fair(prog, s)
    requires forall j: nat | j < |prog| && Issued(prog, s', j) ::
      if Issued(prog, s, j) then s'.stamp[j].execute == s.stamp[j].execute && s'.stamp[j].cdb == s.stamp[j].cdb
      else s'.stamp[j].execute == 0 && s'.stamp[j].cdb == 0
    requires forall i: nat, j: nat | Issued(prog, s', i) && Issued(prog, s, j) && i < j :: Issued(prog, s, i)
    requires forall i: nat | Issued(prog, s, i) :: Issued(prog, s', i)
    ensures Fair(prog, s')
  {
    forall i: nat, j: nat | i < j < |prog| && Issued(prog, s', i) && Issued(prog, s', j) && SameBank(prog, i, j)
      ensures StartFair(prog, s'.stamp, i, j)
    {
      if Issued(prog, s, j) {
        assert StartFair(prog, s.stamp, i, j);
        if k: nat :| Blocked(prog, s.stamp, i, k, s.stamp[j].execute) {
          var w := LastWriter(prog, prog[i].rIn[k], i).value;
          assert Issued(prog, s, w);
          assert Blocked(prog, s'.stamp, i, k, s'.stamp[j].execute);
        }
      }
    }
  }

  lemma {:induction false} IssueFair(prog: seq<Op>, s: State, t: Clock, c: int)
    requires Inv(prog, s, t) && t.issue < c && Inv(prog, Issue(prog, s, c), t.(issue := c)) && Fair(prog, s)
    ensures Fair(prog, Issue(prog, s, c))
  {
    hide MapOk, OrderAll, OperandsAll, BusOk, BankOk, Fair;
    var s' := Issue(prog, s, c);
    if s' != s {
      var h := s.queue[0];
      assert Seen(prog, s, h) && TimesOk(prog, s, t, h);
      PI.PopFrontier(prog, s, s');
      FairPersists(prog, s, s');
    }
  }

  lemma {:induction false} FetchFair(prog: seq<Op>, s: State, t: Clock, c: int)
    requires Inv(prog, s, t) && c > 0 && Fair(prog, s)
    ensures |PF.FetchAndDispatch(prog, s, c).stamp| == |prog| && Fair(prog, PF.FetchAndDispatch(prog, s, c))
  {
    PF.FetchEffect(prog, s, t, c);
    PF.FetchFrontier(prog, s, t, c);
    FairPersists(prog, s, PF.FetchAndDispatch(prog, s, c));
  }

  lemma {:induction false} RetireFair(prog: seq<Op>, s: State)
    requires Shape(prog, s) && Fair(prog, s)
    ensures |Retire(prog, s).stamp| == |prog| && Fair(prog, Retire(prog, s))
  {
    hide StartFair, BusFair;
    var s' := Retire(prog, s);
    assert s'.stamp == s.stamp && Frontier(s') == Frontier(s);
    assert forall j: nat :: Issued(prog, s', j) <==> Issued(prog, s, j);
  }

  lemma {:induction false} StagesFair(prog: seq<Op>, s: State, x: Inside, c: int)
    requires c > 0 && Inv(prog, s, Through(c - 1)) && IsStages(prog, s, c, x) && CycleInv(prog, x, c) && Fair(prog, s)
    ensures |x.fetched.stamp| == |prog| && Fair(prog, x.fetched)
  {
    hide BankOk, OrderAll, OperandsAll, TimesAll, QueueOk, MapOk, BusOk, Fair;
    RetireFair(prog, s);
    BroadcastFair(prog, x.retired, Clock(c - 1, c - 1, c - 1, c), c);
    StartKeepsFair(prog, x.broadcast, Clock(c - 1, c - 1, c, c), c);
    IssueFair(prog, x.started, Clock(c - 1, c - 1, c, c), c);
    FetchFair(prog, x.issued, Clock(c - 1, c, c, c), c);
  }

  // ---------------------------------------------------------------- over every run

  lemma {:induction false} InitFair(prog: seq<Op>)
    requires ValidProgram(prog)
    ensures Fair(prog, Init(prog))
  {
    assert forall j: nat :: !Seen(prog, Init(prog), j);
  }

  lemma {:induction false} CycleFair(prog: seq<Op>, s: State, c: int)
    requires c > 0 && Inv(prog, s, Through(c - 1)) && Fair(prog, s)
    requires |Stages(prog, s, c).fetched.stamp| == |prog|
    ensures Fair(prog, Stages(prog, s, c).fetched)
  {
    StagesInv(prog, s, c);
    StagesFair(prog, s, Stages(prog, s, c), c);
  }

  lemma {:induction false} NextFair(prog: seq<Op>, k: nat)
    requires ValidProgram(prog) && Fair(prog, After(prog, k))
    ensures Fair(prog, After(prog, k + 1))
  {
    AfterStep(prog, k + 1);
    CycleFair(prog, After(prog, k), k + 1);
  }

  /** At every point of every run, units and bus have gone to the oldest instruction able to use them. */
  lemma {:induction false} AlwaysFair(prog: seq<Op>, k: nat)
    requires ValidProgram(prog)
    ensures Fair(prog, After(prog, k))
  {
    if k == 0 {
      InitFair(prog);
    } else {
      AlwaysFair(prog, k - 1);
      NextFair(prog, k - 1);
    }
  }

  /** After `k` units have been served, no ready instruction is left or all of them are busy. */
  lemma {:induction false} StartsAll(b: Bank, stamp: seq<Stamp>, c: int, k: nat)
    requires k <= |b.fu| && c > 0
    ensures var r := StartUpTo(b, stamp, c, k);
      ReadySet(r.0.rs, r.1, c) == {} || forall l | 0 <= l < k :: r.0.fu[l].Some?
  {
    hide Oldest, ReadySet;
    if k > 0 {
      StartsAll(b, stamp, c, k - 1);
      var p := StartUpTo(b, stamp, c, k - 1);
      ServesOne(p.0, p.1, c, k - 1);
    }
  }

  /** A free unit takes an instruction if there is a ready one. */
  lemma {:induction false} ServesOne(b: Bank, stamp: seq<Stamp>, c: int, k: nat)
    requires k < |b.fu|
    ensures var r := StartOne(b, stamp, c, k);
      && (ReadySet(b.rs, stamp, c) != {} ==> r.0.fu[k].Some?)
      && (ReadySet(b.rs, stamp, c) == {} ==> r == (b, stamp))
      && forall l | 0 <= l < |b.fu| && l != k :: r.0.fu[l] == b.fu[l]
  {
    hide Ready;
  }

  lemma {:induction false} ReadyBefore(stamp: seq<Stamp>, stamp': seq<Stamp>, c: int, v: nat)
    requires PS.OnlyStarts(stamp, stamp', c) && c > 0 && Ready(stamp', c, v)
    ensures Ready(stamp, c, v)
  {
    forall k | 0 <= k < |stamp[v].q| ensures Resolved(stamp, stamp[v].q[k], c) {
      assert Resolved(stamp', stamp'[v].q[k], c);
    }
  }

  /** No unit idles: if an instruction could start but did not, every unit of its kind is busy. */
  lemma {:induction false} ReadyLeftMeansBusy(s: State, c: int, v: nat, ints: bool)
    requires c > 0
    requires Some(v) in PS.BankOf(Start(s, c), ints).rs && Ready(Start(s, c).stamp, c, v)
    ensures forall l | 0 <= l < |PS.BankOf(Start(s, c), ints).fu| :: PS.BankOf(Start(s, c), ints).fu[l].Some?
  {
    var u := StartInt(s, c);
    StartsAll(s.intBank, s.stamp, c, |s.intBank.fu|);
    StartsAll(u.fpBank, u.stamp, c, |u.fpBank.fu|);
    PS.StartUpToEffect(u.fpBank, u.stamp, c, |u.fpBank.fu|);
    ReadyBefore(u.stamp, Start(s, c).stamp, c, v);
    assert ints ==> v in ReadySet(u.intBank.rs, u.stamp, c);
    assert !ints ==> v in ReadySet(Start(s, c).fpBank.rs, Start(s, c).stamp, c);
  }
}
