/** The execution-start stage (issue_To_execute) keeps the invariant, starts instructions only after
    their true producers have broadcast, and serves the oldest ready instruction first. */
module PipelineStart {
  import opened Wrappers
  import opened Pipeline
  import opened PipelineInvariant

  /** `s` with one bank and the stamps replaced. */
  ghost function With(s: State, ints: bool, r: (Bank, seq<Stamp>)): State {
    if ints then s.(intBank := r.0, stamp := r.1) else s.(fpBank := r.0, stamp := r.1)
  }

  ghost function BankOf(s: State, ints: bool): Bank {
    if ints then s.intBank else s.fpBank
  }

  /** The state after unit `k` of a bank has been served. */
  ghost function Served(s: State, ints: bool, c: int, k: nat): State
    requires k < |BankOf(s, ints).fu|
  {
    With(s, ints, StartOne(BankOf(s, ints), s.stamp, c, k))
  }

  /** Starting only turns "not started" into "started now". */
  ghost predicate OnlyStarts(stamp: seq<Stamp>, stamp': seq<Stamp>, c: int) {
    && |stamp'| == |stamp|
    && forall i | 0 <= i < |stamp| ::
         stamp'[i] == stamp[i] || (stamp[i].execute == 0 && stamp'[i] == stamp[i].(execute := c))
  }

  lemma {:induction false} StartUpToEffect(b: Bank, stamp: seq<Stamp>, c: int, k: nat)
    requires k <= |b.fu| && c > 0
    ensures var r := StartUpTo(b, stamp, c, k);
      && r.0.rs == b.rs && OnlyStarts(stamp, r.1, c)
      && forall j | k <= j < |b.fu| :: r.0.fu[j] == b.fu[j]
  {
    if k > 0 {
      StartUpToEffect(b, stamp, c, k - 1);
    }
  }

  lemma {:induction false} StartEffect(s: State, c: int)
    requires c > 0
    ensures var s' := Start(s, c);
      && s'.intBank.rs == s.intBank.rs && s'.fpBank.rs == s.fpBank.rs && OnlyStarts(s.stamp, s'.stamp, c)
      && s'.queue == s.queue && s'.fetched == s.fetched && s'.bus == s.bus
  {
    StartUpToEffect(s.intBank, s.stamp, c, |s.intBank.fu|);
    var u := StartInt(s, c);
    StartUpToEffect(u.fpBank, u.stamp, c, |u.fpBank.fu|);
  }

  /** What serving one unit does when it starts instruction `w`. */
  lemma {:induction false} ServedEffect(prog: seq<Op>, s: State, t: Clock, ints: bool, c: int, k: nat, w: nat)
    requires Inv(prog, s, t) && t.execute == c > 0 && k < |BankOf(s, ints).fu|
    requires Oldest(ReadySet(BankOf(s, ints).rs, s.stamp, c)) == Some(w) && BankOf(s, ints).fu[k] == None
    ensures var s' := Served(s, ints, c, k);
      && Issued(prog, s, w) && Some(w) in BankOf(s, ints).rs && Some(w) !in BankOf(s, ints).fu
      && prog[w].cls.UsesIntFu() == ints
      && Ready(s.stamp, c, w)
      && s'.stamp == s.stamp[w := s.stamp[w].(execute := c)]
      && Shape(prog, s') && Frontier(s') == Frontier(s)
  {
    var s' := Served(s, ints, c, k);
    assert w in ReadySet(BankOf(s, ints).rs, s.stamp, c);
    forall j | 0 <= j < |prog| ensures InRange(s'.stamp[j].q, |prog|) {
      assert s'.stamp[j].q == s.stamp[j].q;
    }
  }

  lemma {:induction false} MembersAfterUpdate(xs: seq<Ref>, k: nat, w: nat)
    requires k < |xs| && xs[k] == None
    ensures forall v: nat :: Some(v) in xs[k := Some(w)] <==> v == w || Some(v) in xs
    ensures Distinct(xs) && Some(w) !in xs ==> Distinct(xs[k := Some(w)])
  {
    var ys := xs[k := Some(w)];
    forall v: nat ensures Some(v) in ys <==> v == w || Some(v) in xs {
      if v == w {
        assert ys[k] == Some(w);
      } else if Some(v) in xs {
        var a :| 0 <= a < |xs| && xs[a] == Some(v);
        assert ys[a] == Some(v);
      }
    }
  }

  /** The bank whose unit `k` takes `w`. */
  lemma {:induction false} OwnBank(prog: seq<Op>, s: State, s': State, b: Bank, ints: bool, c: int, k: nat, w: nat)
    requires Shape(prog, s) && Shape(prog, s') && BankOk(prog, s, b, ints)
    requires k < |b.fu| && b.fu[k] == None && Some(w) in b.rs && Some(w) !in b.fu && c > 0
    requires s'.queue == s.queue && s'.fetched == s.fetched && w < |prog|
    requires s'.stamp == s.stamp[w := s.stamp[w].(execute := c)]
    ensures BankOk(prog, s', b.(fu := b.fu[k := Some(w)]), ints)
  {
    MembersAfterUpdate(b.fu, k, w);
    assert Frontier(s') == Frontier(s);
  }

  lemma {:induction false} OtherBank(prog: seq<Op>, s: State, s': State, b: Bank, ints: bool, c: int, w: nat)
    requires Shape(prog, s) && Shape(prog, s') && BankOk(prog, s, b, ints) && Some(w) !in b.rs
    requires s'.queue == s.queue && s'.fetched == s.fetched && w < |prog|
    requires s'.stamp == s.stamp[w := s.stamp[w].(execute := c)]
    ensures BankOk(prog, s', b, ints)
  {
    assert Frontier(s') == Frontier(s);
  }

  lemma {:induction false} ServedBanks(prog: seq<Op>, s: State, t: Clock, ints: bool, c: int, k: nat, w: nat)
    requires Inv(prog, s, t) && t.execute == c > 0 && k < |BankOf(s, ints).fu|
    requires Oldest(ReadySet(BankOf(s, ints).rs, s.stamp, c)) == Some(w) && BankOf(s, ints).fu[k] == None
    requires Shape(prog, Served(s, ints, c, k))
    ensures var s' := Served(s, ints, c, k);
      BankOk(prog, s', s'.intBank, true) && BankOk(prog, s', s'.fpBank, false)
  {
    hide MapOk, OrderAll, OperandsAll, TimesAll, BusOk, QueueOk;
    ServedEffect(prog, s, t, ints, c, k, w);
    var s' := Served(s, ints, c, k);
    OwnBank(prog, s, s', BankOf(s, ints), ints, c, k, w);
    OtherBank(prog, s, s', BankOf(s, !ints), !ints, c, w);
  }

  lemma {:induction false} ServedTimes(prog: seq<Op>, s: State, t: Clock, ints: bool, c: int, k: nat, w: nat)
    requires Inv(prog, s, t) && t.execute == c > 0 && t.issue < c && k < |BankOf(s, ints).fu|
    requires Oldest(ReadySet(BankOf(s, ints).rs, s.stamp, c)) == Some(w) && BankOf(s, ints).fu[k] == None
    requires Shape(prog, Served(s, ints, c, k))
    ensures TimesAll(prog, Served(s, ints, c, k), t) && OrderAll(prog, Served(s, ints, c, k))
  {
    ServedEffect(prog, s, t, ints, c, k, w);
    var s' := Served(s, ints, c, k);
    forall j: nat | Seen(prog, s', j) ensures TimesOk(prog, s', t, j) {
      assert Seen(prog, s, j) && TimesOk(prog, s, t, j);
    }
    forall i: nat, j: nat | i < j < |prog| ensures OrderOk(prog, s', i, j) {
      assert OrderOk(prog, s, i, j);
    }
  }

  /** The heart of renaming: a ready instruction's tags stand for its true producers. */
  lemma {:induction false} ReadyIsSafe(prog: seq<Op>, s: State, t: Clock, c: int, w: nat, k: nat)
    requires ValidProgram(prog) && Shape(prog, s)
    requires Issued(prog, s, w) && Ready(s.stamp, c, w) && s.stamp[w].issue < c && k < 3
    requires TagOk(prog, s.stamp, w, k) && TimesAll(prog, s, t)
    ensures Safe(prog, s.stamp[w := s.stamp[w].(execute := c)], w, k)
  {
    assert Resolved(s.stamp, s.stamp[w].q[k], c);
    if Real(prog[w].rIn[k]) {
      var p := LastWriter(prog, prog[w].rIn[k], w);
      assert p.Some? ==> Issued(prog, s, p.value) && TimesOk(prog, s, t, p.value);
    }
  }

  lemma {:induction false} ServedOperands(prog: seq<Op>, s: State, t: Clock, ints: bool, c: int, k: nat, w: nat)
    requires Inv(prog, s, t) && t.execute == c > 0 && t.issue < c && k < |BankOf(s, ints).fu|
    requires Oldest(ReadySet(BankOf(s, ints).rs, s.stamp, c)) == Some(w) && BankOf(s, ints).fu[k] == None
    requires Shape(prog, Served(s, ints, c, k))
    ensures OperandsAll(prog, Served(s, ints, c, k))
  {
    ServedEffect(prog, s, t, ints, c, k, w);
    var s' := Served(s, ints, c, k);
    forall j: nat, x: nat | Issued(prog, s', j) && x < 3
      ensures TagOk(prog, s'.stamp, j, x) && Safe(prog, s'.stamp, j, x)
    {
      assert Issued(prog, s, j) && TagOk(prog, s.stamp, j, x) && Safe(prog, s.stamp, j, x);
      if j == w {
        assert TimesOk(prog, s, t, w);
        ReadyIsSafe(prog, s, t, c, w, x);
      }
    }
  }

  /** Queue, bus and map table do not depend on what has started. */
  lemma {:induction false} ServedRest(prog: seq<Op>, s: State, s': State, t: Clock, c: int, w: nat)
    requires Shape(prog, s) && Shape(prog, s') && QueueOk(prog, s) && BusOk(prog, s, t) && MapOk(prog, s) && w < |prog|
    requires s'.queue == s.queue && s'.fetched == s.fetched && s'.bus == s.bus && s'.mapTable == s.mapTable
    requires s'.stamp == s.stamp[w := s.stamp[w].(execute := c)]
    ensures QueueOk(prog, s') && BusOk(prog, s', t) && MapOk(prog, s')
  {
    assert Frontier(s') == Frontier(s);
    forall reg: nat | reg < TOTAL_REGS ensures s'.mapTable[reg] == ExpectedMap(prog, s', reg) {
      assert s.mapTable[reg] == ExpectedMap(prog, s, reg);
    }
  }

  lemma {:induction false} ServedKeeps(prog: seq<Op>, s: State, t: Clock, ints: bool, c: int, k: nat)
    requires Inv(prog, s, t) && t.execute == c > 0 && t.issue < c && k < |BankOf(s, ints).fu|
    ensures Inv(prog, Served(s, ints, c, k), t)
  {
    hide BankOk, OrderAll, OperandsAll, TimesAll, QueueOk, MapOk, BusOk, Issued, Ready;
    var r := Oldest(ReadySet(BankOf(s, ints).rs, s.stamp, c));
    var s' := Served(s, ints, c, k);
    if BankOf(s, ints).fu[k] == None && r.Some? {
      var w := r.value;
      ServedEffect(prog, s, t, ints, c, k, w);
      ServedBanks(prog, s, t, ints, c, k, w);
      ServedTimes(prog, s, t, ints, c, k, w);
      ServedOperands(prog, s, t, ints, c, k, w);
      ServedRest(prog, s, s', t, c, w);
    } else {
      assert s' == s;
    }
  }

  lemma {:induction false} ServedUpToKeeps(prog: seq<Op>, s: State, t: Clock, ints: bool, c: int, k: nat)
    requires Inv(prog, s, t) && t.execute == c > 0 && t.issue < c && k <= |BankOf(s, ints).fu|
    ensures Inv(prog, With(s, ints, StartUpTo(BankOf(s, ints), s.stamp, c, k)), t)
  {
    hide Inv;
    if k == 0 {
      assert With(s, ints, StartUpTo(BankOf(s, ints), s.stamp, c, k)) == s;
    } else {
      ServedUpToKeeps(prog, s, t, ints, c, k - 1);
      var u := With(s, ints, StartUpTo(BankOf(s, ints), s.stamp, c, k - 1));
      ServedKeeps(prog, u, t, ints, c, k - 1);
      assert Served(u, ints, c, k - 1) == With(s, ints, StartUpTo(BankOf(s, ints), s.stamp, c, k));
    }
  }

  lemma {:induction false} StartKeeps(prog: seq<Op>, s: State, t: Clock, c: int)
    requires Inv(prog, s, t) && t.execute == c > 0 && t.issue < c
    ensures Inv(prog, StartInt(s, c), t) && Inv(prog, Start(s, c), t)
  {
    ServedUpToKeeps(prog, s, t, true, c, |s.intBank.fu|);
    var u := StartInt(s, c);
    assert u == With(s, true, StartUpTo(s.intBank, s.stamp, c, |s.intBank.fu|));
    ServedUpToKeeps(prog, u, t, false, c, |u.fpBank.fu|);
    assert Start(s, c) == With(u, false, StartUpTo(u.fpBank, u.stamp, c, |u.fpBank.fu|));
  }
}
