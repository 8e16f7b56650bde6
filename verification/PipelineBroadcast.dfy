/** The broadcast stage (execute_To_CDB) keeps the invariant and picks the oldest finished writer. */
module PipelineBroadcast {
  import opened Wrappers
  import opened Pipeline
  import opened PipelineInvariant

  /** The writer that gets the bus, given that the bus is free. */
  ghost function Winner(prog: seq<Op>, s: State, c: int): Ref
    requires Shape(prog, s)
  {
    Oldest(Writers(prog, Finished(prog, s, c)))
  }

  /** Slots whose station and unit the stage frees. */
  ghost function Gone(prog: seq<Op>, s: State, c: int): set<nat>
    requires Shape(prog, s)
  {
    var w := Winner(prog, s, c);
    Silent(prog, Finished(prog, s, c)) + (if w.Some? then {w.value} else {})
  }

  lemma {:induction false} EmptiedMembers(xs: seq<Ref>, gone: set<nat>)
    ensures forall v: nat :: Some(v) in Emptied(xs, gone) <==> Some(v) in xs && v !in gone
    ensures Distinct(xs) ==> Distinct(Emptied(xs, gone))
  {
    var ys := Emptied(xs, gone);
    forall v: nat ensures Some(v) in ys <==> Some(v) in xs && v !in gone {
      if Some(v) in xs && v !in gone {
        var k :| 0 <= k < |xs| && xs[k] == Some(v);
        assert ys[k] == Some(v);
      }
    }
  }

  /** Membership in the tables of a bank that the stage has been through. */
  ghost predicate Shrunk(b: Bank, b': Bank, gone: set<nat>) {
    && |b'.rs| == |b.rs| && |b'.fu| == |b.fu|
    && (forall v: nat :: Some(v) in b'.rs <==> Some(v) in b.rs && v !in gone)
    && (forall v: nat :: Some(v) in b'.fu <==> Some(v) in b.fu && v !in gone)
    && (Distinct(b.rs) ==> Distinct(b'.rs))
    && (Distinct(b.fu) ==> Distinct(b'.fu))
  }

  lemma {:induction false} BankMembersInRange(prog: seq<Op>, b: Bank, b': Bank, gone: set<nat>)
    requires InRange(b.rs, |prog|) && InRange(b.fu, |prog|) && Shrunk(b, b', gone)
    ensures InRange(b'.rs, |prog|) && InRange(b'.fu, |prog|)
  {
    forall k | 0 <= k < |b'.rs| && b'.rs[k].Some? ensures b'.rs[k].value < |prog| {
      assert Some(b'.rs[k].value) in b'.rs;
    }
    forall k | 0 <= k < |b'.fu| && b'.fu[k].Some? ensures b'.fu[k].value < |prog| {
      assert Some(b'.fu[k].value) in b'.fu;
    }
  }

  lemma {:induction false} FreedBanks(prog: seq<Op>, s: State, t: State, more: set<nat>)
    requires Shape(prog, s)
    requires BankOk(prog, s, s.intBank, true) && BankOk(prog, s, s.fpBank, false)
    requires forall v: nat | Some(v) in t.intBank.rs :: Some(v) in s.intBank.rs
    requires forall v: nat | Some(v) in t.intBank.fu :: Some(v) in s.intBank.fu
    requires forall v: nat | Some(v) in t.fpBank.rs :: Some(v) in s.fpBank.rs
    requires forall v: nat | Some(v) in t.fpBank.fu :: Some(v) in s.fpBank.fu
    ensures Shrunk(t.intBank, Freed(prog, t, more).intBank, more)
    ensures Shrunk(t.fpBank, Freed(prog, t, more).fpBank, more)
  {
    var ints := set i <- more | i < |prog| && prog[i].cls.UsesIntFu();
    var fps := set i <- more | i < |prog| && prog[i].cls.UsesFpFu();
    EmptiedMembers(t.intBank.rs, ints);
    EmptiedMembers(t.intBank.fu, ints);
    EmptiedMembers(t.fpBank.rs, fps);
    EmptiedMembers(t.fpBank.fu, fps);
  }

  /** The stage, described by membership. */
  lemma {:induction false} BroadcastEffect(prog: seq<Op>, s: State, c: int)
    requires Shape(prog, s) && s.bus == None
    requires BankOk(prog, s, s.intBank, true) && BankOk(prog, s, s.fpBank, false)
    ensures var s' := Broadcast(prog, s, c);
      var w := Winner(prog, s, c);
      && Shrunk(s.intBank, s'.intBank, Gone(prog, s, c)) && Shrunk(s.fpBank, s'.fpBank, Gone(prog, s, c))
      && s'.stamp == (if w.Some? then s.stamp[w.value := s.stamp[w.value].(cdb := c)] else s.stamp)
      && s'.bus == w && s'.queue == s.queue && s'.fetched == s.fetched && s'.mapTable == s.mapTable
  {
    var done := Finished(prog, s, c);
    var t := Freed(prog, s, Silent(prog, done));
    FreedBanks(prog, s, s, Silent(prog, done));
    var w := Winner(prog, s, c);
    if w.Some? {
      FreedBanks(prog, s, t, {w.value});
    }
  }

  /** Everything the stage frees had finished executing in a unit. */
  lemma {:induction false} GoneFinished(prog: seq<Op>, s: State, c: int)
    requires Shape(prog, s)
    ensures Gone(prog, s, c) <= Finished(prog, s, c)
    ensures Winner(prog, s, c).Some? ==> prog[Winner(prog, s, c).value].cls.WritesCdb()
  {
  }

  lemma {:induction false} BroadcastShape(prog: seq<Op>, s: State, c: int)
    requires Shape(prog, s) && s.bus == None
    requires BankOk(prog, s, s.intBank, true) && BankOk(prog, s, s.fpBank, false)
    ensures Shape(prog, Broadcast(prog, s, c))
  {
    BroadcastEffect(prog, s, c);
    var s' := Broadcast(prog, s, c);
    BankMembersInRange(prog, s.intBank, s'.intBank, Gone(prog, s, c));
    BankMembersInRange(prog, s.fpBank, s'.fpBank, Gone(prog, s, c));
    forall j | 0 <= j < |prog| ensures InRange(s'.stamp[j].q, |prog|) {
      assert s'.stamp[j].q == s.stamp[j].q;
    }
  }

  lemma {:induction false} BroadcastBank(prog: seq<Op>, s: State, s': State, b: Bank, b': Bank, ints: bool,
                                         gone: set<nat>, w: Ref, c: int)
    requires Shape(prog, s) && Shape(prog, s')
    requires BankOk(prog, s, b, ints) && Shrunk(b, b', gone)
    requires s'.queue == s.queue && s'.fetched == s.fetched
    requires w.Some? ==> w.value < |prog| && w.value in gone
    requires s'.stamp == (if w.Some? then s.stamp[w.value := s.stamp[w.value].(cdb := c)] else s.stamp)
    ensures BankOk(prog, s', b', ints)
  {
    assert Frontier(s') == Frontier(s);
  }

  lemma {:induction false} BroadcastTimes(prog: seq<Op>, s: State, t: Clock, c: int, j: nat)
    requires Inv(prog, s, t) && t.cdb == c > 0 && s.bus == None
    requires Shape(prog, Broadcast(prog, s, c))
    requires Seen(prog, s, j)
    ensures TimesOk(prog, Broadcast(prog, s, c), t, j)
  {
    BroadcastEffect(prog, s, c);
    GoneFinished(prog, s, c);
    assert TimesOk(prog, s, t, j);
    var s' := Broadcast(prog, s, c);
    assert Frontier(s') == Frontier(s);
    if j in Gone(prog, s, c) {
      assert Resident(s, j) && s.stamp[j].execute > 0;
      assert !Resident(s', j);
    } else {
      assert Resident(s', j) == Resident(s, j);
    }
  }

  lemma {:induction false} BroadcastOrder(prog: seq<Op>, s: State, t: Clock, c: int)
    requires Inv(prog, s, t) && t.cdb == c && s.bus == None
    requires Shape(prog, Broadcast(prog, s, c))
    ensures OrderAll(prog, Broadcast(prog, s, c))
  {
    BroadcastEffect(prog, s, c);
    var s' := Broadcast(prog, s, c);
    assert Frontier(s') == Frontier(s);
    forall i: nat, j: nat | i < j < |prog| ensures OrderOk(prog, s', i, j) {
      assert OrderOk(prog, s, i, j);
      if Issued(prog, s, i) && Issued(prog, s, j) {
        assert TimesOk(prog, s, t, i) && TimesOk(prog, s, t, j);
      }
    }
  }

  lemma {:induction false} BroadcastMap(prog: seq<Op>, s: State, t: Clock, c: int)
    requires Inv(prog, s, t) && c > 0 && s.bus == None
    requires Shape(prog, Broadcast(prog, s, c))
    ensures MapOk(prog, Broadcast(prog, s, c))
  {
    BroadcastEffect(prog, s, c);
    GoneFinished(prog, s, c);
    var s' := Broadcast(prog, s, c);
    assert Frontier(s') == Frontier(s);
    forall r: nat | r < TOTAL_REGS ensures s'.mapTable[r] == ExpectedMap(prog, s', r) {
      assert s.mapTable[r] == ExpectedMap(prog, s, r);
    }
  }

  lemma {:induction false} BroadcastOperands(prog: seq<Op>, s: State, t: Clock, c: int)
    requires Inv(prog, s, t) && c > 0 && s.bus == None
    requires Shape(prog, Broadcast(prog, s, c))
    ensures OperandsAll(prog, Broadcast(prog, s, c))
  {
    BroadcastEffect(prog, s, c);
    GoneFinished(prog, s, c);
    var s' := Broadcast(prog, s, c);
    assert Frontier(s') == Frontier(s);
    forall j: nat, k: nat | Issued(prog, s', j) && k < 3
      ensures TagOk(prog, s'.stamp, j, k) && Safe(prog, s'.stamp, j, k)
    {
      assert Issued(prog, s, j) && TagOk(prog, s.stamp, j, k) && Safe(prog, s.stamp, j, k);
    }
  }

  lemma {:induction false} BroadcastKeeps(prog: seq<Op>, s: State, t: Clock, c: int)
    requires Inv(prog, s, t) && t.cdb == c > 0 && s.bus == None
    ensures Inv(prog, Broadcast(prog, s, c), t)
  {
    hide MapOk, OrderAll, OperandsAll;
    BroadcastShape(prog, s, c);
    BroadcastEffect(prog, s, c);
    GoneFinished(prog, s, c);
    var s' := Broadcast(prog, s, c);
    var gone, w := Gone(prog, s, c), Winner(prog, s, c);
    assert Frontier(s') == Frontier(s);
    assert QueueOk(prog, s');
    BroadcastBank(prog, s, s', s.intBank, s'.intBank, true, gone, w, c);
    BroadcastBank(prog, s, s', s.fpBank, s'.fpBank, false, gone, w, c);
    forall j: nat | Seen(prog, s', j) ensures TimesOk(prog, s', t, j) {
      BroadcastTimes(prog, s, t, c, j);
    }
    BroadcastOrder(prog, s, t, c);
    BroadcastMap(prog, s, t, c);
    BroadcastOperands(prog, s, t, c);
  }
}
