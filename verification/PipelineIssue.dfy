/** The issue stage (dispatch_To_issue) keeps the invariant: it takes instructions in program order
    and renames their operands to their true producers. */
module PipelineIssue {
  import opened Wrappers
  import opened Pipeline
  import opened PipelineInvariant

  /** Popping the head moves the frontier past exactly that slot. */
  lemma {:induction false} PopFrontier(prog: seq<Op>, s: State, s': State)
    requires Shape(prog, s) && QueueOk(prog, s) && s.queue != []
    requires s'.queue == s.queue[1..] && s'.fetched == s.fetched
    ensures Frontier(s) == s.queue[0] < Frontier(s') <= s.fetched
    ensures forall j: nat | Seen(prog, s, j) :: j < Frontier(s') <==> j < Frontier(s) || j == s.queue[0]
    ensures forall j: nat | s.queue[0] < j < Frontier(s') :: j < |prog| && !Fetchable(prog, j)
  {
    assert Seen(prog, s, s.queue[0]);
    if s'.queue != [] {
      assert s'.queue[0] == s.queue[1];
      assert Seen(prog, s, s.queue[1]);
    }
    forall j: nat | Seen(prog, s, j) && j != s.queue[0]
      ensures j < Frontier(s') <==> j < Frontier(s)
    {
      if j >= Frontier(s) {
        assert j in s.queue;
        var a :| 0 <= a < |s.queue| && s.queue[a] == j;
        assert s'.queue[a - 1] == j;
        assert a - 1 > 0 ==> s.queue[1] < s.queue[a];
      }
    }
    forall j: nat | s.queue[0] < j < Frontier(s')
      ensures j < |prog| && !Fetchable(prog, j)
    {
      if Fetchable(prog, j) {
        assert Seen(prog, s, j);
      }
    }
  }

  lemma {:induction false} PopQueue(prog: seq<Op>, s: State, s': State)
    requires Shape(prog, s) && Shape(prog, s') && QueueOk(prog, s) && s.queue != []
    requires s'.queue == s.queue[1..] && s'.fetched == s.fetched
    ensures QueueOk(prog, s')
  {
    PopFrontier(prog, s, s');
    forall j: nat | Seen(prog, s', j) && j >= Frontier(s') ensures j in s'.queue {
      assert Seen(prog, s, j) && j in s.queue;
      assert s.queue == [s.queue[0]] + s'.queue;
    }
    forall a | 0 <= a < |s'.queue| ensures Seen(prog, s', s'.queue[a]) {
      assert Seen(prog, s, s.queue[a + 1]);
    }
  }

  lemma {:induction false} PopWriter(prog: seq<Op>, s: State, s': State, reg: int)
    requires Shape(prog, s) && QueueOk(prog, s) && s.queue != []
    requires s'.queue == s.queue[1..] && s'.fetched == s.fetched
    ensures Frontier(s') <= |prog|
    ensures LastWriter(prog, reg, Frontier(s')) ==
            if WritesReg(prog, s.queue[0], reg) then Some(s.queue[0]) else LastWriter(prog, reg, Frontier(s))
  {
    PopFrontier(prog, s, s');
    LastWriterSkips(prog, reg, s.queue[0] + 1, Frontier(s'));
  }

  // ---------------------------------------------------------------- popped without a station

  lemma {:induction false} PopTimes(prog: seq<Op>, s: State, s': State, t: Clock, c: int)
    requires Inv(prog, s, t) && Shape(prog, s') && s'.stamp == s.stamp && s'.fetched == s.fetched && s'.bus == s.bus
    requires s'.intBank == s.intBank && s'.fpBank == s.fpBank && t.issue <= c
    requires forall j: nat :: Issued(prog, s', j) <==> Issued(prog, s, j)
    ensures TimesAll(prog, s', t.(issue := c)) && OrderAll(prog, s') && OperandsAll(prog, s')
  {
    hide BankOk, MapOk, BusOk, QueueOk;
    forall j: nat | Seen(prog, s', j) ensures TimesOk(prog, s', t.(issue := c), j) {
      assert Seen(prog, s, j) && TimesOk(prog, s, t, j);
    }
    forall i: nat, j: nat | i < j < |prog| ensures OrderOk(prog, s', i, j) {
      assert OrderOk(prog, s, i, j);
    }
    forall j: nat, k: nat | Issued(prog, s', j) && k < 3
      ensures TagOk(prog, s'.stamp, j, k) && Safe(prog, s'.stamp, j, k)
    {
      assert Issued(prog, s, j);
    }
  }

  lemma {:induction false} PopKeeps(prog: seq<Op>, s: State, t: Clock, c: int)
    requires Inv(prog, s, t) && s.queue != [] && !prog[s.queue[0]].cls.UsesFu() && t.issue <= c
    ensures Inv(prog, s.(queue := s.queue[1..]), t.(issue := c))
  {
    hide TimesAll, OrderAll, OperandsAll;
    var s' := s.(queue := s.queue[1..]);
    assert Shape(prog, s') by {
      forall a | 0 <= a < |s'.queue| ensures s'.queue[a] < |prog| { assert s'.queue[a] == s.queue[a + 1]; }
    }
    PopFrontier(prog, s, s');
    PopQueue(prog, s, s');
    assert forall j: nat :: Issued(prog, s', j) <==> Issued(prog, s, j);
    PopTimes(prog, s, s', t, c);
    assert MapOk(prog, s') by {
      forall r: nat | r < TOTAL_REGS ensures s'.mapTable[r] == ExpectedMap(prog, s', r) {
        PopWriter(prog, s, s', r);
        assert s.mapTable[r] == ExpectedMap(prog, s, r);
      }
    }
  }

  // ---------------------------------------------------------------- given a station

  /** The stage when instruction `h` gets station `k` of its bank. */
  ghost predicate Granted(prog: seq<Op>, s: State, s': State, c: int, h: nat)
    requires ValidProgram(prog) && Shape(prog, s)
  {
    && s.queue != [] && h == s.queue[0] && prog[h].cls.UsesFu()
    && s'.queue == s.queue[1..] && s'.fetched == s.fetched && s'.bus == s.bus
    && s'.stamp == s.stamp[h := s.stamp[h].(q := Tags(s.mapTable, prog[h]), issue := c)]
    && s'.mapTable == Renamed(s.mapTable, prog[h], h)
    && s'.intBank.fu == s.intBank.fu && s'.fpBank.fu == s.fpBank.fu
    && Added(s.intBank.rs, s'.intBank.rs, h, prog[h].cls.UsesIntFu())
    && Added(s.fpBank.rs, s'.fpBank.rs, h, !prog[h].cls.UsesIntFu())
  }

  ghost predicate Added(rs: seq<Ref>, rs': seq<Ref>, h: nat, here: bool) {
    && |rs'| == |rs|
    && (forall v: nat :: Some(v) in rs' <==> Some(v) in rs || (here && v == h))
    && (Distinct(rs) && Some(h) !in rs ==> Distinct(rs'))
  }

  lemma {:induction false} AddedByUpdate(rs: seq<Ref>, k: nat, h: nat)
    requires k < |rs| && rs[k] == None
    ensures Added(rs, rs[k := Some(h)], h, true)
  {
    var rs' := rs[k := Some(h)];
    forall v: nat ensures Some(v) in rs' <==> Some(v) in rs || v == h {
      if v == h {
        assert rs'[k] == Some(v);
      } else if Some(v) in rs {
        var a :| 0 <= a < |rs| && rs[a] == Some(v);
        assert rs'[a] == Some(v);
      }
    }
  }

  lemma {:induction false} GrantedShape(prog: seq<Op>, s: State, s': State, c: int, h: nat)
    requires Inv0(prog, s) && Granted(prog, s, s', c, h)
    ensures Shape(prog, s')
  {
    forall a | 0 <= a < |s'.queue| ensures s'.queue[a] < |prog| { assert s'.queue[a] == s.queue[a + 1]; }
    forall k | 0 <= k < |s'.intBank.rs| && s'.intBank.rs[k].Some? ensures s'.intBank.rs[k].value < |prog| {
      assert Some(s'.intBank.rs[k].value) in s'.intBank.rs;
    }
    forall k | 0 <= k < |s'.fpBank.rs| && s'.fpBank.rs[k].Some? ensures s'.fpBank.rs[k].value < |prog| {
      assert Some(s'.fpBank.rs[k].value) in s'.fpBank.rs;
    }
    assert [s'.bus] == [s.bus];
    assert InRange(s'.mapTable, |prog|);
    forall j | 0 <= j < |prog| ensures InRange(s'.stamp[j].q, |prog|) {
      assert InRange(s.stamp[j].q, |prog|);
    }
  }

  ghost predicate Inv0(prog: seq<Op>, s: State) { ValidProgram(prog) && Shape(prog, s) }

  lemma {:induction false} GrantedTimes(prog: seq<Op>, s: State, s': State, t: Clock, c: int, h: nat)
    requires Inv(prog, s, t) && t.issue < c && t.dispatch < c && Granted(prog, s, s', c, h) && Shape(prog, s')
    ensures TimesAll(prog, s', t.(issue := c)) && OrderAll(prog, s')
  {
    hide MapOk, OperandsAll, BankOk;
    PopFrontier(prog, s, s');
    assert Seen(prog, s, h);
    forall j: nat | Seen(prog, s', j) ensures TimesOk(prog, s', t.(issue := c), j) {
      assert Seen(prog, s, j) && TimesOk(prog, s, t, j);
    }
    forall i: nat, j: nat | i < j < |prog| ensures OrderOk(prog, s', i, j) {
      assert OrderOk(prog, s, i, j);
      if j == h && Issued(prog, s', i) {
        assert Issued(prog, s, i) && TimesOk(prog, s, t, i);
        assert TimesOk(prog, s, t, j);
      }
    }
  }

  lemma {:induction false} GrantedMap(prog: seq<Op>, s: State, s': State, t: Clock, c: int, h: nat)
    requires Inv(prog, s, t) && Granted(prog, s, s', c, h) && Shape(prog, s')
    ensures MapOk(prog, s')
  {
    assert Seen(prog, s, h);
    assert TimesOk(prog, s, t, h);
    forall r: nat | r < TOTAL_REGS ensures s'.mapTable[r] == ExpectedMap(prog, s', r) {
      PopWriter(prog, s, s', r);
      assert s.mapTable[r] == ExpectedMap(prog, s, r);
    }
    PopFrontier(prog, s, s');
  }

  /** The tags captured from the map table stand for the true producers. */
  lemma {:induction false} TagsCaptured(prog: seq<Op>, s: State, s': State, t: Clock, c: int, h: nat, k: nat)
    requires Inv(prog, s, t) && t.issue < c && t.cdb == c && Granted(prog, s, s', c, h) && Shape(prog, s') && k < 3
    ensures TagOk(prog, s'.stamp, h, k)
  {
    var reg := prog[h].rIn[k];
    if Real(reg) {
      assert s.mapTable[reg] == ExpectedMap(prog, s, reg);
      var w := LastWriter(prog, reg, h);
      if w.Some? {
        assert Seen(prog, s, h);
        assert Issued(prog, s, w.value) && TimesOk(prog, s, t, w.value);
      }
    }
  }

  lemma {:induction false} GrantedOperands(prog: seq<Op>, s: State, s': State, t: Clock, c: int, h: nat)
    requires Inv(prog, s, t) && t.issue < c && t.cdb == c && Granted(prog, s, s', c, h) && Shape(prog, s')
    ensures OperandsAll(prog, s')
  {
    PopFrontier(prog, s, s');
    assert Seen(prog, s, h);
    assert TimesOk(prog, s, t, h);
    forall j: nat, k: nat | Issued(prog, s', j) && k < 3
      ensures TagOk(prog, s'.stamp, j, k) && Safe(prog, s'.stamp, j, k)
    {
      if j == h {
        TagsCaptured(prog, s, s', t, c, h, k);
      } else {
        assert Issued(prog, s, j) && TagOk(prog, s.stamp, j, k) && Safe(prog, s.stamp, j, k);
      }
    }
  }

  lemma {:induction false} GrantedBanks(prog: seq<Op>, s: State, s': State, t: Clock, c: int, h: nat)
    requires Inv(prog, s, t) && Granted(prog, s, s', c, h) && Shape(prog, s')
    ensures BankOk(prog, s', s'.intBank, true) && BankOk(prog, s', s'.fpBank, false)
  {
    PopFrontier(prog, s, s');
    assert Seen(prog, s, h);
    assert TimesOk(prog, s, t, h);
    assert !Issued(prog, s, h);
  }

  lemma {:induction false} GrantedKeeps(prog: seq<Op>, s: State, s': State, t: Clock, c: int, h: nat)
    requires Inv(prog, s, t) && t.issue < c && t.dispatch < c && t.cdb == c && Granted(prog, s, s', c, h)
    ensures Inv(prog, s', t.(issue := c))
  {
    GrantedShape(prog, s, s', c, h);
    PopFrontier(prog, s, s');
    PopQueue(prog, s, s');
    GrantedBanks(prog, s, s', t, c, h);
    GrantedTimes(prog, s, s', t, c, h);
    GrantedMap(prog, s, s', t, c, h);
    GrantedOperands(prog, s, s', t, c, h);
    assert BusOk(prog, s', t.(issue := c)) by {
      if s.bus.Some? {
        assert Issued(prog, s, s.bus.value);
      }
    }
  }

  lemma {:induction false} LaterIssueBound(prog: seq<Op>, s: State, t: Clock, c: int)
    requires Inv(prog, s, t) && t.issue <= c
    ensures Inv(prog, s, t.(issue := c))
  {
    forall j: nat | Seen(prog, s, j) ensures TimesOk(prog, s, t.(issue := c), j) {
      assert TimesOk(prog, s, t, j);
    }
  }

  lemma {:induction false} IssueKeeps(prog: seq<Op>, s: State, t: Clock, c: int)
    requires Inv(prog, s, t) && t.issue < c && t.dispatch < c && t.cdb == c
    ensures Inv(prog, Issue(prog, s, c), t.(issue := c))
  {
    var s' := Issue(prog, s, c);
    if s' == s {
      LaterIssueBound(prog, s, t, c);
    } else {
      var h := s.queue[0];
      if prog[h].cls.UsesFu() {
        var rs := if prog[h].cls.UsesIntFu() then s.intBank.rs else s.fpBank.rs;
        AddedByUpdate(rs, FirstFree(rs), h);
        GrantedKeeps(prog, s, s', t, c, h);
      } else {
        PopKeeps(prog, s, t, c);
      }
    }
  }
}
