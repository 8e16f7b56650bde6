/** The fetch stage (fetch_To_dispatch) keeps the invariant and consumes the trace in order. */
module PipelineFetch {
  import opened Wrappers
  import opened Pipeline
  import opened PipelineInvariant

  ghost function FetchAndDispatch(prog: seq<Op>, s: State, c: int): State
    requires Shape(prog, s)
  {
    var u := Fetch(prog, s);
    Dispatch(u, c)
  }

  /** Either the queue is full, or fetch takes the next slot that it does not skip. */
  lemma {:induction false} FetchEffect(prog: seq<Op>, s: State, t: Clock, c: int)
    requires Inv(prog, s, t) && c > 0
    ensures var s' := FetchAndDispatch(prog, s, c);
      && s'.bus == s.bus && s'.mapTable == s.mapTable && s'.intBank == s.intBank && s'.fpBank == s.fpBank
      && if |s.queue| >= IFQ_SIZE then s' == s else
         var i := NextSlot(prog, s.fetched);
         if i == |prog| then s' == s.(fetched := i)
         else s' == s.(fetched := i + 1, queue := s.queue + [i],
                       stamp := s.stamp[i := Stamp(s.stamp[i].q, c, 0, 0, 0)])
  {
    hide BankOk, MapOk, OrderAll, OperandsAll, BusOk;
    if s.queue != [] {
      LastIsDispatched(prog, s, t);
    }
    FetchCases(prog, s, c);
  }

  lemma {:induction false} LastIsDispatched(prog: seq<Op>, s: State, t: Clock)
    requires Shape(prog, s) && QueueOk(prog, s) && TimesAll(prog, s, t) && s.queue != []
    ensures s.stamp[s.queue[|s.queue| - 1]].dispatch != 0
  {
    assert Seen(prog, s, s.queue[|s.queue| - 1]);
    assert TimesOk(prog, s, t, s.queue[|s.queue| - 1]);
  }

  lemma {:induction false} FetchCases(prog: seq<Op>, s: State, c: int)
    requires Shape(prog, s) && (s.queue != [] ==> s.stamp[s.queue[|s.queue| - 1]].dispatch != 0)
    ensures var s' := FetchAndDispatch(prog, s, c);
      && s'.bus == s.bus && s'.mapTable == s.mapTable && s'.intBank == s.intBank && s'.fpBank == s.fpBank
      && if |s.queue| >= IFQ_SIZE then s' == s else
         var i := NextSlot(prog, s.fetched);
         if i == |prog| then s' == s.(fetched := i)
         else s' == s.(fetched := i + 1, queue := s.queue + [i],
                       stamp := s.stamp[i := Stamp(s.stamp[i].q, c, 0, 0, 0)])
  {
    hide InRange;
    var u := Fetch(prog, s);
    if |s.queue| < IFQ_SIZE && NextSlot(prog, s.fetched) < |prog| {
      assert u.queue[|u.queue| - 1] == NextSlot(prog, s.fetched);
    }
  }

  /** Nothing that the invariant speaks of lies beyond the old fetch index. */
  lemma {:induction false} FetchFrontier(prog: seq<Op>, s: State, t: Clock, c: int)
    requires Inv(prog, s, t) && c > 0
    ensures var s' := FetchAndDispatch(prog, s, c);
      && Shape(prog, s') && s.fetched <= s'.fetched && Frontier(s) <= Frontier(s') <= |prog|
      && (forall j: nat :: Issued(prog, s', j) <==> Issued(prog, s, j))
      && (forall j: nat :: Seen(prog, s, j) ==> Seen(prog, s', j))
      && (forall j: nat | Frontier(s) <= j < Frontier(s') :: !Fetchable(prog, j))
      && (forall j: nat | Seen(prog, s', j) && !Seen(prog, s, j) ::
            && |s.queue| < IFQ_SIZE && j == NextSlot(prog, s.fetched) < |prog|)
  {
    hide BankOk, MapOk, OrderAll, OperandsAll, BusOk, TimesAll, TagOk, Safe;
    FetchEffect(prog, s, t, c);
    var s' := FetchAndDispatch(prog, s, c);
    assert s'.queue == [] || s.queue == [] || s'.queue[0] == s.queue[0];
    if s.queue != [] {
      assert Seen(prog, s, s.queue[0]);
    }
    assert [s'.bus] == [s.bus];
    forall j | 0 <= j < |prog| ensures InRange(s'.stamp[j].q, |prog|) {
      assert InRange(s.stamp[j].q, |prog|);
    }
  }

  lemma {:induction false} FetchQueue(prog: seq<Op>, s: State, t: Clock, c: int)
    requires Inv(prog, s, t) && c > 0
    requires Shape(prog, FetchAndDispatch(prog, s, c))
    ensures QueueOk(prog, FetchAndDispatch(prog, s, c))
  {
    hide BankOk, MapOk, OrderAll, OperandsAll, BusOk, TimesAll;
    FetchEffect(prog, s, t, c);
    FetchFrontier(prog, s, t, c);
    var s' := FetchAndDispatch(prog, s, c);
    forall a | 0 <= a < |s'.queue| ensures Seen(prog, s', s'.queue[a]) {
      if a < |s.queue| {
        assert s'.queue[a] == s.queue[a] && Seen(prog, s, s.queue[a]);
      }
    }
    forall a, b | 0 <= a < b < |s'.queue| ensures s'.queue[a] < s'.queue[b] {
      assert s'.queue[a] == s.queue[a] && Seen(prog, s, s.queue[a]);
    }
    forall j: nat | Seen(prog, s', j) && j >= Frontier(s') ensures j in s'.queue {
      if Seen(prog, s, j) {
        assert j in s.queue;
      } else {
        assert s'.queue[|s.queue|] == j;
      }
    }
  }

  lemma {:induction false} FetchTimes(prog: seq<Op>, s: State, t: Clock, c: int)
    requires Inv(prog, s, t) && t.dispatch < c && c > 0
    requires Shape(prog, FetchAndDispatch(prog, s, c))
    ensures TimesAll(prog, FetchAndDispatch(prog, s, c), t.(dispatch := c))
    ensures OrderAll(prog, FetchAndDispatch(prog, s, c))
  {
    hide MapOk, OperandsAll, BankOk, BusOk;
    FetchEffect(prog, s, t, c);
    FetchFrontier(prog, s, t, c);
    var s' := FetchAndDispatch(prog, s, c);
    forall j: nat | Seen(prog, s', j) ensures TimesOk(prog, s', t.(dispatch := c), j) {
      if Seen(prog, s, j) {
        assert TimesOk(prog, s, t, j);
      }
    }
    forall i: nat, j: nat | i < j < |prog| ensures OrderOk(prog, s', i, j) {
      assert OrderOk(prog, s, i, j);
      if Seen(prog, s', i) && Seen(prog, s', j) && !Seen(prog, s, j) {
        assert Seen(prog, s, i) && TimesOk(prog, s, t, i);
      }
    }
  }

  lemma {:induction false} FetchMap(prog: seq<Op>, s: State, t: Clock, c: int)
    requires Inv(prog, s, t) && c > 0
    requires Shape(prog, FetchAndDispatch(prog, s, c))
    ensures MapOk(prog, FetchAndDispatch(prog, s, c))
  {
    FetchEffect(prog, s, t, c);
    FetchFrontier(prog, s, t, c);
    var s' := FetchAndDispatch(prog, s, c);
    forall r: nat | r < TOTAL_REGS ensures s'.mapTable[r] == ExpectedMap(prog, s', r) {
      assert s.mapTable[r] == ExpectedMap(prog, s, r);
      LastWriterSkips(prog, r, Frontier(s), Frontier(s'));
    }
  }

  lemma {:induction false} FetchOperands(prog: seq<Op>, s: State, t: Clock, c: int)
    requires Inv(prog, s, t) && c > 0
    requires Shape(prog, FetchAndDispatch(prog, s, c))
    ensures OperandsAll(prog, FetchAndDispatch(prog, s, c))
  {
    FetchEffect(prog, s, t, c);
    FetchFrontier(prog, s, t, c);
    var s' := FetchAndDispatch(prog, s, c);
    forall j: nat, k: nat | Issued(prog, s', j) && k < 3
      ensures TagOk(prog, s'.stamp, j, k) && Safe(prog, s'.stamp, j, k)
    {
      assert Issued(prog, s, j) && TagOk(prog, s.stamp, j, k) && Safe(prog, s.stamp, j, k);
    }
  }

  lemma {:induction false} FetchBanks(prog: seq<Op>, s: State, t: Clock, c: int)
    requires Inv(prog, s, t) && c > 0
    requires Shape(prog, FetchAndDispatch(prog, s, c))
    ensures var s' := FetchAndDispatch(prog, s, c);
      BankOk(prog, s', s'.intBank, true) && BankOk(prog, s', s'.fpBank, false) && BusOk(prog, s', t)
  {
    FetchEffect(prog, s, t, c);
    FetchFrontier(prog, s, t, c);
    var s' := FetchAndDispatch(prog, s, c);
    forall v: nat | Some(v) in s.intBank.rs || Some(v) in s.fpBank.rs ensures s'.stamp[v] == s.stamp[v] {
      assert Issued(prog, s, v);
    }
  }

  lemma {:induction false} FetchKeeps(prog: seq<Op>, s: State, t: Clock, c: int)
    requires Inv(prog, s, t) && t.dispatch < c && c > 0
    ensures Inv(prog, FetchAndDispatch(prog, s, c), t.(dispatch := c))
  {
    FetchFrontier(prog, s, t, c);
    FetchQueue(prog, s, t, c);
    FetchTimes(prog, s, t, c);
    FetchMap(prog, s, t, c);
    FetchOperands(prog, s, t, c);
    FetchBanks(prog, s, t, c);
  }
}
