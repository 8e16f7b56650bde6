/** The cache of lab4/cache.c together with the tables of its prefetcher: cache_access with generate_prefetch. */
module PrefetchingCache {
  import opened CacheSpec
  import opened CacheMachine
  import opened PatternPrefetcher
  import opened PrefetchTables
  import opened Prefetchers

  /** A demand access and the memory instruction that makes it. */
  datatype Demand = Demand(pc: nat, r: Request)

  function UsesOf(ds: seq<Demand>): (us: seq<Use>)
    ensures |us| == |ds| && forall i {:trigger us[i]} | 0 <= i < |ds| :: us[i] == Use(ds[i].pc, ds[i].r.addr)
  {
    seq(|ds|, i requires 0 <= i < |ds| => Use(ds[i].pc, ds[i].r.addr))
  }

  /** The tables of a prefetcher, as values. */
  datatype Tables = Tables(rpt: seq<RptEntry>, plt: seq<PltEntry>)

  ghost predicate ValidTables(kind: nat, t: Tables) { |t.plt| == TABLE_SIZE && (kind > 2 ==> |t.rpt| == kind) }

  /** The addresses that access `n` of a trace asks for. */
  function Asked(kind: nat, bsize: nat, t: Tables, us: seq<Use>, n: nat): seq<nat>
    requires ValidTables(kind, t) && n < |us|
  {
    var u := us[n];
    match kind
    case 0 => []
    case 1 => [NextLine(bsize, u.addr)]
    case 2 => PatternTargets(bsize, TableRun(PltStep, t.plt, us[..n])[Index(TABLE_SIZE, u.pc)], u)
    case _ => StrideTargets(TableRun(RptStep, t.rpt, us[..n])[Index(kind, u.pc)], u)
  }

  function TargetsOf(addrs: seq<nat>): (ts: seq<Target>)
    ensures |ts| == |addrs| && forall i {:trigger ts[i]} | 0 <= i < |addrs| :: ts[i] == Target(addrs[i], 0)
  {
    seq(|addrs|, i requires 0 <= i < |addrs| => Target(addrs[i], 0))
  }

  /** The operations that a trace comes to. */
  function Steps(kind: nat, bsize: nat, t: Tables, ds: seq<Demand>): (ops: seq<Step>)
    requires ValidTables(kind, t)
    ensures |ops| == |ds|
    ensures forall n {:trigger ops[n]} | 0 <= n < |ds| ::
            ops[n] == Call(ds[n].r, TargetsOf(Asked(kind, bsize, t, UsesOf(ds), n)))
  {
    seq(|ds|, n requires 0 <= n < |ds| => Call(ds[n].r, TargetsOf(Asked(kind, bsize, t, UsesOf(ds), n))))
  }

  ghost predicate NoPrefetches(ds: seq<Demand>) { forall n {:trigger ds[n]} | 0 <= n < |ds| :: !ds[n].r.prefetch }

  /** What the cache and its prefetcher share no part of, and fit. */
  ghost predicate Together(cache: Cache, p: Prefetcher)
    reads cache, cache.repr
  {
    && cache.Valid() && cache.Sound() && p.Valid() && cache.c.bsize == p.bsize && !cache.c.policy.Random?
    && p.rpt !in cache.repr && p.plt !in cache.repr && p.rpt as object != cache && p.plt as object != cache
  }

  /** The tables after the first `n` uses. */
  ghost predicate TablesAt(p: Prefetcher, t: Tables, us: seq<Use>, n: nat)
    requires n <= |us| && ValidTables(p.kind, t)
    reads p.rpt, p.plt
  {
    && (p.kind == 2 ==> p.plt[..] == TableRun(PltStep, t.plt, us[..n]))
    && (p.kind > 2 ==> p.rpt[..] == TableRun(RptStep, t.rpt, us[..n]))
  }

  /** generate_prefetch at use `n`. */
  method Ask(p: Prefetcher, ghost t: Tables, ghost us: seq<Use>, ghost n: nat, u: Use) returns (targets: seq<nat>)
    requires p.Valid() && ValidTables(p.kind, t) && n < |us| && us[n] == u && TablesAt(p, t, us, n)
    modifies p.rpt, p.plt
    ensures targets == Asked(p.kind, p.bsize, t, us, n) && TablesAt(p, t, us, n + 1)
  {
    hide PltStep, RptStep, PatternTargets, StrideTargets, NextLine;
    assert us[..n + 1][..n] == us[..n] && us[..n + 1][n] == u;
    targets := p.Generate(u.pc, u.addr);
  }

  /** One access: the tables are asked, and the cache does the access with what they say. */
  method AccessOne(cache: Cache, p: Prefetcher, d: Demand, ghost s: State, ghost t: Tables, ghost us: seq<Use>,
                   ghost n: nat)
    returns (out: seq<Byte>)
    requires Together(cache, p) && s == cache.Abs() && !d.r.prefetch
    requires ValidTables(p.kind, t) && n < |us| && us[n] == Use(d.pc, d.r.addr) && TablesAt(p, t, us, n)
    requires ValidStep(cache.c, |cache.mem|, Call(d.r, TargetsOf(Asked(p.kind, p.bsize, t, us, n))))
    modifies cache, cache.repr, p.rpt, p.plt
    ensures Together(cache, p) && |cache.mem| == old(|cache.mem|) && TablesAt(p, t, us, n + 1)
    ensures var x := Call(d.r, TargetsOf(Asked(p.kind, p.bsize, t, us, n)));
      Shaped(cache.c, s) && ValidStep(cache.c, |s.mem|, x) && cache.Abs() == StepOf(cache.c, s, x)
  {
    hide TablesAt, Asked, StepOf, ValidTarget, Shaped, Cache.Abs, Cache.Valid;
    IsShaped(cache);
    var targets := Ask(p, t, us, n, Use(d.pc, d.r.addr));
    assert cache.Valid() && cache.Sound() && cache.Abs() == s;
    NotDrawn(cache, d.r);
    ghost var r', ts;
    var ok;
    ok, out, r', ts := cache.CacheAccess(d.r, TargetsOf(targets));
    assert ts == TargetsOf(targets);
    IsShaped(cache);
  }

  lemma {:induction false} NotDrawn(cache: Cache, r: Request)
    requires cache.Valid() && !cache.c.policy.Random? && r.victim < cache.c.assoc
    ensures cache.AsSpec(r) == r
  {
  }

  /** A whole trace: the cache makes the run of the specification, with the targets that the tables give. */
  method AccessAll(cache: Cache, p: Prefetcher, ds: seq<Demand>, ghost t: Tables)
    requires Together(cache, p) && t == Tables(p.rpt[..], p.plt[..]) && NoPrefetches(ds)
    requires ValidSteps(cache.c, |cache.mem|, Steps(p.kind, p.bsize, t, ds))
    modifies cache, cache.repr, p.rpt, p.plt
    ensures Together(cache, p) && Shaped(cache.c, old(cache.Abs())) && |cache.mem| == old(|cache.mem|)
    ensures cache.Abs() == Run(cache.c, old(cache.Abs()), Steps(p.kind, p.bsize, t, ds))
  {
    hide TablesAt, Asked, StepOf, ValidStep, Shaped, Cache.Abs, Cache.Valid, Run;
    ghost var ops, us := Steps(p.kind, p.bsize, t, ds), UsesOf(ds);
    IsShaped(cache);
    ghost var s := cache.Abs();
    NoSteps(cache.c, s);
    FirstTables(p, t, us);
    var n := 0;
    assert ops[..0] == [];
    while n < |ds|
      invariant n <= |ds| && Together(cache, p) && |cache.mem| == |s.mem| && TablesAt(p, t, us, n)
      invariant Shaped(cache.c, s) && ValidSteps(cache.c, |s.mem|, ops[..n]) && cache.Abs() == Run(cache.c, s, ops[..n])
    {
      NextStep(cache.c, s, ops, n);
      var out := AccessOne(cache, p, ds[n], cache.Abs(), t, us, n);
      n := n + 1;
    }
    assert ops[..n] == ops;
  }

  lemma {:induction false} FirstTables(p: Prefetcher, t: Tables, us: seq<Use>)
    requires p.Valid() && t == Tables(p.rpt[..], p.plt[..])
    ensures ValidTables(p.kind, t) && TablesAt(p, t, us, 0)
  {
    assert us[..0] == [];
  }

  lemma {:induction false} IsShaped(cache: Cache)
    requires cache.Valid()
    ensures cache.Sound() && Shaped(cache.c, cache.Abs()) && cache.Abs().mem == cache.mem
  {
  }

  lemma {:induction false} NoSteps(c: Config, s: State)
    requires Shaped(c, s)
    ensures ValidSteps(c, |s.mem|, []) && Run(c, s, []) == s
  {
  }

  lemma {:induction false} NextStep(c: Config, s: State, ops: seq<Step>, n: nat)
    requires n < |ops| && Shaped(c, s) && ValidSteps(c, |s.mem|, ops) && ValidSteps(c, |s.mem|, ops[..n])
    ensures ValidStep(c, |s.mem|, ops[n]) && ValidSteps(c, |s.mem|, ops[..n + 1])
    ensures Run(c, s, ops[..n + 1]) == StepOf(c, Run(c, s, ops[..n]), ops[n])
  {
    hide StepOf, ValidStep, Run;
    assert ops[..n + 1][..n] == ops[..n];
    assert forall i | 0 <= i <= n :: ops[..n + 1][i] == ops[i];
    RunLast(c, s, ops[..n + 1]);
  }
}
