/** The cache of lab4/cache.c in its own form: linked sets, the last-block shortcut, counters and the
    next-level memory, updated in place.  Each operation is proved to do what module CacheSpec says. */
module CacheMachine {
  import opened Bits
  import opened CacheSpec
  import opened CacheSets
  import opened CacheUnique
  import opened Sequences
  import CacheMemory

  /** The size of the hash tables: none up to four ways. */
  function HashSize(c: Config): nat { if c.assoc > 4 then c.assoc / 4 else 0 }

  // ---------------------------------------------------------------- all the sets together

  /** Sets share neither blocks nor tables, have the right sizes, and all of it lies in `repr`. */
  ghost predicate OwnParts(c: Config, sets: seq<CacheSet>, repr: set<object>) {
    && (forall i {:trigger sets[i]} | 0 <= i < |sets| ::
          && |sets[i].blks| == c.assoc && sets[i].hash.Length == HashSize(c)
          && sets[i] in repr && sets[i].hash in repr)
    && (forall i, k {:trigger sets[i].blks[k]} | 0 <= i < |sets| && 0 <= k < |sets[i].blks| ::
          sets[i].blks[k] in repr && sets[i].blks[k].home == i)
    && (forall i, j | 0 <= i < j < |sets| :: sets[i] != sets[j] && sets[i].hash != sets[j].hash)
  }

  ghost predicate Wired(c: Config, sets: seq<CacheSet>, repr: set<object>) {
    ValidConfig(c) && |sets| == c.nsets && OwnParts(c, sets, repr)
  }

  ghost predicate Linked(c: Config, sets: seq<CacheSet>, repr: set<object>)
    requires Wired(c, sets, repr)
    reads repr
  {
    forall i {:trigger sets[i]} | 0 <= i < |sets| :: sets[i].Valid()
  }

  ghost function WaysUpTo(c: Config, sets: seq<CacheSet>, repr: set<object>, n: nat): (r: seq<seq<Line>>)
    requires Wired(c, sets, repr) && Linked(c, sets, repr) && n <= |sets|
    reads repr
    ensures |r| == n
    ensures forall i {:trigger r[i]} | 0 <= i < n :: r[i] == sets[i].Ways()
  {
    if n == 0 then [] else WaysUpTo(c, sets, repr, n - 1) + [sets[n - 1].Ways()]
  }

  /** Different sets share nothing. */
  lemma {:induction false} Apart(c: Config, sets: seq<CacheSet>, repr: set<object>, i: nat)
    requires Wired(c, sets, repr) && i < |sets|
    ensures sets[i] in repr && sets[i].hash in repr && |sets| == c.nsets
    ensures forall k {:trigger sets[i].blks[k]} | 0 <= k < |sets[i].blks| :: sets[i].blks[k] in repr
    ensures forall j {:trigger sets[j]} | 0 <= j < |sets| && j != i ::
            sets[j] != sets[i] && sets[j].hash != sets[i].hash
    ensures forall j, k {:trigger sets[j].blks[k]} | 0 <= j < |sets| && j != i && 0 <= k < |sets[j].blks| ::
            sets[j].blks[k] !in sets[i].blks
  {
  }

  lemma {:induction false} SetValid(c: Config, sets: seq<CacheSet>, repr: set<object>, i: nat)
    requires Wired(c, sets, repr) && Linked(c, sets, repr) && i < |sets|
    ensures sets[i].Valid() && WaysUpTo(c, sets, repr, |sets|)[i] == sets[i].Ways()
  {
  }

  /** A valid block that holds data has its place in the memory. */
  lemma {:induction false} VictimFits(c: Config, s: State, i: nat, v: nat)
    requires Consistent(c, s) && i < c.nsets && v < c.assoc
    ensures v < |s.sets[i]|
    ensures c.data ==> |s.sets[i][v].data| == c.bsize
    ensures c.data && s.sets[i][v].valid ==> MkBaddr(c, s.sets[i][v].tag, i) + |s.sets[i][v].data| <= |s.mem|
  {
    assert ShapedSet(c, s.sets[i]);
    if c.data {
      assert CacheMemory.GoodSet(c, s.mem, s.sets[i], i);
    }
  }

  /** What an access does to a block that is there, and to one that is not. */
  lemma {:induction false} HitIs(c: Config, s: State, r: Request, k: nat)
    requires Consistent(c, s) && ValidRequest(c, |s.mem|, r)
    requires k == Find(s.sets[SetOf(c, r.addr)], Tag(c, r.addr)) < c.assoc
    ensures SetOf(c, r.addr) < |s.sets| && Offset(c, r.addr) + r.nbytes <= c.bsize
    ensures var ways := s.sets[SetOf(c, r.addr)];
      && |ways| == c.assoc && Matches(ways[k], Tag(c, r.addr)) && (c.data ==> |ways[k].data| == c.bsize)
      && Access(c, s, r)
         == State(s.sets[SetOf(c, r.addr) := Placed(c, ways, k, Touched(c, r, ways[k]), c.policy.LRU?)],
                  s.mem, CacheSpec.CountHit(s.stats, r))
  {
    assert ShapedSet(c, s.sets[SetOf(c, r.addr)]);
    OffsetFits(c, r.addr, r.nbytes);
  }

  lemma {:induction false} LoadedSame(c: Config, mem: seq<Byte>, r: Request, r': Request, st: Stats, line: Line)
    requires ValidRequest(c, |mem|, r) && ValidRequest(c, |mem|, r') && r' == r.(victim := r'.victim)
    ensures Loaded(c, mem, r) == Loaded(c, mem, r') && forall l :: CopiedOut(c, r, l) == CopiedOut(c, r', l)
    ensures CacheSpec.CountMiss(st, r, line) == CacheSpec.CountMiss(st, r', line)
  {
  }

  lemma {:induction false} HeadAt(order: seq<Blk>, head: Blk?, tail: Blk?, k: nat)
    requires WayList(order, head, tail) && k < |order| && order[k] == head
    ensures k == 0
  {
  }

  lemma {:induction false} SameBlock(c: Config, a: nat, addr: nat)
    requires ValidConfig(c) && a == Baddr(c, addr)
    ensures Tag(c, a) == Tag(c, addr) && SetOf(c, a) == SetOf(c, addr)
  {
    DivModUnique(Block(c, addr), 0, c.bsize);
  }

  lemma {:induction false} MissIs(c: Config, s: State, r: Request)
    requires Consistent(c, s) && ValidRequest(c, |s.mem|, r)
    requires Find(s.sets[SetOf(c, r.addr)], Tag(c, r.addr)) == c.assoc
    ensures SetOf(c, r.addr) < |s.sets| && VictimOf(c, r) < c.assoc
    ensures var ways, v := s.sets[SetOf(c, r.addr)], VictimOf(c, r);
      && |ways| == c.assoc
      && (c.data && ways[v].valid ==> MkBaddr(c, ways[v].tag, SetOf(c, r.addr)) + |ways[v].data| <= |s.mem|)
      && var mem := WrittenBack(c, s.mem, ways[v], SetOf(c, r.addr));
         && |mem| == |s.mem|
         && Access(c, s, r)
            == State(s.sets[SetOf(c, r.addr) := Placed(c, ways, v, Loaded(c, mem, r), !c.policy.Random?)],
                     mem, CacheSpec.CountMiss(s.stats, r, ways[v]))
  {
    assert ShapedSet(c, s.sets[SetOf(c, r.addr)]);
    VictimFits(c, s, SetOf(c, r.addr), VictimOf(c, r));
  }

  /** What was copied out of the touched or loaded block is what the specification reads afterwards. */
  lemma {:induction false} OutputAt(c: Config, s: State, r: Request, p: nat, line: Line)
    requires Consistent(c, s) && ValidRequest(c, |s.mem|, r) && SetOf(c, r.addr) < |s.sets|
             && p < |s.sets[SetOf(c, r.addr)]|
    requires s.sets[SetOf(c, r.addr)][p] == line && Matches(line, Tag(c, r.addr))
    ensures r.cmd.Read? ==> CopiedOut(c, r, line) == Output(c, s, r)
  {
    var ways := s.sets[SetOf(c, r.addr)];
    assert CacheMemory.Unique(ways) && ShapedSet(c, ways);
    CacheMemory.FindWhenUnique(ways, p);
    OffsetFits(c, r.addr, r.nbytes);
  }

  lemma {:induction false} HitOutput(c: Config, s: State, r: Request, k: nat)
    requires Consistent(c, s) && ValidRequest(c, |s.mem|, r)
    requires k == Find(s.sets[SetOf(c, r.addr)], Tag(c, r.addr)) < c.assoc
    ensures Consistent(c, Access(c, s, r)) && Offset(c, r.addr) + r.nbytes <= c.bsize
    ensures |s.sets[SetOf(c, r.addr)]| == c.assoc && (c.data ==> |s.sets[SetOf(c, r.addr)][k].data| == c.bsize)
    ensures r.cmd.Read? ==> CopiedOut(c, r, Touched(c, r, s.sets[SetOf(c, r.addr)][k])) == Output(c, Access(c, s, r), r)
  {
    hide AllUnique, CacheMemory.Good, Access, CopiedOut, Output, Offset, SetOf, Tag, Find;
    AccessConsistent(c, s, r);
    HitIs(c, s, r, k);
    OutputAt(c, Access(c, s, r), r, if c.policy.LRU? then 0 else k, Touched(c, r, s.sets[SetOf(c, r.addr)][k]));
  }

  /** Only a miss looks at the drawn victim. */
  lemma {:induction false} HitIgnoresVictim(c: Config, s: State, r: Request, r': Request)
    requires Consistent(c, s) && ValidRequest(c, |s.mem|, r) && ValidRequest(c, |s.mem|, r')
             && r' == r.(victim := r'.victim)
    requires Find(s.sets[SetOf(c, r.addr)], Tag(c, r.addr)) < c.assoc
    ensures Access(c, s, r) == Access(c, s, r')
  {
    assert ShapedSet(c, s.sets[SetOf(c, r.addr)]);
  }

  lemma {:induction false} OutputIgnoresVictim(c: Config, s: State, r: Request, r': Request, line: Line)
    requires Shaped(c, s) && ValidRequest(c, |s.mem|, r) && ValidRequest(c, |s.mem|, r')
             && r' == r.(victim := r'.victim)
    ensures Output(c, s, r) == Output(c, s, r') && CopiedOut(c, r, line) == CopiedOut(c, r', line)
  {
  }

  lemma {:induction false} MissOutput(c: Config, s: State, r: Request)
    requires Consistent(c, s) && ValidRequest(c, |s.mem|, r)
    requires Find(s.sets[SetOf(c, r.addr)], Tag(c, r.addr)) == c.assoc
    ensures Consistent(c, Access(c, s, r))
    ensures r.cmd.Read? ==> CopiedOut(c, r, Loaded(c, Access(c, s, r).mem, r)) == Output(c, Access(c, s, r), r)
  {
    hide AllUnique, CacheMemory.Good, Access, CopiedOut, Output, Offset, SetOf, Find, Loaded, WrittenBack, VictimOf;
    AccessConsistent(c, s, r);
    MissIs(c, s, r);
    OutputAt(c, Access(c, s, r), r, if c.policy.Random? then VictimOf(c, r) else 0, Loaded(c, Access(c, s, r).mem, r));
  }

  lemma {:induction false} FlushAddrIs(c: Config, s: State, addr: nat)
    requires Consistent(c, s)
    ensures SetOf(c, addr) < |s.sets| == c.nsets
    ensures var ways := s.sets[SetOf(c, addr)];
      var k := Find(ways, Tag(c, addr));
      && |ways| == c.assoc
      && (k == c.assoc ==> FlushAddr(c, s, addr) == s)
      && (k < c.assoc ==>
            && (c.data ==> MkBaddr(c, ways[k].tag, SetOf(c, addr)) + |ways[k].data| <= |s.mem|)
            && FlushAddr(c, s, addr) ==
               State(s.sets[SetOf(c, addr) := ToTail(ways, k, ways[k].(valid := false))],
                     WrittenBack(c, s.mem, ways[k], SetOf(c, addr)),
                     CacheSpec.CountInvalidation(s.stats, ways[k])))
  {
    var k := Find(s.sets[SetOf(c, addr)], Tag(c, addr));
    assert ShapedSet(c, s.sets[SetOf(c, addr)]);
    if k < c.assoc {
      VictimFits(c, s, SetOf(c, addr), k);
    }
  }

  // ---------------------------------------------------------------- prefetches

  ghost predicate ValidTargets(c: Config, size: nat, ts: seq<Target>) {
    forall i | 0 <= i < |ts| :: ValidTarget(c, size, ts[i])
  }

  /** The same blocks asked for; under random replacement the drawn positions are the specification's own. */
  ghost predicate SameTargets(c: Config, ts: seq<Target>, ts': seq<Target>) {
    |ts'| == |ts| && forall i {:trigger ts'[i]} | 0 <= i < |ts| ::
        ts'[i].addr == ts[i].addr && (!c.policy.Random? ==> ts'[i] == ts[i])
  }

  function PrefetchStep(c: Config, s: State, t: Target): (s': State)
    requires Shaped(c, s) && ValidTarget(c, |s.mem|, t)
    ensures Shaped(c, s') && |s'.mem| == |s.mem|
  {
    TargetIsValid(c, |s.mem|, t);
    AccessKeepsShape(c, s, PrefetchOf(c, t));
    if Probe(c, s, t.addr) then s else Access(c, s, PrefetchOf(c, t))
  }

  lemma {:induction false} PrefetchedOneMore(c: Config, s: State, ts: seq<Target>, t: Target)
    requires Shaped(c, s) && ValidTargets(c, |s.mem|, ts) && ValidTarget(c, |s.mem|, t)
    ensures ValidTargets(c, |s.mem|, ts + [t])
    ensures Prefetched(c, s, ts + [t]) == PrefetchStep(c, Prefetched(c, s, ts), t)
    decreases |ts|
  {
    hide ValidTarget, Access, Probe;
    if ts == [] {
      assert ts + [t] == [t] && [t][1..] == [];
    } else {
      assert (ts + [t])[1..] == ts[1..] + [t];
      PrefetchedOneMore(c, PrefetchStep(c, s, ts[0]), ts[1..], t);
    }
  }

  lemma {:induction false} NoTargets(c: Config, s: State)
    requires Shaped(c, s)
    ensures SameTargets(c, [], []) && Prefetched(c, s, []) == s
  {
  }

  lemma {:induction false} CallIs(c: Config, s: State, r: Request, ts: seq<Target>)
    requires Shaped(c, s) && ValidRequest(c, |s.mem|, r) && ValidTargets(c, |s.mem|, ts)
             && (r.prefetch || c.data ==> ts == [])
    ensures Shaped(c, Access(c, s, r)) && ValidStep(c, |s.mem|, Call(r, ts)) && |Access(c, s, r).mem| == |s.mem|
    ensures StepOf(c, s, Call(r, ts)) == Prefetched(c, Access(c, s, r), ts)
  {
    AccessKeepsShape(c, s, r);
  }

  // ---------------------------------------------------------------- creation

  /** The zeroed blocks of one set. */
  method NewBlocks(n: nat, bytes: seq<Byte>, ghost home: nat) returns (bs: seq<Blk>)
    ensures |bs| == n && Distinct(bs)
    ensures forall k {:trigger bs[k]} | 0 <= k < n ::
            fresh(bs[k]) && bs[k].Line() == EMPTY_LINE.(data := bytes) && bs[k].home == home
  {
    bs := [];
    while |bs| < n
      invariant |bs| <= n && Distinct(bs)
      invariant forall k {:trigger bs[k]} | 0 <= k < |bs| ::
                fresh(bs[k]) && bs[k].Line() == EMPTY_LINE.(data := bytes) && bs[k].home == home
    {
      var b := new Blk(bytes, home);
      bs := bs + [b];
    }
  }

  method NewSet(c: Config, ghost i: nat) returns (s: CacheSet)
    requires ValidConfig(c)
    ensures fresh(s) && fresh(s.hash) && s.Valid() && |s.blks| == c.assoc && s.hash.Length == HashSize(c)
    ensures forall k {:trigger s.blks[k]} | 0 <= k < c.assoc :: fresh(s.blks[k]) && s.blks[k].home == i
    ensures s.Ways() == seq(c.assoc, _ => EMPTY_LINE.(data := if c.data then seq(c.bsize, _ => 0 as Byte) else []))
  {
    hide Hash, InPlace, Lists, WayList, Chain;
    var bytes := if c.data then seq(c.bsize, _ => 0 as Byte) else [];
    var bs := NewBlocks(c.assoc, bytes, i);
    var table := new Blk?[HashSize(c)](_ => null);
    s := new CacheSet(bs, table);
    EmptyWays(s, bytes);
  }

  lemma {:induction false} EmptyWays(s: CacheSet, bytes: seq<Byte>)
    requires s.Valid() && forall k {:trigger s.blks[k]} | 0 <= k < |s.blks| ::
             s.blks[k].Line() == EMPTY_LINE.(data := bytes)
    ensures s.Ways() == seq(|s.blks|, _ => EMPTY_LINE.(data := bytes))
  {
    forall j | 0 <= j < |s.order| ensures s.order[j].Line() == EMPTY_LINE.(data := bytes) {
      MemberAt(s.order, s.blks, j);
    }
  }

  ghost function SetObjects(s: CacheSet): set<object> {
    {s, s.hash} + set k | 0 <= k < |s.blks| :: s.blks[k] as object
  }

  lemma {:induction false} WiredOneMore(c: Config, sets: seq<CacheSet>, repr: set<object>, s: CacheSet)
    requires OwnParts(c, sets, repr) && s !in repr && s.hash !in repr
    requires |s.blks| == c.assoc && s.hash.Length == HashSize(c)
    requires forall k {:trigger s.blks[k]} | 0 <= k < |s.blks| :: s.blks[k].home == |sets|
    ensures OwnParts(c, sets + [s], repr + SetObjects(s))
  {
    var sets' := sets + [s];
    assert forall i | 0 <= i < |sets| :: sets'[i] == sets[i];
    assert forall k {:trigger s.blks[k]} | 0 <= k < |s.blks| :: s.blks[k] in SetObjects(s);
  }

  /** All the sets of an empty cache. */
  method BuildSets(c: Config) returns (sets: seq<CacheSet>, ghost repr: set<object>)
    requires ValidConfig(c)
    ensures Wired(c, sets, repr) && fresh(repr)
    ensures forall i {:trigger sets[i]} | 0 <= i < c.nsets :: sets[i].Valid() && sets[i].Ways() == EmptySet(c)
  {
    hide OwnParts, CacheSet.Ordered, CacheSet.Hashed;
    sets, repr := [], {};
    assert OwnParts(c, sets, repr) by { WiredNone(c, sets, repr); }
    while |sets| < c.nsets
      invariant |sets| <= c.nsets && OwnParts(c, sets, repr) && fresh(repr)
      invariant forall i {:trigger sets[i]} | 0 <= i < |sets| :: sets[i].Valid() && sets[i].Ways() == EmptySet(c)
    {
      var s := NewSet(c, |sets|);
      WiredOneMore(c, sets, repr, s);
      forall i {:trigger sets[i]} | 0 <= i < |sets| ensures sets[i].Valid() && sets[i].Ways() == EmptySet(c) {
      }
      ghost var was := sets;
      repr := repr + SetObjects(s);
      sets := sets + [s];
      assert forall i {:trigger sets[i]} | 0 <= i < |was| :: sets[i] == was[i];
    }
    assert Wired(c, sets, repr);
  }

  lemma {:induction false} WiredNone(c: Config, sets: seq<CacheSet>, repr: set<object>)
    requires sets == []
    ensures OwnParts(c, sets, repr)
  {
  }

  lemma {:induction false} CreatedConsistent(c: Config, mem: seq<Byte>)
    requires ValidConfig(c)
    ensures Consistent(c, Created(c, mem))
  {
    var s := Created(c, mem);
    forall i: nat | i < c.nsets ensures ShapedSet(c, s.sets[i]) && CacheMemory.Unique(s.sets[i]) {
    }
    if c.data {
      CacheMemory.CreatedRepresents(c, mem);
    }
  }

  // ---------------------------------------------------------------- the cache

  class Cache {
    const c: Config
    const sets: seq<CacheSet>
    ghost const repr: set<object>
    var mem: seq<Byte>
    var hits: nat
    var misses: nat
    var replacements: nat
    var writebacks: nat
    var invalidations: nat
    var readHits: nat
    var readMisses: nat
    var prefetchHits: nat
    var prefetchMisses: nat
    var lastTagset: nat
    var lastBlk: Blk?

    ghost function Counters(): Stats
      reads this
    {
      Stats(hits, misses, replacements, writebacks, invalidations, readHits, readMisses, prefetchHits, prefetchMisses)
    }

    ghost predicate Sound()
      reads this, repr
    {
      this !in repr && Wired(c, sets, repr) && Linked(c, sets, repr)
    }

    ghost function Abs(): State
      requires Sound()
      reads this, repr
    {
      State(WaysUpTo(c, sets, repr, |sets|), mem, Counters())
    }

    /** The last block to hit is valid, holds the block of `lastTagset`, and under LRU heads its set. */
    ghost predicate LastHeld()
      requires Wired(c, sets, repr)
      reads this, repr
    {
      var s := sets[SetOf(c, lastTagset)];
      && (lastTagset == 0 <==> lastBlk == null)
      && (lastBlk != null ==> lastBlk in s.blks && lastBlk.valid && lastBlk.tag == Tag(c, lastTagset)
                              && (c.policy.LRU? ==> s.wayHead == lastBlk))
    }

    ghost predicate Valid()
      reads this, repr
    {
      Sound() && Consistent(c, Abs()) && LastHeld()
    }

    // -------------------------------------------------------------- creation

    /** cache_create after its checks: nothing valid, no last block, all counters zero. */
    constructor (config: Config, memory: seq<Byte>)
      requires ValidConfig(config)
      ensures Valid() && fresh(repr) && c == config && Abs() == Created(config, memory)
    {
      hide OwnParts, Linked, Consistent;
      c, mem := config, memory;
      hits, misses, replacements, writebacks, invalidations := 0, 0, 0, 0, 0;
      readHits, readMisses, prefetchHits, prefetchMisses := 0, 0, 0, 0;
      lastTagset, lastBlk := 0, null;
      var made; ghost var objs;
      made, objs := BuildSets(config);
      sets, repr := made, objs;
      new;
      Started(memory);
    }

    lemma {:induction false} Started(memory: seq<Byte>)
      requires this !in repr && Wired(c, sets, repr) && mem == memory && Counters() == NO_STATS && lastTagset == 0
               && lastBlk == null
      requires forall i {:trigger sets[i]} | 0 <= i < c.nsets :: sets[i].Valid() && sets[i].Ways() == EmptySet(c)
      ensures Valid() && Abs() == Created(c, memory)
    {
      NoneHeld();
      CreatedConsistent(c, memory);
    }

    // -------------------------------------------------------------- requests and random draws

    /** The request with the way-list position of the block drawn at random in place of its number. */
    ghost function Drawn(addr: nat, pick: nat): (k: nat)
      requires Sound() && pick < c.assoc
      reads this, repr
      ensures k < c.assoc
    {
      if c.policy.Random? then sets[SetOf(c, addr)].VictimAt(Random, pick) else pick
    }

    ghost function AsSpec(r: Request): (r': Request)
      requires Sound() && r.victim < c.assoc
      reads this, repr
    {
      r.(victim := Drawn(r.addr, r.victim))
    }

    // -------------------------------------------------------------- finding a block

    /** The block that a search finds is the one the specification finds. */
    lemma {:induction false} FoundAt(addr: nat, blk: Blk?) returns (k: nat)
      requires Valid()
      requires var s := sets[SetOf(c, addr)];
        if blk == null then forall b <- s.blks :: !(b.valid && b.tag == Tag(c, addr))
        else blk in s.blks && blk.valid && blk.tag == Tag(c, addr)
      ensures var s := sets[SetOf(c, addr)];
        && k == Find(Abs().sets[SetOf(c, addr)], Tag(c, addr)) == Find(s.Ways(), Tag(c, addr))
            && |s.order| == |s.Ways()| == c.assoc
        && (blk == null ==> k == c.assoc) && (blk != null ==> k < c.assoc && s.order[k] == blk)
    {
      var s, tag := sets[SetOf(c, addr)], Tag(c, addr);
      SetValid(c, sets, repr, SetOf(c, addr));
      Members(s.order, s.blks);
      k := if blk == null then |s.order| else PosOf(s.order, blk);
      if blk != null {
        assert Matches(s.Ways()[k], tag);
        assert CacheMemory.Unique(Abs().sets[SetOf(c, addr)]);
      }
      CacheMemory.FindAt(s.Ways(), k, tag);
    }

    /** cache_probe */
    method CacheProbe(addr: nat) returns (found: bool)
      requires Valid()
      ensures Valid() && Abs() == old(Abs())
      ensures found == Probe(c, Abs(), addr)
    {
      hide Linked, Consistent, LastHeld, InPlace, Chain, Lists, WayList;
      var s := sets[SetOf(c, addr)];
      SetValid(c, sets, repr, SetOf(c, addr));
      var blk := s.FindBlk(Tag(c, addr));
      assert Valid() && Abs() == old(Abs());
      ghost var k := FoundAt(addr, blk);
      found := blk != null;
    }

    // -------------------------------------------------------------- counters

    method CountHit(r: Request)
      modifies this`hits, this`readHits, this`prefetchHits
      ensures Counters() == CacheSpec.CountHit(old(Counters()), r)
    {
      if !r.prefetch {
        hits := hits + 1;
        if r.cmd.Read? {
          readHits := readHits + 1;
        }
      } else {
        prefetchHits := prefetchHits + 1;
      }
    }

    method CountMiss(r: Request, evicted: bool, wrote: bool, ghost line: Line)
      requires evicted == line.valid && wrote == (line.valid && line.dirty)
      modifies this`misses, this`readMisses, this`prefetchMisses, this`replacements, this`writebacks
      ensures Counters() == CacheSpec.CountMiss(old(Counters()), r, line)
    {
      if !r.prefetch {
        misses := misses + 1;
        if r.cmd.Read? {
          readMisses := readMisses + 1;
        }
      } else {
        prefetchMisses := prefetchMisses + 1;
      }
      if evicted {
        replacements := replacements + 1;
      }
      if wrote {
        writebacks := writebacks + 1;
      }
    }

    method CountInvalidation(ghost line: Line, dirty: bool)
      requires dirty == line.dirty
      modifies this`invalidations, this`writebacks
      ensures Counters() == CacheSpec.CountInvalidation(old(Counters()), line)
    {
      invalidations := invalidations + 1;
      if dirty {
        writebacks := writebacks + 1;
      }
    }

    lemma {:induction false} NoneHeld()
      requires Wired(c, sets, repr) && lastTagset == 0 && lastBlk == null
      ensures LastHeld()
    {
    }

    /** The memory, the counters and the last block after a miss. */
    method SettleMiss(r: Request, mem': seq<Byte>, evicted: bool, wrote: bool, ghost line: Line)
      requires Sound() && evicted == line.valid && wrote == (line.valid && line.dirty)
      modifies this
      ensures Sound() && LastHeld() && lastTagset == 0
      ensures Abs() == State(old(Abs()).sets, mem', CacheSpec.CountMiss(old(Counters()), r, line))
    {
      hide OwnParts, Linked, CacheSpec.CountMiss, CacheSet.Ordered, CacheSet.Hashed;
      CountMiss(r, evicted, wrote, line);
      mem, lastTagset, lastBlk := mem', 0, null;
      NoneHeld();
    }

    /** The same after an invalidation. */
    method SettleFlush(mem': seq<Byte>, ghost line: Line, dirty: bool)
      requires Sound() && dirty == line.dirty
      modifies this
      ensures Sound() && LastHeld() && lastTagset == 0
      ensures Abs() == State(old(Abs()).sets, mem', CacheSpec.CountInvalidation(old(Counters()), line))
    {
      hide OwnParts, Linked, CacheSpec.CountInvalidation;
      CountInvalidation(line, dirty);
      mem, lastTagset, lastBlk := mem', 0, null;
      NoneHeld();
    }

    // -------------------------------------------------------------- what happens in one set

    /** The state when all sets but `i` are as they were. */
    lemma {:induction false} Assemble(was: seq<seq<Line>>, i: nat)
      requires this !in repr && Wired(c, sets, repr) && i < |sets| == |was| && sets[i].Valid()
      requires forall j {:trigger sets[j]} | 0 <= j < |sets| && j != i :: sets[j].Valid() && sets[j].Ways() == was[j]
      ensures Sound() && Abs() == State(was[i := sets[i].Ways()], mem, Counters())
    {
    }

    lemma {:induction false} AllSets(was: State)
      requires Sound() && was == Abs()
      ensures |was.sets| == |sets| == c.nsets && ValidConfig(c) && this !in repr && Wired(c, sets, repr)
      ensures forall j {:trigger sets[j]} | 0 <= j < |sets| :: sets[j].Valid() && sets[j].Ways() == was.sets[j]
    {
    }

    lemma {:induction false} BlkIn(i: nat, k: nat)
      requires Sound() && i < |sets| && k < |sets[i].order|
      ensures sets[i].order[k] in sets[i].blks && sets[i].order[k] in repr
    {
      SetValid(c, sets, repr, i);
      MemberAt(sets[i].order, sets[i].blks, k);
    }

    /** The set's part of a hit. */
    method HitSet(i: nat, r: Request, blk: Blk, ghost was: State, ghost k: nat) returns (out: seq<Byte>)
      requires Sound() && was == Abs() && i < c.nsets && k < |sets[i].order| == |was.sets[i]| && sets[i].order[k] == blk
      requires Accepted(c, r) && (c.data ==> |was.sets[i][k].data| == c.bsize)
               && (c.data && r.cmd.Write? ==> |r.bytes| == r.nbytes)
      modifies repr
      ensures Sound() && Offset(c, r.addr) + r.nbytes <= c.bsize
      ensures Abs()
              == was.(sets := was.sets[i := Placed(c, was.sets[i], k, Touched(c, r, was.sets[i][k]), c.policy.LRU?)])
      ensures if c.policy.LRU? then sets[i].wayHead == blk else sets[i].order == old(sets[i].order)
      ensures blk.valid == old(blk.valid) && blk.tag == old(blk.tag)
      ensures out == CopiedOut(c, r, Touched(c, r, was.sets[i][k]))
    {
      hide Wired, Linked, Placed, CopiedOut, Offset, Touched, CacheSet.Ordered, CacheSet.Hashed, CacheSet.Ways;
      AllSets(was);
      Apart(c, sets, repr, i);
      BlkIn(i, k);
      OffsetFits(c, r.addr, r.nbytes);
      out := sets[i].Hit(c, r, blk, was.sets[i], k);
      forall j {:trigger sets[j]} | 0 <= j < |sets| && j != i ensures sets[j].Valid() && sets[j].Ways() == was.sets[j] {
        assert old(sets[j].Valid() && sets[j].Ways() == was.sets[j]);
      }
      Assemble(was.sets, i);
    }

    /** The set's part of a miss. */
    method MissSet(i: nat, r: Request, ghost was: State, ghost v: nat)
        returns (mem': seq<Byte>, evicted: bool, wrote: bool, out: seq<Byte>)
      requires Sound() && was == Abs() && ValidRequest(c, |mem|, r) && i < c.nsets && v < |was.sets[i]|
      requires |sets[i].blks| == c.assoc && sets[i].Valid() && v == sets[i].VictimAt(c.policy, r.victim)
      requires c.data && was.sets[i][v].valid ==> MkBaddr(c, was.sets[i][v].tag, i) + |was.sets[i][v].data| <= |mem|
      modifies repr
      ensures Sound() && |mem'| == |mem|
      ensures mem' == WrittenBack(c, was.mem, was.sets[i][v], i)
      ensures Abs() == was.(sets := was.sets[i := Placed(c, was.sets[i], v, Loaded(c, mem', r), !c.policy.Random?)])
      ensures evicted == was.sets[i][v].valid && wrote == (was.sets[i][v].valid && was.sets[i][v].dirty)
      ensures c.policy.Random? ==> sets[i].order == old(sets[i].order)
      ensures out == CopiedOut(c, r, Loaded(c, mem', r))
    {
      hide Wired, Linked, Placed, CopiedOut, Offset, Baddr, MkBaddr, Loaded, WrittenBack, CacheSet.Ordered;
      hide CacheSet.Hashed, CacheSet.Ways, CacheSet.VictimAt;
      AllSets(was);
      Apart(c, sets, repr, i);
      mem', evicted, wrote, out := sets[i].Replace(c, i, r, mem, was.sets[i], v);
      forall j {:trigger sets[j]} | 0 <= j < |sets| && j != i ensures sets[j].Valid() && sets[j].Ways() == was.sets[j] {
        assert old(sets[j].Valid() && sets[j].Ways() == was.sets[j]);
      }
      Assemble(was.sets, i);
    }

    // -------------------------------------------------------------- one access without its prefetches

    lemma {:induction false} Held(addr: nat, blk: Blk)
      requires Wired(c, sets, repr) && Baddr(c, addr) > 0 && lastTagset == Baddr(c, addr) && lastBlk == blk
      requires var s := sets[SetOf(c, addr)];
        blk in s.blks && blk.valid && blk.tag == Tag(c, addr) && (c.policy.LRU? ==> s.wayHead == blk)
      ensures LastHeld()
    {
      DivModUnique(Block(c, addr), 0, c.bsize);
    }

    /** The slow hit: count, touch, reorder, and remember the block. */
    method SlowHit(r: Request, blk: Blk, ghost was: State, ghost k: nat) returns (out: seq<Byte>)
      requires Valid() && was == Abs() && ValidRequest(c, |mem|, r)
      requires k == Find(was.sets[SetOf(c, r.addr)], Tag(c, r.addr)) < c.assoc
               && |sets[SetOf(c, r.addr)].order| == c.assoc
      requires blk == sets[SetOf(c, r.addr)].order[k] && blk.valid && blk.tag == Tag(c, r.addr)
      modifies this, repr
      ensures Valid() && Consistent(c, was) && Abs() == Access(c, was, r)
      ensures Offset(c, r.addr) + r.nbytes <= c.bsize && (c.data ==> |was.sets[SetOf(c, r.addr)][k].data| == c.bsize)
      ensures out == CopiedOut(c, r, Touched(c, r, was.sets[SetOf(c, r.addr)][k]))
      ensures !c.policy.LRU? ==> sets[SetOf(c, r.addr)].order == old(sets[SetOf(c, r.addr)].order)
    {
      hide Wired, Linked, Placed, CopiedOut, Offset, Touched, Access, SetOf, Tag, Find, Baddr, LastHeld, Matches;
      hide Shaped, AllUnique, WaysUpTo, CacheSpec.CountHit;
      var i := SetOf(c, r.addr);
      AccessConsistent(c, was, r);
      HitIs(c, was, r, k);
      BlkIn(i, k);
      out := HitSet(i, r, blk, was, k);
      CountHit(r);
      lastTagset, lastBlk := Baddr(c, r.addr), blk;
      Held(r.addr, blk);
    }

    /** Where the last block stands. */
    lemma {:induction false} LastAt(addr: nat) returns (k: nat)
      requires Valid() && Baddr(c, addr) == lastTagset && lastTagset > 0
      ensures lastBlk != null && lastBlk.valid && lastBlk.tag == Tag(c, addr)
      ensures var s := sets[SetOf(c, addr)];
        && k == Find(Abs().sets[SetOf(c, addr)], Tag(c, addr)) < c.assoc && |s.order| == c.assoc
            && lastBlk == s.order[k]
        && (c.policy.LRU? ==> k == 0 && s.wayHead == lastBlk)
    {
      hide Consistent, Tag, SetOf, Baddr, Find, WaysUpTo, Lists, CacheSet.Hashed;
      SameBlock(c, lastTagset, addr);
      k := FoundAt(addr, lastBlk);
      var s := sets[SetOf(c, addr)];
      SetValid(c, sets, repr, SetOf(c, addr));
      if c.policy.LRU? {
        HeadAt(s.order, s.wayHead, s.wayTail, k);
      }
    }

    /** The set's part of a fast hit. */
    method FastSet(i: nat, r: Request, blk: Blk, ghost was: State, ghost k: nat) returns (out: seq<Byte>)
      requires Sound() && was == Abs() && i < c.nsets && k < |sets[i].order| == |was.sets[i]| && sets[i].order[k] == blk
      requires Accepted(c, r) && (c.data ==> |was.sets[i][k].data| == c.bsize)
               && (c.data && r.cmd.Write? ==> |r.bytes| == r.nbytes)
      modifies repr
      ensures Sound() && Offset(c, r.addr) + r.nbytes <= c.bsize
      ensures Abs() == was.(sets := was.sets[i := was.sets[i][k := Touched(c, r, was.sets[i][k])]])
      ensures sets[i].order == old(sets[i].order) && sets[i].wayHead == old(sets[i].wayHead)
      ensures blk.valid == old(blk.valid) && blk.tag == old(blk.tag)
      ensures out == CopiedOut(c, r, Touched(c, r, was.sets[i][k]))
    {
      hide Wired, Linked, CopiedOut, Offset, Touched, CacheSet.Ordered, CacheSet.Hashed, CacheSet.Ways;
      AllSets(was);
      Apart(c, sets, repr, i);
      BlkIn(i, k);
      OffsetFits(c, r.addr, r.nbytes);
      out := sets[i].FastHit(c, r, blk, was.sets[i], k);
      forall j {:trigger sets[j]} | 0 <= j < |sets| && j != i ensures sets[j].Valid() && sets[j].Ways() == was.sets[j] {
        assert old(sets[j].Valid() && sets[j].Ways() == was.sets[j]);
      }
      Assemble(was.sets, i);
    }

    lemma {:induction false} FirstInFront(ways: seq<Line>, line: Line, front: bool, k: nat)
      requires k < |ways| && (front ==> k == 0)
      ensures Placed(c, ways, k, line, front) == ways[k := line]
    {
    }

    /** The fast hit on the block of the last one. */
    method FastHit(r: Request, ghost was: State, ghost k: nat) returns (out: seq<Byte>)
      requires Valid() && was == Abs() && ValidRequest(c, |mem|, r) && lastTagset == Baddr(c, r.addr) && lastBlk != null
      requires k == Find(was.sets[SetOf(c, r.addr)], Tag(c, r.addr)) < c.assoc
               && |sets[SetOf(c, r.addr)].order| == c.assoc
      requires lastBlk == sets[SetOf(c, r.addr)].order[k] && lastBlk.valid && lastBlk.tag == Tag(c, r.addr)
      requires c.policy.LRU? ==> k == 0 && sets[SetOf(c, r.addr)].wayHead == lastBlk
      modifies this, repr
      ensures Valid() && Consistent(c, was) && Abs() == Access(c, was, r)
      ensures Offset(c, r.addr) + r.nbytes <= c.bsize && (c.data ==> |was.sets[SetOf(c, r.addr)][k].data| == c.bsize)
      ensures out == CopiedOut(c, r, Touched(c, r, was.sets[SetOf(c, r.addr)][k]))
      ensures sets[SetOf(c, r.addr)].order == old(sets[SetOf(c, r.addr)].order)
    {
      hide Wired, Linked, Placed, CopiedOut, Offset, Touched, Access, SetOf, Tag, Find, Baddr, LastHeld, Matches;
      hide Shaped, AllUnique, WaysUpTo, CacheSpec.CountHit;
      var i := SetOf(c, r.addr);
      var blk := lastBlk;
      AccessConsistent(c, was, r);
      HitIs(c, was, r, k);
      BlkIn(i, k);
      out := FastSet(i, r, blk, was, k);
      CountHit(r);
      lastTagset, lastBlk := Baddr(c, r.addr), blk;
      FirstInFront(was.sets[i], Touched(c, r, was.sets[i][k]), c.policy.LRU?, k);
      Held(r.addr, blk);
    }

    lemma {:induction false} VictimIs(i: nat, r: Request) returns (v: nat)
      requires Sound() && i == SetOf(c, r.addr) && r.victim < c.assoc
      ensures i < |sets| && |sets[i].blks| == c.assoc && sets[i].Valid()
              && v == sets[i].VictimAt(c.policy, r.victim) == VictimOf(c, AsSpec(r)) < c.assoc
    {
      SetValid(c, sets, repr, i);
      v := sets[i].VictimAt(c.policy, r.victim);
    }

    /** The miss: count, evict, write back, load, and forget the last block. */
    method Miss(r: Request, ghost was: State, ghost r': Request, ghost v: nat) returns (out: seq<Byte>)
      requires Valid() && was == Abs() && ValidRequest(c, |mem|, r) && ValidRequest(c, |mem|, r')
               && r' == r.(victim := r'.victim)
      requires Find(was.sets[SetOf(c, r.addr)], Tag(c, r.addr)) == c.assoc && SetOf(c, r.addr) < |sets|
      requires var s := sets[SetOf(c, r.addr)];
        |s.blks| == c.assoc && s.Valid() && v == s.VictimAt(c.policy, r.victim) == VictimOf(c, r') < c.assoc
      modifies this, repr
      ensures Valid() && Consistent(c, was) && |mem| == |was.mem| && Abs() == Access(c, was, r')
      ensures out == CopiedOut(c, r, Loaded(c, mem, r))
      ensures c.policy.Random? ==> sets[SetOf(c, r.addr)].order == old(sets[SetOf(c, r.addr)].order)
    {
      hide Wired, Linked, Placed, CopiedOut, Offset, Touched, Access, SetOf, Tag, Find, Baddr, LastHeld, Matches;
      hide Shaped, AllUnique, WaysUpTo, WrittenBack, MkBaddr, VictimOf, CacheSet.VictimAt, CacheSet.Valid;
      hide CacheSpec.CountMiss, Loaded;
      var i := SetOf(c, r.addr);
      AccessConsistent(c, was, r');
      MissIs(c, was, r');
      var mem', evicted, wrote;
      mem', evicted, wrote, out := MissSet(i, r, was, v);
      SettleMiss(r, mem', evicted, wrote, was.sets[i][v]);
      LoadedSame(c, mem, r, r', was.stats, was.sets[i][v]);
    }

    lemma {:induction false} Translated(r: Request)
      requires Valid() && ValidRequest(c, |mem|, r)
      ensures ValidRequest(c, |mem|, AsSpec(r)) && |Abs().mem| == |mem| && AsSpec(r) == r.(victim := AsSpec(r).victim)
      ensures SetOf(c, r.addr) < |sets| == c.nsets && sets[SetOf(c, r.addr)].Valid() && Consistent(c, Abs())
    {
      SetValid(c, sets, repr, SetOf(c, r.addr));
    }

    /** cache_access up to its prefetches: the fast hit, the search, the slow hit or the miss. */
    method AccessBlock(r: Request, ghost was: State, ghost r': Request) returns (out: seq<Byte>)
      requires Valid() && was == Abs() && ValidRequest(c, |mem|, r) && r' == AsSpec(r)
      modifies this, repr
      ensures Valid() && Consistent(c, was) && ValidRequest(c, |was.mem|, r') && Abs() == Access(c, was, r')
      ensures r.cmd.Read? ==> out == Output(c, Abs(), r')
    {
      hide Access, Output, CopiedOut, Find, Tag, Baddr, SetOf, Offset, Loaded, Touched, Wired, Linked, WaysUpTo;
      hide AllUnique, CacheMemory.Good, LastHeld;
      hide Accepted, AsSpec, CacheSet.Ordered, CacheSet.Hashed, CacheSet.VictimAt;
      Translated(r);
      ghost var k, v;
      if Baddr(c, r.addr) == lastTagset {
        k := LastAt(r.addr);
        HitOutput(c, was, r, k);
        HitIgnoresVictim(c, was, r, r');
        out := FastHit(r, was, k);
        OutputIgnoresVictim(c, Abs(), r, r', EMPTY_LINE);
      } else {
        var blk := sets[SetOf(c, r.addr)].FindBlk(Tag(c, r.addr));
        assert Valid() && Abs() == was && AsSpec(r) == r';
        k := FoundAt(r.addr, blk);
        if blk != null {
          HitOutput(c, was, r, k);
          HitIgnoresVictim(c, was, r, r');
          out := SlowHit(r, blk, was, k);
          OutputIgnoresVictim(c, Abs(), r, r', EMPTY_LINE);
        } else {
          MissOutput(c, was, r');
          v := VictimIs(SetOf(c, r.addr), r);
          out := Miss(r, was, r', v);
          LoadedSame(c, mem, r, r', was.stats, EMPTY_LINE);
        }
      }
    }

    // -------------------------------------------------------------- cache_access

    /** What a caller owes: a block within the memory that is not block 0, and data to write. */
    ghost predicate Callable(r: Request)
      reads this
    {
      && ValidConfig(c) && Baddr(c, r.addr) > 0 && Baddr(c, r.addr) + c.bsize <= |mem| && r.victim < c.assoc
      && (c.data && r.cmd.Write? ==> |r.bytes| == r.nbytes)
    }

    /** cache_access.  A request that does not fit its block or is misaligned ends the program, and
        changes nothing; any other one does what the specification says, prefetches included. */
    method CacheAccess(r: Request, targets: seq<Target>)
      returns (ok: bool, out: seq<Byte>, ghost r': Request, ghost targets': seq<Target>)
      requires Valid() && Callable(r) && ValidTargets(c, |mem|, targets) && (r.prefetch || c.data ==> targets == [])
      modifies this, repr
      ensures Valid() && |mem| == old(|mem|)
      ensures ok == Accepted(c, r)
      ensures !ok ==> Abs() == old(Abs())
      ensures ok ==> r' == old(AsSpec(r)) && SameTargets(c, targets, targets')
      ensures ok ==> Shaped(c, old(Abs())) && ValidStep(c, |mem|, Call(r', targets'))
                     && Abs() == StepOf(c, old(Abs()), Call(r', targets'))
      ensures ok && r.cmd.Read? ==> Shaped(c, Access(c, old(Abs()), r'))
                                    && out == Output(c, Access(c, old(Abs()), r'), r')
      decreases if r.prefetch then 0 else 3
    {
      hide Wired, Linked, WaysUpTo, AllUnique, CacheMemory.Good, LastHeld, Access, Output, Prefetched, Drawn;
      hide ValidTarget, StepOf, Shaped;
      ghost var was := Abs();
      out, r', targets' := [], r, targets;
      if !PowerOfTwo(r.nbytes) || r.addr % r.nbytes != 0 {
        return false, [], r, targets;
      }
      if r.addr + r.nbytes > Baddr(c, r.addr) + c.bsize {
        return false, [], r, targets;
      }
      ok := true;
      r' := AsSpec(r);
      out := AccessBlock(r, was, r');
      NoTargets(c, Abs());
      if !r.prefetch {
        targets' := GeneratePrefetch(targets, Abs());
      }
      CallIs(c, was, r', targets');
    }

    /** Each block asked for is probed, and accessed if it is absent. */
    method GeneratePrefetch(targets: seq<Target>, ghost was: State) returns (ghost targets': seq<Target>)
      requires Valid() && was == Abs() && ValidTargets(c, |mem|, targets)
      modifies this, repr
      ensures Valid() && Shaped(c, was) && |mem| == |was.mem|
      ensures SameTargets(c, targets, targets') && ValidTargets(c, |mem|, targets')
              && Abs() == Prefetched(c, was, targets')
      decreases 2
    {
      hide Wired, Linked, WaysUpTo, AllUnique, CacheMemory.Good, LastHeld, Prefetched, PrefetchStep, ValidTarget;
      hide Shaped;
      targets' := [];
      NoTargets(c, was);
      var n := 0;
      while n < |targets|
        invariant n <= |targets| && Valid() && |mem| == |was.mem|
        invariant SameTargets(c, targets[..n], targets') && ValidTargets(c, |mem|, targets')
                  && Abs() == Prefetched(c, was, targets')
      {
        ghost var t := PrefetchOne(targets[n], Abs());
        PrefetchedOneMore(c, was, targets', t);
        targets' := targets' + [t];
        n := n + 1;
      }
    }

    method PrefetchOne(t: Target, ghost was: State) returns (ghost t': Target)
      requires Valid() && was == Abs() && ValidTarget(c, |mem|, t)
      modifies this, repr
      ensures Valid() && Shaped(c, was) && |mem| == |was.mem| && ValidTarget(c, |mem|, t')
      ensures t'.addr == t.addr && (!c.policy.Random? ==> t' == t) && Abs() == PrefetchStep(c, was, t')
      decreases 1
    {
      hide Wired, Linked, WaysUpTo, AllUnique, CacheMemory.Good, LastHeld, Access, Output;
      t' := t;
      var found := CacheProbe(t.addr);
      if !found {
        TargetIsValid(c, |mem|, t);
        t' := t.(victim := Drawn(Baddr(c, t.addr), t.victim));
        var ok, out; ghost var r', ts;
        ok, out, r', ts := CacheAccess(PrefetchOf(c, t), []);
      }
    }

    // -------------------------------------------------------------- flushing

    method FlushAddrSet(i: nat, blk: Blk, ghost was: State, ghost k: nat) returns (mem': seq<Byte>)
      requires Sound() && was == Abs() && i < c.nsets && k < |sets[i].order| == |was.sets[i]| && sets[i].order[k] == blk
               && blk.valid
      requires c.data ==> MkBaddr(c, blk.tag, i) + |blk.data| <= |mem|
      modifies repr
      ensures Sound() && |mem'| == |mem| && mem' == WrittenBack(c, was.mem, was.sets[i][k], i)
      ensures Abs() == was.(sets := was.sets[i := ToTail(was.sets[i], k, was.sets[i][k].(valid := false))])
      ensures blk.dirty == old(blk.dirty) && |was.sets| == c.nsets
    {
      hide Wired, Linked, MkBaddr, WrittenBack, CacheSet.Ordered, CacheSet.Hashed, CacheSet.Ways;
      AllSets(was);
      Apart(c, sets, repr, i);
      BlkIn(i, k);
      mem' := sets[i].InvalidateToTail(c, i, blk, mem, was.sets[i], k);
      forall j {:trigger sets[j]} | 0 <= j < |sets| && j != i ensures sets[j].Valid() && sets[j].Ways() == was.sets[j] {
        assert old(sets[j].Valid() && sets[j].Ways() == was.sets[j]);
      }
      Assemble(was.sets, i);
    }

    /** The found block is invalidated, written back if dirty, and goes to the tail. */
    method FlushFound(addr: nat, blk: Blk, ghost was: State, ghost k: nat)
      requires Valid() && was == Abs() && k == Find(was.sets[SetOf(c, addr)], Tag(c, addr)) < c.assoc
      requires SetOf(c, addr) < |sets| && k < |sets[SetOf(c, addr)].order| == c.assoc
      requires sets[SetOf(c, addr)].order[k] == blk && blk.valid
      modifies this, repr
      ensures Valid() && Shaped(c, was) && Abs() == FlushAddr(c, was, addr)
    {
      hide Wired, Linked, WaysUpTo, AllUnique, CacheMemory.Good, LastHeld, FlushAddr, SetOf, Tag, Find, MkBaddr;
      hide WrittenBack;
      hide CacheSet.Ordered, CacheSet.Hashed, CacheSet.VictimAt, CacheSet.Ways, CacheSpec.CountInvalidation;
      var i := SetOf(c, addr);
      FlushAddrConsistent(c, was, addr);
      FlushAddrIs(c, was, addr);
      LineAt(was, i, k);
      var mem' := FlushAddrSet(i, blk, was, k);
      SettleFlush(mem', was.sets[i][k], blk.dirty);
    }

    /** cache_flush_addr */
    method CacheFlushAddr(addr: nat)
      requires Valid()
      modifies this, repr
      ensures Valid() && Shaped(c, old(Abs())) && Abs() == FlushAddr(c, old(Abs()), addr)
    {
      hide Wired, Linked, WaysUpTo, AllUnique, CacheMemory.Good, LastHeld, FlushAddr, SetOf, Tag, Find;
      hide CacheSet.Ordered, CacheSet.Hashed, CacheSet.Ways;
      ghost var was := Abs();
      FlushAddrIs(c, was, addr);
      AllSets(was);
      var blk := sets[SetOf(c, addr)].FindBlk(Tag(c, addr));
      assert Valid() && Abs() == was;
      ghost var k := FoundAt(addr, blk);
      if blk != null {
        FlushFound(addr, blk, was, k);
      }
    }

    lemma {:induction false} LineAt(was: State, i: nat, k: nat)
      requires Sound() && was == Abs() && i < |sets| && k < |sets[i].order|
      ensures i < |was.sets| && k < |was.sets[i]| && was.sets[i][k] == sets[i].order[k].Line()
    {
      SetValid(c, sets, repr, i);
    }

    method FlushAtSet(i: nat, blk: Blk, ghost was: State, ghost k: nat) returns (mem': seq<Byte>)
      requires Sound() && was == Abs() && i < c.nsets && k < |sets[i].order| == |was.sets[i]| && sets[i].order[k] == blk
               && blk.valid
      requires c.data ==> MkBaddr(c, blk.tag, i) + |blk.data| <= |mem|
      modifies repr
      ensures Sound() && |mem'| == |mem| && mem' == WrittenBack(c, was.mem, was.sets[i][k], i)
      ensures Abs() == was.(sets := was.sets[i := was.sets[i][k := was.sets[i][k].(valid := false)]])
      ensures blk.dirty == old(blk.dirty)
      ensures sets[i].order == old(sets[i].order) && |was.sets| == c.nsets
    {
      hide Wired, Linked, MkBaddr, WrittenBack, CacheSet.Ordered, CacheSet.Hashed, CacheSet.Ways;
      AllSets(was);
      Apart(c, sets, repr, i);
      BlkIn(i, k);
      mem' := sets[i].Invalidate(c, i, blk, mem, was.sets[i], k);
      forall j {:trigger sets[j]} | 0 <= j < |sets| && j != i ensures sets[j].Valid() && sets[j].Ways() == was.sets[j] {
        assert old(sets[j].Valid() && sets[j].Ways() == was.sets[j]);
      }
      Assemble(was.sets, i);
    }

    /** One block of a flush. */
    method FlushBlk(i: nat, blk: Blk, ghost was: State, ghost k: nat)
      requires Valid() && was == Abs() && lastTagset == 0 && i < c.nsets && k < |sets[i].order| == c.assoc
               && sets[i].order[k] == blk
      modifies this, repr
      ensures Valid() && lastTagset == 0 && Consistent(c, was) && |was.sets| == c.nsets && |was.sets[i]| == c.assoc
      ensures Abs() == FlushAt(c, was, i, k) && sets[i].order == old(sets[i].order)
    {
      hide Wired, Linked, WaysUpTo, AllUnique, CacheMemory.Good, MkBaddr, WrittenBack, Shaped;
      hide CacheSet.Ordered, CacheSet.Hashed, CacheSet.VictimAt, CacheSet.Ways, CacheSpec.CountInvalidation;
      WholeSet(was, i);
      FlushAtConsistent(c, was, i, k);
      LineAt(was, i, k);
      VictimFits(c, was, i, k);
      if blk.valid {
        var mem' := FlushAtSet(i, blk, was, k);
        SettleFlush(mem', was.sets[i][k], blk.dirty);
      }
    }

    lemma {:induction false} OrderAt(i: nat)
      requires Sound() && i < |sets|
      ensures |sets[i].order| == c.assoc && WayList(sets[i].order, sets[i].wayHead, sets[i].wayTail)
    {
      SetValid(c, sets, repr, i);
    }

    /** The inner loop of cache_flush: every block of a set, in way-list order. */
    method FlushSet(i: nat, ghost was: State)
      requires Valid() && was == Abs() && lastTagset == 0 && i < c.nsets
      modifies this, repr
      ensures Valid() && lastTagset == 0 && |was.sets| == c.nsets && |was.sets[i]| == c.assoc
      ensures Abs() == FlushUpTo(c, was, i, c.assoc)
    {
      hide Wired, Linked, WaysUpTo, AllUnique, CacheMemory.Good, Shaped, LastHeld, FlushAt;
      hide CacheSet.Ordered, CacheSet.Hashed, CacheSet.VictimAt, CacheSet.Ways;
      WholeSet(was, i);
      OrderAt(i);
      var blk := sets[i].wayHead;
      ghost var k := 0;
      while blk != null
        invariant k <= c.assoc && Valid() && lastTagset == 0
        invariant |sets[i].order| == c.assoc && blk == At(sets[i].order, k)
        invariant Abs() == FlushUpTo(c, was, i, k)
        decreases c.assoc - k
      {
        FlushBlk(i, blk, Abs(), k);
        OrderAt(i);
        blk := blk.wayNext;
        k := k + 1;
      }
    }

    lemma {:induction false} WholeSet(was: State, i: nat)
      requires Valid() && was == Abs() && i < c.nsets
      ensures |was.sets| == c.nsets == |sets| && |was.sets[i]| == c.assoc
    {
    }

    /** cache_flush */
    method CacheFlush()
      requires Valid()
      modifies this, repr
      ensures Valid() && Shaped(c, old(Abs())) && Abs() == Flush(c, old(Abs()))
    {
      hide Wired, Linked, WaysUpTo, AllUnique, CacheMemory.Good, FlushUpTo;
      hide CacheSet.Ordered, CacheSet.Hashed, CacheSet.VictimAt, CacheSet.Ways;
      ghost var was := Abs();
      lastTagset, lastBlk := 0, null;
      var i := 0;
      while i < c.nsets
        invariant i <= c.nsets == |was.sets| && Valid() && lastTagset == 0
        invariant Abs() == FlushSets(c, was, i)
      {
        FlushSet(i, Abs());
        i := i + 1;
      }
    }
  }

  // ---------------------------------------------------------------- the indexes agree

  /** In a valid cache every block has one place in the way list of its set and, if there are hash
      tables, one place in all the buckets of its set: in the bucket of its tag. */
  lemma {:induction false} OnePlaceEach(cache: Cache, i: nat, b: Blk)
    requires cache.Valid() && i < cache.c.nsets && |cache.sets| == cache.c.nsets && b in cache.sets[i].blks
    ensures var s := cache.sets[i];
      && (exists k {:trigger s.order[k]} :: 0 <= k < |s.order| && s.order[k] == b)
      && (forall k, l | 0 <= k < |s.order| && 0 <= l < |s.order| && s.order[k] == s.order[l] == b :: k == l)
    ensures var s := cache.sets[i];
      s.hash.Length > 0 ==>
        && |s.chains| == s.hash.Length && b in s.chains[Hash(b.tag, s.hash.Length)]
        && (forall g, k {:trigger s.chains[g][k]} | 0 <= g < |s.chains| && 0 <= k < |s.chains[g]|
              && s.chains[g][k] == b ::
              g == Hash(b.tag, s.hash.Length))
        && (forall g, k, l | 0 <= g < |s.chains| && 0 <= k < l < |s.chains[g]| :: s.chains[g][k] != s.chains[g][l])
  {
    hide Hash, Consistent;
    SetValid(cache.c, cache.sets, cache.repr, i);
    var s := cache.sets[i];
    assert b in s.order;
    if s.hash.Length > 0 {
      assert forall g {:trigger s.chains[g]} | 0 <= g < |s.chains| :: Chain(s.chains[g], s.hash[g]);
    }
  }

  // ---------------------------------------------------------------- creation

  /** The parameter checks of cache_create, with `accessFn` for a block access function that is there. */
  predicate Creatable(nsets: int, bsize: int, usize: int, assoc: int, accessFn: bool, prefetchType: int) {
    && nsets > 0 && PowerOfTwo(nsets) && bsize >= 8 && PowerOfTwo(bsize) && assoc > 0 && PowerOfTwo(assoc)
    && usize >= 0 && accessFn && prefetchType >= 0
  }

  method CacheCreate(nsets: int, bsize: int, data: bool, usize: int, assoc: int, policy: Policy, accessFn: bool,
                     prefetchType: int, memory: seq<Byte>)
    returns (cache: Cache?)
    ensures cache == null <==> !Creatable(nsets, bsize, usize, assoc, accessFn, prefetchType)
    ensures cache != null ==> fresh(cache) && fresh(cache.repr) && cache.Valid()
    ensures cache != null ==> cache.c == Config(nsets, bsize, assoc, policy, data)
    ensures cache != null ==> cache.Abs() == Created(cache.c, memory)
  {
    if nsets <= 0 || !PowerOfTwo(nsets) || bsize < 8 || !PowerOfTwo(bsize) || usize < 0 {
      return null;
    }
    if assoc <= 0 || !PowerOfTwo(assoc) || !accessFn || prefetchType < 0 {
      return null;
    }
    cache := new Cache(Config(nsets, bsize, assoc, policy, data), memory);
  }
}
