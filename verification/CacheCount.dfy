/** The counters of the cache balance over every run, whatever the policy and the prefetcher. */
module CacheCount {
  import opened CacheSpec

  // ---------------------------------------------------------------- counting lines

  function One(b: bool): nat { if b then 1 else 0 }

  /** What is counted: valid lines, or those of them that a write has changed. */
  datatype Kind = Valid | Dirty {
    predicate Of(line: Line) { line.valid && (Dirty? ==> line.dirty) }
  }

  function CountIn(kind: Kind, ways: seq<Line>): (n: nat) {
    if ways == [] then 0 else One(kind.Of(ways[0])) + CountIn(kind, ways[1..])
  }

  function Total(kind: Kind, sets: seq<seq<Line>>): (n: nat) {
    if sets == [] then 0 else CountIn(kind, sets[0]) + Total(kind, sets[1..])
  }

  lemma {:induction false} CountInConcat(kind: Kind, a: seq<Line>, b: seq<Line>)
    ensures CountIn(kind, a + b) == CountIn(kind, a) + CountIn(kind, b)
  {
    if a == [] {
      assert a + b == b;
    } else {
      assert (a + b)[1..] == a[1..] + b;
      CountInConcat(kind, a[1..], b);
    }
  }

  lemma {:induction false} CountInSplit(kind: Kind, ways: seq<Line>, k: nat)
    requires k < |ways|
    ensures CountIn(kind, ways) == CountIn(kind, ways[..k]) + One(kind.Of(ways[k])) + CountIn(kind, ways[k + 1..])
  {
    assert ways == ways[..k] + ways[k..];
    CountInConcat(kind, ways[..k], ways[k..]);
  }

  /** A set after one of its lines was replaced, in place, to the front or to the tail. */
  lemma {:induction false} CountInMoved(kind: Kind, ways: seq<Line>, k: nat, line: Line)
    requires k < |ways|
    ensures CountIn(kind, ways[k := line]) == CountIn(kind, ways) - One(kind.Of(ways[k])) + One(kind.Of(line))
    ensures CountIn(kind, ToFront(ways, k, line)) == CountIn(kind, ways) - One(kind.Of(ways[k])) + One(kind.Of(line))
    ensures CountIn(kind, ToTail(ways, k, line)) == CountIn(kind, ways) - One(kind.Of(ways[k])) + One(kind.Of(line))
  {
    CountInSplit(kind, ways, k);
    CountInSplit(kind, ways[k := line], k);
    assert ways[k := line][..k] == ways[..k] && ways[k := line][k + 1..] == ways[k + 1..];
    var rest := ways[..k] + ways[k + 1..];
    CountInConcat(kind, ways[..k], ways[k + 1..]);
    assert ToFront(ways, k, line) == [line] + rest && ToTail(ways, k, line) == rest + [line];
    CountInConcat(kind, rest, [line]);
    assert CountIn(kind, [line]) == One(kind.Of(line)) by { assert [line][1..] == []; }
    CountInConcat(kind, [line], rest);
  }

  lemma {:induction false} TotalUpdate(kind: Kind, sets: seq<seq<Line>>, i: nat, ways: seq<Line>)
    requires i < |sets|
    ensures Total(kind, sets[i := ways]) == Total(kind, sets) - CountIn(kind, sets[i]) + CountIn(kind, ways)
    ensures Total(kind, sets) >= CountIn(kind, sets[i])
    decreases i
  {
    if i == 0 {
      assert sets[i := ways][1..] == sets[1..];
    } else {
      assert sets[i := ways][1..] == sets[1..][i - 1 := ways];
      TotalUpdate(kind, sets[1..], i - 1, ways);
    }
  }

  /** One line of one set replaced: how the number of valid blocks changes. */
  lemma {:induction false} TotalMoved(kind: Kind, sets: seq<seq<Line>>, i: nat, k: nat, line: Line)
    requires i < |sets| && k < |sets[i]|
    ensures var d := One(kind.Of(line)) - One(kind.Of(sets[i][k]));
      && Total(kind, sets[i := sets[i][k := line]]) == Total(kind, sets) + d
      && Total(kind, sets[i := ToFront(sets[i], k, line)]) == Total(kind, sets) + d
      && Total(kind, sets[i := ToTail(sets[i], k, line)]) == Total(kind, sets) + d
  {
    CountInMoved(kind, sets[i], k, line);
    TotalUpdate(kind, sets, i, sets[i][k := line]);
    TotalUpdate(kind, sets, i, ToFront(sets[i], k, line));
    TotalUpdate(kind, sets, i, ToTail(sets[i], k, line));
  }

  // ---------------------------------------------------------------- the balance

  /** Every valid block came in by a miss and left by a replacement or an invalidation; only blocks
      that leave are written back. */
  ghost predicate Balanced(s: State) {
    && Total(Valid, s.sets) + s.stats.replacements + s.stats.invalidations == s.stats.misses + s.stats.prefetchMisses
    && s.stats.writebacks <= s.stats.replacements + s.stats.invalidations
    && s.stats.readHits <= s.stats.hits && s.stats.readMisses <= s.stats.misses
  }

  /** Blocks that are dirty or were written back when they left. */
  function Changed(s: State): nat { Total(Dirty, s.sets) + s.stats.writebacks }

  /** Whether a write turns its block from clean, or absent, to dirty. */
  predicate Dirties(c: Config, s: State, r: Request)
    requires Shaped(c, s)
  {
    var ways := s.sets[SetOf(c, r.addr)];
    var k := Find(ways, Tag(c, r.addr));
    r.cmd.Write? && (k < |ways| ==> !ways[k].dirty)
  }

  /** An access misses exactly if its block is absent; it is counted once, as a hit or as a miss, and so
      is a read.  A dirty block that it replaces is counted as written back: no change is lost. */
  lemma {:induction false} AccessCounts(c: Config, s: State, r: Request)
    requires Shaped(c, s) && ValidRequest(c, |s.mem|, r)
    ensures Balanced(s) ==> Balanced(Access(c, s, r))
    ensures Changed(Access(c, s, r)) == Changed(s) + One(Dirties(c, s, r))
    ensures var st, st' := s.stats, Access(c, s, r).stats;
      var hit := Probe(c, s, r.addr);
      && st'.hits == st.hits + One(hit && !r.prefetch) && st'.misses == st.misses + One(!hit && !r.prefetch)
      && st'.readHits == st.readHits + One(hit && !r.prefetch && r.cmd.Read?)
      && st'.readMisses == st.readMisses + One(!hit && !r.prefetch && r.cmd.Read?)
      && st'.prefetchHits == st.prefetchHits + One(hit && r.prefetch)
      && st'.prefetchMisses == st.prefetchMisses + One(!hit && r.prefetch)
      && st'.invalidations == st.invalidations
      && st'.replacements == st.replacements + One(!hit) - (Total(Valid, Access(c, s, r).sets) - Total(Valid, s.sets))
  {
    hide Find, Total, Baddr, Offset, MkBaddr;
    OneLine(Valid, c, s, r);
    OneLine(Dirty, c, s, r);
  }

  /** An access replaces one line of one set, and on a miss counts the line it replaced. */
  lemma {:induction false} OneLine(kind: Kind, c: Config, s: State, r: Request)
    requires Shaped(c, s) && ValidRequest(c, |s.mem|, r)
    ensures Offset(c, r.addr) + r.nbytes <= c.bsize && |s.sets[SetOf(c, r.addr)]| == c.assoc
    ensures var ways := s.sets[SetOf(c, r.addr)];
      var k := Find(ways, Tag(c, r.addr));
      if k < c.assoc
      then Total(kind, Access(c, s, r).sets) == Total(kind, s.sets) + One(kind.Dirty? && r.cmd.Write? && !ways[k].dirty)
      else Total(kind, Access(c, s, r).sets)
           == Total(kind, s.sets) - One(kind.Of(ways[VictimOf(c, r)])) + One(kind.Dirty? ==> r.cmd.Write?)
  {
    hide Total, ToFront, Tag, SetOf, Baddr, Offset, MkBaddr, Splice;
    OffsetFits(c, r.addr, r.nbytes);
    var i := SetOf(c, r.addr);
    var ways := s.sets[i];
    assert ShapedSet(c, ways);
    var k := Find(ways, Tag(c, r.addr));
    if k < |ways| {
      TotalMoved(kind, s.sets, i, k, Touched(c, r, ways[k]));
    } else {
      var v := VictimOf(c, r);
      TotalMoved(kind, s.sets, i, v, Loaded(c, WrittenBack(c, s.mem, ways[v], i), r));
    }
  }

  /** The counters that only accesses move. */
  function AccessCounters(st: Stats): Stats {
    st.(invalidations := 0, writebacks := 0)
  }

  /** What a flush leaves alone. */
  ghost predicate FlushKeeps(s: State, s': State) {
    && (Balanced(s) ==> Balanced(s'))
    && AccessCounters(s'.stats) == AccessCounters(s.stats) && Changed(s') == Changed(s)
    && s'.stats.invalidations == s.stats.invalidations + Total(Valid, s.sets) - Total(Valid, s'.sets)
  }

  lemma {:induction false} FlushAtCounts(c: Config, s: State, i: nat, k: nat)
    requires i < |s.sets| && k < |s.sets[i]|
    ensures FlushKeeps(s, FlushAt(c, s, i, k))
  {
    TotalMoved(Valid, s.sets, i, k, s.sets[i][k].(valid := false));
    TotalMoved(Dirty, s.sets, i, k, s.sets[i][k].(valid := false));
  }

  lemma {:induction false} FlushUpToCounts(c: Config, s: State, i: nat, k: nat)
    requires i < |s.sets| && k <= |s.sets[i]|
    ensures FlushKeeps(s, FlushUpTo(c, s, i, k))
  {
    hide Balanced, AccessCounters, Changed;
    if k > 0 {
      FlushUpToCounts(c, s, i, k - 1);
      FlushAtCounts(c, FlushUpTo(c, s, i, k - 1), i, k - 1);
    }
  }

  lemma {:induction false} FlushSetsCount(c: Config, s: State, n: nat)
    requires n <= |s.sets|
    ensures FlushKeeps(s, FlushSets(c, s, n))
  {
    hide Balanced, AccessCounters, Changed;
    if n > 0 {
      FlushSetsCount(c, s, n - 1);
      var t := FlushSets(c, s, n - 1);
      FlushUpToCounts(c, t, n - 1, |t.sets[n - 1]|);
    }
  }

  lemma {:induction false} FlushAddrCounts(c: Config, s: State, addr: nat)
    requires Shaped(c, s)
    ensures FlushKeeps(s, FlushAddr(c, s, addr))
  {
    var i := SetOf(c, addr);
    var k := Find(s.sets[i], Tag(c, addr));
    if k < |s.sets[i]| {
      TotalMoved(Valid, s.sets, i, k, s.sets[i][k].(valid := false));
      TotalMoved(Dirty, s.sets, i, k, s.sets[i][k].(valid := false));
    }
  }

  /** How many of the targets are absent when their turn comes: the prefetch accesses that are made. */
  function Issued(c: Config, s: State, targets: seq<Target>): (n: nat)
    requires Shaped(c, s) && forall i | 0 <= i < |targets| :: ValidTarget(c, |s.mem|, targets[i])
    decreases |targets|
  {
    if targets == [] then 0 else
    var t := targets[0];
    TargetIsValid(c, |s.mem|, t);
    AccessKeepsShape(c, s, PrefetchOf(c, t));
    if Probe(c, s, t.addr) then Issued(c, s, targets[1..])
    else 1 + Issued(c, Access(c, s, PrefetchOf(c, t)), targets[1..])
  }

  /** A prefetcher's own accesses always miss: each target was probed first.  They change no block. */
  lemma {:induction false} PrefetchCounts(c: Config, s: State, targets: seq<Target>)
    requires Shaped(c, s) && (forall i | 0 <= i < |targets| :: ValidTarget(c, |s.mem|, targets[i]))
    ensures Balanced(s) ==> Balanced(Prefetched(c, s, targets))
    ensures Changed(Prefetched(c, s, targets)) == Changed(s)
    ensures var st, st' := s.stats, Prefetched(c, s, targets).stats;
      && st'.hits == st.hits && st'.misses == st.misses && st'.prefetchHits == st.prefetchHits
      && st'.readHits == st.readHits && st'.readMisses == st.readMisses && st'.invalidations == st.invalidations
      && st'.prefetchMisses == st.prefetchMisses + Issued(c, s, targets)
    decreases |targets|
  {
    hide Balanced, Access, Changed;
    if targets != [] {
      var t := targets[0];
      TargetIsValid(c, |s.mem|, t);
      AccessKeepsShape(c, s, PrefetchOf(c, t));
      AccessCounts(c, s, PrefetchOf(c, t));
      PrefetchCounts(c, if Probe(c, s, t.addr) then s else Access(c, s, PrefetchOf(c, t)), targets[1..]);
    }
  }

  // ---------------------------------------------------------------- whole runs

  /** What one operation or run asks for: demand accesses, reads among them, prefetch accesses made, clean
      or absent blocks written to, and valid blocks flushed. */
  datatype Tally = Tally(demands: nat, demandReads: nat, prefetches: nat, dirtied: nat, flushed: int) {
    function Plus(t: Tally): Tally {
      Tally(demands + t.demands, demandReads + t.demandReads, prefetches + t.prefetches, dirtied + t.dirtied,
          flushed + t.flushed)
    }
  }

  ghost function TallyOf(c: Config, s: State, x: Step): Tally
    requires Shaped(c, s) && ValidStep(c, |s.mem|, x)
  {
    if x.Call? then
      AccessKeepsShape(c, s, x.r);
      Tally(One(!x.r.prefetch), One(!x.r.prefetch && x.r.cmd.Read?),
            One(x.r.prefetch) + Issued(c, Access(c, s, x.r), x.targets), One(Dirties(c, s, x.r)), 0)
    else
      Tally(0, 0, 0, 0, Total(Valid, s.sets) - Total(Valid, StepOf(c, s, x).sets))
  }

  ghost function Tallied(c: Config, s: State, ops: seq<Step>): Tally
    requires Shaped(c, s) && ValidSteps(c, |s.mem|, ops)
    decreases |ops|
  {
    if ops == [] then Tally(0, 0, 0, 0, 0)
    else TallyOf(c, s, ops[0]).Plus(Tallied(c, StepOf(c, s, ops[0]), ops[1..]))
  }

  /** How the counters move when that is done. */
  ghost predicate Counted(s: State, s': State, t: Tally) {
    var st, st' := s.stats, s'.stats;
    && (Balanced(s) ==> Balanced(s'))
    && st'.hits + st'.misses == st.hits + st.misses + t.demands
    && st'.readHits + st'.readMisses == st.readHits + st.readMisses + t.demandReads
    && st'.prefetchHits + st'.prefetchMisses == st.prefetchHits + st.prefetchMisses + t.prefetches
    && st'.invalidations == st.invalidations + t.flushed
    && Changed(s') == Changed(s) + t.dirtied
  }

  lemma {:induction false} StepCounts(c: Config, s: State, x: Step)
    requires Shaped(c, s) && ValidStep(c, |s.mem|, x)
    ensures Counted(s, StepOf(c, s, x), TallyOf(c, s, x))
    ensures !(x.Call? && x.r.prefetch) ==> StepOf(c, s, x).stats.prefetchHits == s.stats.prefetchHits
  {
    hide Balanced, Access, Probe, Issued, Prefetched, FlushAddr, Flush, Changed, Dirties;
    match x
    case Call(r, targets) =>
      AccessCounts(c, s, r);
      AccessKeepsShape(c, s, r);
      PrefetchCounts(c, Access(c, s, r), targets);
    case FlushBlock(addr) =>
      FlushAddrCounts(c, s, addr);
    case FlushAll =>
      FlushCounts(c, s);
  }

  lemma {:induction false} FlushCounts(c: Config, s: State)
    requires Shaped(c, s)
    ensures FlushKeeps(s, Flush(c, s))
  {
    FlushSetsCount(c, s, c.nsets);
  }

  lemma {:induction false} RunCounts(c: Config, s: State, ops: seq<Step>)
    requires Shaped(c, s) && ValidSteps(c, |s.mem|, ops)
    ensures Counted(s, Run(c, s, ops), Tallied(c, s, ops))
    ensures (forall i | 0 <= i < |ops| :: ops[i].Call? ==> !ops[i].r.prefetch) ==>
              Run(c, s, ops).stats.prefetchHits == s.stats.prefetchHits
    decreases |ops|
  {
    hide Balanced, StepOf, TallyOf, Changed;
    if ops != [] {
      StepCounts(c, s, ops[0]);
      RunCounts(c, StepOf(c, s, ops[0]), ops[1..]);
    }
  }

  lemma {:induction false} NoneValidIn(kind: Kind, ways: seq<Line>)
    requires NoneValid(ways)
    ensures CountIn(kind, ways) == 0
  {
    if ways != [] {
      assert forall j | 0 <= j < |ways[1..]| :: ways[1..][j] == ways[j + 1];
      NoneValidIn(kind, ways[1..]);
    }
  }

  lemma {:induction false} NoneValidTotal(kind: Kind, sets: seq<seq<Line>>)
    requires forall i {:trigger sets[i]} | 0 <= i < |sets| :: NoneValid(sets[i])
    ensures Total(kind, sets) == 0
  {
    if sets != [] {
      NoneValidIn(kind, sets[0]);
      assert forall i | 0 <= i < |sets[1..]| :: sets[1..][i] == sets[i + 1];
      NoneValidTotal(kind, sets[1..]);
    }
  }

  /** From creation on: the number of valid blocks is what came in less what went out, each access and
      each read was counted exactly once, and every block that a write changed is still dirty or was
      counted as written back. */
  lemma {:induction false} Conservation(c: Config, mem: seq<Byte>, ops: seq<Step>)
    requires ValidConfig(c) && ValidSteps(c, |mem|, ops)
    ensures Shaped(c, Created(c, mem))
    ensures var s := Run(c, Created(c, mem), ops);
      var t := Tallied(c, Created(c, mem), ops);
      && Total(Valid, s.sets) == s.stats.misses + s.stats.prefetchMisses - s.stats.replacements - s.stats.invalidations
      && s.stats.invalidations == t.flushed
      && s.stats.hits + s.stats.misses == t.demands && s.stats.readHits + s.stats.readMisses == t.demandReads
      && s.stats.prefetchHits + s.stats.prefetchMisses == t.prefetches
      && Total(Dirty, s.sets) + s.stats.writebacks == t.dirtied
      && s.stats.writebacks <= s.stats.replacements + s.stats.invalidations
      && ((forall i | 0 <= i < |ops| :: ops[i].Call? ==> !ops[i].r.prefetch) ==> s.stats.prefetchHits == 0)
  {
    hide Run, Tallied;
    var s := Created(c, mem);
    forall i | 0 <= i < c.nsets ensures ShapedSet(c, s.sets[i]) && NoneValid(s.sets[i]) {
    }
    NoneValidTotal(Valid, s.sets);
    NoneValidTotal(Dirty, s.sets);
    RunCounts(c, s, ops);
  }

  /** Flushing everything leaves no valid block, so all that ever came in has gone out, and all that was
      changed has been written back. */
  lemma {:induction false} FlushEmpties(c: Config, s: State)
    requires Shaped(c, s) && Balanced(s)
    ensures var st := Flush(c, s).stats;
      && Total(Valid, Flush(c, s).sets) == 0 && st.misses + st.prefetchMisses == st.replacements + st.invalidations
      && st.writebacks == Changed(s)
  {
    hide FlushSets;
    FlushCounts(c, s);
    NoneValidTotal(Valid, Flush(c, s).sets);
    NoneValidTotal(Dirty, Flush(c, s).sets);
  }
}
