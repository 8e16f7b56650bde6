/** The set-associative cache of lab4/cache.c as a plain list of lines per set, most recent first,
    over a flat next-level memory: no links, no hash chains, no last-block shortcut. */
module CacheSpec {
  import opened Bits

  type Byte = bv8

  datatype Policy = LRU | Random | FIFO
  datatype Cmd = Read | Write

  /** Geometry; `data` says whether blocks hold data (balloc). */
  datatype Config = Config(nsets: nat, bsize: nat, assoc: nat, policy: Policy, data: bool)

  ghost predicate ValidConfig(c: Config) {
    c.nsets > 0 && c.bsize > 0 && c.assoc > 0
  }

  // ---------------------------------------------------------------- addresses

  /** CACHE_TAG, CACHE_SET, CACHE_BLK, CACHE_BADDR and CACHE_MK_BADDR, with the shifts and masks of
      the power-of-two sizes written as divisions and remainders. */
  function Block(c: Config, addr: nat): nat
    requires ValidConfig(c)
  {
    addr / c.bsize
  }

  function Tag(c: Config, addr: nat): nat
    requires ValidConfig(c)
  {
    Block(c, addr) / c.nsets
  }

  function SetOf(c: Config, addr: nat): (i: nat)
    requires ValidConfig(c)
    ensures i < c.nsets
  {
    Block(c, addr) % c.nsets
  }

  function Offset(c: Config, addr: nat): (o: nat)
    requires ValidConfig(c)
    ensures o < c.bsize
  {
    addr % c.bsize
  }

  function Baddr(c: Config, addr: nat): nat
    requires ValidConfig(c)
  {
    Block(c, addr) * c.bsize
  }

  function MkBaddr(c: Config, tag: nat, index: nat): nat {
    (tag * c.nsets + index) * c.bsize
  }

  // ---------------------------------------------------------------- lines and state

  datatype Line = Line(tag: nat, valid: bool, dirty: bool, data: seq<Byte>)

  datatype Stats = Stats(
    hits: nat, misses: nat, replacements: nat, writebacks: nat, invalidations: nat,
    readHits: nat, readMisses: nat, prefetchHits: nat, prefetchMisses: nat)

  /** `sets[i]` lists the lines of set `i` in way-list order, head first. */
  datatype State = State(sets: seq<seq<Line>>, mem: seq<Byte>, stats: Stats)

  const EMPTY_LINE := Line(0, false, false, [])
  const NO_STATS := Stats(0, 0, 0, 0, 0, 0, 0, 0, 0)

  predicate Matches(line: Line, tag: nat) { line.valid && line.tag == tag }

  /** Position of the valid line with this tag; the number of lines if there is none. */
  function Find(ways: seq<Line>, tag: nat): (k: nat)
    ensures k <= |ways|
    ensures k < |ways| ==> Matches(ways[k], tag)
    ensures forall j | 0 <= j < k :: !Matches(ways[j], tag)
  {
    if ways == [] || Matches(ways[0], tag) then 0 else 1 + Find(ways[1..], tag)
  }

  /** `old` with `bytes` put at `at`. */
  function Splice(was: seq<Byte>, at: nat, bytes: seq<Byte>): (r: seq<Byte>)
    requires at + |bytes| <= |was|
    ensures |r| == |was|
    ensures forall i {:trigger r[i]} | 0 <= i < |was| ::
            r[i] == if at <= i < at + |bytes| then bytes[i - at] else was[i]
  {
    was[..at] + bytes + was[at + |bytes|..]
  }

  // ---------------------------------------------------------------- the request

  /** A demand or prefetch access; `victim` is the way-list position that the random policy picks. */
  datatype Request = Request(cmd: Cmd, addr: nat, nbytes: nat, bytes: seq<Byte>, victim: nat, prefetch: bool)

  /** The checks that end in fatal(): size and alignment, and the access fits in its block. */
  predicate Accepted(c: Config, r: Request)
    requires ValidConfig(c)
  {
    && PowerOfTwo(r.nbytes) && r.addr % r.nbytes == 0
    && r.addr + r.nbytes <= Baddr(c, r.addr) + c.bsize
  }

  /** What the callers of cache_access owe: an accepted size, a block within the memory, data to write
      when blocks hold data, and a block address other than 0, which stands for "no last block". */
  ghost predicate ValidRequest(c: Config, size: nat, r: Request) {
    && ValidConfig(c) && Accepted(c, r)
    && Baddr(c, r.addr) > 0 && Baddr(c, r.addr) + c.bsize <= size
    && r.victim < c.assoc
    && (c.data && r.cmd.Write? ==> |r.bytes| == r.nbytes)
  }

  // ---------------------------------------------------------------- access

  function Touched(c: Config, r: Request, line: Line): Line
    requires ValidConfig(c)
    requires c.data && r.cmd.Write? ==> Offset(c, r.addr) + |r.bytes| <= |line.data|
  {
    if r.cmd.Read? then line
    else if c.data then line.(dirty := true, data := Splice(line.data, Offset(c, r.addr), r.bytes))
    else line.(dirty := true)
  }

  function ToFront(ways: seq<Line>, k: nat, line: Line): (r: seq<Line>)
    requires k < |ways|
    ensures |r| == |ways|
    ensures forall j {:trigger r[j]} | 0 <= j < |ways| ::
            r[j] == if j == 0 then line else if j <= k then ways[j - 1] else ways[j]
  {
    [line] + ways[..k] + ways[k + 1..]
  }

  function Placed(c: Config, ways: seq<Line>, k: nat, line: Line, front: bool): (r: seq<Line>)
    requires k < |ways|
    ensures |r| == |ways|
  {
    if front then ToFront(ways, k, line) else ways[k := line]
  }

  function VictimOf(c: Config, r: Request): nat {
    if c.policy.Random? then r.victim else (if c.assoc == 0 then 0 else c.assoc - 1)
  }

  /** The memory after the victim has been written back, if it had to be. */
  function WrittenBack(c: Config, mem: seq<Byte>, line: Line, index: nat): seq<Byte> {
    if c.data && line.valid && line.dirty && MkBaddr(c, line.tag, index) + |line.data| <= |mem|
    then Splice(mem, MkBaddr(c, line.tag, index), line.data)
    else mem
  }

  function CountHit(st: Stats, r: Request): Stats {
    if r.prefetch then st.(prefetchHits := st.prefetchHits + 1)
    else st.(hits := st.hits + 1, readHits := st.readHits + if r.cmd.Read? then 1 else 0)
  }

  function CountMiss(st: Stats, r: Request, line: Line): Stats {
    var s := if r.prefetch then st.(prefetchMisses := st.prefetchMisses + 1)
             else st.(misses := st.misses + 1, readMisses := st.readMisses + if r.cmd.Read? then 1 else 0);
    s.(replacements := s.replacements + (if line.valid then 1 else 0),
       writebacks := s.writebacks + (if line.valid && line.dirty then 1 else 0))
  }

  /** Every set has `assoc` lines with blocks of the right size. */
  ghost predicate Shaped(c: Config, s: State) {
    && ValidConfig(c) && |s.sets| == c.nsets
    && forall i {:trigger s.sets[i]} | 0 <= i < c.nsets :: ShapedSet(c, s.sets[i])
  }

  ghost predicate ShapedSet(c: Config, ways: seq<Line>) {
    && |ways| == c.assoc
    && forall k {:trigger ways[k]} | 0 <= k < c.assoc :: c.data ==> |ways[k].data| == c.bsize
  }

  /** The line that a miss brings in: the block from memory, then the request applied to it. */
  function Loaded(c: Config, mem: seq<Byte>, r: Request): (line: Line)
    requires ValidRequest(c, |mem|, r)
    ensures c.data ==> |line.data| == c.bsize
    ensures line.valid && line.tag == Tag(c, r.addr) && line.dirty == r.cmd.Write?
  {
    OffsetFits(c, r.addr, r.nbytes);
    var b := Baddr(c, r.addr);
    Touched(c, r, Line(Tag(c, r.addr), true, false, if c.data then mem[b..b + c.bsize] else []))
  }

  lemma {:induction false} OffsetFits(c: Config, addr: nat, n: nat)
    requires ValidConfig(c) && addr + n <= Baddr(c, addr) + c.bsize
    ensures Offset(c, addr) + n <= c.bsize && addr == Baddr(c, addr) + Offset(c, addr)
  {
  }

  function Access(c: Config, s: State, r: Request): (s': State)
    requires Shaped(c, s) && ValidRequest(c, |s.mem|, r)
    ensures |s'.sets| == |s.sets| && |s'.mem| == |s.mem|
  {
    OffsetFits(c, r.addr, r.nbytes);
    var i := SetOf(c, r.addr);
    var ways := s.sets[i];
    var k := Find(ways, Tag(c, r.addr));
    if k < |ways| then
      State(s.sets[i := Placed(c, ways, k, Touched(c, r, ways[k]), c.policy.LRU?)], s.mem, CountHit(s.stats, r))
    else
      var v := VictimOf(c, r);
      var mem := WrittenBack(c, s.mem, ways[v], i);
      State(s.sets[i := Placed(c, ways, v, Loaded(c, mem, r), !c.policy.Random?)], mem, CountMiss(s.stats, r, ways[v]))
  }

  /** The bytes that a read of the new state's block would give: what cache_access copies out. */
  function Output(c: Config, s': State, r: Request): seq<Byte>
    requires Shaped(c, s') && ValidRequest(c, |s'.mem|, r)
  {
    OffsetFits(c, r.addr, r.nbytes);
    var ways := s'.sets[SetOf(c, r.addr)];
    var k := Find(ways, Tag(c, r.addr));
    if c.data && k < |ways| then ways[k].data[Offset(c, r.addr)..Offset(c, r.addr) + r.nbytes] else []
  }

  predicate Probe(c: Config, s: State, addr: nat)
    requires Shaped(c, s)
  {
    Find(s.sets[SetOf(c, addr)], Tag(c, addr)) < c.assoc
  }

  // ---------------------------------------------------------------- flush

  function ToTail(ways: seq<Line>, k: nat, line: Line): (r: seq<Line>)
    requires k < |ways|
    ensures |r| == |ways|
    ensures forall j {:trigger r[j]} | 0 <= j < |ways| ::
              r[j] == if j < k then ways[j] else if j < |ways| - 1 then ways[j + 1] else line
  {
    ways[..k] + ways[k + 1..] + [line]
  }

  function CountInvalidation(st: Stats, line: Line): Stats {
    st.(invalidations := st.invalidations + 1, writebacks := st.writebacks + if line.dirty then 1 else 0)
  }

  /** cache_flush_addr */
  function FlushAddr(c: Config, s: State, addr: nat): (s': State)
    requires Shaped(c, s)
    ensures |s'.sets| == |s.sets| && |s'.mem| == |s.mem|
  {
    var i := SetOf(c, addr);
    var ways := s.sets[i];
    var k := Find(ways, Tag(c, addr));
    if k == |ways| then s else
    State(s.sets[i := ToTail(ways, k, ways[k].(valid := false))], WrittenBack(c, s.mem, ways[k], i),
          CountInvalidation(s.stats, ways[k]))
  }

  ghost predicate NoneValid(ways: seq<Line>) { forall j | 0 <= j < |ways| :: !ways[j].valid }

  /** Flushes way-list position `k` of set `i` in place. */
  function FlushAt(c: Config, s: State, i: nat, k: nat): (s': State)
    requires i < |s.sets| && k < |s.sets[i]|
    ensures |s'.sets| == |s.sets| && |s'.sets[i]| == |s.sets[i]| && |s'.mem| == |s.mem|
    ensures forall j | 0 <= j < |s.sets| && j != i :: s'.sets[j] == s.sets[j]
    ensures !s'.sets[i][k].valid && forall j | 0 <= j < |s.sets[i]| && j != k :: s'.sets[i][j] == s.sets[i][j]
  {
    var line := s.sets[i][k];
    if !line.valid then s else
    State(s.sets[i := s.sets[i][k := line.(valid := false)]], WrittenBack(c, s.mem, line, i),
          CountInvalidation(s.stats, line))
  }

  function FlushUpTo(c: Config, s: State, i: nat, k: nat): (s': State)
    requires i < |s.sets| && k <= |s.sets[i]|
    ensures |s'.sets| == |s.sets| && |s'.sets[i]| == |s.sets[i]| && |s'.mem| == |s.mem|
    ensures forall j | 0 <= j < |s.sets| && j != i :: s'.sets[j] == s.sets[j]
    ensures forall j | 0 <= j < k :: !s'.sets[i][j].valid
  {
    if k == 0 then s else FlushAt(c, FlushUpTo(c, s, i, k - 1), i, k - 1)
  }

  function FlushSets(c: Config, s: State, n: nat): (s': State)
    requires n <= |s.sets|
    ensures |s'.sets| == |s.sets| && |s'.mem| == |s.mem|
    ensures forall j | n <= j < |s.sets| :: s'.sets[j] == s.sets[j]
    ensures forall i | 0 <= i < |s.sets| :: |s'.sets[i]| == |s.sets[i]|
    ensures forall i | 0 <= i < n :: NoneValid(s'.sets[i])
  {
    if n == 0 then s else
    var t := FlushSets(c, s, n - 1);
    FlushUpTo(c, t, n - 1, |t.sets[n - 1]|)
  }

  /** cache_flush: every set, every line, in way-list order. */
  function Flush(c: Config, s: State): State {
    FlushSets(c, s, |s.sets|)
  }

  // ---------------------------------------------------------------- creation

  /** A set in which nothing is valid. */
  function EmptySet(c: Config): seq<Line> {
    seq(c.assoc, _ => EMPTY_LINE.(data := if c.data then seq(c.bsize, _ => 0 as Byte) else []))
  }

  function Created(c: Config, mem: seq<Byte>): State {
    State(seq(c.nsets, _ => EmptySet(c)), mem, NO_STATS)
  }

  // ---------------------------------------------------------------- prefetching

  /** A block that a prefetcher asks for, and the random policy's pick should it have to evict. */
  datatype Target = Target(addr: nat, victim: nat)

  function PrefetchOf(c: Config, t: Target): Request
    requires ValidConfig(c)
  {
    Request(Read, Baddr(c, t.addr), c.bsize, [], t.victim, true)
  }

  ghost predicate ValidTarget(c: Config, size: nat, t: Target) {
    && ValidConfig(c) && PowerOfTwo(c.bsize) && !c.data
    && Baddr(c, t.addr) > 0 && Baddr(c, t.addr) + c.bsize <= size && t.victim < c.assoc
  }

  lemma {:induction false} TargetIsValid(c: Config, size: nat, t: Target)
    requires ValidTarget(c, size, t)
    ensures ValidRequest(c, size, PrefetchOf(c, t))
    ensures Tag(c, Baddr(c, t.addr)) == Tag(c, t.addr) && SetOf(c, Baddr(c, t.addr)) == SetOf(c, t.addr)
  {
    DivModUnique(Block(c, t.addr), 0, c.bsize);
  }

  /** Each target is probed, and accessed if it is not there: what all three prefetchers do. */
  function Prefetched(c: Config, s: State, targets: seq<Target>): (s': State)
    requires Shaped(c, s) && forall i | 0 <= i < |targets| :: ValidTarget(c, |s.mem|, targets[i])
    ensures Shaped(c, s') && |s'.mem| == |s.mem|
    decreases |targets|
  {
    if targets == [] then s else
    var t := targets[0];
    TargetIsValid(c, |s.mem|, t);
    AccessKeepsShape(c, s, PrefetchOf(c, t));
    var s' := if Probe(c, s, t.addr) then s else Access(c, s, PrefetchOf(c, t));
    Prefetched(c, s', targets[1..])
  }

  // ---------------------------------------------------------------- the shape is kept

  lemma {:induction false} AccessKeepsShape(c: Config, s: State, r: Request)
    requires Shaped(c, s) && ValidRequest(c, |s.mem|, r)
    ensures Shaped(c, Access(c, s, r))
  {
    OffsetFits(c, r.addr, r.nbytes);
    var i := SetOf(c, r.addr);
    assert ShapedSet(c, s.sets[i]);
    assert ShapedSet(c, Access(c, s, r).sets[i]);
  }

  lemma {:induction false} FlushAddrKeepsShape(c: Config, s: State, addr: nat)
    requires Shaped(c, s)
    ensures Shaped(c, FlushAddr(c, s, addr))
  {
    var i := SetOf(c, addr);
    assert ShapedSet(c, s.sets[i]);
    assert ShapedSet(c, FlushAddr(c, s, addr).sets[i]);
  }

  lemma {:induction false} FlushUpToKeepsShape(c: Config, s: State, i: nat, k: nat)
    requires Shaped(c, s) && i < c.nsets && k <= c.assoc
    ensures Shaped(c, FlushUpTo(c, s, i, k))
  {
    if k > 0 {
      FlushUpToKeepsShape(c, s, i, k - 1);
      var t := FlushUpTo(c, s, i, k - 1);
      assert ShapedSet(c, t.sets[i]);
      assert ShapedSet(c, FlushAt(c, t, i, k - 1).sets[i]);
    }
  }

  lemma {:induction false} FlushSetsKeepShape(c: Config, s: State, n: nat)
    requires Shaped(c, s) && n <= c.nsets
    ensures Shaped(c, FlushSets(c, s, n))
  {
    if n > 0 {
      FlushSetsKeepShape(c, s, n - 1);
      FlushUpToKeepsShape(c, FlushSets(c, s, n - 1), n - 1, c.assoc);
    }
  }

  // ---------------------------------------------------------------- one operation of any kind

  datatype Step = Call(r: Request, targets: seq<Target>) | FlushBlock(addr: nat) | FlushAll

  /** Only a demand access makes the prefetcher run, and blocks that hold data go without one. */
  ghost predicate ValidStep(c: Config, size: nat, x: Step) {
    x.Call? ==> && ValidRequest(c, size, x.r) && (x.r.prefetch || c.data ==> x.targets == [])
                && forall i | 0 <= i < |x.targets| :: ValidTarget(c, size, x.targets[i])
  }

  function StepOf(c: Config, s: State, x: Step): (s': State)
    requires Shaped(c, s) && ValidStep(c, |s.mem|, x)
    ensures Shaped(c, s') && |s'.mem| == |s.mem|
  {
    match x
    case Call(r, targets) =>
      AccessKeepsShape(c, s, r);
      Prefetched(c, Access(c, s, r), targets)
    case FlushBlock(addr) =>
      FlushAddrKeepsShape(c, s, addr);
      FlushAddr(c, s, addr)
    case FlushAll =>
      FlushSetsKeepShape(c, s, c.nsets);
      Flush(c, s)
  }

  /** The operations in order. */
  ghost predicate ValidSteps(c: Config, size: nat, ops: seq<Step>) {
    forall i | 0 <= i < |ops| :: ValidStep(c, size, ops[i])
  }

  function Run(c: Config, s: State, ops: seq<Step>): (s': State)
    requires Shaped(c, s) && ValidSteps(c, |s.mem|, ops)
    ensures Shaped(c, s') && |s'.mem| == |s.mem|
    decreases |ops|
  {
    if ops == [] then s else Run(c, StepOf(c, s, ops[0]), ops[1..])
  }

  /** The run, one operation at a time. */
  lemma {:induction false} RunLast(c: Config, s: State, ops: seq<Step>)
    requires Shaped(c, s) && ValidSteps(c, |s.mem|, ops) && ops != []
    ensures ValidSteps(c, |s.mem|, ops[..|ops| - 1])
    ensures Run(c, s, ops) == StepOf(c, Run(c, s, ops[..|ops| - 1]), ops[|ops| - 1])
    decreases |ops|
  {
    hide StepOf, ValidStep;
    var p := ops[..|ops| - 1];
    assert forall i | 0 <= i < |p| :: p[i] == ops[i];
    if |ops| > 1 {
      RunLast(c, StepOf(c, s, ops[0]), ops[1..]);
      assert ops[1..][..|ops| - 2] == p[1..] && p[0] == ops[0];
    }
  }
}
