/** The cache with its next-level memory behaves as one flat memory, under all three policies. */
module CacheMemory {
  import opened Bits
  import opened CacheSpec
  import opened Sequences
  import opened Wrappers

  // ---------------------------------------------------------------- address arithmetic

  /** CACHE_MK_BADDR rebuilds a block address from its tag and set. */
  lemma {:induction false} RebuildsBaddr(c: Config, addr: nat)
    requires ValidConfig(c)
    ensures MkBaddr(c, Tag(c, addr), SetOf(c, addr)) == Baddr(c, addr)
  {
  }

  /** Every byte of an access is in the block of the first one. */
  ghost predicate InOneBlock(c: Config, addr: nat, n: nat)
    requires ValidConfig(c)
  {
    forall a: nat | addr <= a < addr + n :: Block(c, a) == Block(c, addr)
  }

  /** The accesses that the cache takes: a power of two many bytes, at a multiple of their number, all in one
      block. */
  lemma {:induction false} AcceptedMeans(c: Config, r: Request)
    requires ValidConfig(c)
    ensures Accepted(c, r) <==> (exists k: nat :: r.nbytes == Exp2(k)) && IsMultiple(r.addr, r.nbytes)
                                && InOneBlock(c, r.addr, r.nbytes)
  {
    hide PowerOfTwo, Exp2, IsMultiple, InOneBlock, Baddr;
    MultipleIs(r.addr, r.nbytes);
    if PowerOfTwo(r.nbytes) {
      var k := PowerIs(r.nbytes);
      OneBlock(c, r.addr, r.nbytes) by { PowerPositive(r.nbytes); }
    }
    if k: nat :| r.nbytes == Exp2(k) {
      IsPower(k);
    }
  }

  lemma {:induction false} PowerPositive(n: nat)
    requires PowerOfTwo(n)
    ensures n > 0
  {
  }

  lemma {:induction false} BaddrIs(c: Config, addr: nat)
    requires ValidConfig(c)
    ensures addr == Baddr(c, addr) + Offset(c, addr) && Baddr(c, addr) == Block(c, addr) * c.bsize
  {
  }

  /** The address `x` bytes after the start of block `b`. */
  lemma {:induction false} BlockAt(c: Config, b: nat, x: nat)
    requires ValidConfig(c)
    ensures x < c.bsize ==> Block(c, b * c.bsize + x) == b
    ensures Block(c, b * c.bsize + c.bsize) == b + 1
  {
    if x < c.bsize {
      DivModUnique(b, x, c.bsize);
    }
    assert b * c.bsize + c.bsize == (b + 1) * c.bsize;
    DivModUnique(b + 1, 0, c.bsize);
  }

  lemma {:induction false} OneBlock(c: Config, addr: nat, n: nat)
    requires ValidConfig(c) && n > 0
    ensures addr + n <= Baddr(c, addr) + c.bsize <==> InOneBlock(c, addr, n)
  {
    hide Baddr, Offset, Block;
    var b, o := Block(c, addr), Offset(c, addr);
    BaddrIs(c, addr);
    if o + n <= c.bsize {
      forall a: nat | addr <= a < addr + n ensures Block(c, a) == b {
        BlockAt(c, b, a - Baddr(c, addr));
      }
    } else {
      BlockAt(c, b, 0);
      assert Block(c, Baddr(c, addr) + c.bsize) != b;
    }
  }

  /** Every byte of the block that tag and set name decodes to that tag, set and offset. */
  lemma {:induction false} BlockDecodes(c: Config, tag: nat, i: nat, o: nat)
    requires ValidConfig(c) && i < c.nsets && o < c.bsize
    ensures var a := MkBaddr(c, tag, i) + o;
      Tag(c, a) == tag && SetOf(c, a) == i && Offset(c, a) == o && Baddr(c, a) == MkBaddr(c, tag, i)
  {
    DivModUnique(tag * c.nsets + i, o, c.bsize);
    DivModUnique(tag, i, c.nsets);
  }

  /** An address lies in the block of (tag, i) exactly if it decodes to them. */
  lemma {:induction false} InBlock(c: Config, tag: nat, i: nat, a: nat)
    requires ValidConfig(c) && i < c.nsets
    ensures MkBaddr(c, tag, i) <= a < MkBaddr(c, tag, i) + c.bsize <==> Tag(c, a) == tag && SetOf(c, a) == i
  {
    if MkBaddr(c, tag, i) <= a < MkBaddr(c, tag, i) + c.bsize {
      BlockDecodes(c, tag, i, a - MkBaddr(c, tag, i));
    }
    if Tag(c, a) == tag && SetOf(c, a) == i {
      RebuildsBaddr(c, a);
      OffsetFits(c, a, 0);
    }
  }

  // ---------------------------------------------------------------- lookup in a set

  function Lookup(ways: seq<Line>, tag: nat): Option<Line> {
    var k := Find(ways, tag);
    if k < |ways| then Some(ways[k]) else None
  }

  ghost predicate Unique(ways: seq<Line>) {
    forall j, k | 0 <= j < k < |ways| && ways[j].valid && ways[k].valid :: ways[j].tag != ways[k].tag
  }

  lemma {:induction false} FindAt(ways: seq<Line>, k: nat, tag: nat)
    requires k <= |ways| && (forall j | 0 <= j < k :: !Matches(ways[j], tag)) && (k < |ways| ==> Matches(ways[k], tag))
    ensures Find(ways, tag) == k
  {
  }

  lemma {:induction false} FindWhenUnique(ways: seq<Line>, k: nat)
    requires Unique(ways) && k < |ways| && ways[k].valid
    ensures Find(ways, ways[k].tag) == k
  {
    FindAt(ways, k, ways[k].tag);
  }

  /** `rest` with `line` put in at position `p`. */
  function Insert(rest: seq<Line>, p: nat, line: Line): (r: seq<Line>)
    requires p <= |rest|
    ensures |r| == |rest| + 1
    ensures forall j {:trigger r[j]} | 0 <= j < |r| ::
            r[j] == if j < p then rest[j] else if j == p then line else rest[j - 1]
  {
    rest[..p] + [line] + rest[p..]
  }

  /** Inserting a line whose tag is new adds that line to the lookup and changes nothing else. */
  lemma {:induction false} LookupInsert(rest: seq<Line>, p: nat, line: Line, tag: nat)
    requires p <= |rest|
    requires line.valid ==> forall j | 0 <= j < |rest| :: !Matches(rest[j], line.tag)
    ensures Lookup(Insert(rest, p, line), tag) == if Matches(line, tag) then Some(line) else Lookup(rest, tag)
  {
    var ways := Insert(rest, p, line);
    var f := Find(rest, tag);
    if Matches(line, tag) {
      FindAt(ways, p, tag);
    } else if f < p {
      FindAt(ways, f, tag);
    } else {
      FindAt(ways, f + 1, tag);
    }
  }

  lemma {:induction false} UniqueInsert(rest: seq<Line>, p: nat, line: Line)
    requires p <= |rest| && Unique(rest)
    requires line.valid ==> forall j | 0 <= j < |rest| :: !Matches(rest[j], line.tag)
    ensures Unique(Insert(rest, p, line))
  {
  }

  lemma {:induction false} UniqueWithout(ways: seq<Line>, k: nat)
    requires k < |ways| && Unique(ways)
    ensures Unique(Without(ways, k)) && Insert(Without(ways, k), k, ways[k]) == ways
    ensures ways[k].valid ==> forall j | 0 <= j < |Without(ways, k)| :: !Matches(Without(ways, k)[j], ways[k].tag)
  {
  }

  /** Replacing line `k` by `line`, wherever `line` goes in the way list. */
  lemma {:induction false} LookupReplaced(ways: seq<Line>, k: nat, p: nat, line: Line, tag: nat)
    requires Unique(ways) && k < |ways| && p < |ways|
    requires line.valid ==> (forall j | 0 <= j < |ways| && j != k :: !Matches(ways[j], line.tag))
    ensures var ways' := Insert(Without(ways, k), p, line);
      && Unique(ways')
      && Lookup(ways', tag) == if Matches(line, tag) then Some(line)
                               else if Matches(ways[k], tag) then None else Lookup(ways, tag)
  {
    var rest := Without(ways, k);
    UniqueWithout(ways, k);
    hide Unique;
    UniqueInsert(rest, p, line);
    LookupInsert(rest, p, line, tag);
    LookupInsert(rest, k, ways[k], tag);
    if Matches(ways[k], tag) {
      FindAt(rest, |rest|, tag);
    }
  }

  /** All three ways of putting a line back are insertions. */
  lemma {:induction false} PlacesAreInsertions(c: Config, ways: seq<Line>, k: nat, line: Line, front: bool)
    requires k < |ways|
    ensures Placed(c, ways, k, line, front) == Insert(Without(ways, k), if front then 0 else k, line)
    ensures ToTail(ways, k, line) == Insert(Without(ways, k), |ways| - 1, line)
  {
  }

  // ---------------------------------------------------------------- the invariant and the view

  /** In every set no tag is valid twice, blocks lie within the memory, and a clean valid block is a
      copy of the memory. */
  ghost predicate GoodSet(c: Config, mem: seq<Byte>, ways: seq<Line>, i: nat) {
    && ShapedSet(c, ways) && Unique(ways)
    && forall k {:trigger ways[k]} | 0 <= k < |ways| && ways[k].valid :: GoodLine(c, mem, ways[k], i)
  }

  ghost predicate GoodLine(c: Config, mem: seq<Byte>, line: Line, i: nat) {
    var b := MkBaddr(c, line.tag, i);
    b + c.bsize <= |mem| && (!line.dirty ==> line.data == mem[b..b + c.bsize])
  }

  ghost predicate Good(c: Config, s: State) {
    && c.data && Shaped(c, s)
    && forall i: nat {:trigger s.sets[i]} | i < c.nsets :: GoodSet(c, s.mem, s.sets[i], i)
  }

  /** The byte at `a` of the flat memory that cache and memory stand for together. */
  ghost function View(c: Config, s: State, a: nat): Byte
    requires c.data && Shaped(c, s) && a < |s.mem|
  {
    var l := Lookup(s.sets[SetOf(c, a)], Tag(c, a));
    if l.Some? then l.value.data[Offset(c, a)] else s.mem[a]
  }

  // ---------------------------------------------------------------- write back

  /** Writing a valid line back changes only the bytes of its own block, to the line's data. */
  lemma {:induction false} WriteBackBytes(c: Config, mem: seq<Byte>, line: Line, i: nat, a: nat)
    requires c.data && ValidConfig(c) && i < c.nsets && a < |mem| && |line.data| == c.bsize
    requires line.valid ==> GoodLine(c, mem, line, i)
    ensures |WrittenBack(c, mem, line, i)| == |mem|
    ensures WrittenBack(c, mem, line, i)[a] ==
            if line.valid && Tag(c, a) == line.tag && SetOf(c, a) == i then line.data[Offset(c, a)] else mem[a]
  {
    InBlock(c, line.tag, i, a);
    if line.valid && Tag(c, a) == line.tag && SetOf(c, a) == i {
      var b := MkBaddr(c, line.tag, i);
      BlockDecodes(c, line.tag, i, a - b);
      assert !line.dirty ==> line.data[a - b] == mem[b..b + c.bsize][a - b];
    }
  }

  /** Lines of other blocks stay good when a line is written back. */
  lemma {:induction false} OtherLinesGood(c: Config, mem: seq<Byte>, line: Line, i: nat, other: Line, j: nat)
    requires c.data && ValidConfig(c) && i < c.nsets && j < c.nsets && |line.data| == |other.data| == c.bsize
    requires line.valid ==> GoodLine(c, mem, line, i)
    requires GoodLine(c, mem, other, j) && (i != j || !line.valid || line.tag != other.tag)
    ensures GoodLine(c, WrittenBack(c, mem, line, i), other, j)
  {
    var mem' := WrittenBack(c, mem, line, i);
    var b := MkBaddr(c, other.tag, j);
    hide WrittenBack;
    assert |mem'| == |mem| by { WriteBackBytes(c, mem, line, i, b); }
    forall a: nat | b <= a < b + c.bsize ensures mem'[a] == mem[a] {
      BlockDecodes(c, other.tag, j, a - b);
      WriteBackBytes(c, mem, line, i, a);
    }
    assert mem'[b..b + c.bsize] == mem[b..b + c.bsize];
  }

  /** Replacing line `k` of set `i` by another line, after writing it back or with a new version of itself. */
  ghost predicate Swapped(c: Config, s: State, s': State, i: nat, k: nat, p: nat, line: Line)
    requires Good(c, s)
  {
    && i < c.nsets && k < c.assoc && p < c.assoc
    && s'.sets == s.sets[i := Insert(Without(s.sets[i], k), p, line)]
    && (s'.mem == WrittenBack(c, s.mem, s.sets[i][k], i)
        || (s'.mem == s.mem && s.sets[i][k].valid && Matches(line, s.sets[i][k].tag)))
    && |line.data| == c.bsize
    && (line.valid ==> GoodLine(c, s'.mem, line, i)
                       && forall j | 0 <= j < c.assoc && j != k :: !Matches(s.sets[i][j], line.tag))
  }

  lemma {:induction false} InsertMembers(ways: seq<Line>, k: nat, p: nat, line: Line, x: nat) returns (j: nat)
    requires k < |ways| && p < |ways| && x < |ways|
    ensures x == p ==> Insert(Without(ways, k), p, line)[x] == line
    ensures x != p ==> j < |ways| && j != k && Insert(Without(ways, k), p, line)[x] == ways[j]
  {
    var rest := Without(ways, k);
    if x != p {
      var y := if x < p then x else x - 1;
      j := if y < k then y else y + 1;
      assert Insert(rest, p, line)[x] == rest[y];
      assert rest[y] == ways[j];
    } else {
      j := 0;
    }
  }

  lemma {:induction false} SwapGood(c: Config, s: State, s': State, i: nat, k: nat, p: nat, line: Line)
    requires Good(c, s) && Swapped(c, s, s', i, k, p, line)
    ensures Good(c, s')
  {
    var was := s.sets[i][k];
    forall j: nat | j < c.nsets ensures GoodSet(c, s'.mem, s'.sets[j], j) {
      var ways, ways' := s.sets[j], s'.sets[j];
      assert GoodSet(c, s.mem, ways, j) && GoodSet(c, s.mem, s.sets[i], i);
      if j == i {
        LookupReplaced(ways, k, p, line, 0);
      }
      forall x: nat | x < |ways'| && (ways'[x].valid || j == i)
        ensures |ways'[x].data| == c.bsize && (ways'[x].valid ==> GoodLine(c, s'.mem, ways'[x], j))
      {
        if j != i {
          OtherLinesGood(c, s.mem, was, i, ways[x], j);
        } else if x == p {
          var y := InsertMembers(ways, k, p, line, x);
        } else {
          var y := InsertMembers(ways, k, p, line, x);
          assert ways'[x] == ways[y];
          if ways[y].valid {
            OtherLinesGood(c, s.mem, was, i, ways[y], i);
          }
        }
      }
    }
  }

  /** What such a replacement does to the flat view: only the new line's own block can change. */
  lemma {:induction false} SwapView(c: Config, s: State, s': State, i: nat, k: nat, p: nat, line: Line, a: nat)
    requires Good(c, s) && Swapped(c, s, s', i, k, p, line) && Good(c, s') && a < |s.mem|
    ensures View(c, s', a) == if SetOf(c, a) == i && Matches(line, Tag(c, a)) then line.data[Offset(c, a)]
            else View(c, s, a)
  {
    assert GoodSet(c, s.mem, s.sets[i], i);
    WriteBackBytes(c, s.mem, s.sets[i][k], i, a);
    LookupReplaced(s.sets[i], k, p, line, Tag(c, a));
    if s.sets[i][k].valid {
      FindWhenUnique(s.sets[i], k);
    }
  }

  // ---------------------------------------------------------------- access

  /** The flat memory's answer to a request: a write puts its bytes at its address, nothing else. */
  ghost function Written(c: Config, s: State, r: Request, a: nat): Byte
    requires c.data && Shaped(c, s) && ValidRequest(c, |s.mem|, r) && a < |s.mem|
  {
    if r.cmd.Write? && r.addr <= a < r.addr + r.nbytes then r.bytes[a - r.addr] else View(c, s, a)
  }

  lemma {:induction false} TouchedBytes(c: Config, mem: seq<Byte>, r: Request, line: Line, a: nat)
    requires c.data && ValidRequest(c, |mem|, r) && |line.data| == c.bsize && line.tag == Tag(c, r.addr)
    ensures Offset(c, r.addr) + r.nbytes <= c.bsize
    ensures Tag(c, a) == line.tag && SetOf(c, a) == SetOf(c, r.addr) ==>
              Touched(c, r, line).data[Offset(c, a)] ==
              if r.cmd.Write? && r.addr <= a < r.addr + r.nbytes then r.bytes[a - r.addr] else line.data[Offset(c, a)]
    ensures r.addr <= a < r.addr + r.nbytes ==> Tag(c, a) == line.tag && SetOf(c, a) == SetOf(c, r.addr)
  {
    OffsetFits(c, r.addr, r.nbytes);
    RebuildsBaddr(c, r.addr);
    InBlock(c, Tag(c, r.addr), SetOf(c, r.addr), a);
    if Tag(c, a) == line.tag && SetOf(c, a) == SetOf(c, r.addr) {
      RebuildsBaddr(c, a);
      OffsetFits(c, a, 0);
    }
  }

  /** The line that access puts into the set: the touched one on a hit, the loaded one on a miss. */
  ghost function Brought(c: Config, s: State, r: Request): (line: Line)
    requires Good(c, s) && ValidRequest(c, |s.mem|, r)
    ensures |line.data| == c.bsize && Matches(line, Tag(c, r.addr))
  {
    assert GoodSet(c, s.mem, s.sets[SetOf(c, r.addr)], SetOf(c, r.addr));
    OffsetFits(c, r.addr, r.nbytes);
    var found := Lookup(s.sets[SetOf(c, r.addr)], Tag(c, r.addr));
    if found.Some? then Touched(c, r, found.value) else Loaded(c, Access(c, s, r).mem, r)
  }

  /** Where it goes. */
  lemma {:induction false} AccessSwaps(c: Config, s: State, r: Request) returns (k: nat, p: nat)
    requires Good(c, s) && ValidRequest(c, |s.mem|, r)
    ensures Swapped(c, s, Access(c, s, r), SetOf(c, r.addr), k, p, Brought(c, s, r))
  {
    var i := SetOf(c, r.addr);
    var ways := s.sets[i];
    assert GoodSet(c, s.mem, ways, i);
    k := Find(ways, Tag(c, r.addr));
    OffsetFits(c, r.addr, r.nbytes);
    RebuildsBaddr(c, r.addr);
    var line := Brought(c, s, r);
    if k < |ways| {
      p := if c.policy.LRU? then 0 else k;
      PlacesAreInsertions(c, ways, k, line, c.policy.LRU?);
      assert GoodLine(c, s.mem, ways[k], i);
    } else {
      k := VictimOf(c, r);
      p := if c.policy.Random? then k else 0;
      PlacesAreInsertions(c, ways, k, line, !c.policy.Random?);
      assert GoodLine(c, Access(c, s, r).mem, line, i);
    }
  }

  /** A block that is not in the cache is read from memory as the flat view has it. */
  lemma {:induction false} MissedBytes(c: Config, s: State, r: Request, a: nat)
    requires Good(c, s) && ValidRequest(c, |s.mem|, r) && a < |s.mem|
    requires Lookup(s.sets[SetOf(c, r.addr)], Tag(c, r.addr)).None?
    requires Tag(c, a) == Tag(c, r.addr) && SetOf(c, a) == SetOf(c, r.addr)
    ensures Access(c, s, r).mem[a] == View(c, s, a)
    ensures var b := Baddr(c, r.addr);
      b <= a < b + c.bsize && Offset(c, a) == a - b && |Access(c, s, r).mem| == |s.mem|
  {
    var i := SetOf(c, r.addr);
    assert GoodSet(c, s.mem, s.sets[i], i);
    var v := VictimOf(c, r);
    WriteBackBytes(c, s.mem, s.sets[i][v], i, a);
    if s.sets[i][v].valid {
      FindWhenUnique(s.sets[i], v);
    }
    RebuildsBaddr(c, r.addr);
    RebuildsBaddr(c, a);
    OffsetFits(c, a, 0);
  }

  lemma {:induction false} AccessKeepsGood(c: Config, s: State, r: Request)
    requires Good(c, s) && ValidRequest(c, |s.mem|, r)
    ensures Good(c, Access(c, s, r))
  {
    var k, p := AccessSwaps(c, s, r);
    SwapGood(c, s, Access(c, s, r), SetOf(c, r.addr), k, p, Brought(c, s, r));
  }

  /** The bytes of that line are the flat view's, with a write applied. */
  lemma {:induction false} BroughtBytes(c: Config, s: State, r: Request, a: nat)
    requires Good(c, s) && ValidRequest(c, |s.mem|, r) && a < |s.mem|
    requires Tag(c, a) == Tag(c, r.addr) && SetOf(c, a) == SetOf(c, r.addr)
    ensures Brought(c, s, r).data[Offset(c, a)] == Written(c, s, r, a)
  {
    hide Access, Touched, Tag, SetOf, Block, Offset, Baddr, MkBaddr, Unique, GoodLine, Accepted;
    var i := SetOf(c, r.addr);
    assert GoodSet(c, s.mem, s.sets[i], i);
    var found := Lookup(s.sets[i], Tag(c, r.addr));
    if found.Some? {
      TouchedBytes(c, s.mem, r, found.value, a);
    } else {
      var b, mem := Baddr(c, r.addr), Access(c, s, r).mem;
      MissedBytes(c, s, r, a);
      TouchedBytes(c, mem, r, Line(Tag(c, r.addr), true, false, mem[b..b + c.bsize]), a);
    }
  }

  /** A write stays within its block. */
  lemma {:induction false} WriteInBlock(c: Config, s: State, r: Request, a: nat)
    requires Good(c, s) && ValidRequest(c, |s.mem|, r) && a < |s.mem|
    requires Tag(c, a) != Tag(c, r.addr) || SetOf(c, a) != SetOf(c, r.addr)
    ensures Written(c, s, r, a) == View(c, s, a)
  {
    OffsetFits(c, r.addr, r.nbytes);
    RebuildsBaddr(c, r.addr);
    InBlock(c, Tag(c, r.addr), SetOf(c, r.addr), a);
  }

  /** cache_access changes the flat view exactly where a write says so, whatever it evicts. */
  lemma {:induction false} AccessView(c: Config, s: State, r: Request, a: nat)
    requires Good(c, s) && ValidRequest(c, |s.mem|, r) && a < |s.mem|
    ensures Good(c, Access(c, s, r)) && View(c, Access(c, s, r), a) == Written(c, s, r, a)
  {
    hide Access, View, Written, GoodSet, Tag, SetOf, Offset;
    AccessKeepsGood(c, s, r);
    var i := SetOf(c, r.addr);
    var k, p := AccessSwaps(c, s, r);
    SwapView(c, s, Access(c, s, r), i, k, p, Brought(c, s, r), a);
    if Tag(c, a) == Tag(c, r.addr) && SetOf(c, a) == i {
      BroughtBytes(c, s, r, a);
    } else {
      WriteInBlock(c, s, r, a);
    }
  }

  /** What is copied out of a cached block is the flat view of its bytes. */
  lemma {:induction false} OutputIsView(c: Config, s: State, r: Request, x: nat)
    requires c.data && Shaped(c, s) && ValidRequest(c, |s.mem|, r) && x < r.nbytes
    requires Lookup(s.sets[SetOf(c, r.addr)], Tag(c, r.addr)).Some?
    ensures r.addr + x < |s.mem| && |Output(c, s, r)| == r.nbytes
    ensures Output(c, s, r)[x] == View(c, s, r.addr + x)
  {
    var a := r.addr + x;
    assert ShapedSet(c, s.sets[SetOf(c, r.addr)]);
    OffsetFits(c, r.addr, r.nbytes);
    RebuildsBaddr(c, r.addr);
    InBlock(c, Tag(c, r.addr), SetOf(c, r.addr), a);
    RebuildsBaddr(c, a);
    OffsetFits(c, a, 0);
  }

  lemma {:induction false} PresentAfter(c: Config, s: State, r: Request)
    requires Good(c, s) && ValidRequest(c, |s.mem|, r)
    ensures Lookup(CacheSpec.Access(c, s, r).sets[SetOf(c, r.addr)], Tag(c, r.addr)).Some?
  {
    var i := SetOf(c, r.addr);
    var k, p := AccessSwaps(c, s, r);
    assert GoodSet(c, s.mem, s.sets[i], i);
    LookupReplaced(s.sets[i], k, p, Brought(c, s, r), Tag(c, r.addr));
  }

  /** A read returns the flat view's bytes. */
  lemma {:induction false} ReadsView(c: Config, s: State, r: Request, x: nat)
    requires Good(c, s) && ValidRequest(c, |s.mem|, r) && x < r.nbytes && r.cmd.Read?
    ensures Good(c, Access(c, s, r)) && |Output(c, Access(c, s, r), r)| == r.nbytes && r.addr + x < |s.mem|
    ensures Output(c, Access(c, s, r), r)[x] == View(c, s, r.addr + x)
  {
    hide Unique, GoodLine, Access, Output;
    AccessKeepsGood(c, s, r);
    PresentAfter(c, s, r);
    OutputIsView(c, Access(c, s, r), r, x);
    AccessView(c, s, r, r.addr + x);
  }

  // ---------------------------------------------------------------- flush

  lemma {:induction false} FlushAtView(c: Config, s: State, i: nat, k: nat, a: nat)
    requires Good(c, s) && i < c.nsets && k < c.assoc
    ensures var s' := FlushAt(c, s, i, k);
      Good(c, s') && (a < |s.mem| ==> View(c, s', a) == View(c, s, a))
  {
    var s' := FlushAt(c, s, i, k);
    var line := s.sets[i][k].(valid := false);
    assert GoodSet(c, s.mem, s.sets[i], i);
    if s.sets[i][k].valid {
      PlacesAreInsertions(c, s.sets[i], k, line, false);
      assert Swapped(c, s, s', i, k, k, line);
      SwapGood(c, s, s', i, k, k, line);
      if a < |s.mem| {
        SwapView(c, s, s', i, k, k, line, a);
      }
    }
  }

  /** cache_flush_addr leaves the flat view as it is. */
  lemma {:induction false} FlushAddrView(c: Config, s: State, addr: nat, a: nat)
    requires Good(c, s)
    ensures Good(c, FlushAddr(c, s, addr)) && (a < |s.mem| ==> View(c, FlushAddr(c, s, addr), a) == View(c, s, a))
  {
    var i := SetOf(c, addr);
    var k := Find(s.sets[i], Tag(c, addr));
    assert GoodSet(c, s.mem, s.sets[i], i);
    if k < |s.sets[i]| {
      var line := s.sets[i][k].(valid := false);
      var s' := FlushAddr(c, s, addr);
      PlacesAreInsertions(c, s.sets[i], k, line, false);
      assert Swapped(c, s, s', i, k, c.assoc - 1, line);
      SwapGood(c, s, s', i, k, c.assoc - 1, line);
      if a < |s.mem| {
        SwapView(c, s, s', i, k, c.assoc - 1, line, a);
      }
    }
  }

  lemma {:induction false} FlushUpToView(c: Config, s: State, i: nat, k: nat, a: nat)
    requires Good(c, s) && i < c.nsets && k <= c.assoc
    ensures var s' := FlushUpTo(c, s, i, k);
      Good(c, s') && (a < |s.mem| ==> View(c, s', a) == View(c, s, a))
  {
    hide GoodSet, View;
    if k > 0 {
      FlushUpToView(c, s, i, k - 1, a);
      FlushAtView(c, FlushUpTo(c, s, i, k - 1), i, k - 1, a);
    }
  }

  lemma {:induction false} FlushSetsView(c: Config, s: State, n: nat, a: nat)
    requires Good(c, s) && n <= c.nsets
    ensures var s' := FlushSets(c, s, n);
      Good(c, s') && (a < |s.mem| ==> View(c, s', a) == View(c, s, a))
  {
    hide GoodSet, View;
    if n > 0 {
      FlushSetsView(c, s, n - 1, a);
      FlushUpToView(c, FlushSets(c, s, n - 1), n - 1, c.assoc, a);
    }
  }

  /** cache_flush leaves the flat view as it is, and the memory alone holds all of it afterwards. */
  lemma {:induction false} FlushView(c: Config, s: State, a: nat)
    requires Good(c, s)
    ensures var s' := Flush(c, s);
      Good(c, s') && (a < |s.mem| ==> View(c, s', a) == View(c, s, a) == s'.mem[a])
  {
    FlushSetsView(c, s, c.nsets, a);
    assert NoneValid(Flush(c, s).sets[SetOf(c, a)]);
  }

  // ---------------------------------------------------------------- whole runs

  /** The same step on a plain array of bytes. */
  function FlatStep(mem: seq<Byte>, x: Step): (mem': seq<Byte>)
    requires x.Call? && x.r.cmd.Write? ==> x.r.addr + |x.r.bytes| <= |mem|
    ensures |mem'| == |mem|
  {
    if x.Call? && x.r.cmd.Write? then Splice(mem, x.r.addr, x.r.bytes) else mem
  }

  /** Cache plus memory stand for the flat memory `flat`. */
  ghost predicate Represents(c: Config, s: State, flat: seq<Byte>) {
    && Good(c, s) && |flat| == |s.mem|
    && forall a: nat {:trigger flat[a]} | a < |flat| :: View(c, s, a) == flat[a]
  }

  lemma {:induction false} StepKeepsView(c: Config, s: State, x: Step, a: nat)
    requires Good(c, s) && !x.Call?
    ensures Good(c, StepOf(c, s, x)) && (a < |s.mem| ==> View(c, StepOf(c, s, x), a) == View(c, s, a))
  {
    match x
    case FlushBlock(addr) => FlushAddrView(c, s, addr, a);
    case FlushAll => FlushView(c, s, a);
  }

  lemma {:induction false} StepView(c: Config, s: State, x: Step, a: nat)
    requires Good(c, s) && ValidStep(c, |s.mem|, x)
    ensures Good(c, StepOf(c, s, x))
    ensures a < |s.mem| ==> View(c, StepOf(c, s, x), a) == if x.Call? then Written(c, s, x.r, a) else View(c, s, a)
  {
    hide GoodSet, ShapedSet, Written;
    if x.Call? {
      AccessKeepsGood(c, s, x.r);
      if a < |s.mem| {
        AccessView(c, s, x.r, a);
      }
    } else {
      StepKeepsView(c, s, x, a);
    }
  }

  lemma {:induction false} InMemory(c: Config, mem: seq<Byte>, r: Request)
    requires ValidRequest(c, |mem|, r)
    ensures r.addr + r.nbytes <= |mem|
  {
    OffsetFits(c, r.addr, r.nbytes);
  }

  /** One step of the cache is one step of the flat memory, and a read returns the flat bytes. */
  lemma {:induction false} StepRefines(c: Config, s: State, flat: seq<Byte>, x: Step)
    requires Represents(c, s, flat) && ValidStep(c, |s.mem|, x)
    ensures x.Call? ==> x.r.addr + x.r.nbytes <= |flat|
    ensures Represents(c, StepOf(c, s, x), FlatStep(flat, x))
    ensures x.Call? && x.r.cmd.Read? ==>
              Output(c, StepOf(c, s, x), x.r) == flat[x.r.addr..x.r.addr + x.r.nbytes]
  {
    hide GoodSet, ShapedSet, View, Output, Accepted;
    if x.Call? {
      InMemory(c, s.mem, x.r);
    }
    var s', flat' := StepOf(c, s, x), FlatStep(flat, x);
    StepView(c, s, x, 0);
    forall a: nat | a < |flat| ensures View(c, s', a) == flat'[a] {
      assert View(c, s, a) == flat[a];
      StepView(c, s, x, a);
    }
    if x.Call? && x.r.cmd.Read? {
      ReadBytes(c, s, flat, x.r);
    }
  }

  lemma {:induction false} ReadBytes(c: Config, s: State, flat: seq<Byte>, r: Request)
    requires Represents(c, s, flat) && ValidRequest(c, |s.mem|, r) && r.cmd.Read?
    requires Shaped(c, Access(c, s, r)) && r.addr + r.nbytes <= |flat|
    ensures Output(c, Access(c, s, r), r) == flat[r.addr..r.addr + r.nbytes]
  {
    hide GoodSet, ShapedSet, View, Output, Access;
    ReadsView(c, s, r, 0);
    var out := Output(c, Access(c, s, r), r);
    forall i: nat | i < r.nbytes ensures out[i] == flat[r.addr + i] {
      ReadsView(c, s, r, i);
      assert View(c, s, r.addr + i) == flat[r.addr + i];
    }
  }

  // ---------------------------------------------------------------- whole runs

  function FlatRun(mem: seq<Byte>, ops: seq<Step>): (mem': seq<Byte>)
    requires forall i | 0 <= i < |ops| :: ops[i].Call? && ops[i].r.cmd.Write?
                                          ==> ops[i].r.addr + |ops[i].r.bytes| <= |mem|
    ensures |mem'| == |mem|
    decreases |ops|
  {
    if ops == [] then mem else FlatRun(FlatStep(mem, ops[0]), ops[1..])
  }

  /** From the created cache on, after any operations the next read returns what the same operations
      on a flat memory would leave there: under LRU, FIFO and random replacement alike. */
  lemma {:induction false} RunsLikeFlatMemory(c: Config, s: State, flat: seq<Byte>, ops: seq<Step>)
    requires Represents(c, s, flat) && ValidSteps(c, |s.mem|, ops)
    ensures forall i | 0 <= i < |ops| :: ops[i].Call? && ops[i].r.cmd.Write?
                                         ==> ops[i].r.addr + |ops[i].r.bytes| <= |flat|
    ensures Represents(c, Run(c, s, ops), FlatRun(flat, ops))
    decreases |ops|
  {
    hide GoodSet, ShapedSet, View, Accepted;
    if ops != [] {
      StepRefines(c, s, flat, ops[0]);
      forall i | 0 <= i < |ops| && ops[i].Call? && ops[i].r.cmd.Write?
        ensures ops[i].r.addr + |ops[i].r.bytes| <= |flat|
      {
        InMemory(c, s.mem, ops[i].r);
      }
      RunsLikeFlatMemory(c, StepOf(c, s, ops[0]), FlatStep(flat, ops[0]), ops[1..]);
    }
  }

  lemma {:induction false} CreatedRepresents(c: Config, mem: seq<Byte>)
    requires ValidConfig(c) && c.data
    ensures Represents(c, Created(c, mem), mem)
  {
    var s := Created(c, mem);
    forall i: nat | i < c.nsets ensures ShapedSet(c, s.sets[i]) && GoodSet(c, mem, s.sets[i], i) {
    }
    forall a: nat | a < |mem| ensures View(c, s, a) == mem[a] {
      FindAt(s.sets[SetOf(c, a)], c.assoc, Tag(c, a));
    }
  }

  // ---------------------------------------------------------------- all reads of a run

  /** What each operation returns: a read its bytes, any other one nothing. */
  function Outputs(c: Config, s: State, ops: seq<Step>): (outs: seq<seq<Byte>>)
    requires Shaped(c, s) && ValidSteps(c, |s.mem|, ops)
    ensures |outs| == |ops|
    decreases |ops|
  {
    if ops == [] then [] else
    var s' := StepOf(c, s, ops[0]);
    [if IsRead(ops[0]) then Output(c, s', ops[0].r) else []] + Outputs(c, s', ops[1..])
  }

  predicate IsRead(x: Step) { x.Call? && x.r.cmd.Read? }

  /** Every operation reads and writes within `n` bytes. */
  ghost predicate Inside(n: nat, ops: seq<Step>) {
    forall i {:trigger ops[i]} | 0 <= i < |ops| && ops[i].Call? ::
      ops[i].r.addr + ops[i].r.nbytes <= n && (ops[i].r.cmd.Write? ==> ops[i].r.addr + |ops[i].r.bytes| <= n)
  }

  lemma {:induction false} InsideRest(n: nat, ops: seq<Step>)
    requires Inside(n, ops) && ops != []
    ensures Inside(n, ops[1..])
  {
    assert forall i | 0 <= i < |ops| - 1 :: ops[1..][i] == ops[i + 1];
  }

  function FlatOutputs(mem: seq<Byte>, ops: seq<Step>): (outs: seq<seq<Byte>>)
    requires Inside(|mem|, ops)
    ensures |outs| == |ops|
    decreases |ops|
  {
    if ops == [] then [] else
    InsideRest(|mem|, ops);
    [if IsRead(ops[0]) then mem[ops[0].r.addr..ops[0].r.addr + ops[0].r.nbytes] else []]
    + FlatOutputs(FlatStep(mem, ops[0]), ops[1..])
  }

  /** Over any run every read returns what it would from a flat memory with the same writes before it. */
  lemma {:induction false} ReadsLikeFlatMemory(c: Config, s: State, flat: seq<Byte>, ops: seq<Step>)
    requires Represents(c, s, flat) && ValidSteps(c, |s.mem|, ops)
    ensures Inside(|flat|, ops) && Outputs(c, s, ops) == FlatOutputs(flat, ops)
    decreases |ops|
  {
    hide Represents, Output, StepOf, FlatStep, Accepted, ValidRequest;
    RepresentsIs(c, s, flat);
    StepsInside(c, s.mem, ops);
    if ops != [] {
      StepRefines(c, s, flat, ops[0]);
      ReadsLikeFlatMemory(c, StepOf(c, s, ops[0]), FlatStep(flat, ops[0]), ops[1..]);
    }
  }

  lemma {:induction false} RepresentsIs(c: Config, s: State, flat: seq<Byte>)
    requires Represents(c, s, flat)
    ensures Good(c, s) && c.data && |flat| == |s.mem|
  {
  }

  lemma {:induction false} StepsInside(c: Config, mem: seq<Byte>, ops: seq<Step>)
    requires ValidSteps(c, |mem|, ops) && c.data
    ensures Inside(|mem|, ops)
  {
    forall i {:trigger ops[i]} | 0 <= i < |ops| && ops[i].Call?
      ensures ops[i].r.addr + ops[i].r.nbytes <= |mem|
              && (ops[i].r.cmd.Write? ==> ops[i].r.addr + |ops[i].r.bytes| <= |mem|)
    {
      InMemory(c, mem, ops[i].r);
    }
  }
}
