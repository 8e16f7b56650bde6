/** The checkpoints of lab3/eio.c: registers, layout and every page of memory as terms, and back. */
module Checkpoint {
  import opened Words
  import opened PageTable
  import opened Transactions
  import opened EioTrace
  import opened EioReplay

  // ---------------------------------------------------------------- what is saved beside memory

  datatype Segment = Segment(base: nat, size: nat)

  /** The registers and the layout that the loader keeps. */
  datatype Arch = Arch(icnt: int, pc: nat, npc: nat, hi: int, lo: int, fcc: int, iregs: seq<int>, fregs: seq<int>,
                       brk: nat, stackMin: nat, text: Segment, data: Segment, stack: Segment)

  /** Every field has a value of its type. */
  ghost predicate Typed(s: Arch) {
    && IsCounter(s.icnt) && s.pc < SPACE && s.npc < SPACE && IsWord(s.hi) && IsWord(s.lo) && IsWord(s.fcc)
    && |s.iregs| == |s.fregs| == NUM_REGS && AllWords(s.iregs) && AllWords(s.fregs)
    && s.brk < SPACE && s.stackMin < SPACE && TypedSegment(s.text) && TypedSegment(s.data) && TypedSegment(s.stack)
  }

  predicate TypedSegment(g: Segment) { g.base < SPACE && g.size < SPACE }

  // ---------------------------------------------------------------- as terms

  /** MD_MISC_REGS_TO_EXO */
  function MiscTerm(s: Arch): Term {
    List([Integer(Wide(s.icnt)), Address(s.pc), Address(s.npc),
          Integer(Wide(s.hi)), Integer(Wide(s.lo)), Integer(Wide(s.fcc))])
  }

  function SegmentTerm(g: Segment): Term { List([Address(g.base), Integer(g.size)]) }

  const HEADER := 8

  /** All terms before the pages. */
  function HeaderTerms(transactions: int, s: Arch, pages: nat): (ts: seq<Term>)
    ensures |ts| == HEADER
  {
    [Integer(Wide(transactions)), MiscTerm(s), List(RegTerms(s.iregs)), List(RegTerms(s.fregs)),
     List([Integer(pages), Address(s.brk), Address(s.stackMin)]),
     SegmentTerm(s.text), SegmentTerm(s.data), SegmentTerm(s.stack)]
  }

  /** The pages at some addresses, as blobs. */
  ghost function PageBlobs(m: Flat, addrs: seq<nat>): (bs: seq<Blob>)
    ensures |bs| == |addrs|
    ensures forall i {:trigger bs[i]} | 0 <= i < |bs| :: bs[i] == Blob(addrs[i], Get(m, addrs[i], PAGE_SIZE), PAGE_SIZE)
  {
    seq(|addrs|, i requires 0 <= i < |addrs| => Blob(addrs[i], Get(m, addrs[i], PAGE_SIZE), PAGE_SIZE))
  }

  ghost function CheckpointTerms(transactions: int, s: Arch, m: Flat, addrs: seq<nat>): seq<Term> {
    HeaderTerms(transactions, s, |addrs|) + MemTerms(PageBlobs(m, addrs))
  }

  // ---------------------------------------------------------------- what a reader accepts

  /** MD_EXO_TO_MISC_REGS accepts six terms of these kinds. */
  predicate IsMisc(t: Term) {
    && t.List? && |t.items| == 6 && t.items[0].Integer? && t.items[1].Address? && t.items[2].Address?
    && t.items[3].Integer? && t.items[4].Integer? && t.items[5].Integer?
  }

  predicate IsRegs(t: Term) { t.List? && |t.items| == NUM_REGS && AllAddresses(t.items) }

  predicate IsConfig(t: Term) {
    t.List? && |t.items| == 3 && t.items[0].Integer? && t.items[1].Address? && t.items[2].Address?
  }

  predicate IsSegment(t: Term) { t.List? && |t.items| == 2 && t.items[0].Address? && t.items[1].Integer? }

  predicate IsHeader(ts: seq<Term>) {
    && |ts| >= HEADER && ts[0].Integer? && IsMisc(ts[1]) && IsRegs(ts[2]) && IsRegs(ts[3]) && IsConfig(ts[4])
    && IsSegment(ts[5]) && IsSegment(ts[6]) && IsSegment(ts[7])
  }

  /** A page count read as an int; a loop to a negative one does nothing. */
  function PageCount(ts: seq<Term>): (n: nat)
    requires IsHeader(ts)
  {
    var n := AsWord(ts[4].items[0].v);
    if n < 0 then 0 else n
  }

  predicate IsCheckpoint(ts: seq<Term>) {
    IsHeader(ts) && HEADER + PageCount(ts) <= |ts| && AllMemTerms(ts[HEADER..HEADER + PageCount(ts)])
  }

  /** All terms before the pages, of any numbers. */
  function AnyHeader(transactions: int, icnt: int, pcs: (nat, nat), misc: (int, int, int), iregs: seq<nat>,
                     fregs: seq<nat>, pages: int, breaks: (nat, nat), text: (nat, int), data: (nat, int),
                     stack: (nat, int)): (ts: seq<Term>)
    ensures |ts| == HEADER
  {
    [Integer(transactions),
     List([Integer(icnt), Address(pcs.0), Address(pcs.1), Integer(misc.0), Integer(misc.1), Integer(misc.2)]),
     List(AddressTerms(iregs)), List(AddressTerms(fregs)),
     List([Integer(pages), Address(breaks.0), Address(breaks.1)]),
     List([Address(text.0), Integer(text.1)]), List([Address(data.0), Integer(data.1)]),
     List([Address(stack.0), Integer(stack.1)])]
  }

  lemma {:induction false} SegmentIs(t: Term)
    requires IsSegment(t)
    ensures t == List([Address(t.items[0].a), Integer(t.items[1].v)])
  {
    assert t.items == [t.items[0], t.items[1]];
  }

  lemma {:induction false} HeaderIs(ts: seq<Term>) returns (iregs: seq<nat>, fregs: seq<nat>)
    requires IsHeader(ts)
    ensures |iregs| == |fregs| == 32
    ensures var m, g := ts[1].items, ts[4].items;
      ts[..HEADER] == AnyHeader(ts[0].v, m[0].v, (m[1].a, m[2].a), (m[3].v, m[4].v, m[5].v), iregs, fregs, g[0].v,
                                (g[1].a, g[2].a), (ts[5].items[0].a, ts[5].items[1].v),
                                (ts[6].items[0].a, ts[6].items[1].v), (ts[7].items[0].a, ts[7].items[1].v))
  {
    hide AllAddresses, AddressTerms;
    iregs := AddressesAre(ts[2].items);
    fregs := AddressesAre(ts[3].items);
    SegmentIs(ts[5]);
    SegmentIs(ts[6]);
    SegmentIs(ts[7]);
    var m, g := ts[1].items, ts[4].items;
    assert m == [m[0], m[1], m[2], m[3], m[4], m[5]] && g == [g[0], g[1], g[2]];
    assert ts[..HEADER] == [ts[0], ts[1], ts[2], ts[3], ts[4], ts[5], ts[6], ts[7]];
  }

  /** Any header with 32 and 32 registers, and at least as many pages as it says. */
  ghost predicate HeaderAndPages(ts: seq<Term>) {
    exists transactions, icnt, pcs, misc, iregs, fregs, pages, breaks, text, data, stack, ps, more ::
      && |iregs| == |fregs| == 32 && |ps| == (if AsWord(pages) < 0 then 0 else AsWord(pages))
      && ts == AnyHeader(transactions, icnt, pcs, misc, iregs, fregs, pages, breaks, text, data, stack)
               + PairTerms(ps) + more
  }

  lemma {:induction false} CheckpointIs(ts: seq<Term>)
    requires IsCheckpoint(ts)
    ensures HeaderAndPages(ts)
  {
    hide AllAddresses, AllMemTerms, AddressTerms, PairTerms, AsWord, AnyHeader;
    var iregs, fregs := HeaderIs(ts);
    var n := HEADER + PageCount(ts);
    var ps := PairsAre(ts[HEADER..n]);
    assert ts == ts[..HEADER] + ts[HEADER..n] + ts[n..];
  }

  lemma {:induction false} HeaderAccepted(transactions: int, icnt: int, pcs: (nat, nat), misc: (int, int, int),
                                          iregs: seq<nat>, fregs: seq<nat>, pages: int, breaks: (nat, nat),
                                          text: (nat, int), data: (nat, int), stack: (nat, int), more: seq<Term>)
    requires |iregs| == |fregs| == 32
    ensures var ts := AnyHeader(transactions, icnt, pcs, misc, iregs, fregs, pages, breaks, text, data, stack) + more;
      IsHeader(ts) && ts[4].items[0].v == pages && ts[HEADER..] == more
  {
    hide AllAddresses, AddressTerms;
    TermsAccepted(iregs, []);
    TermsAccepted(fregs, []);
  }

  /** The terms that a reader accepts are such a header and pages, and no others. */
  lemma {:induction false} CheckpointsAre(ts: seq<Term>)
    ensures IsCheckpoint(ts) <==> HeaderAndPages(ts)
  {
    hide AllAddresses, AllMemTerms, AddressTerms, PairTerms, AsWord, IsHeader, AnyHeader;
    if IsCheckpoint(ts) {
      CheckpointIs(ts);
    }
    if transactions, icnt, pcs, misc, iregs, fregs, pages, breaks, text, data, stack, ps, more :|
        && |iregs| == |fregs| == 32 && |ps| == (if AsWord(pages) < 0 then 0 else AsWord(pages))
        && ts == AnyHeader(transactions, icnt, pcs, misc, iregs, fregs, pages, breaks, text, data, stack)
                 + PairTerms(ps) + more {
      var rest := PairTerms(ps) + more;
      HeaderAccepted(transactions, icnt, pcs, misc, iregs, fregs, pages, breaks, text, data, stack, rest);
      assert ts == AnyHeader(transactions, icnt, pcs, misc, iregs, fregs, pages, breaks, text, data, stack) + rest;
      TermsAccepted([], ps);
      assert ts[HEADER..HEADER + |ps|] == rest[..|ps|] == PairTerms(ps);
    }
  }

  function SegmentOf(t: Term): Segment
    requires IsSegment(t)
  {
    Segment(Wrap(t.items[0].a), t.items[1].v % SPACE)
  }

  function ArchOf(ts: seq<Term>): Arch
    requires IsHeader(ts)
  {
    var misc := ts[1].items;
    Arch(AsCounter(misc[0].v), Wrap(misc[1].a), Wrap(misc[2].a),
         AsWord(misc[3].v), AsWord(misc[4].v), AsWord(misc[5].v),
         RegsOf(ts[2].items), RegsOf(ts[3].items), Wrap(ts[4].items[1].a), Wrap(ts[4].items[2].a),
         SegmentOf(ts[5]), SegmentOf(ts[6]), SegmentOf(ts[7]))
  }

  // ---------------------------------------------------------------- pages back into a memory

  function Base(a: nat): nat { a / PAGE_SIZE * PAGE_SIZE }

  /** The base addresses of pages. */
  ghost predicate PageBases(addrs: seq<nat>) {
    forall i {:trigger addrs[i]} | 0 <= i < |addrs| :: addrs[i] < SPACE && addrs[i] % PAGE_SIZE == 0
  }

  lemma {:induction false} InPage(base: nat, a: nat)
    requires base < SPACE && base % PAGE_SIZE == 0 && a < SPACE
    ensures Dist(base, a) < PAGE_SIZE <==> Base(a) == base
  {
    assert base + PAGE_SIZE <= SPACE;
  }

  lemma {:induction false} PagesFit(m: Flat, addrs: seq<nat>)
    requires PageBases(addrs)
    ensures Fits(PageBlobs(m, addrs))
  {
  }

  /** Writing the pages gives each byte of them, and no other byte. */
  lemma {:induction false} PagesWritten(z: Flat, m: Flat, addrs: seq<nat>, a: nat)
    requires PageBases(addrs) && a < SPACE
    ensures Fits(PageBlobs(m, addrs)) && PutAll(z, PageBlobs(m, addrs))[a] == if Base(a) in addrs then m[a] else z[a]
    decreases |addrs|
  {
    hide Base, Wrap, Dist;
    PagesFit(m, addrs);
    if addrs != [] {
      var n := |addrs| - 1;
      var front, bs := addrs[..n], PageBlobs(m, addrs);
      assert PageBases(front) by {
        assert forall i | 0 <= i < n :: front[i] == addrs[i];
      }
      PagesWritten(z, m, front, a);
      assert bs[..n] == PageBlobs(m, front);
      assert bs[n] == Blob(addrs[n], Get(m, addrs[n], PAGE_SIZE), PAGE_SIZE);
      InPage(addrs[n], a);
      assert addrs == front + [addrs[n]];
      assert Dist(addrs[n], a) < PAGE_SIZE ==> Get(m, addrs[n], PAGE_SIZE)[Dist(addrs[n], a)] == m[a];
    }
  }

  /** All that is not in a page is zero, so on a memory that is zero there the pages are all of it. */
  lemma {:induction false} PagesRestore(z: Flat, m: Flat, addrs: seq<nat>)
    requires PageBases(addrs) && forall a {:trigger m[a]} | 0 <= a < SPACE && Base(a) !in addrs :: m[a] == 0
    ensures Fits(PageBlobs(m, addrs))
    ensures PutAll(z, PageBlobs(m, addrs)) == m <==> forall a {:trigger z[a]} | 0 <= a < SPACE && Base(a) !in addrs ::
            z[a] == 0
  {
    hide Base, PutAll, PageBlobs;
    PagesFit(m, addrs);
    var r := PutAll(z, PageBlobs(m, addrs));
    forall a: nat {:trigger r[a]} {:trigger z[a]} | a < SPACE ensures r[a] == if Base(a) in addrs then m[a] else z[a] {
      PagesWritten(z, m, addrs, a);
    }
    if r == m {
      forall a: nat | a < SPACE && Base(a) !in addrs ensures z[a] == 0 {
        assert r[a] == m[a];
      }
    }
  }

  // ---------------------------------------------------------------- a written checkpoint reads back

  lemma {:induction false} SegmentBack(g: Segment)
    requires TypedSegment(g)
    ensures SegmentOf(SegmentTerm(g)) == g
  {
    WrapSmall(g.base);
    WrapSmall(g.size);
  }

  lemma {:induction false} HeaderBack(transactions: int, s: Arch, pages: nat)
    requires Typed(s) && IsCounter(transactions) && pages < WORD / 2
    ensures var ts := HeaderTerms(transactions, s, pages);
      IsHeader(ts) && ArchOf(ts) == s && PageCount(ts) == pages && AsCounter(ts[0].v) == transactions
  {
    hide Wide, AsWord, AsCounter, Wrap, AllWords, AllAddresses, RegsOf, RegTerms, SegmentOf, TypedSegment;
    CounterBack(transactions);
    CounterBack(s.icnt);
    WordBack(s.hi);
    WordBack(s.lo);
    WordBack(s.fcc);
    SmallWord(pages);
    WrapSmall(s.pc);
    WrapSmall(s.npc);
    WrapSmall(s.brk);
    WrapSmall(s.stackMin);
    RegTermsBack(s.iregs);
    RegTermsBack(s.fregs);
    SegmentBack(s.text);
    SegmentBack(s.data);
    SegmentBack(s.stack);
    assert |RegTerms(s.iregs)| == |RegTerms(s.fregs)| == NUM_REGS by {
      RegTermsLength(s.iregs);
      RegTermsLength(s.fregs);
    }
  }

  lemma {:induction false} RegTermsLength(rs: seq<int>)
    ensures |RegTerms(rs)| == |rs|
  {
  }

  lemma {:induction false} SmallWord(v: int)
    requires 0 <= v < WORD / 2
    ensures AsWord(v) == v
  {
  }

  /** Reading a written checkpoint gives back the count of transactions, the registers and the layout; and
      the memory exactly if what was there before is zero wherever no page was saved. */
  lemma {:induction false} CheckpointReadsBack(transactions: int, s: Arch, m: Flat, addrs: seq<nat>, z: Flat)
    requires Typed(s) && IsCounter(transactions) && PageBases(addrs) && |addrs| < WORD / 2
    requires forall a {:trigger m[a]} | 0 <= a < SPACE && Base(a) !in addrs :: m[a] == 0
    ensures var ts := CheckpointTerms(transactions, s, m, addrs);
      && Bounded(ts) && IsCheckpoint(ts) && PageCount(ts) == |addrs| && AsCounter(ts[0].v) == transactions
          && ArchOf(ts) == s
      && var pages := ts[HEADER..HEADER + PageCount(ts)];
         && Fits(BlobsOf(pages))
         && (PutAll(z, BlobsOf(pages)) == m <==> forall a {:trigger z[a]} | 0 <= a < SPACE && Base(a) !in addrs ::
             z[a] == 0)
  {
    hide IsHeader, ArchOf, PageCount, AllMemTerms, BlobsOf, PutAll, PageBlobs, HeaderTerms, MemTerms, Typed, Fits;
    hide Bounded, Base;
    HeaderBack(transactions, s, |addrs|);
    PagesFit(m, addrs);
    PagesRestore(z, m, addrs);
    var head, pages := HeaderTerms(transactions, s, |addrs|), MemTerms(PageBlobs(m, addrs));
    TermsOfBlobs(PageBlobs(m, addrs), z);
    MemTermsLength(PageBlobs(m, addrs));
    PageBlobsLength(m, addrs);
    LongerHeader(head, pages);
    HeaderBounded(transactions, s, |addrs|, pages);
    assert (head + pages)[HEADER..HEADER + |addrs|] == pages;
  }

  lemma {:induction false} MemTermsLength(bs: seq<Blob>)
    ensures |MemTerms(bs)| == |bs|
  {
  }

  lemma {:induction false} PageBlobsLength(m: Flat, addrs: seq<nat>)
    ensures |PageBlobs(m, addrs)| == |addrs|
  {
  }

  lemma {:induction false} HeaderBounded(transactions: int, s: Arch, n: nat, pages: seq<Term>)
    requires Bounded(pages)
    ensures Bounded(HeaderTerms(transactions, s, n) + pages)
  {
    hide RegTerms, Wide;
    var head := HeaderTerms(transactions, s, n);
    var ts := head + pages;
    AddressesOnly(s.iregs);
    AddressesOnly(s.fregs);
    assert forall i {:trigger ts[i]} | 0 <= i < HEADER :: ts[i] == head[i];
    assert forall i {:trigger ts[i]} | HEADER <= i < |ts| :: ts[i] == pages[i - HEADER];
  }

  lemma {:induction false} AddressesOnly(rs: seq<int>)
    ensures !IsMemTerm(List(RegTerms(rs)))
  {
    assert |RegTerms(rs)| == 2 ==> RegTerms(rs)[1].Address?;
  }

  /** What follows the header does not change what it means. */
  lemma {:induction false} LongerHeader(head: seq<Term>, rest: seq<Term>)
    requires |head| == HEADER && IsHeader(head)
    ensures IsHeader(head + rest) && ArchOf(head + rest) == ArchOf(head) && PageCount(head + rest) == PageCount(head)
    ensures (head + rest)[0] == head[0]
  {
    hide IsMisc, IsRegs, IsConfig, IsSegment, RegsOf, SegmentOf, AsWord, AsCounter, Wrap;
    var ts := head + rest;
    assert forall i | 0 <= i < HEADER :: ts[i] == head[i];
  }

  // ---------------------------------------------------------------- the pages of a memory

  /** Different numbers below `n` are no more than `n`. */
  lemma {:induction false} DistinctBelow(xs: seq<nat>, n: nat)
    requires (forall i, j | 0 <= i < j < |xs| :: xs[i] != xs[j]) && forall i {:trigger xs[i]} | 0 <= i < |xs| ::
             xs[i] < n
    ensures |xs| <= n
    decreases n
  {
    if xs != [] {
      assert xs[0] < n;
      var rest := if n - 1 in xs then Dropped(xs, n - 1) else xs;
      DistinctBelow(rest, n - 1);
    }
  }

  ghost function Dropped(xs: seq<nat>, x: nat): (r: seq<nat>)
    requires x in xs && forall i, j | 0 <= i < j < |xs| :: xs[i] != xs[j]
    ensures |r| == |xs| - 1 && (forall i, j | 0 <= i < j < |r| :: r[i] != r[j])
    ensures forall i {:trigger r[i]} | 0 <= i < |r| :: r[i] in xs && r[i] != x
  {
    var k :| 0 <= k < |xs| && xs[k] == x;
    xs[..k] + xs[k + 1..]
  }

  lemma {:induction false} BaseIs(a: nat)
    ensures PteAddr(TagOf(a), SetOf(a)) == Base(a)
  {
  }

  lemma {:induction false} BaseFits(tag: nat, s: nat)
    requires tag < TAGS && s < PTAB_SIZE
    ensures PteAddr(tag, s) + PAGE_SIZE <= SPACE && PteAddr(tag, s) % PAGE_SIZE == 0
  {
  }

  /** The listed addresses are bases, fewer than an int can count, and elsewhere every byte is zero. */
  lemma {:induction false} AllPagesListed(mem: Memory)
    requires mem.Valid()
    ensures |mem.chains| == PTAB_SIZE
    ensures var addrs := AddrsUpTo(mem.chains, PTAB_SIZE);
      && PageBases(addrs) && |addrs| == mem.pageCount <= SPACE / PAGE_SIZE
      && forall a: nat {:trigger Image(mem)[a]} | a < SPACE && Base(a) !in addrs :: Image(mem)[a] == 0
  {
    hide AllLinked, Total, AddrsUpTo, Base, TagOf, SetOf, PteAddr;
    var addrs := AddrsUpTo(mem.chains, PTAB_SIZE);
    forall i {:trigger addrs[i]} | 0 <= i < |addrs| ensures addrs[i] < SPACE && addrs[i] % PAGE_SIZE == 0 {
      var s, k := AddrsFrom(mem.chains, PTAB_SIZE, addrs[i]);
      BaseFits(mem.chains[s][k].tag, s);
    }
    mem.PagesCounted(0);
    FewBases(addrs);
    forall a: nat | a < SPACE && Base(a) !in addrs ensures Image(mem)[a] == 0 {
      mem.PagesCounted(a);
      BaseIs(a);
      assert mem.View(a) == 0;
    }
  }

  lemma {:induction false} FewBases(addrs: seq<nat>)
    requires PageBases(addrs) && forall i, j | 0 <= i < j < |addrs| :: addrs[i] != addrs[j]
    ensures |addrs| <= SPACE / PAGE_SIZE
  {
    var xs := seq(|addrs|, i requires 0 <= i < |addrs| => addrs[i] / PAGE_SIZE);
    forall i, j | 0 <= i < j < |xs| ensures xs[i] != xs[j] {
      assert addrs[i] % PAGE_SIZE == 0 == addrs[j] % PAGE_SIZE;
    }
    DistinctBelow(xs, SPACE / PAGE_SIZE);
  }

  /** An entry's page holds the bytes from its base address on. */
  lemma {:induction false} PageIs(mem: Memory, s: nat, k: nat)
    requires mem.Valid() && s < PTAB_SIZE && k < |mem.chains[s]|
    ensures var p := mem.chains[s][k];
      p.page.Length == PAGE_SIZE && Get(Image(mem), PteAddr(p.tag, s), PAGE_SIZE) == p.page[..]
  {
    hide AllLinked, Total, PteAddr, SetOf, TagOf, Offset, Wrap, Find;
    var p := mem.chains[s][k];
    var base := PteAddr(p.tag, s);
    assert Owned(p, s, mem.owner, mem.repr);
    BaseFits(p.tag, s);
    LookupIs(mem.chains[s], p);
    forall j: nat {:trigger p.page[j]} | j < PAGE_SIZE ensures Image(mem)[Wrap(base + j)] == p.page[j] {
      WrapSmall(base + j);
      PteAddrRecovers(p.tag, s, j);
      assert mem.View(base + j) == p.page[j];
    }
  }

  lemma {:induction false} OneMorePage(m: Flat, addrs: seq<nat>, base: nat)
    ensures MemTerms(PageBlobs(m, addrs + [base]))
            == MemTerms(PageBlobs(m, addrs)) + [MemTerm(Blob(base, Get(m, base, PAGE_SIZE), PAGE_SIZE))]
  {
    hide Get;
  }

  // ---------------------------------------------------------------- writing

  /** The registers, and the loader's variables. */
  class Cpu {
    var icnt: int
    var pc: nat
    var npc: nat
    var hi: int
    var lo: int
    var fcc: int
    const iregs: array<int>
    const fregs: array<int>
    var brk: nat
    var stackMin: nat
    var text: Segment
    var data: Segment
    var stack: Segment

    ghost function State(): Arch
      reads this, iregs, fregs
    {
      Arch(icnt, pc, npc, hi, lo, fcc, iregs[..], fregs[..], brk, stackMin, text, data, stack)
    }

    constructor ()
      ensures iregs.Length == fregs.Length == NUM_REGS && fresh(iregs) && fresh(fregs) && iregs != fregs
    {
      icnt, pc, npc, hi, lo, fcc, brk, stackMin := 0, 0, 0, 0, 0, 0, 0, 0;
      text, data, stack := Segment(0, 0), Segment(0, 0), Segment(0, 0);
      iregs := new int[NUM_REGS];
      fregs := new int[NUM_REGS];
    }
  }

  method WriteRegs(regs: array<int>) returns (ts: seq<Term>)
    ensures ts == RegTerms(regs[..])
  {
    ts := [];
    var i := 0;
    while i < regs.Length
      invariant i <= regs.Length && |ts| == i && forall j {:trigger ts[j]} | 0 <= j < i ::
                ts[j] == Address(Wide(regs[j]))
    {
      ts := ts + [Address(Wide(regs[i]))];
      i := i + 1;
    }
  }

  /** MEM_FORALL: each page in its bucket's order. */
  method DumpPages(mem: Memory) returns (ts: seq<Term>)
    requires mem.Valid()
    ensures ts == MemTerms(PageBlobs(Image(mem), AddrsUpTo(mem.chains, PTAB_SIZE)))
  {
    hide Total, PteAddr, Get, Image, ByteAt, MemTerms, MemTerm, PageBlobs;
    ghost var m := Image(mem);
    NoPages(m);
    ts := [];
    var i := 0;
    while i < PTAB_SIZE
      invariant i <= PTAB_SIZE && ts == MemTerms(PageBlobs(m, AddrsUpTo(mem.chains, i)))
    {
      assert Linked(mem.chains[i], mem.ptab[i]);
      var pte := mem.ptab[i];
      ghost var k, chain := 0, mem.chains[i];
      ghost var bases := AddrsUpTo(mem.chains, i);
      assert bases + Addrs(chain, i)[..0] == bases;
      while pte != null
        invariant k <= |chain| && pte == At(chain, k)
        invariant ts == MemTerms(PageBlobs(m, bases + Addrs(chain, i)[..k]))
        decreases |chain| - k
      {
        PageIs(mem, i, k);
        OneMorePage(m, bases + Addrs(chain, i)[..k], PteAddr(pte.tag, i));
        assert bases + Addrs(chain, i)[..k + 1] == bases + Addrs(chain, i)[..k] + [PteAddr(pte.tag, i)];
        MemTermIs(PteAddr(pte.tag, i), pte.page[..]);
        ts := ts + [List([Address(PteAddr(pte.tag, i)), BlobTerm(pte.page[..])])];
        pte := pte.next;
        k := k + 1;
      }
      assert Addrs(chain, i)[..k] == Addrs(chain, i);
      i := i + 1;
    }
  }

  lemma {:induction false} NoPages(m: Flat)
    ensures MemTerms(PageBlobs(m, [])) == []
  {
  }

  lemma {:induction false} MemTermIs(base: nat, data: seq<Byte>)
    ensures MemTerm(Blob(base, data, PAGE_SIZE)) == List([Address(base), BlobTerm(data)])
  {
  }

  /** eio_write_chkpt */
  method WriteCheckpoint(cpu: Cpu, mem: Memory, transactions: int) returns (ts: seq<Term>)
    requires mem.Valid()
    ensures ts == CheckpointTerms(transactions, cpu.State(), Image(mem), AddrsUpTo(mem.chains, PTAB_SIZE))
  {
    hide Image, AddrsUpTo, RegTerms, MemTerms, PageBlobs;
    ghost var addrs := AddrsUpTo(mem.chains, PTAB_SIZE);
    mem.PagesCounted(0);
    var iregs := WriteRegs(cpu.iregs);
    var fregs := WriteRegs(cpu.fregs);
    var misc := List([Integer(Wide(cpu.icnt)), Address(cpu.pc), Address(cpu.npc),
                      Integer(Wide(cpu.hi)), Integer(Wide(cpu.lo)), Integer(Wide(cpu.fcc))]);
    ts := [Integer(Wide(transactions)), misc, List(iregs), List(fregs),
           List([Integer(mem.pageCount), Address(cpu.brk), Address(cpu.stackMin)]),
           SegmentTerm(cpu.text), SegmentTerm(cpu.data), SegmentTerm(cpu.stack)];
    assert ts == HeaderTerms(transactions, cpu.State(), |addrs|);
    var pages := DumpPages(mem);
    ts := ts + pages;
  }

  // ---------------------------------------------------------------- reading

  /** One register file; too few, too many or another kind of term ends the program. */
  method ReadRegs(t: Term, regs: array<int>) returns (ok: bool)
    requires regs.Length == NUM_REGS
    modifies regs
    ensures ok == IsRegs(t) && (ok ==> regs[..] == RegsOf(t.items))
  {
    if !t.List? {
      return false;
    }
    var i := 0;
    while i < NUM_REGS
      invariant i <= NUM_REGS && i <= |t.items|
      invariant forall j {:trigger t.items[j]} | 0 <= j < i :: t.items[j].Address? && regs[j] == AsWord(t.items[j].a)
    {
      if i >= |t.items| || !t.items[i].Address? {
        return false;
      }
      regs[i] := AsWord(t.items[i].a);
      i := i + 1;
    }
    ok := |t.items| == NUM_REGS;
  }

  /** MD_EXO_TO_MISC_REGS */
  method ReadMisc(cpu: Cpu, t: Term) returns (ok: bool)
    modifies cpu`icnt, cpu`pc, cpu`npc, cpu`hi, cpu`lo, cpu`fcc
    ensures ok == IsMisc(t)
    ensures ok ==> && cpu.icnt == AsCounter(t.items[0].v)
                   && cpu.pc == Wrap(t.items[1].a) && cpu.npc == Wrap(t.items[2].a)
                   && cpu.hi == AsWord(t.items[3].v) && cpu.lo == AsWord(t.items[4].v)
                   && cpu.fcc == AsWord(t.items[5].v)
  {
    hide AsWord, AsCounter, Wrap;
    if !IsMisc(t) {
      return false;
    }
    var misc := t.items;
    cpu.icnt, cpu.pc, cpu.npc := AsCounter(misc[0].v), Wrap(misc[1].a), Wrap(misc[2].a);
    cpu.hi, cpu.lo, cpu.fcc := AsWord(misc[3].v), AsWord(misc[4].v), AsWord(misc[5].v);
    ok := true;
  }

  /** The memory configuration and the three segments. */
  method ReadLayout(cpu: Cpu, config: Term, text: Term, data: Term, stack: Term) returns (ok: bool, pages: nat)
    modifies cpu`brk, cpu`stackMin, cpu`text, cpu`data, cpu`stack
    ensures ok == (IsConfig(config) && IsSegment(text) && IsSegment(data) && IsSegment(stack))
    ensures ok ==> && cpu.brk == Wrap(config.items[1].a) && cpu.stackMin == Wrap(config.items[2].a)
                   && cpu.text == SegmentOf(text) && cpu.data == SegmentOf(data) && cpu.stack == SegmentOf(stack)
                   && pages == var n := AsWord(config.items[0].v); if n < 0 then 0 else n
  {
    hide AsWord, Wrap, SegmentOf;
    if !IsConfig(config) || !IsSegment(text) || !IsSegment(data) || !IsSegment(stack) {
      return false, 0;
    }
    var n := AsWord(config.items[0].v);
    ok, pages := true, if n < 0 then 0 else n;
    cpu.brk, cpu.stackMin := Wrap(config.items[1].a), Wrap(config.items[2].a);
    cpu.text, cpu.data, cpu.stack := SegmentOf(text), SegmentOf(data), SegmentOf(stack);
  }

  /** All terms before the pages. */
  method ReadHeader(cpu: Cpu, ts: seq<Term>) returns (ok: bool, transactions: int, pages: nat)
    requires cpu.iregs.Length == cpu.fregs.Length == NUM_REGS && cpu.iregs != cpu.fregs
    modifies cpu, cpu.iregs, cpu.fregs
    ensures ok == IsHeader(ts)
    ensures ok ==> transactions == AsCounter(ts[0].v) && cpu.State() == ArchOf(ts) && pages == PageCount(ts)
  {
    hide AsWord, AsCounter, Wrap, RegsOf, AllAddresses, SegmentOf, IsMisc, IsConfig, IsSegment;
    ok, transactions, pages := false, 0, 0;
    if |ts| < HEADER || !ts[0].Integer? {
      return;
    }
    transactions := AsCounter(ts[0].v);
    ok := ReadMisc(cpu, ts[1]);
    if !ok {
      return;
    }
    ok := ReadRegs(ts[2], cpu.iregs);
    if !ok {
      return;
    }
    ok := ReadRegs(ts[3], cpu.fregs);
    if !ok {
      return;
    }
    ok, pages := ReadLayout(cpu, ts[4], ts[5], ts[6], ts[7]);
  }

  /** eio_read_chkpt: it ends the program unless the stream starts with a checkpoint; then registers and
      layout are what it says, and its pages are written over the memory. */
  method ReadCheckpoint(cpu: Cpu, mem: Memory, ts: seq<Term>) returns (ok: bool, transactions: int)
    requires mem.Valid() && Bounded(ts) && cpu.iregs.Length == cpu.fregs.Length == NUM_REGS && cpu.iregs != cpu.fregs
    requires {cpu, cpu.iregs, cpu.fregs} !! {mem, mem.ptab} + mem.repr
    modifies cpu, cpu.iregs, cpu.fregs, mem, mem.ptab, mem.repr
    ensures ok == IsCheckpoint(ts)
    ensures ok ==> && mem.Valid() && fresh(mem.repr - old(mem.repr))
                   && transactions == AsCounter(ts[0].v) && cpu.State() == ArchOf(ts)
                   && var pages := ts[HEADER..HEADER + PageCount(ts)];
                      Fits(BlobsOf(pages)) && Image(mem) == PutAll(old(Image(mem)), BlobsOf(pages))
  {
    hide Memory.Valid, Image, AsCounter, PutAll, BlobsOf, Fits, AllMemTerms, ArchOf, PageCount, Bounded;
    var n;
    ok, transactions, n := ReadHeader(cpu, ts);
    if ok {
      ok := ReadPages(mem, ts, n);
    }
  }

  method ReadPages(mem: Memory, ts: seq<Term>, n: nat) returns (ok: bool)
    requires mem.Valid() && Bounded(ts) && HEADER <= |ts|
    modifies mem, mem.ptab, mem.repr
    ensures ok <==> HEADER + n <= |ts| && AllMemTerms(ts[HEADER..HEADER + n])
    ensures ok ==> && mem.Valid() && fresh(mem.repr - old(mem.repr)) && Fits(BlobsOf(ts[HEADER..HEADER + n]))
                   && Image(mem) == PutAll(old(Image(mem)), BlobsOf(ts[HEADER..HEADER + n]))
  {
    hide Memory.Valid, Image, PutAll, BlobsOf, Fits;
    if HEADER + n > |ts| {
      return false;
    }
    var pages := ts[HEADER..HEADER + n];
    assert forall i {:trigger pages[i]} | 0 <= i < n :: pages[i] == ts[HEADER + i];
    ok := WriteOutputs(mem, pages);
  }

  // ---------------------------------------------------------------- both

  /** A machine saved and loaded into one whose memory is empty: registers, layout and every byte. */
  method SaveThenLoad(cpu: Cpu, mem: Memory, transactions: int, cpu': Cpu, mem': Memory)
      returns (ok: bool, transactions': int)
    requires mem.Valid() && mem'.Valid() && Typed(cpu.State()) && IsCounter(transactions)
    requires forall a: nat {:trigger Image(mem')[a]} | a < SPACE :: Image(mem')[a] == 0
    requires cpu'.iregs.Length == cpu'.fregs.Length == NUM_REGS && cpu'.iregs != cpu'.fregs
    requires {cpu', cpu'.iregs, cpu'.fregs} !! {mem', mem'.ptab} + mem'.repr
    requires {cpu', cpu'.iregs, cpu'.fregs, mem', mem'.ptab} + mem'.repr
             !! {cpu, cpu.iregs, cpu.fregs, mem, mem.ptab} + mem.repr
    modifies cpu', cpu'.iregs, cpu'.fregs, mem', mem'.ptab, mem'.repr
    ensures ok && transactions' == transactions && cpu'.State() == cpu.State()
    ensures mem.Valid() && mem'.Valid() && Image(mem') == Image(mem)
  {
    hide Memory.Valid, Image, AddrsUpTo, PutAll, BlobsOf, Fits, Typed, IsCheckpoint, ArchOf, CheckpointTerms, PageBases;
    hide Base, PageCount;
    AllPagesListed(mem);
    ghost var addrs := AddrsUpTo(mem.chains, PTAB_SIZE);
    CheckpointReadsBack(transactions, cpu.State(), Image(mem), addrs, Image(mem'));
    var ts := WriteCheckpoint(cpu, mem, transactions);
    ok, transactions' := ReadCheckpoint(cpu', mem', ts);
  }
}
