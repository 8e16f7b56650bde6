/** The simulated memory of lab3/memory.c: an inverted page table of chained entries, moved to the front
    when found, that stands for one flat, zero-filled array of bytes. */
module PageTable {
  import opened Bits
  import opened Sequences

  type Byte = bv8

  const PAGE_SIZE := 4096
  const PTAB_SIZE := 32768
  const SPACE := 0x1_0000_0000
  const TAGS := SPACE / PAGE_SIZE / PTAB_SIZE

  // ---------------------------------------------------------------- addresses

  /** MEM_PTAB_SET, MEM_PTAB_TAG, MEM_OFFSET and MEM_PTE_ADDR, with shifts and masks as divisions. */
  function SetOf(a: nat): (s: nat)
    ensures s < PTAB_SIZE
  {
    (a / PAGE_SIZE) % PTAB_SIZE
  }

  function TagOf(a: nat): nat { a / PAGE_SIZE / PTAB_SIZE }

  function Offset(a: nat): (o: nat)
    ensures o < PAGE_SIZE
  {
    a % PAGE_SIZE
  }

  function PteAddr(tag: nat, idx: nat): nat { (tag * PTAB_SIZE + idx) * PAGE_SIZE }

  /** An entry's tag and its place in the table give back the base address of its page. */
  lemma {:induction false} PteAddrRecovers(tag: nat, idx: nat, o: nat)
    requires idx < PTAB_SIZE && o < PAGE_SIZE
    ensures var a := PteAddr(tag, idx) + o;
      TagOf(a) == tag && SetOf(a) == idx && Offset(a) == o
  {
    var a := PteAddr(tag, idx) + o;
    assert a / PAGE_SIZE == tag * PTAB_SIZE + idx;
  }

  lemma {:induction false} PteAddrOf(a: nat)
    ensures PteAddr(TagOf(a), SetOf(a)) + Offset(a) == a
  {
  }

  lemma {:induction false} TagFits(a: nat)
    requires a < SPACE
    ensures TagOf(a) < TAGS
  {
  }

  predicate SamePage(a: nat, b: nat) { TagOf(a) == TagOf(b) && SetOf(a) == SetOf(b) }

  // ---------------------------------------------------------------- chains of entries

  class Pte {
    const tag: nat
    const page: array<Byte>
    ghost const home: nat
    var next: Pte?

    constructor (t: nat, p: array<Byte>, n: Pte?, ghost h: nat)
      ensures tag == t && page == p && next == n && home == h
    {
      tag, page, next, home := t, p, n, h;
    }
  }

  function At(s: seq<Pte>, i: int): Pte? {
    if 0 <= i < |s| then s[i] else null
  }

  /** `chain` is a singly linked list from `first`. */
  ghost predicate Linked(chain: seq<Pte>, first: Pte?)
    reads chain`next
  {
    && first == At(chain, 0)
    && forall i {:trigger chain[i].next} | 0 <= i < |chain| :: chain[i].next == At(chain, i + 1)
  }

  /** No two entries of a chain have the same tag. */
  ghost predicate DistinctTags(chain: seq<Pte>) {
    forall i, j | 0 <= i < j < |chain| :: chain[i].tag != chain[j].tag
  }

  /** The position of the entry with this tag; the length of the chain if there is none. */
  function Find(chain: seq<Pte>, tag: nat): (k: nat)
    ensures k <= |chain|
    ensures k < |chain| ==> chain[k].tag == tag
    ensures forall j | 0 <= j < k :: chain[j].tag != tag
  {
    if chain == [] || chain[0].tag == tag then 0 else 1 + Find(chain[1..], tag)
  }

  function Lookup(chain: seq<Pte>, tag: nat): (p: Pte?) {
    At(chain, Find(chain, tag))
  }

  lemma {:induction false} FindIs(chain: seq<Pte>, k: nat, tag: nat)
    requires k <= |chain| && (forall j | 0 <= j < k :: chain[j].tag != tag) && (k < |chain| ==> chain[k].tag == tag)
    ensures Find(chain, tag) == k
  {
  }

  lemma {:induction false} LookupAt(chain: seq<Pte>, tag: nat)
    ensures Lookup(chain, tag) == At(chain, Find(chain, tag)) && Find(chain, tag) <= |chain|
  {
  }

  /** With distinct tags the lookup finds the one entry of that tag, wherever it stands. */
  lemma {:induction false} LookupIs(chain: seq<Pte>, p: Pte)
    requires DistinctTags(chain) && p in chain
    ensures Lookup(chain, p.tag) == p
  {
    var k :| 0 <= k < |chain| && chain[k] == p;
    FindIs(chain, k, p.tag);
  }

  /** Moving an entry to the front changes no lookup. */
  lemma {:induction false} FrontLookup(chain: seq<Pte>, k: nat)
    requires DistinctTags(chain) && k < |chain|
    ensures DistinctTags(Front(chain, k))
    ensures forall i {:trigger Front(chain, k)[i]} | 0 <= i < |chain| :: Front(chain, k)[i] in chain
    ensures forall tag {:trigger Lookup(Front(chain, k), tag)} :: Lookup(Front(chain, k), tag) == Lookup(chain, tag)
  {
    var f := Front(chain, k);
    forall tag ensures Lookup(f, tag) == Lookup(chain, tag) {
      var j := Find(chain, tag);
      if j < |chain| {
        var m := if j == k then 0 else if j < k then j + 1 else j;
        assert f[m] == chain[j];
        LookupIs(f, f[m]);
      }
    }
  }

  /** A new entry at the front. */
  lemma {:induction false} ConsLookup(chain: seq<Pte>, p: Pte)
    requires DistinctTags(chain) && Lookup(chain, p.tag) == null
    ensures DistinctTags([p] + chain)
    ensures forall tag {:trigger Lookup([p] + chain, tag)} ::
              Lookup([p] + chain, tag) == if tag == p.tag then p else Lookup(chain, tag)
  {
    var f := [p] + chain;
    assert forall i | 0 < i < |f| :: f[i] == chain[i - 1];
    assert forall i | 0 <= i < |chain| :: chain[i].tag != p.tag;
    forall tag ensures Lookup(f, tag) == if tag == p.tag then p else Lookup(chain, tag) {
      var j := Find(chain, tag);
      if tag == p.tag {
        FindIs(f, 0, tag);
      } else {
        FindIs(f, j + 1, tag);
      }
    }
  }

  /** Walks a chain for a tag; `prev` is the entry before it. */
  method Search(ghost chain: seq<Pte>, first: Pte?, tag: nat) returns (prev: Pte?, pte: Pte?, ghost k: nat)
    requires Linked(chain, first)
    ensures k == Find(chain, tag) && pte == At(chain, k) && prev == At(chain, k - 1)
  {
    prev, pte, k := null, first, 0;
    while pte != null && pte.tag != tag
      invariant 0 <= k <= |chain| && pte == At(chain, k) && prev == At(chain, k - 1)
      invariant forall j | 0 <= j < k :: chain[j].tag != tag
      decreases |chain| - k
    {
      prev, pte, k := pte, pte.next, k + 1;
    }
    FindIs(chain, k, tag);
  }

  /** Relinks the entry at `k`, found after `prev`, before the old first one. */
  method ToHead(ghost chain: seq<Pte>, first: Pte?, prev: Pte, pte: Pte, ghost k: nat)
    requires Linked(chain, first) && DistinctTags(chain) && 0 < k < |chain| && pte == chain[k] && prev == chain[k - 1]
    modifies prev`next, pte`next
    ensures Linked(Front(chain, k), pte)
  {
    prev.next := pte.next;
    pte.next := first;
  }

  // ---------------------------------------------------------------- the whole table

  function Total(chains: seq<seq<Pte>>): (n: nat) {
    if chains == [] then 0 else |chains[0]| + Total(chains[1..])
  }

  lemma {:induction false} TotalUpdate(chains: seq<seq<Pte>>, s: nat, chain: seq<Pte>)
    requires s < |chains|
    ensures Total(chains[s := chain]) == Total(chains) - |chains[s]| + |chain|
    decreases s
  {
    if s == 0 {
      assert chains[s := chain][1..] == chains[1..];
    } else {
      assert chains[s := chain][1..] == chains[1..][s - 1 := chain];
      TotalUpdate(chains[1..], s - 1, chain);
    }
  }

  /** The entry that translates an address, if any. */
  function EntryOf(chains: seq<seq<Pte>>, a: nat): Pte?
    requires |chains| == PTAB_SIZE
  {
    Lookup(chains[SetOf(a)], TagOf(a))
  }

  /** Every entry is in the chain of its set and owns its page. */
  ghost predicate Tabled(chains: seq<seq<Pte>>, owner: map<array<Byte>, Pte>, repr: set<object>) {
    && |chains| == PTAB_SIZE
    && (forall s {:trigger chains[s]} | 0 <= s < PTAB_SIZE :: DistinctTags(chains[s]))
    && (forall s, i {:trigger chains[s][i]} | 0 <= s < PTAB_SIZE && 0 <= i < |chains[s]| ::
          Owned(chains[s][i], s, owner, repr))
  }

  ghost predicate Owned(p: Pte, s: nat, owner: map<array<Byte>, Pte>, repr: set<object>) {
    && p.home == s && p.tag < TAGS && p in repr && p.page in repr && p.page.Length == PAGE_SIZE
    && p.page in owner && owner[p.page] == p
  }

  ghost predicate AllLinked(chains: seq<seq<Pte>>, ptab: array<Pte?>, repr: set<object>)
    requires |chains| == ptab.Length
    requires forall s, i {:trigger chains[s][i]} | 0 <= s < |chains| && 0 <= i < |chains[s]| :: chains[s][i] in repr
    reads ptab, repr
  {
    forall s {:trigger chains[s]} | 0 <= s < |chains| :: Linked(chains[s], ptab[s])
  }

  /** The byte that the table has at an address: from its page, or zero without one. */
  ghost function ByteAt(chains: seq<seq<Pte>>, a: nat): Byte
    requires |chains| == PTAB_SIZE
    requires var p := EntryOf(chains, a); p != null ==> p.page.Length == PAGE_SIZE
    reads var p := EntryOf(chains, a); if p == null then {} else {p.page}
  {
    var p := EntryOf(chains, a);
    if p == null then 0 else p.page[Offset(a)]
  }

  lemma {:induction false} EntryOwned(chains: seq<seq<Pte>>, owner: map<array<Byte>, Pte>, repr: set<object>, a: nat)
    requires Tabled(chains, owner, repr)
    ensures |chains| == PTAB_SIZE
    ensures var p := EntryOf(chains, a);
      p != null ==> && Owned(p, SetOf(a), owner, repr) && p.tag == TagOf(a) && p in chains[SetOf(a)]
  {
  }

  lemma {:induction false} EntriesOwned(chains: seq<seq<Pte>>, owner: map<array<Byte>, Pte>, repr: set<object>)
    requires Tabled(chains, owner, repr)
    ensures |chains| == PTAB_SIZE
    ensures forall a: nat {:trigger EntryOf(chains, a)} ::
              EntryOf(chains, a) != null ==> Owned(EntryOf(chains, a), SetOf(a), owner, repr)
                                             && EntryOf(chains, a).tag == TagOf(a)
  {
    forall a: nat ensures EntryOf(chains, a) != null ==> Owned(EntryOf(chains, a), SetOf(a), owner, repr)
                                                         && EntryOf(chains, a).tag == TagOf(a) {
      EntryOwned(chains, owner, repr, a);
    }
  }

  /** Chains share no entry. */
  lemma {:induction false} ChainsApart(chains: seq<seq<Pte>>, owner: map<array<Byte>, Pte>, repr: set<object>, s: nat)
    requires Tabled(chains, owner, repr) && s < PTAB_SIZE
    ensures |chains| == PTAB_SIZE && DistinctTags(chains[s])
    ensures forall g, i {:trigger chains[g][i]} | 0 <= g < PTAB_SIZE && 0 <= i < |chains[g]| ::
            chains[g][i].home == g && chains[g][i] in repr
  {
  }

  /** Moving an entry to the front of its chain keeps the table and every translation. */
  lemma {:induction false} FrontKeeps(chains: seq<seq<Pte>>, owner: map<array<Byte>, Pte>, repr: set<object>, s: nat,
                                      k: nat)
    requires Tabled(chains, owner, repr) && s < PTAB_SIZE && k < |chains[s]|
    ensures var chains' := chains[s := Front(chains[s], k)];
      && Tabled(chains', owner, repr) && Total(chains') == Total(chains)
      && forall a: nat {:trigger EntryOf(chains', a)} :: EntryOf(chains', a) == EntryOf(chains, a)
  {
    hide Owned;
    FrontLookup(chains[s], k);
    TotalUpdate(chains, s, Front(chains[s], k));
    var chains' := chains[s := Front(chains[s], k)];
    forall i | 0 <= i < |chains[s]| ensures Owned(chains'[s][i], s, owner, repr) {
      assert chains'[s][i] in chains[s];
    }
  }

  /** A new entry, with a page of its own, at the front of its chain. */
  lemma {:induction false} NewKeeps(chains: seq<seq<Pte>>, owner: map<array<Byte>, Pte>, repr: set<object>, p: Pte,
                                    s: nat)
    requires Tabled(chains, owner, repr) && s < PTAB_SIZE && p.home == s && Lookup(chains[s], p.tag) == null
    requires p.page.Length == PAGE_SIZE && p.page !in repr && p.tag < TAGS
    ensures var chains', owner', repr' := chains[s := [p] + chains[s]], owner[p.page := p], repr + {p, p.page};
      && Tabled(chains', owner', repr') && Total(chains') == Total(chains) + 1
      && forall a: nat {:trigger EntryOf(chains', a)} ::
           EntryOf(chains', a) == if SetOf(a) == s && TagOf(a) == p.tag then p else EntryOf(chains, a)
  {
    ConsLookup(chains[s], p);
    TotalUpdate(chains, s, [p] + chains[s]);
    var chains' := chains[s := [p] + chains[s]];
    assert forall i | 0 < i < |chains'[s]| :: chains'[s][i] == chains[s][i - 1];
  }

  // ---------------------------------------------------------------- the memory

  datatype Fault = NoFault | AccessFault | AlignmentFault
  datatype Cmd = Read | Write

  /** The fault that mem_access reports for an address and a size. */
  function FaultOf(addr: nat, nbytes: nat): Fault {
    if (nbytes != 0 && !PowerOfTwo(nbytes)) || nbytes > PAGE_SIZE then AccessFault
    else if (if nbytes == 0 then addr != 0 else addr % nbytes != 0) then AlignmentFault
    else NoFault
  }

  /** The sizes that can be accessed, and where: at any multiple, so that an access stays in one page. */
  lemma {:induction false} FaultMeans(addr: nat, nbytes: nat)
    ensures FaultOf(addr, nbytes).AccessFault?
            <==> nbytes !in {0, 1, 2, 4, 8, 16, 32, 64, 128, 256, 512, 1024, 2048, 4096}
    ensures !FaultOf(addr, nbytes).AccessFault? ==>
              (FaultOf(addr, nbytes).AlignmentFault? <==> !IsMultiple(addr, nbytes))
    ensures FaultOf(addr, nbytes).NoFault? && nbytes > 0 ==> addr / PAGE_SIZE == (addr + nbytes - 1) / PAGE_SIZE
  {
    hide IsMultiple, PowerOfTwo;
    MultipleIs(addr, nbytes);
    if nbytes <= PAGE_SIZE {
      SizesAre(nbytes);
    }
    if FaultOf(addr, nbytes).NoFault? && nbytes > 0 {
      InOnePage(addr, nbytes);
    }
  }

  lemma {:induction false} SizesAre(n: nat)
    requires n <= 4096
    ensures PowerOfTwo(n) <==> n in {1, 2, 4, 8, 16, 32, 64, 128, 256, 512, 1024, 2048, 4096}
  {
    if n > 1 && n % 2 == 0 {
      SizesAre(n / 2);
    }
  }

  lemma {:induction false} InOnePage(addr: nat, nbytes: nat)
    requires PowerOfTwo(nbytes) && 0 < nbytes <= PAGE_SIZE && addr % nbytes == 0
    ensures addr / PAGE_SIZE == (addr + nbytes - 1) / PAGE_SIZE
  {
    hide PowerOfTwo;
    var p, o := addr / PAGE_SIZE, addr % PAGE_SIZE;
    assert PowerOfTwo(PAGE_SIZE) by { PageIsPower(); }
    PowerDivides(nbytes, PAGE_SIZE);
    OffsetMultiple(p, o, nbytes);
    MultipleBelow(o, nbytes, PAGE_SIZE);
    DivModUnique(p, o + nbytes - 1, PAGE_SIZE);
  }

  lemma {:induction false} PageIsPower()
    ensures PowerOfTwo(PAGE_SIZE)
  {
  }

  lemma {:induction false} OffsetMultiple(p: nat, o: nat, n: nat)
    requires n > 0 && PAGE_SIZE % n == 0 && (p * PAGE_SIZE + o) % n == 0
    ensures o % n == 0
  {
    var k := PAGE_SIZE / n;
    assert p * PAGE_SIZE == p * k * n by {
      assert PAGE_SIZE == k * n;
    }
    assert p * PAGE_SIZE + o == (p * k + o / n) * n + o % n by {
      assert o == o / n * n + o % n;
    }
    DivModUnique(p * k + o / n, o % n, n);
  }

  lemma {:induction false} SpaceIsPower()
    ensures PowerOfTwo(SPACE)
  {
    assert PowerOfTwo(0x1_0000);
    PowerProduct(0x1_0000, 0x1_0000);
  }

  lemma {:induction false} AccessFits(addr: nat, nbytes: nat)
    requires addr < SPACE && FaultOf(addr, nbytes).NoFault?
    ensures addr + nbytes <= SPACE
  {
    hide PowerOfTwo;
    if nbytes > 0 {
      SpaceIsPower();
      AlignedFits(addr, nbytes, SPACE);
    }
  }

  lemma {:induction false} OneWord(addr: nat, words: nat)
    ensures Wrap(addr + 4 * words) % 4 == addr % 4
    ensures FaultOf(Wrap(addr + 4 * words), 4) == if addr % 4 != 0 then AlignmentFault else NoFault
  {
    assert PowerOfTwo(4);
  }

  lemma {:induction false} OneByte(addr: nat)
    ensures FaultOf(addr, 1).NoFault?
  {
  }

  /** Addresses are 32 bits wide: how far `a` lies after `addr`, round the end of the space. */
  function Wrap(a: nat): (r: nat)
    ensures r < SPACE
  {
    a % SPACE
  }

  function Dist(addr: nat, a: nat): (d: nat)
    requires addr < SPACE && a < SPACE
    ensures d < SPACE && Wrap(addr + d) == a
  {
    if a >= addr then a - addr else a + SPACE - addr
  }

  /** A run of addresses that does not itself wrap keeps its distances. */
  lemma {:induction false} DistRun(addr: nat, e: nat, n: nat)
    requires addr < SPACE && e + n <= SPACE && Wrap(addr + e) + n <= SPACE
    ensures forall a: nat {:trigger Dist(addr, a)} | a < SPACE ::
              && (e <= Dist(addr, a) < e + n <==> Wrap(addr + e) <= a < Wrap(addr + e) + n)
              && (e <= Dist(addr, a) < e + n ==> Dist(addr, a) - e == a - Wrap(addr + e))
  {
  }

  lemma {:induction false} WrapRun(addr: nat, e: nat, n: nat, j: nat)
    requires addr < SPACE && e + n <= SPACE && Wrap(addr + e) + n <= SPACE && j < n
    ensures Wrap(addr + (e + j)) == Wrap(addr + e) + j
  {
    var w := if addr + e < SPACE then addr + e else addr + e - SPACE;
    assert Wrap(addr + e) == w && w + j < SPACE;
    assert addr + (e + j) == w + j || addr + (e + j) == w + j + SPACE;
  }

  lemma {:induction false} DistIs(addr: nat, e: nat)
    requires addr < SPACE && e < SPACE
    ensures forall a: nat {:trigger Dist(addr, a)} | a < SPACE :: Dist(addr, a) == e <==> a == Wrap(addr + e)
  {
  }

  /** The chains with the entry of an address, if there is one, at the front of its chain. */
  ghost function Moved(chains: seq<seq<Pte>>, addr: nat): seq<seq<Pte>>
    requires SetOf(addr) < |chains|
  {
    var s := SetOf(addr);
    var k := Find(chains[s], TagOf(addr));
    if k < |chains[s]| then chains[s := Front(chains[s], k)] else chains
  }

  lemma {:induction false} MovedIs(chains: seq<seq<Pte>>, addr: nat)
    requires SetOf(addr) < |chains|
    ensures var s := SetOf(addr);
      var k := Find(chains[s], TagOf(addr));
      && k <= |chains[s]| && (k < |chains[s]| ==> chains[s][k].tag == TagOf(addr))
      && Moved(chains, addr) == (if 0 < k < |chains[s]| then chains[s := Front(chains[s], k)] else chains)
  {
    var s := SetOf(addr);
    if chains[s] != [] {
      assert Front(chains[s], 0) == chains[s];
    }
  }

  lemma {:induction false} FirstIs(chain: seq<Pte>, first: Pte?)
    requires Linked(chain, first)
    ensures first == At(chain, 0)
  {
  }

  class Memory {
    const ptab: array<Pte?>
    var pageCount: nat
    var ptabMisses: nat
    var ptabAccesses: nat
    ghost var chains: seq<seq<Pte>>
    ghost var owner: map<array<Byte>, Pte>
    ghost var repr: set<object>

    ghost predicate Valid()
      reads this, ptab, repr
    {
      && this !in repr && ptab !in repr && ptab.Length == PTAB_SIZE
      && Tabled(chains, owner, repr) && AllLinked(chains, ptab, repr) && pageCount == Total(chains)
    }

    /** The byte at an address: what the whole table is for. */
    ghost function View(a: nat): Byte
      requires Valid()
      reads this, ptab, repr
    {
      EntryOwned(chains, owner, repr, a);
      ByteAt(chains, a)
    }

    /** mem_create and mem_init: no pages, and every byte zero. */
    constructor ()
      ensures Valid() && fresh(ptab) && repr == {} && pageCount == 0
      ensures forall a: nat :: View(a) == 0
    {
      ptab := new Pte?[PTAB_SIZE](_ => null);
      pageCount, ptabMisses, ptabAccesses := 0, 0, 0;
      chains, owner, repr := seq(PTAB_SIZE, _ => []), map[], {};
      new;
      EmptyTotal(chains);
    }
  
    // -------------------------------------------------------------- translation

    /** mem_translate: searches the chain and moves a found entry to its front.  Every address is still
        translated to the same entry, if any, so no byte changes. */
    method MemTranslate(addr: nat) returns (pte: Pte?)
      requires Valid()
      modifies this`chains, this`ptabMisses, this`ptabAccesses, ptab, repr
      ensures Valid() && pte == EntryOf(old(chains), addr)
      ensures forall a: nat {:trigger EntryOf(chains, a)} :: EntryOf(chains, a) == EntryOf(old(chains), a)
      ensures forall a: nat {:trigger View(a)} :: View(a) == old(View(a))
      ensures ptabMisses == old(ptabMisses) + 1 && ptabAccesses == old(ptabAccesses) + 1
      ensures SetOf(addr) < |old(chains)| && chains == Moved(old(chains), addr)
      ensures pte != null ==> ptab[SetOf(addr)] == pte && pte.tag == TagOf(addr)
    {
      hide Tabled, Linked, Find, Lookup, Total, SetOf, TagOf, Offset;
      var s := SetOf(addr);
      ChainsApart(chains, owner, repr, s);
      MovedIs(chains, addr);
      FirstIs(chains[s], ptab[s]);
      EntriesOwned(chains, owner, repr);
      ptabMisses, ptabAccesses := ptabMisses + 1, ptabAccesses + 1;
      var prev; ghost var k;
      prev, pte, k := Search(chains[s], ptab[s], TagOf(addr));
      LookupAt(chains[s], TagOf(addr));
      if pte != null && prev != null {
        FrontKeeps(chains, owner, repr, s, k);
        ToHead(chains[s], ptab[s], prev, pte, k);
        ptab[s] := pte;
        chains := chains[s := Front(chains[s], k)];
      }
    }
  
    /** MEM_PAGE: a hit in the first entry of the chain, or the translation. */
    method MemPage(addr: nat) returns (pte: Pte?)
      requires Valid()
      modifies this`chains, this`ptabMisses, this`ptabAccesses, ptab, repr
      ensures Valid() && pte == EntryOf(old(chains), addr) == EntryOf(chains, addr)
      ensures forall a: nat {:trigger EntryOf(chains, a)} :: EntryOf(chains, a) == EntryOf(old(chains), a)
      ensures forall a: nat {:trigger View(a)} :: View(a) == old(View(a))
      ensures ptabAccesses == old(ptabAccesses) + 1 && SetOf(addr) < ptab.Length
      ensures var first := old(ptab[SetOf(addr)]);
        ptabMisses == old(ptabMisses) + if first != null && first.tag == TagOf(addr) then 0 else 1
      ensures pte != null ==> ptab[SetOf(addr)] == pte && pte.tag == TagOf(addr)
    {
      hide Tabled, Find, Lookup, Total, SetOf, TagOf, Offset;
      var s := SetOf(addr);
      FirstEntry(addr);
      if ptab[s] != null && ptab[s].tag == TagOf(addr) {
        ptabAccesses := ptabAccesses + 1;
        pte := ptab[s];
      } else {
        pte := MemTranslate(addr);
      }
    }

    lemma {:induction false} FirstEntry(addr: nat)
      requires Valid()
      ensures SetOf(addr) < ptab.Length
      ensures var p := ptab[SetOf(addr)]; p != null && p.tag == TagOf(addr) ==> EntryOf(chains, addr) == p
    {
      assert Linked(chains[SetOf(addr)], ptab[SetOf(addr)]);
    }

    /** mem_newpage: for an address that has no page yet. */
    method MemNewpage(addr: nat)
      requires Valid() && addr < SPACE && EntryOf(chains, addr) == null
      modifies this`chains, this`owner, this`repr, this`pageCount, ptab
      ensures Valid() && fresh(repr - old(repr)) && old(repr) <= repr
      ensures EntryOf(chains, addr) != null && pageCount == old(pageCount) + 1
      ensures SetOf(addr) < |old(chains)|
      ensures chains == old(chains)[SetOf(addr) := [EntryOf(chains, addr)] + old(chains)[SetOf(addr)]]
      ensures forall a: nat {:trigger EntryOf(chains, a)} ::
              EntryOf(chains, a) == EntryOf(old(chains), a) || SamePage(a, addr)
      ensures forall a: nat {:trigger View(a)} :: View(a) == old(View(a))
    {
      hide Tabled, Linked, Find, Total, SetOf, TagOf, Offset;
      var s := SetOf(addr);
      ChainsApart(chains, owner, repr, s);
      EntriesOwned(chains, owner, repr);
      TagFits(addr);
      var page := new Byte[PAGE_SIZE](_ => 0);
      var pte := new Pte(TagOf(addr), page, ptab[s], s);
      NewKeeps(chains, owner, repr, pte, s);
      ConsLinked(chains[s], ptab[s], pte);
      ptab[s] := pte;
      chains, owner, repr := chains[s := [pte] + chains[s]], owner[page := pte], repr + {pte, page};
      pageCount := pageCount + 1;
    }
  
    // -------------------------------------------------------------- bytes

    /** MEM_TICKLE: the page of an address that is about to be written is allocated if need be. */
    method MemTickle(addr: nat)
      requires Valid() && addr < SPACE
      modifies this, ptab, repr
      ensures Valid() && fresh(repr - old(repr)) && old(repr) <= repr
      ensures EntryOf(chains, addr) != null
      ensures pageCount == old(pageCount) + if EntryOf(old(chains), addr) == null then 1 else 0
      ensures forall a: nat {:trigger EntryOf(chains, a)} ::
              EntryOf(chains, a) == EntryOf(old(chains), a) || SamePage(a, addr)
      ensures forall a: nat {:trigger View(a)} :: View(a) == old(View(a))
    {
      hide Tabled, Find, Lookup, Total, SamePage, AllLinked, ByteAt;
      var pte := MemPage(addr);
      if pte == null {
        MemNewpage(addr);
      }
    }

    /** MEM_READ_BYTE: zero without a page. */
    method MemReadByte(addr: nat) returns (b: Byte)
      requires Valid()
      modifies this`chains, this`ptabMisses, this`ptabAccesses, ptab, repr
      ensures Valid() && b == old(View(addr))
      ensures forall a: nat {:trigger EntryOf(chains, a)} :: EntryOf(chains, a) == EntryOf(old(chains), a)
      ensures forall a: nat {:trigger View(a)} :: View(a) == old(View(a))
    {
      hide Tabled, Find, Lookup, Total, AllLinked, SetOf, TagOf, Offset;
      b := 0;
      var pte := MemPage(addr);
      if pte != null {
        pte := MemPage(addr);
        EntryOwned(chains, owner, repr, addr);
        b := pte.page[Offset(addr)];
      }
      assert b == View(addr);
    }

    /** MEM_WRITE_BYTE: one byte changes, and at most one page is added. */
    method MemWriteByte(addr: nat, v: Byte)
      requires Valid() && addr < SPACE
      modifies this, ptab, repr
      ensures Valid() && fresh(repr - old(repr)) && old(repr) <= repr
      ensures pageCount == old(pageCount) + if EntryOf(old(chains), addr) == null then 1 else 0
      ensures forall a: nat {:trigger EntryOf(chains, a)} ::
              EntryOf(chains, a) == EntryOf(old(chains), a) || SamePage(a, addr)
      ensures forall a: nat {:trigger View(a)} :: View(a) == if a == addr then v else old(View(a))
    {
      hide Tabled, Find, Lookup, Total, Linked, SetOf, TagOf, Offset, SamePage;
      MemTickle(addr);
      var pte := MemPage(addr);
      EntryOwned(chains, owner, repr, addr);
      OthersElsewhere(addr, pte);
      label before:
      pte.page[Offset(addr)] := v;
      forall a: nat ensures View(a) == if a == addr then v else old@before(View(a)) {
      }
    }

    /** Other addresses are in other pages or at other places of the page. */
    lemma {:induction false} OthersElsewhere(addr: nat, pte: Pte)
      requires Valid() && pte == EntryOf(chains, addr)
      ensures forall a: nat {:trigger EntryOf(chains, a)} | a != addr && EntryOf(chains, a) != null ::
                EntryOf(chains, a).page.Length == PAGE_SIZE
                    && (EntryOf(chains, a).page == pte.page ==> Offset(a) != Offset(addr))
    {
      EntriesOwned(chains, owner, repr);
      forall a: nat | a != addr && EntryOf(chains, a) != null && EntryOf(chains, a).page == pte.page
          ensures Offset(a) != Offset(addr) {
        assert EntryOf(chains, a) == owner[pte.page] == pte;
        PteAddrOf(a);
        PteAddrOf(addr);
      }
    }
  
    // -------------------------------------------------------------- transfers

    /** mem_access: a size that is no power of two or exceeds a page faults, and so does an address that
        is not a multiple of it; then nothing changes.  Any other transfer is one with the flat bytes. */
    method MemAccess(cmd: Cmd, addr: nat, bytes: seq<Byte>, nbytes: nat) returns (fault: Fault, out: seq<Byte>)
      requires Valid() && addr < SPACE && (cmd.Write? ==> |bytes| == nbytes)
      modifies this, ptab, repr
      ensures Valid() && fresh(repr - old(repr)) && old(repr) <= repr
      ensures fault == FaultOf(addr, nbytes) && (fault.NoFault? ==> addr + nbytes <= SPACE)
      ensures forall a: nat {:trigger View(a)} ::
                View(a) == if fault.NoFault? && cmd.Write? && addr <= a < addr + nbytes then bytes[a - addr]
                    else old(View(a))
      ensures if fault.NoFault? && cmd.Read? then |out| == nbytes && forall i | 0 <= i < nbytes ::
              out[i] == old(View(addr + i)) else out == []
    {
      hide Tabled, AllLinked, ByteAt, PowerOfTwo;
      out := [];
      if (nbytes != 0 && !PowerOfTwo(nbytes)) || nbytes > PAGE_SIZE {
        return AccessFault, [];
      }
      if (if nbytes == 0 then addr != 0 else addr % nbytes != 0) {
        return AlignmentFault, [];
      }
      AccessFits(addr, nbytes);
      fault := NoFault;
      var i := 0;
      while i < nbytes
        invariant i <= nbytes && Valid() && fresh(repr - old(repr)) && old(repr) <= repr
        invariant forall a: nat {:trigger View(a)} ::
                    View(a) == if cmd.Write? && addr <= a < addr + i then bytes[a - addr] else old(View(a))
        invariant if cmd.Read? then |out| == i && forall j | 0 <= j < i :: out[j] == old(View(addr + j)) else out == []
      {
        if cmd.Read? {
          var b := MemReadByte(addr + i);
          out := out + [b];
        } else {
          MemWriteByte(addr + i, bytes[i]);
        }
        i := i + 1;
      }
    }

    /** mem_bcopy with mem_access: byte by byte, addresses wrapping at the end of the space; no fault. */
    method MemBcopy(cmd: Cmd, addr: nat, bytes: seq<Byte>, nbytes: nat) returns (fault: Fault, out: seq<Byte>)
      requires Valid() && addr < SPACE && nbytes <= SPACE && (cmd.Write? ==> |bytes| == nbytes)
      modifies this, ptab, repr
      ensures Valid() && fresh(repr - old(repr)) && old(repr) <= repr && fault.NoFault?
      ensures forall a: nat {:trigger View(a)} | a < SPACE ::
                View(a) == if cmd.Write? && Dist(addr, a) < nbytes then bytes[Dist(addr, a)] else old(View(a))
      ensures if cmd.Read? then |out| == nbytes && forall i | 0 <= i < nbytes ::
              out[i] == old(View(Wrap(addr + i))) else out == []
    {
      hide Tabled, AllLinked, ByteAt, PowerOfTwo;
      out := [];
      fault := NoFault;
      var i := 0;
      while i < nbytes && fault.NoFault?
        invariant i <= nbytes && fault.NoFault? && Valid() && fresh(repr - old(repr)) && old(repr) <= repr
        invariant forall a: nat {:trigger View(a)} | a < SPACE ::
                    View(a) == if cmd.Write? && Dist(addr, a) < i then bytes[Dist(addr, a)] else old(View(a))
        invariant if cmd.Read? then |out| == i && forall j | 0 <= j < i ::
                  out[j] == old(View(Wrap(addr + j))) else out == []
      {
        var b;
        OneByte(Wrap(addr + i));
        DistIs(addr, i);
        fault, b := MemAccess(cmd, Wrap(addr + i), if cmd.Write? then [bytes[i]] else [], 1);
        out := out + b;
        i := i + 1;
      }
    }

    /** mem_bcopy4 with mem_access: word by word, so the first word of a misaligned address faults, and
        what is left of a size that is no multiple of four is not copied. */
    method MemBcopy4(cmd: Cmd, addr: nat, bytes: seq<Byte>, nbytes: nat) returns (fault: Fault, out: seq<Byte>)
      requires Valid() && addr < SPACE && nbytes <= SPACE && (cmd.Write? ==> |bytes| == nbytes)
      modifies this, ptab, repr
      ensures Valid() && fresh(repr - old(repr)) && old(repr) <= repr
      ensures fault == if nbytes >= 4 && addr % 4 != 0 then AlignmentFault else NoFault
      ensures forall a: nat {:trigger View(a)} | a < SPACE ::
                View(a) == if fault.NoFault? && cmd.Write? && Dist(addr, a) < nbytes / 4 * 4 then bytes[Dist(addr, a)]
                    else old(View(a))
      ensures if fault.NoFault? && cmd.Read? then |out| == nbytes / 4 * 4 && forall i | 0 <= i < |out| ::
              out[i] == old(View(Wrap(addr + i)))
              else out == []
    {
      hide Tabled, AllLinked, ByteAt, PowerOfTwo;
      out := [];
      fault := NoFault;
      var words := 0;
      while words < nbytes / 4
        invariant words <= nbytes / 4 && (words > 0 ==> addr % 4 == 0) && fault.NoFault?
        invariant Valid() && fresh(repr - old(repr)) && old(repr) <= repr
        invariant forall a: nat {:trigger View(a)} | a < SPACE ::
                    View(a) == if cmd.Write? && Dist(addr, a) < 4 * words then bytes[Dist(addr, a)] else old(View(a))
        invariant if cmd.Read? then |out| == 4 * words && forall i | 0 <= i < |out| ::
                  out[i] == old(View(Wrap(addr + i))) else out == []
      {
        var b;
        OneWord(addr, words);
        var word := if cmd.Write? then bytes[4 * words..4 * words + 4] else [];
        fault, b := MemAccess(cmd, Wrap(addr + 4 * words), word, 4);
        if !fault.NoFault? {
          return;
        }
        DistRun(addr, 4 * words, 4);
        forall j: nat | j < |b| ensures b[j] == old(View(Wrap(addr + (4 * words + j)))) {
          WrapRun(addr, 4 * words, 4, j);
        }
        out := out + b;
        words := words + 1;
      }
    }

    /** mem_bzero with mem_access */
    method MemBzero(addr: nat, nbytes: nat) returns (fault: Fault)
      requires Valid() && addr < SPACE && nbytes <= SPACE
      modifies this, ptab, repr
      ensures Valid() && fresh(repr - old(repr)) && old(repr) <= repr && fault.NoFault?
      ensures forall a: nat {:trigger View(a)} | a < SPACE ::
              View(a) == if Dist(addr, a) < nbytes then 0 else old(View(a))
    {
      hide Tabled, AllLinked, ByteAt, PowerOfTwo;
      fault := NoFault;
      var i := 0;
      while i < nbytes && fault.NoFault?
        invariant i <= nbytes && fault.NoFault? && Valid() && fresh(repr - old(repr)) && old(repr) <= repr
        invariant forall a: nat {:trigger View(a)} | a < SPACE ::
                  View(a) == if Dist(addr, a) < i then 0 else old(View(a))
      {
        var b;
        OneByte(Wrap(addr + i));
        DistIs(addr, i);
        fault, b := MemAccess(Write, Wrap(addr + i), [0], 1);
        i := i + 1;
      }
    }
  
    // -------------------------------------------------------------- all pages

    /** MEM_FORALL with MEM_PTE_ADDR: the base addresses of all pages, bucket by bucket. */
    method PageAddresses() returns (addrs: seq<nat>)
      requires Valid()
      ensures addrs == AddrsUpTo(chains, PTAB_SIZE)
    {
      addrs := [];
      var i := 0;
      while i < PTAB_SIZE
        invariant i <= PTAB_SIZE && addrs == AddrsUpTo(chains, i)
      {
        assert Linked(chains[i], ptab[i]);
        var pte := ptab[i];
        ghost var k := 0;
        while pte != null
          invariant k <= |chains[i]| && pte == At(chains[i], k)
          invariant addrs == AddrsUpTo(chains, i) + Addrs(chains[i], i)[..k]
          decreases |chains[i]| - k
        {
          addrs := addrs + [PteAddr(pte.tag, i)];
          pte := pte.next;
          k := k + 1;
        }
        i := i + 1;
      }
    }

    /** That list names each mapped page once, and page_count counts them. */
    lemma {:induction false} PagesCounted(a: nat)
      requires Valid()
      ensures var addrs := AddrsUpTo(chains, PTAB_SIZE);
        && |addrs| == pageCount
        && (forall i, j | 0 <= i < j < |addrs| :: addrs[i] != addrs[j])
        && (EntryOf(chains, a) != null <==> PteAddr(TagOf(a), SetOf(a)) in addrs)
    {
      hide AllLinked;
      AddrsCounted(chains, owner, repr, PTAB_SIZE);
      assert chains[..PTAB_SIZE] == chains;
      var addrs, base := AddrsUpTo(chains, PTAB_SIZE), PteAddr(TagOf(a), SetOf(a));
      if base in addrs {
        var s, k := AddrsFrom(chains, PTAB_SIZE, base);
        PteAddrRecovers(TagOf(a), SetOf(a), 0);
        PteAddrRecovers(chains[s][k].tag, s, 0);
        LookupIs(chains[s], chains[s][k]);
      }
      if EntryOf(chains, a) != null {
        AddrsHave(chains, PTAB_SIZE, SetOf(a), Find(chains[SetOf(a)], TagOf(a)));
      }
    }
  }

  // ---------------------------------------------------------------- base addresses

  function Addrs(chain: seq<Pte>, s: nat): seq<nat> {
    seq(|chain|, i requires 0 <= i < |chain| => PteAddr(chain[i].tag, s))
  }

  function AddrsUpTo(chains: seq<seq<Pte>>, n: nat): seq<nat>
    requires n <= |chains|
  {
    if n == 0 then [] else AddrsUpTo(chains, n - 1) + Addrs(chains[n - 1], n - 1)
  }

  lemma {:induction false} AddrsHave(chains: seq<seq<Pte>>, n: nat, s: nat, k: nat)
    requires s < n <= |chains| && k < |chains[s]|
    ensures PteAddr(chains[s][k].tag, s) in AddrsUpTo(chains, n)
  {
    if s < n - 1 {
      AddrsHave(chains, n - 1, s, k);
    } else {
      assert Addrs(chains[s], s)[k] in Addrs(chains[s], s);
    }
  }

  lemma {:induction false} AddrsFrom(chains: seq<seq<Pte>>, n: nat, base: nat) returns (s: nat, k: nat)
    requires n <= |chains| && base in AddrsUpTo(chains, n)
    ensures s < n && k < |chains[s]| && base == PteAddr(chains[s][k].tag, s)
  {
    if base in Addrs(chains[n - 1], n - 1) {
      s := n - 1;
      k :| 0 <= k < |chains[s]| && Addrs(chains[s], s)[k] == base;
    } else {
      s, k := AddrsFrom(chains, n - 1, base);
    }
  }

  lemma {:induction false} AddrsCounted(chains: seq<seq<Pte>>, owner: map<array<Byte>, Pte>, repr: set<object>, n: nat)
    requires Tabled(chains, owner, repr) && n <= PTAB_SIZE
    ensures var addrs := AddrsUpTo(chains, n);
      |addrs| == Total(chains[..n]) && forall i, j | 0 <= i < j < |addrs| :: addrs[i] != addrs[j]
  {
    if n > 0 {
      AddrsCounted(chains, owner, repr, n - 1);
      TotalOneMore(chains, n - 1);
      var front, back := AddrsUpTo(chains, n - 1), Addrs(chains[n - 1], n - 1);
      forall i, j | 0 <= i < |front| && 0 <= j < |back| ensures front[i] != back[j] {
        var s, k := AddrsFrom(chains, n - 1, front[i]);
        PteAddrRecovers(chains[s][k].tag, s, 0);
        PteAddrRecovers(chains[n - 1][j].tag, n - 1, 0);
      }
      forall i, j | 0 <= i < j < |back| ensures back[i] != back[j] {
        PteAddrRecovers(chains[n - 1][i].tag, n - 1, 0);
        PteAddrRecovers(chains[n - 1][j].tag, n - 1, 0);
      }
    }
  }

  lemma {:induction false} TotalOneMore(chains: seq<seq<Pte>>, n: nat)
    requires n < |chains|
    ensures Total(chains[..n + 1]) == Total(chains[..n]) + |chains[n]|
    decreases n
  {
    if n == 0 {
      assert chains[..1][1..] == [];
    } else {
      assert chains[..n + 1][1..] == chains[1..][..n] && chains[..n][1..] == chains[1..][..n - 1];
      TotalOneMore(chains[1..], n - 1);
    }
  }

  lemma {:induction false} ConsLinked(chain: seq<Pte>, first: Pte?, p: Pte)
    requires Linked(chain, first) && p.next == first
    ensures Linked([p] + chain, p)
  {
  }

  lemma {:induction false} EmptyTotal(chains: seq<seq<Pte>>)
    requires forall s {:trigger chains[s]} | 0 <= s < |chains| :: chains[s] == []
    ensures Total(chains) == 0
  {
    if chains != [] {
      assert forall s | 0 <= s < |chains[1..]| :: chains[1..][s] == chains[s + 1];
      EmptyTotal(chains[1..]);
    }
  }
}
