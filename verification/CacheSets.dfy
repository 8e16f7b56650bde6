/** One set of the cache in its own form: blocks linked into an ordered way list and, in a highly
    associative cache, into hash bucket chains. */
module CacheSets {
  import opened Bits
  import opened CacheSpec
  import opened Sequences

  // ---------------------------------------------------------------- sequences

  /** Element `k` moved to the back. */
  function Back<T>(s: seq<T>, k: nat): (r: seq<T>)
    requires k < |s|
    ensures |r| == |s|
    ensures forall j {:trigger r[j]} | 0 <= j < |s| ::
            r[j] == if j < k then s[j] else if j < |s| - 1 then s[j + 1] else s[k]
  {
    s[..k] + s[k + 1..] + [s[k]]
  }

  ghost predicate Distinct(s: seq<Blk>) {
    forall i, j | 0 <= i < j < |s| :: s[i] != s[j]
  }

  /** CACHE_HASH, with the mask of the power-of-two table size written as a remainder. */
  function Hash(tag: nat, hsize: nat): (h: nat)
    requires hsize > 0
    ensures h < hsize
  {
    Xor(Xor(Xor(tag / 0x100_0000, tag / 0x1_0000), tag / 0x100), tag) % hsize
  }

  // ---------------------------------------------------------------- blocks and their links

  class Blk {
    var wayNext: Blk?
    var wayPrev: Blk?
    var hashNext: Blk?
    var tag: nat
    var valid: bool
    var dirty: bool
    var data: seq<Byte>
    ghost const home: nat

    constructor (bytes: seq<Byte>, ghost index: nat)
      ensures wayNext == wayPrev == hashNext == null && Line() == EMPTY_LINE.(data := bytes) && home == index
    {
      home := index;
      wayNext, wayPrev, hashNext := null, null, null;
      tag, valid, dirty, data := 0, false, false, bytes;
    }

    ghost function Line(): Line
      reads this`tag, this`valid, this`dirty, this`data
    {
      CacheSpec.Line(tag, valid, dirty, data)
    }
  }

  // ---------------------------------------------------------------- the data of a block

  lemma {:induction false} AcceptedFits(c: Config, r: Request)
    requires ValidConfig(c) && Accepted(c, r)
    ensures Offset(c, r.addr) + r.nbytes <= c.bsize
  {
    OffsetFits(c, r.addr, r.nbytes);
  }

  lemma {:induction false} InsideMemory(c: Config, size: nat, r: Request)
    requires ValidRequest(c, size, r)
    ensures ValidConfig(c) && Accepted(c, r) && Baddr(c, r.addr) + c.bsize <= size && r.victim < c.assoc
    ensures c.data && r.cmd.Write? ==> |r.bytes| == r.nbytes
  {
  }

  /** A line put in after the old one was moved is put in at once. */
  lemma {:induction false} PlacedOver(c: Config, ways: seq<Line>, k: nat, front: bool)
    requires k < |ways|
    ensures forall line {:trigger Placed(c, ways, k, line, front)} ::
              Placed(c, ways, k, line, front) == if front then ToFront(ways, k, ways[k])[0 := line] else ways[k := line]
  {
  }

  lemma {:induction false} LoadedIs(c: Config, mem: seq<Byte>, r: Request, bytes: seq<Byte>)
    requires ValidRequest(c, |mem|, r)
    requires bytes == if c.data then mem[Baddr(c, r.addr)..Baddr(c, r.addr) + c.bsize] else []
    ensures Offset(c, r.addr) + r.nbytes <= c.bsize
    ensures Loaded(c, mem, r) == Touched(c, r, CacheSpec.Line(Tag(c, r.addr), true, false, bytes))
  {
    OffsetFits(c, r.addr, r.nbytes);
  }

  lemma {:induction false} WholeWords(n: nat)
    requires PowerOfTwo(n) && n > 4
    ensures n % 4 == 0
  {
    var h := n / 2;
    assert n == 2 * h && PowerOfTwo(h) && h > 2;
    var q := h / 2;
    assert h == 2 * q && n == 4 * q;
  }

  /** CACHE_BCOPY on a read: a byte, half or word at once, or word by word. */
  method CopyOut(data: seq<Byte>, bofs: nat, nbytes: nat) returns (out: seq<Byte>)
    requires bofs + nbytes <= |data| && PowerOfTwo(nbytes)
    ensures out == data[bofs..bofs + nbytes]
  {
    if nbytes <= 4 {
      out := data[bofs..bofs + nbytes];
    } else {
      WholeWords(nbytes);
      out := [];
      var words := 0;
      while words < nbytes / 4
        invariant 0 <= words <= nbytes / 4 && out == data[bofs..bofs + 4 * words]
      {
        var at := bofs + 4 * words;
        out := out + data[at..at + 4];
        words := words + 1;
      }
    }
  }

  /** CACHE_BCOPY on a write. */
  method CopyIn(data: seq<Byte>, bofs: nat, bytes: seq<Byte>) returns (r: seq<Byte>)
    requires bofs + |bytes| <= |data| && PowerOfTwo(|bytes|)
    ensures r == Splice(data, bofs, bytes)
  {
    if |bytes| <= 4 {
      r := data[..bofs] + bytes + data[bofs + |bytes|..];
    } else {
      WholeWords(|bytes|);
      r := data;
      var words := 0;
      while words < |bytes| / 4
        invariant 0 <= words <= |bytes| / 4 && r == Splice(data, bofs, bytes[..4 * words])
      {
        var at := bofs + 4 * words;
        r := r[..at] + bytes[4 * words..4 * words + 4] + r[at + 4..];
        words := words + 1;
        assert r == Splice(data, bofs, bytes[..4 * words]);
      }
      assert bytes[..4 * words] == bytes;
    }
  }

  /** What a read copies out of a block. */
  function CopiedOut(c: Config, r: Request, line: Line): seq<Byte>
    requires ValidConfig(c)
  {
    var at := Offset(c, r.addr);
    if c.data && r.cmd.Read? && at + r.nbytes <= |line.data| then line.data[at..at + r.nbytes] else []
  }

  /** The data and dirty-bit part of an access, the same for hits and misses. */
  method Touch(c: Config, r: Request, blk: Blk) returns (out: seq<Byte>)
    requires ValidConfig(c) && Accepted(c, r) && (c.data ==> |blk.data| == c.bsize)
    requires c.data && r.cmd.Write? ==> |r.bytes| == r.nbytes
    modifies blk`data, blk`dirty
    ensures Offset(c, r.addr) + r.nbytes <= c.bsize
    ensures blk.Line() == Touched(c, r, old(blk.Line()))
    ensures out == CopiedOut(c, r, blk.Line())
  {
    out := [];
    OffsetFits(c, r.addr, r.nbytes);
    if c.data {
      if r.cmd.Read? {
        out := CopyOut(blk.data, Offset(c, r.addr), r.nbytes);
      } else {
        var data := CopyIn(blk.data, Offset(c, r.addr), r.bytes);
        blk.data := data;
      }
    }
    if r.cmd.Write? {
      blk.dirty := true;
    }
  }

  /** The next level's part of a write-back: a valid dirty block goes to its address. */
  method WriteBack(c: Config, i: nat, blk: Blk, mem: seq<Byte>) returns (mem': seq<Byte>)
    requires c.data && blk.valid ==> MkBaddr(c, blk.tag, i) + |blk.data| <= |mem|
    ensures mem' == WrittenBack(c, mem, blk.Line(), i) && |mem'| == |mem|
  {
    mem' := mem;
    if blk.valid && blk.dirty && c.data {
      var b := MkBaddr(c, blk.tag, i);
      mem' := mem[..b] + blk.data + mem[b + |blk.data|..];
    }
  }

  // ---------------------------------------------------------------- lists

  /** The block at position `i`, or null past either end. */
  function At(s: seq<Blk>, i: int): Blk? {
    if 0 <= i < |s| then s[i] else null
  }

  /** `order` is a doubly linked list from `head` to `tail`. */
  ghost predicate WayList(order: seq<Blk>, head: Blk?, tail: Blk?)
    reads order`wayNext, order`wayPrev
  {
    && |order| > 0 && Distinct(order) && head == order[0] && tail == order[|order| - 1]
    && (forall i {:trigger order[i].wayNext} | 0 <= i < |order| :: order[i].wayNext == At(order, i + 1))
    && (forall i {:trigger order[i].wayPrev} | 0 <= i < |order| :: order[i].wayPrev == At(order, i - 1))
  }

  /** `chain` is a singly linked list from `first`. */
  ghost predicate Chain(chain: seq<Blk>, first: Blk?)
    reads chain`hashNext
  {
    && Distinct(chain) && first == At(chain, 0)
    && forall i {:trigger chain[i].hashNext} | 0 <= i < |chain| :: chain[i].hashNext == At(chain, i + 1)
  }

  /** The blocks as the specification has them. */
  ghost function Lines(order: seq<Blk>): (ways: seq<Line>)
    reads order`tag, order`valid, order`dirty, order`data
    ensures |ways| == |order|
    ensures forall i {:trigger ways[i]} | 0 <= i < |order| :: ways[i] == order[i].Line()
  {
    if order == [] then [] else Lines(order[..|order| - 1]) + [order[|order| - 1].Line()]
  }

  /** `order` lists exactly the blocks of `blks`, each once. */
  ghost predicate Lists(order: seq<Blk>, blks: seq<Blk>) {
    && |order| == |blks| && Distinct(blks) && Distinct(order)
    && (forall i {:trigger order[i]} | 0 <= i < |order| :: order[i] in blks)
    && (forall b <- blks :: b in order)
  }

  datatype Where = Head | Tail

  function Moved(order: seq<Blk>, k: nat, end: Where): seq<Blk>
    requires k < |order|
  {
    if end.Head? then Front(order, k) else Back(order, k)
  }

  lemma {:induction false} MovedLists(order: seq<Blk>, blks: seq<Blk>, k: nat, end: Where)
    requires Lists(order, blks) && k < |order|
    ensures Lists(Moved(order, k, end), blks)
  {
    var m := Moved(order, k, end);
    assert Distinct(m);
    forall x <- blks ensures x in m {
      Reordered(order, k, x);
    }
  }

  lemma {:induction false} Reordered(order: seq<Blk>, k: nat, x: Blk)
    requires x in order && k < |order|
    ensures x in Front(order, k) && x in Back(order, k)
  {
    var i :| 0 <= i < |order| && order[i] == x;
    assert Front(order, k)[if i == k then 0 else if i < k then i + 1 else i] == x;
    assert Back(order, k)[if i == k then |order| - 1 else if i < k then i else i - 1] == x;
  }

  lemma {:induction false} Members(order: seq<Blk>, blks: seq<Blk>)
    requires Lists(order, blks)
    ensures forall i {:trigger order[i]} | 0 <= i < |order| :: order[i] in blks
  {
  }

  lemma {:induction false} MemberAt(order: seq<Blk>, blks: seq<Blk>, k: nat)
    requires Lists(order, blks) && k < |order|
    ensures order[k] in blks
  {
  }

  lemma {:induction false} OthersKept(order: seq<Blk>, blks: seq<Blk>, k: nat)
    requires Lists(order, blks) && k < |order|
    ensures forall j {:trigger order[j]} | 0 <= j < |order| && j != k :: order[j] != order[k]
  {
  }

  /** Moving an element is taking it out and putting it back at an end. */
  lemma {:induction false} MovedOut(order: seq<Blk>, blks: seq<Blk>, k: nat, end: Where)
    requires Lists(order, blks) && k < |order|
    ensures Moved(order, k, end) == if end.Head? then [order[k]] + Rest(order, k) else Rest(order, k) + [order[k]]
    ensures order[k] !in Rest(order, k)
    ensures k == (if end.Head? then 0 else |order| - 1) ==> Moved(order, k, end) == order
    ensures forall i {:trigger Rest(order, k)[i]} | 0 <= i < |order| - 1 :: Rest(order, k)[i] in blks
  {
    hide Lists, Distinct;
    MovedIs(order, k, end);
    OthersKept(order, blks, k);
    Members(order, blks);
  }

  lemma {:induction false} MovedIs(order: seq<Blk>, k: nat, end: Where)
    requires k < |order|
    ensures Moved(order, k, end) == if end.Head? then [order[k]] + Rest(order, k) else Rest(order, k) + [order[k]]
    ensures k == (if end.Head? then 0 else |order| - 1) ==> Moved(order, k, end) == order
  {
  }

  /** Only the ends of a list have no neighbour. */
  lemma {:induction false} Ends(order: seq<Blk>, head: Blk?, tail: Blk?, k: nat)
    requires WayList(order, head, tail) && k < |order|
    ensures order[k].wayPrev == null <==> k == 0
    ensures order[k].wayNext == null <==> k == |order| - 1
  {
  }

  /** Splits a list at an element: the rest is what stays when the element is unlinked. */
  function Rest(s: seq<Blk>, k: nat): (r: seq<Blk>)
    requires k < |s|
    ensures |r| == |s| - 1
    ensures forall j {:trigger r[j]} | 0 <= j < |r| :: r[j] == if j < k then s[j] else s[j + 1]
  {
    s[..k] + s[k + 1..]
  }

  /** Taking a block out of a way list of at least two. */
  method UnlinkWay(ghost order: seq<Blk>, head: Blk?, tail: Blk?, blk: Blk, ghost k: nat)
      returns (head': Blk?, tail': Blk?)
    requires WayList(order, head, tail) && |order| > 1 && k < |order| && order[k] == blk
    modifies order`wayNext, order`wayPrev
    ensures WayList(Rest(order, k), head', tail')
  {
    head', tail' := head, tail;
    assert Distinct(Rest(order, k));
    if blk.wayPrev == null {
      head' := blk.wayNext;
      blk.wayNext.wayPrev := null;
    } else if blk.wayNext == null {
      tail' := blk.wayPrev;
      blk.wayPrev.wayNext := null;
    } else {
      blk.wayPrev.wayNext := blk.wayNext;
      blk.wayNext.wayPrev := blk.wayPrev;
    }
  }

  method LinkHead(ghost rest: seq<Blk>, head: Blk?, ghost tail: Blk?, blk: Blk)
    requires WayList(rest, head, tail) && blk !in rest
    modifies rest`wayPrev, blk`wayPrev, blk`wayNext
    ensures WayList([blk] + rest, blk, tail)
  {
    blk.wayNext := head;
    blk.wayPrev := null;
    head.wayPrev := blk;
    ghost var order := [blk] + rest;
    assert forall i | 0 < i < |order| :: order[i] == rest[i - 1];
  }

  method LinkTail(ghost rest: seq<Blk>, ghost head: Blk?, tail: Blk?, blk: Blk)
    requires WayList(rest, head, tail) && blk !in rest
    modifies rest`wayNext, blk`wayPrev, blk`wayNext
    ensures WayList(rest + [blk], head, blk)
  {
    blk.wayPrev := tail;
    blk.wayNext := null;
    tail.wayNext := blk;
    ghost var order := rest + [blk];
    assert forall i | 0 <= i < |rest| :: order[i] == rest[i];
  }

  /** Walks a bucket chain to a block and takes it out. */
  method UnlinkChain(ghost chain: seq<Blk>, first: Blk?, blk: Blk, ghost k: nat) returns (first': Blk?)
    requires Chain(chain, first) && k < |chain| && chain[k] == blk
    modifies chain`hashNext
    ensures Chain(Rest(chain, k), first')
  {
    first' := first;
    var prev: Blk?, ent := null, first;
    ghost var j := 0;
    while ent != blk
      invariant 0 <= j <= k && ent == chain[j] && prev == At(chain, j - 1)
      decreases k - j
    {
      prev, ent := ent, ent.hashNext;
      j := j + 1;
    }
    assert j == k;
    if prev == null {
      first' := ent.hashNext;
    } else {
      prev.hashNext := ent.hashNext;
    }
    ent.hashNext := null;
  }

  lemma {:induction false} OneMore(order: seq<Blk>, bs: seq<Blk>, j: nat)
    requires j < |bs| && Distinct(bs) && Lists(order, bs[..j])
    ensures bs[j] !in order && Lists([bs[j]] + order, bs[..j + 1])
  {
    var o := [bs[j]] + order;
    assert o[0] == bs[j];
    assert forall i | 0 < i < |o| :: o[i] == order[i - 1];
    forall b <- bs[..j + 1] ensures b in o {
      if b != bs[j] {
        assert b in bs[..j];
        var i :| 0 <= i < |order| && order[i] == b;
        assert o[i + 1] == b;
      }
    }
  }

  lemma {:induction false} SingleList(order: seq<Blk>, blk: Blk)
    requires order == [] && blk.wayNext == blk.wayPrev == null
    ensures WayList([blk] + order, blk, blk)
  {
  }

  /** Moving a block moves its line. */
  lemma {:induction false} MovedLines(was: seq<Blk>, ways: seq<Line>, k: nat, end: Where)
    requires |was| == |ways| && k < |was| && forall j {:trigger was[j]} {:trigger ways[j]} | 0 <= j < |was| ::
             was[j].Line() == ways[j]
    ensures |Moved(was, k, end)| == |was|
    ensures Lines(Moved(was, k, end)) == if end.Head? then ToFront(ways, k, ways[k]) else ToTail(ways, k, ways[k])
  {
  }

  // ---------------------------------------------------------------- the buckets

  /** Each block but `out` is in the bucket of its tag, and no bucket holds anything else. */
  ghost predicate InPlace(chains: seq<seq<Blk>>, blks: seq<Blk>, hsize: nat, out: Blk?)
    requires hsize > 0
    reads blks`tag
  {
    && |chains| == hsize
    && (forall h, j {:trigger chains[h][j]} | 0 <= h < hsize && 0 <= j < |chains[h]| ::
          chains[h][j] in blks && chains[h][j] != out && Hash(chains[h][j].tag, hsize) == h)
    && (forall b <- blks :: b != out ==> b in chains[Hash(b.tag, hsize)])
  }

  lemma {:induction false} OneOut(chains: seq<seq<Blk>>, bs: seq<Blk>, hsize: nat, j: nat)
    requires hsize > 0 && j < |bs| && Distinct(bs) && InPlace(chains, bs[..j], hsize, null)
    ensures InPlace(chains, bs[..j + 1], hsize, bs[j])
  {
    hide Hash;
    assert forall i | 0 <= i < j :: bs[..j + 1][i] == bs[..j][i] == bs[i];
    assert bs[j] !in bs[..j];
    assert forall b <- bs[..j + 1] :: b == bs[j] || b in bs[..j];
    assert forall b <- bs[..j] :: b in bs[..j + 1];
  }

  /** Taking a block out of its bucket. */
  lemma {:induction false} TakeOut(chains: seq<seq<Blk>>, blks: seq<Blk>, hsize: nat, h: nat, k: nat)
    requires hsize > 0 && InPlace(chains, blks, hsize, null) && h < hsize && k < |chains[h]| && Distinct(chains[h])
    ensures InPlace(chains[h := Rest(chains[h], k)], blks, hsize, chains[h][k])
  {
    hide Hash;
    var blk, chains' := chains[h][k], chains[h := Rest(chains[h], k)];
    forall b <- blks | b != blk ensures b in chains'[Hash(b.tag, hsize)] {
      if Hash(b.tag, hsize) == h {
        var i :| 0 <= i < |chains[h]| && chains[h][i] == b;
        assert chains'[h][if i < k then i else i - 1] == b;
      }
    }
  }

  lemma {:induction false} PutIn(chains: seq<seq<Blk>>, blks: seq<Blk>, hsize: nat, blk: Blk)
    requires hsize > 0 && InPlace(chains, blks, hsize, blk) && blk in blks
    ensures var h := Hash(blk.tag, hsize);
      InPlace(chains[h := [blk] + chains[h]], blks, hsize, null)
  {
    hide Hash;
    var h := Hash(blk.tag, hsize);
    var chains' := chains[h := [blk] + chains[h]];
    assert chains'[h][0] == blk;
    forall b <- blks ensures b in chains'[Hash(b.tag, hsize)] {
      if Hash(b.tag, hsize) == h && b != blk {
        var i :| 0 <= i < |chains[h]| && chains[h][i] == b;
        assert chains'[h][i + 1] == b;
      }
    }
  }

  /** Where a block stands in its bucket. */
  lemma {:induction false} InBucket(chains: seq<seq<Blk>>, blks: seq<Blk>, hash: array<Blk?>, h: nat, blk: Blk)
      returns (k: nat)
    requires hash.Length > 0 && InPlace(chains, blks, hash.Length, null) && blk in blks
             && h == Hash(blk.tag, hash.Length)
    requires forall h {:trigger chains[h]} | 0 <= h < |chains| :: Chain(chains[h], hash[h])
    ensures |chains| == hash.Length && k < |chains[h]| && chains[h][k] == blk
    ensures Chain(chains[h], hash[h]) && Distinct(chains[h])
    ensures forall j {:trigger chains[h][j]} | 0 <= j < |chains[h]| :: chains[h][j] in blks
  {
    hide Hash;
    k :| 0 <= k < |chains[h]| && chains[h][k] == blk;
  }

  /** Buckets share no block. */
  lemma {:induction false} BucketsApart(chains: seq<seq<Blk>>, blks: seq<Blk>, hsize: nat, out: Blk?, h: nat)
    requires hsize > 0 && InPlace(chains, blks, hsize, out) && h < hsize
    ensures forall g, j {:trigger chains[g][j]} | 0 <= g < hsize && g != h && 0 <= j < |chains[g]| ::
            chains[g][j] !in chains[h]
  {
    hide Hash;
  }

  /** Inserts a block at the head of the bucket chain of its tag. */
  method LinkBucket(hash: array<Blk?>, ghost chains: seq<seq<Blk>>, ghost blks: seq<Blk>, blk: Blk)
      returns (ghost chains': seq<seq<Blk>>)
    requires hash.Length > 0 && InPlace(chains, blks, hash.Length, blk) && blk in blks
    requires forall h {:trigger chains[h]} | 0 <= h < |chains| :: Chain(chains[h], hash[h])
    modifies hash, blk`hashNext
    ensures InPlace(chains', blks, hash.Length, null) && |chains'| == hash.Length
    ensures forall h {:trigger chains'[h]} | 0 <= h < |chains'| :: Chain(chains'[h], hash[h])
  {
    hide Hash;
    var index := Hash(blk.tag, hash.Length);
    PutIn(chains, blks, hash.Length, blk);
    blk.hashNext := hash[index];
    hash[index] := blk;
    chains' := chains[index := [blk] + chains[index]];
  }

  /** The first block of a bucket chain that is valid and has the tag. */
  method Walk(ghost chain: seq<Blk>, first: Blk?, tag: nat) returns (blk: Blk?)
    requires Chain(chain, first)
    ensures blk == null ==> forall b <- chain :: !(b.valid && b.tag == tag)
    ensures blk != null ==> blk in chain && blk.valid && blk.tag == tag
  {
    blk := first;
    ghost var j := 0;
    while blk != null && !(blk.tag == tag && blk.valid)
      invariant 0 <= j <= |chain| && blk == At(chain, j)
      invariant forall i {:trigger chain[i]} | 0 <= i < j :: !(chain[i].valid && chain[i].tag == tag)
      decreases |chain| - j
    {
      blk := blk.hashNext;
      j := j + 1;
    }
  }

  /** Each block goes to the head of its bucket. */
  method LinkBuckets(bs: seq<Blk>, hash: array<Blk?>) returns (ghost chains: seq<seq<Blk>>)
    requires Distinct(bs) && forall h | 0 <= h < hash.Length :: hash[h] == null
    modifies bs`hashNext, hash
    ensures hash.Length > 0 ==> InPlace(chains, bs, hash.Length, null)
    ensures forall h {:trigger chains[h]} | 0 <= h < |chains| :: |chains| == hash.Length && Chain(chains[h], hash[h])
  {
    chains := seq(hash.Length, _ => []);
    assert hash.Length > 0 ==> InPlace(chains, bs[..0], hash.Length, null);
    hide Hash, InPlace, Distinct;
    var j := 0;
    while j < |bs| && hash.Length > 0
      invariant 0 <= j <= |bs| && |chains| == hash.Length
      invariant hash.Length > 0 ==> InPlace(chains, bs[..j], hash.Length, null)
      invariant forall h {:trigger chains[h]} | 0 <= h < |chains| :: Chain(chains[h], hash[h])
    {
      OneOut(chains, bs, hash.Length, j);
      chains := LinkBucket(hash, chains, bs[..j + 1], bs[j]);
      j := j + 1;
    }
    assert j == |bs| ==> bs[..j] == bs;
  }

  /** Each block goes to the head of the way list. */
  method LinkWays(bs: seq<Blk>) returns (head: Blk?, tail: Blk?, ghost order: seq<Blk>)
    requires |bs| > 0 && Distinct(bs)
    modifies bs`wayNext, bs`wayPrev
    ensures Lists(order, bs) && WayList(order, head, tail)
  {
    order, head, tail := [], null, null;
    assert Lists(order, bs[..0]);
    hide Lists, Distinct, WayList;
    var j := 0;
    while j < |bs|
      invariant 0 <= j <= |bs| && |order| == j
      invariant forall i {:trigger order[i]} | 0 <= i < j :: order[i] in bs
      invariant if j > 0 then WayList(order, head, tail) else head == null
      invariant Lists(order, bs[..j])
    {
      var blk := bs[j];
      OneMore(order, bs, j);
      if head == null {
        blk.wayNext, blk.wayPrev := null, null;
        tail := blk;
        SingleList(order, blk);
      } else {
        LinkHead(order, head, tail, blk);
      }
      head := blk;
      order := [blk] + order;
      j := j + 1;
    }
    assert bs[..j] == bs;
  }

  // ---------------------------------------------------------------- the set

  class CacheSet {
    const blks: seq<Blk>
    const hash: array<Blk?>
    var wayHead: Blk?
    var wayTail: Blk?
    ghost var order: seq<Blk>
    ghost var chains: seq<seq<Blk>>

    /** The way list holds exactly the blocks of the set, each once. */
    ghost predicate Ordered()
      reads this`order, this`wayHead, this`wayTail, blks`wayNext, blks`wayPrev
    {
      && Lists(order, blks)
      && WayList(order, wayHead, wayTail)
    }

    /** The buckets are linked lists, and hold the blocks as they should. */
    ghost predicate Hashed(out: Blk?)
      reads this`chains, hash, blks`hashNext, blks`tag
    {
      hash.Length > 0 ==>
        && InPlace(chains, blks, hash.Length, out)
        && (forall h {:trigger chains[h]} | 0 <= h < |chains| :: Chain(chains[h], hash[h]))
    }

    ghost predicate Valid()
      reads this, hash, blks
    {
      Ordered() && Hashed(null)
    }

    ghost function Ways(): (ways: seq<Line>)
      requires Ordered()
      reads this`order, this`wayHead, this`wayTail, blks`wayNext, blks`wayPrev, blks`tag, blks`valid, blks`dirty,
            blks`data
      ensures |ways| == |blks|
      ensures forall j {:trigger ways[j]} | 0 <= j < |order| :: ways[j] == order[j].Line()
    {
      Lines(order)
    }

    /** The linking loop of cache_create over the blocks of one set. */
    constructor (bs: seq<Blk>, table: array<Blk?>)
      requires |bs| > 0 && Distinct(bs) && forall j | 0 <= j < table.Length :: table[j] == null
      modifies bs`wayNext, bs`wayPrev, bs`hashNext, table
      ensures blks == bs && hash == table && Valid()
    {
      blks, hash := bs, table;
      order, chains := [], [];
      wayHead, wayTail := null, null;
      new;
      hide Hash, InPlace, Distinct, Lists, WayList, Chain;
      chains := LinkBuckets(bs, table);
      wayHead, wayTail, order := LinkWays(bs);
    }

    // -------------------------------------------------------------- the way list

    /** update_way_list: moves the block to an end of the way list. */
    method UpdateWayList(blk: Blk, end: Where, ghost k: nat)
      requires Ordered() && k < |order| && order[k] == blk
      modifies this`order, this`wayHead, this`wayTail, blks`wayNext, blks`wayPrev
      ensures Ordered()
      ensures order == Moved(old(order), k, end)
    {
      hide Lists, WayList, Distinct, Moved;
      ghost var order' := Moved(order, k, end);
      MovedLists(order, blks, k, end);
      MovedOut(order, blks, k, end);
      Ends(order, wayHead, wayTail, k);
      if (blk.wayPrev == null && end.Head?) || (blk.wayNext == null && end.Tail?) {
        return;
      }
      ghost var rest := Rest(order, k);
      Members(order, blks);
      wayHead, wayTail := UnlinkWay(order, wayHead, wayTail, blk, k);
      if end.Head? {
        LinkHead(rest, wayHead, wayTail, blk);
        wayHead := blk;
      } else {
        LinkTail(rest, wayHead, wayTail, blk);
        wayTail := blk;
      }
      order := order';
    }

    // -------------------------------------------------------------- the hash table

    /** unlink_htab_ent */
    method UnlinkHtabEnt(blk: Blk)
      requires Hashed(null) && hash.Length > 0 && blk in blks
      modifies this`chains, hash, blks`hashNext
      ensures Hashed(blk)
    {
      hide Hash, InPlace, Chain;
      var index := Hash(blk.tag, hash.Length);
      ghost var k := InBucket(chains, blks, hash, index, blk);
      ghost var chain := chains[index];
      TakeOut(chains, blks, hash.Length, index, k);
      BucketsApart(chains, blks, hash.Length, null, index);
      var first := UnlinkChain(chain, hash[index], blk, k);
      hash[index] := first;
      chains := chains[index := Rest(chain, k)];
    }

    /** link_htab_ent */
    method LinkHtabEnt(blk: Blk)
      requires Hashed(blk) && hash.Length > 0 && blk in blks
      modifies this`chains, hash, blk`hashNext
      ensures Hashed(null)
    {
      chains := LinkBucket(hash, chains, blks, blk);
    }

    // -------------------------------------------------------------- hits

    /** Moving a block moves its line. */
    method Promote(blk: Blk, end: Where, ghost k: nat)
      requires Valid() && k < |order| && order[k] == blk
      modifies this`order, this`wayHead, this`wayTail, blks`wayNext, blks`wayPrev
      ensures Valid() && order == Moved(old(order), k, end)
      ensures k < |old(Ways())|
      ensures Ways() == if end.Head? then ToFront(old(Ways()), k, old(Ways()[k]))
              else ToTail(old(Ways()), k, old(Ways()[k]))
    {
      hide InPlace, Chain, WayList, Lists, Distinct, Moved, Lines, ToFront, ToTail;
      ghost var was, ways := order, Ways();
      Ends(order, wayHead, wayTail, k);
      MovedIs(order, k, Head);
      if end.Tail? || blk.wayPrev != null {
        UpdateWayList(blk, end, k);
      }
      MovedLines(was, ways, k, end);
    }

    /** A found block: its data and dirty bit, and under LRU its place in the way list. */
    method Hit(c: Config, r: Request, blk: Blk, ghost ways: seq<Line>, ghost k: nat) returns (out: seq<Byte>)
      requires Valid() && ways == Ways() && k < |order| && order[k] == blk
      requires ValidConfig(c) && Accepted(c, r) && (c.data ==> |ways[k].data| == c.bsize)
      requires c.data && r.cmd.Write? ==> |r.bytes| == r.nbytes
      modifies this`order, this`wayHead, this`wayTail, blks`wayNext, blks`wayPrev, blk`data, blk`dirty
      ensures Valid() && Offset(c, r.addr) + r.nbytes <= c.bsize
      ensures Ways() == Placed(c, ways, k, Touched(c, r, ways[k]), c.policy.LRU?)
      ensures if c.policy.LRU? then wayHead == blk else order == old(order)
      ensures out == CopiedOut(c, r, Touched(c, r, ways[k]))
    {
      OffsetFits(c, r.addr, r.nbytes);
      hide Offset, Accepted, CopiedOut, Chain, InPlace;
      ghost var line := Touched(c, r, ways[k]);
      out := Touch(c, r, blk);
      assert Ways() == ways[k := line];
      hide Lists, Touched;
      if c.policy.LRU? {
        assert ToFront(ways[k := line], k, line) == ToFront(ways, k, line);
        Promote(blk, Head, k);
      }
    }

    /** The block hit last: its data and dirty bit, and no change in the way list. */
    method FastHit(c: Config, r: Request, blk: Blk, ghost ways: seq<Line>, ghost k: nat) returns (out: seq<Byte>)
      requires Valid() && ways == Ways() && k < |order| && order[k] == blk
      requires ValidConfig(c) && Accepted(c, r) && (c.data ==> |ways[k].data| == c.bsize)
      requires c.data && r.cmd.Write? ==> |r.bytes| == r.nbytes
      modifies blk`data, blk`dirty
      ensures Valid() && Offset(c, r.addr) + r.nbytes <= c.bsize
      ensures Ways() == ways[k := Touched(c, r, ways[k])]
      ensures out == CopiedOut(c, r, Touched(c, r, ways[k]))
    {
      hide Offset, Accepted, CopiedOut, Chain, InPlace, WayList;
      out := Touch(c, r, blk);
    }

    // -------------------------------------------------------------- replacement

    /** The way-list position of the block to replace: the last, or that of the block drawn at random. */
    ghost function VictimAt(policy: Policy, pick: nat): (k: nat)
      requires Ordered() && pick < |blks|
      reads this, blks
      ensures k < |order|
    {
      if policy.Random? then PosOf(order, blks[pick]) else |order| - 1
    }

    /** Picks the block to replace, re-links it in the way list and takes it out of its bucket. */
    method TakeVictim(policy: Policy, pick: nat, ghost ways: seq<Line>, ghost k: nat) returns (repl: Blk, ghost p: nat)
      requires Valid() && pick < |blks| && ways == Ways() && k == VictimAt(policy, pick) < |ways|
      modifies this, hash, blks`wayNext, blks`wayPrev, blks`hashNext
      ensures Ordered() && Hashed(repl) && repl in blks
      ensures p < |order| && order[p] == repl && p == if policy.Random? then k else 0
      ensures Ways() == if policy.Random? then ways else ToFront(ways, k, ways[k])
      ensures policy.Random? ==> order == old(order)
      ensures repl.Line() == ways[k] == Ways()[p]
    {
      hide InPlace, Chain, WayList, Lists, Ways, Lines, Moved;
      VictimStands(policy, pick, k);
      p := if policy.Random? then k else 0;
      if policy.Random? {
        repl := blks[pick];
      } else {
        repl := wayTail;
        Promote(repl, Head, k);
      }
      if hash.Length > 0 {
        UnlinkHtabEnt(repl);
      }
      LineOf(p);
    }

    lemma {:induction false} VictimStands(policy: Policy, pick: nat, k: nat)
      requires Ordered() && pick < |blks| && k == VictimAt(policy, pick)
      ensures k < |order| && order[k] in blks && order[k] == (if policy.Random? then blks[pick] else wayTail)
      ensures Moved(order, k, Head)[0] == order[k] && |Moved(order, k, Head)| == |order|
      ensures Ways()[k] == order[k].Line() && |Ways()| == |order|
    {
      MemberAt(order, blks, k);
    }

    lemma {:induction false} LineOf(p: nat)
      requires Ordered() && p < |order|
      ensures |Ways()| == |order| && Ways()[p] == order[p].Line()
    {
    }

    /** The replaced block takes the new tag and the block read from memory, clean. */
    method Load(repl: Blk, tag: nat, bytes: seq<Byte>)
      requires Ordered() && Hashed(repl)
      modifies repl`tag, repl`valid, repl`dirty, repl`data
      ensures Ordered() && Hashed(repl) && repl.Line() == CacheSpec.Line(tag, true, false, bytes)
    {
      hide Hash, Chain, Lists, WayList;
      repl.tag := tag;
      repl.valid, repl.dirty, repl.data := true, false, bytes;
    }

    /** The new block takes over the replaced one and goes into its bucket. */
    method Refill(c: Config, r: Request, repl: Blk, bytes: seq<Byte>, ghost ways: seq<Line>, ghost p: nat)
        returns (out: seq<Byte>)
      requires Ordered() && Hashed(repl) && repl in blks && p < |order| && order[p] == repl && ways == Ways()
      requires ValidConfig(c) && Accepted(c, r) && (c.data ==> |bytes| == c.bsize)
      requires c.data && r.cmd.Write? ==> |r.bytes| == r.nbytes
      modifies this`chains, hash, repl`hashNext, repl`tag, repl`valid, repl`dirty, repl`data
      ensures Valid() && Offset(c, r.addr) + r.nbytes <= c.bsize && (c.data ==> |repl.data| == c.bsize)
      ensures repl.Line() == Touched(c, r, CacheSpec.Line(Tag(c, r.addr), true, false, bytes))
      ensures Ways() == ways[p := repl.Line()]
      ensures out == CopiedOut(c, r, repl.Line())
    {
      hide InPlace, Chain, WayList, Lists, Offset, Tag, Block, Accepted, CopiedOut;
      AcceptedFits(c, r);
      Load(repl, Tag(c, r.addr), bytes);
      out := Touch(c, r, repl);
      OthersKept(order, blks, p);
      assert Ways() == ways[p := repl.Line()];
      if hash.Length > 0 {
        LinkHtabEnt(repl);
      }
    }

    /** The whole replacement: pick, unlink, write back if valid and dirty, read the new block, touch and
        re-link.  `mem` is the next level, which the block access function reads and writes. */
    method Replace(c: Config, i: nat, r: Request, mem: seq<Byte>, ghost ways: seq<Line>, ghost v: nat)
      returns (mem': seq<Byte>, evicted: bool, wrote: bool, out: seq<Byte>)
      requires Valid() && |blks| == c.assoc && ValidRequest(c, |mem|, r)
      requires ways == Ways() && v == VictimAt(c.policy, r.victim) && v < |ways|
      requires c.data && ways[v].valid ==> MkBaddr(c, ways[v].tag, i) + |ways[v].data| <= |mem|
      modifies this, hash, blks
      ensures Valid() && |mem'| == |mem|
      ensures mem' == WrittenBack(c, mem, ways[v], i)
      ensures Ways() == Placed(c, ways, v, Loaded(c, mem', r), !c.policy.Random?)
      ensures evicted == ways[v].valid && wrote == (ways[v].valid && ways[v].dirty)
      ensures c.policy.Random? ==> order == old(order)
      ensures out == CopiedOut(c, r, Loaded(c, mem', r))
    {
      hide Ordered, Hashed, Valid, VictimAt, Ways, Touched, Loaded, WrittenBack, CopiedOut;
      hide Baddr, Offset, Tag, Block, MkBaddr, Accepted, ValidRequest, Placed;
      InsideMemory(c, |mem|, r);
      PlacedOver(c, ways, v, !c.policy.Random?);
      var repl; ghost var p;
      repl, p := TakeVictim(c.policy, r.victim, ways, v);
      evicted, wrote := repl.valid, repl.valid && repl.dirty;
      mem' := WriteBack(c, i, repl, mem);
      var b := Baddr(c, r.addr);
      var bytes := if c.data then mem'[b..b + c.bsize] else [];
      LoadedIs(c, mem', r, bytes);
      out := Refill(c, r, repl, bytes, Ways(), p);
      assert repl.Line() == Loaded(c, mem', r);
    }

    // -------------------------------------------------------------- invalidation

    /** Invalidates a valid block where it stands, after writing it back if it is dirty. */
    method Invalidate(c: Config, i: nat, blk: Blk, mem: seq<Byte>, ghost ways: seq<Line>, ghost k: nat)
        returns (mem': seq<Byte>)
      requires Valid() && ways == Ways() && k < |order| && order[k] == blk && blk.valid
      requires c.data ==> MkBaddr(c, blk.tag, i) + |blk.data| <= |mem|
      modifies blk`valid
      ensures Valid() && |mem'| == |mem| && mem' == WrittenBack(c, mem, ways[k], i)
      ensures Ways() == ways[k := ways[k].(valid := false)]
    {
      hide MkBaddr, WrittenBack, Chain, InPlace, WayList;
      mem' := WriteBack(c, i, blk, mem);
      blk.valid := false;
    }

    /** The part of cache_flush_addr that follows the search: such a block also goes to the tail. */
    method InvalidateToTail(c: Config, i: nat, blk: Blk, mem: seq<Byte>, ghost ways: seq<Line>, ghost k: nat)
        returns (mem': seq<Byte>)
      requires Valid() && ways == Ways() && k < |order| && order[k] == blk && blk.valid
      requires c.data ==> MkBaddr(c, blk.tag, i) + |blk.data| <= |mem|
      modifies this`order, this`wayHead, this`wayTail, blks`wayNext, blks`wayPrev, blk`valid
      ensures Valid() && |mem'| == |mem| && mem' == WrittenBack(c, mem, ways[k], i)
      ensures Ways() == ToTail(ways, k, ways[k].(valid := false))
    {
      hide MkBaddr, WrittenBack, Chain, InPlace, WayList, Lists, Moved;
      mem' := Invalidate(c, i, blk, mem, ways, k);
      ghost var line := ways[k].(valid := false);
      assert ToTail(ways[k := line], k, line) == ToTail(ways, k, line);
      Promote(blk, Tail, k);
    }

    // -------------------------------------------------------------- lookup

    /** The search of cache_access, cache_probe and cache_flush_addr: through the bucket chain of the tag
        when there is a hash table, along the way list otherwise. */
    method FindBlk(tag: nat) returns (blk: Blk?)
      requires Valid()
      ensures blk == null ==> forall b <- blks :: !(b.valid && b.tag == tag)
      ensures blk != null ==> blk in blks && blk.valid && blk.tag == tag
    {
      if hash.Length > 0 {
        blk := Walk(chains[Hash(tag, hash.Length)], hash[Hash(tag, hash.Length)], tag);
      } else {
        blk := wayHead;
        ghost var j := 0;
        while blk != null && !(blk.tag == tag && blk.valid)
          invariant 0 <= j <= |order| && blk == At(order, j)
          invariant forall i {:trigger order[i]} | 0 <= i < j :: !(order[i].valid && order[i].tag == tag)
          decreases |order| - j
        {
          blk := blk.wayNext;
          j := j + 1;
        }
      }
    }
  }
}
