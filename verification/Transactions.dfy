/** The memory side of the system-call records of lab3/eio.c, as values: blobs of bytes that coalesce, and
    what checking and writing them does to a flat memory. */
module Transactions {
  import opened PageTable
  import opened Wrappers

  /** A flat memory of all 32-bit addresses. */
  type Flat = m: seq<Byte> | |m| == SPACE witness seq(SPACE, _ => 0)

  /** BLOB_TAIL_SIZE: the room that a new blob has beyond its first bytes. */
  const BLOB_TAIL_SIZE := 256

  datatype Blob = Blob(addr: nat, data: seq<Byte>, maxsize: nat)

  // ---------------------------------------------------------------- bytes of a flat memory

  ghost function Get(m: Flat, addr: nat, n: nat): (r: seq<Byte>)
    ensures |r| == n && forall i {:trigger r[i]} | 0 <= i < n :: r[i] == m[Wrap(addr + i)]
  {
    seq(n, i requires 0 <= i < n => m[Wrap(addr + i)])
  }

  ghost function Put(m: Flat, addr: nat, data: seq<Byte>): (r: Flat)
    requires addr < SPACE
    ensures forall a {:trigger r[a]} | 0 <= a < SPACE ::
            r[a] == if Dist(addr, a) < |data| then data[Dist(addr, a)] else m[a]
  {
    seq(SPACE, a requires 0 <= a < SPACE => if Dist(addr, a) < |data| then data[Dist(addr, a)] else m[a])
  }

  lemma {:induction false} DistSplit(addr: nat, n: nat, a: nat)
    requires addr < SPACE && n <= SPACE && a < SPACE
    ensures var d, e := Dist(addr, a), Dist(Wrap(addr + n), a);
      if d < n then e >= SPACE - n else e == d - n
    ensures n == SPACE ==> Wrap(addr + n) == addr
  {
  }

  /** Two runs of bytes one after the other are one run, round the end of the space. */
  lemma {:induction false} PutTwice(m: Flat, addr: nat, x: seq<Byte>, y: seq<Byte>)
    requires addr < SPACE && |x| + |y| <= SPACE
    ensures Put(Put(m, addr, x), Wrap(addr + |x|), y) == Put(m, addr, x + y)
  {
    var twice, once := Put(Put(m, addr, x), Wrap(addr + |x|), y), Put(m, addr, x + y);
    forall a | 0 <= a < SPACE ensures twice[a] == once[a] {
      DistSplit(addr, |x|, a);
    }
  }

  lemma {:induction false} GetTwice(m: Flat, addr: nat, n: nat, k: nat)
    requires addr < SPACE
    ensures Get(m, addr, n + k) == Get(m, addr, n) + Get(m, Wrap(addr + n), k)
  {
    var l, r := Get(m, addr, n + k), Get(m, addr, n) + Get(m, Wrap(addr + n), k);
    forall i | 0 <= i < n + k ensures l[i] == r[i] {
      if i >= n {
        WrapSum(addr + n, i - n);
      }
    }
  }

  lemma {:induction false} WrapSum(a: nat, i: nat)
    ensures Wrap(a + i) == Wrap(Wrap(a) + i)
  {
    var q := a / SPACE;
    assert a + i == Wrap(a) + i + SPACE * q;
  }

  // ---------------------------------------------------------------- blobs

  /** An access goes on with the last blob if it follows on and there is room; else it starts a new one. */
  function Appended(bs: seq<Blob>, addr: nat, data: seq<Byte>): seq<Blob> {
    if bs != [] && Wrap(bs[|bs| - 1].addr + |bs[|bs| - 1].data|) == addr
        && |bs[|bs| - 1].data| + |data| < bs[|bs| - 1].maxsize
    then bs[..|bs| - 1] + [bs[|bs| - 1].(data := bs[|bs| - 1].data + data)]
    else bs + [Blob(addr, data, |data| + BLOB_TAIL_SIZE)]
  }

  /** No blob outgrows what was allocated for it. */
  ghost predicate Fits(bs: seq<Blob>) {
    forall i {:trigger bs[i]} | 0 <= i < |bs| :: bs[i].addr < SPACE && |bs[i].data| <= bs[i].maxsize <= SPACE
  }

  ghost predicate Matches(m: Flat, bs: seq<Blob>) {
    forall i {:trigger bs[i]} | 0 <= i < |bs| :: Get(m, bs[i].addr, |bs[i].data|) == bs[i].data
  }

  ghost function PutAll(m: Flat, bs: seq<Blob>): Flat
    requires Fits(bs)
  {
    if bs == [] then m else Put(PutAll(m, bs[..|bs| - 1]), bs[|bs| - 1].addr, bs[|bs| - 1].data)
  }

  /** The access goes on with the last blob. */
  predicate GoesOn(bs: seq<Blob>, addr: nat, n: nat) {
    bs != [] && Wrap(bs[|bs| - 1].addr + |bs[|bs| - 1].data|) == addr && |bs[|bs| - 1].data| + n < bs[|bs| - 1].maxsize
  }

  lemma {:induction false} AppendedIs(bs: seq<Blob>, addr: nat, data: seq<Byte>)
    requires Fits(bs) && addr < SPACE && |data| + BLOB_TAIL_SIZE <= SPACE
    ensures var r := Appended(bs, addr, data);
      && Fits(r)
      && (if GoesOn(bs, addr, |data|)
          then |r| == |bs| && r[..|r| - 1] == bs[..|bs| - 1]
              && r[|r| - 1] == bs[|bs| - 1].(data := bs[|bs| - 1].data + data)
          else |r| == |bs| + 1 && r[..|bs|] == bs && r[|bs|] == Blob(addr, data, |data| + BLOB_TAIL_SIZE))
  {
  }

  lemma {:induction false} AppendedPuts(m: Flat, bs: seq<Blob>, addr: nat, data: seq<Byte>)
    requires Fits(bs) && addr < SPACE && |data| + BLOB_TAIL_SIZE <= SPACE
    ensures Fits(Appended(bs, addr, data)) && PutAll(m, Appended(bs, addr, data)) == Put(PutAll(m, bs), addr, data)
  {
    hide Appended, Put, Fits, Dist;
    AppendedIs(bs, addr, data);
    if GoesOn(bs, addr, |data|) {
      var last := bs[|bs| - 1];
      FitsLast(bs);
      PutTwice(PutAll(m, bs[..|bs| - 1]), last.addr, last.data, data);
    }
  }

  lemma {:induction false} FitsLast(bs: seq<Blob>)
    requires Fits(bs) && bs != []
    ensures bs[|bs| - 1].addr < SPACE && |bs[|bs| - 1].data| <= bs[|bs| - 1].maxsize <= SPACE && Fits(bs[..|bs| - 1])
  {
  }

  lemma {:induction false} AppendedMatches(m: Flat, bs: seq<Blob>, addr: nat, data: seq<Byte>)
    requires Fits(bs) && addr < SPACE && |data| + BLOB_TAIL_SIZE <= SPACE
    ensures Matches(m, Appended(bs, addr, data)) <==> Matches(m, bs) && Get(m, addr, |data|) == data
  {
    hide Appended, Get, Fits, Matches;
    AppendedIs(bs, addr, data);
    MatchesLast(m, Appended(bs, addr, data));
    if GoesOn(bs, addr, |data|) {
      var last := bs[|bs| - 1];
      FitsLast(bs);
      GetTwice(m, last.addr, |last.data|, |data|);
      SplitEqual(Get(m, last.addr, |last.data|), Get(m, addr, |data|), last.data, data);
      MatchesLast(m, bs);
    }
  }

  /** Coalescing loses nothing: writing the blobs writes the accesses, checking them checks the accesses. */
  lemma {:induction false} AppendedMeans(m: Flat, bs: seq<Blob>, addr: nat, data: seq<Byte>)
    requires Fits(bs) && addr < SPACE && |data| + BLOB_TAIL_SIZE <= SPACE
    ensures Fits(Appended(bs, addr, data))
    ensures PutAll(m, Appended(bs, addr, data)) == Put(PutAll(m, bs), addr, data)
    ensures Matches(m, Appended(bs, addr, data)) <==> Matches(m, bs) && Get(m, addr, |data|) == data
  {
    hide Appended, Get, Fits, Matches, Put, PutAll;
    AppendedPuts(m, bs, addr, data);
    AppendedMatches(m, bs, addr, data);
  }

  lemma {:induction false} MatchesLast(m: Flat, bs: seq<Blob>)
    requires bs != []
    ensures Matches(m, bs) <==> Matches(m, bs[..|bs| - 1])
                                && Get(m, bs[|bs| - 1].addr, |bs[|bs| - 1].data|) == bs[|bs| - 1].data
  {
    var f := bs[..|bs| - 1];
    assert forall i | 0 <= i < |f| :: f[i] == bs[i];
  }

  lemma {:induction false} SplitEqual(x: seq<Byte>, y: seq<Byte>, u: seq<Byte>, v: seq<Byte>)
    requires |x| == |u| && |y| == |v|
    ensures x + y == u + v <==> x == u && y == v
  {
    if x + y == u + v {
      assert x == (x + y)[..|x|] && u == (u + v)[..|x|];
      assert y == (x + y)[|x|..] && v == (u + v)[|x|..];
    }
  }

  // ---------------------------------------------------------------- a system call's accesses

  /** One call of the access function: a read comes with what its buffer holds before. */
  datatype Access = ReadAt(addr: nat, buf: seq<Byte>) | WriteAt(addr: nat, data: seq<Byte>)

  function SizeOf(x: Access): nat { match x case ReadAt(_, b) => |b| case WriteAt(_, d) => |d| }

  predicate Faults(x: Access) { !FaultOf(x.addr, SizeOf(x)).NoFault? }

  /** Addresses and sizes have the widths of their types. */
  ghost predicate Addressed(xs: seq<Access>) {
    forall i {:trigger xs[i]} | 0 <= i < |xs| :: xs[i].addr < SPACE && SizeOf(xs[i]) + BLOB_TAIL_SIZE <= SPACE
  }

  /** No read comes after a write. */
  ghost predicate ReadsFirst(xs: seq<Access>) {
    forall i, j | 0 <= i < j < |xs| && xs[i].WriteAt? :: xs[j].WriteAt?
  }

  /** What a read leaves in its buffer, and what a write makes of the memory: nothing new if it faults. */
  ghost function Got(m: Flat, addr: nat, buf: seq<Byte>): (r: seq<Byte>)
    ensures |r| == |buf|
  {
    if FaultOf(addr, |buf|).NoFault? then Get(m, addr, |buf|) else buf
  }

  ghost function Tried(m: Flat, addr: nat, data: seq<Byte>): Flat
    requires addr < SPACE
  {
    if FaultOf(addr, |data|).NoFault? then Put(m, addr, data) else m
  }

  ghost function Ran(m: Flat, xs: seq<Access>): Flat
    requires Addressed(xs)
  {
    if xs == [] then m else
    var p, x := Ran(m, xs[..|xs| - 1]), xs[|xs| - 1];
    match x case ReadAt(_, _) => p case WriteAt(a, d) => Tried(p, a, d)
  }

  /** The memory if every write is done, those that fault as well. */
  ghost function AllPut(m: Flat, xs: seq<Access>): Flat
    requires Addressed(xs)
  {
    if xs == [] then m else
    var p, x := AllPut(m, xs[..|xs| - 1]), xs[|xs| - 1];
    match x case ReadAt(_, _) => p case WriteAt(a, d) => Put(p, a, d)
  }

  /** What is recorded of the reads, with what they left in their buffers, and of the writes. */
  ghost function Inputs(m: Flat, xs: seq<Access>): seq<Blob>
    requires Addressed(xs)
  {
    if xs == [] then [] else
    var p, x := xs[..|xs| - 1], xs[|xs| - 1];
    match x
    case ReadAt(a, b) => Appended(Inputs(m, p), a, Got(Ran(m, p), a, b))
    case WriteAt(_, _) => Inputs(m, p)
  }

  ghost function Outputs(xs: seq<Access>): seq<Blob> {
    if xs == [] then [] else
    var p, x := xs[..|xs| - 1], xs[|xs| - 1];
    match x
    case ReadAt(_, _) => Outputs(p)
    case WriteAt(a, d) => Appended(Outputs(p), a, d)
  }

  lemma {:induction false} Shorter(xs: seq<Access>)
    requires xs != [] && Addressed(xs)
    ensures Addressed(xs[..|xs| - 1]) && (ReadsFirst(xs) ==> ReadsFirst(xs[..|xs| - 1]))
    ensures SizeOf(xs[|xs| - 1]) + BLOB_TAIL_SIZE <= SPACE
  {
    var p := xs[..|xs| - 1];
    assert forall i | 0 <= i < |p| :: p[i] == xs[i];
  }

  /** Before the first write the memory is as it was. */
  lemma {:induction false} UnchangedBeforeReads(m: Flat, xs: seq<Access>)
    requires Addressed(xs) && ReadsFirst(xs) && xs != [] && xs[|xs| - 1].ReadAt?
    ensures Ran(m, xs) == m
  {
    Shorter(xs);
    var p := xs[..|xs| - 1];
    if p != [] {
      assert p[|p| - 1] == xs[|xs| - 2];
      UnchangedBeforeReads(m, p);
    }
  }

  /** Each read that faulted found its buffer holding what the memory holds there. */
  ghost predicate ReadsSeen(m: Flat, xs: seq<Access>) {
    forall i {:trigger xs[i]} | 0 <= i < |xs| && xs[i].ReadAt? && Faults(xs[i]) ::
        Get(m, xs[i].addr, |xs[i].buf|) == xs[i].buf
  }

  /** What each read left in its buffer on `m` is what `m'` holds there. */
  ghost predicate SeenIn(m: Flat, m': Flat, xs: seq<Access>) {
    forall i {:trigger xs[i]} | 0 <= i < |xs| && xs[i].ReadAt? ::
        Get(m', xs[i].addr, |xs[i].buf|) == Got(m, xs[i].addr, xs[i].buf)
  }

  lemma {:induction false} SeenInLast(m: Flat, m': Flat, xs: seq<Access>)
    requires xs != []
    ensures var x := xs[|xs| - 1];
      SeenIn(m, m', xs) <==> SeenIn(m, m', xs[..|xs| - 1])
                             && (x.ReadAt? ==> Get(m', x.addr, |x.buf|) == Got(m, x.addr, x.buf))
  {
    hide Got, Get;
    var p := xs[..|xs| - 1];
    assert forall i | 0 <= i < |p| :: p[i] == xs[i];
    if SeenIn(m, m', xs) {
      forall i {:trigger p[i]} | 0 <= i < |p| && p[i].ReadAt?
          ensures Get(m', p[i].addr, |p[i].buf|) == Got(m, p[i].addr, p[i].buf) {
        assert p[i] == xs[i];
      }
    }
  }

  /** On the same memory only faulting reads can have seen something else. */
  lemma {:induction false} SeenInSame(m: Flat, xs: seq<Access>)
    ensures SeenIn(m, m, xs) <==> ReadsSeen(m, xs)
  {
    hide Get;
  }

  /** A record on `m` of a system call that reads before it writes, used on `m'`.  Checking its inputs succeeds
      exactly if every read left in its buffer what `m'` holds; writing its outputs does every write, faulting
      or not. */
  lemma {:induction false} RecordReplays(m: Flat, m': Flat, xs: seq<Access>)
    requires Addressed(xs) && ReadsFirst(xs)
    ensures Fits(Inputs(m, xs)) && (Matches(m', Inputs(m, xs)) <==> SeenIn(m, m', xs))
    ensures Fits(Outputs(xs)) && PutAll(m', Outputs(xs)) == AllPut(m', xs)
  {
    hide Appended, Get, Put, FaultOf, SeenIn, Matches, Fits, PutAll;
    if xs == [] {
      NothingRecorded(m, m');
    } else {
      Shorter(xs);
      var p, x := xs[..|xs| - 1], xs[|xs| - 1];
      RecordReplays(m, m', p);
      SeenInLast(m, m', xs);
      match x {
        case ReadAt(a, b) =>
          UnchangedBeforeReads(m, xs);
          AppendedMeans(m', Inputs(m, p), a, Got(m, a, b));
        case WriteAt(a, d) =>
          AppendedMeans(m', Outputs(p), a, d);
      }
    }
  }

  lemma {:induction false} NothingRecorded(m: Flat, m': Flat)
    ensures Fits([]) && Matches(m', []) && SeenIn(m, m', []) && PutAll(m', []) == m'
  {
  }

  // ---------------------------------------------------------------- writes that fault

  ghost predicate Writes(x: Access, a: nat)
    requires x.addr < SPACE && a < SPACE
  {
    x.WriteAt? && Dist(x.addr, a) < |x.data|
  }

  /** The last write to an address. */
  ghost function LastTo(xs: seq<Access>, a: nat): (r: Option<nat>)
    requires Addressed(xs) && a < SPACE
    ensures r.Some? ==> r.value < |xs| && Writes(xs[r.value], a)
  {
    if xs == [] then None else
    Shorter(xs);
    if Writes(xs[|xs| - 1], a) then Some(|xs| - 1) else LastTo(xs[..|xs| - 1], a)
  }

  lemma {:induction false} PutAt(m: Flat, addr: nat, data: seq<Byte>, a: nat)
    requires addr < SPACE && a < SPACE
    ensures Put(m, addr, data)[a] == if Dist(addr, a) < |data| then data[Dist(addr, a)] else m[a]
  {
  }

  /** Every write done: each address has the byte of the last write to it. */
  lemma {:induction false} AllPutAt(m: Flat, xs: seq<Access>, a: nat)
    requires Addressed(xs) && a < SPACE
    ensures AllPut(m, xs)[a] == match LastTo(xs, a)
                                case None => m[a]
                                case Some(i) => xs[i].data[Dist(xs[i].addr, a)]
  {
    hide Dist, Put;
    if xs != [] {
      Shorter(xs);
      var p, x := xs[..|xs| - 1], xs[|xs| - 1];
      AllPutAt(m, p, a);
      match x {
        case ReadAt(_, _) =>
        case WriteAt(b, d) =>
          PutAt(AllPut(m, p), b, d, a);
      }
    }
  }

  /** The last write to an address was done, or found its byte already there. */
  ghost predicate HeldAt(m: Flat, xs: seq<Access>, a: nat)
    requires Addressed(xs) && a < SPACE
  {
    match LastTo(xs, a)
    case None => true
    case Some(i) => Prefix(xs, i); !Faults(xs[i]) || Ran(m, xs[..i])[a] == xs[i].data[Dist(xs[i].addr, a)]
  }

  lemma {:induction false} Prefix(xs: seq<Access>, n: nat)
    requires Addressed(xs) && n <= |xs|
    ensures Addressed(xs[..n])
  {
  }

  ghost predicate WritesHeld(m: Flat, xs: seq<Access>)
    requires Addressed(xs)
  {
    forall a: nat {:trigger HeldAt(m, xs, a)} | a < SPACE :: HeldAt(m, xs, a)
  }

  /** One byte of both memories. */
  lemma {:induction false} OneByteHeld(m: Flat, xs: seq<Access>, a: nat)
    requires Addressed(xs) && a < SPACE
    ensures AllPut(m, xs)[a] == Ran(m, xs)[a] <==> HeldAt(m, xs, a)
  {
    hide Dist, FaultOf;
    if xs != [] {
      Shorter(xs);
      var p, x := xs[..|xs| - 1], xs[|xs| - 1];
      OneByteHeld(m, p, a);
      if !Writes(x, a) && LastTo(p, a).Some? {
        assert xs[..LastTo(p, a).value] == p[..LastTo(p, a).value];
      }
    }
  }

  /** Writing the outputs gives the memory that the system call left exactly if for every address the last
      write was done or found its byte there. */
  lemma {:induction false} OutputsReplayIff(m: Flat, xs: seq<Access>)
    requires Addressed(xs)
    ensures AllPut(m, xs) == Ran(m, xs) <==> WritesHeld(m, xs)
  {
    hide HeldAt, Ran, AllPut;
    forall a: nat {:trigger HeldAt(m, xs, a)} | a < SPACE
        ensures AllPut(m, xs)[a] == Ran(m, xs)[a] <==> HeldAt(m, xs, a) {
      OneByteHeld(m, xs, a);
    }
    if WritesHeld(m, xs) {
      forall a: nat | a < SPACE ensures AllPut(m, xs)[a] == Ran(m, xs)[a] {
        assert HeldAt(m, xs, a);
      }
    }
  }

  // ---------------------------------------------------------------- byte by byte

  /** How mem_bcopy, mem_strcpy and mem_bzero, and so every system call, use the access function. */
  ghost predicate Bytewise(xs: seq<Access>) { forall i {:trigger xs[i]} | 0 <= i < |xs| :: SizeOf(xs[i]) == 1 }

  /** Accesses of single bytes never fault, so such a system call always replays. */
  lemma {:induction false} BytesReplay(m: Flat, xs: seq<Access>)
    requires Addressed(xs) && Bytewise(xs)
    ensures ReadsSeen(m, xs) && WritesHeld(m, xs)
  {
    forall i {:trigger xs[i]} | 0 <= i < |xs| ensures !Faults(xs[i]) {
      OneByte(xs[i].addr);
    }
  }

  /** Bytes written one after the other, round the end of the space. */
  function ByteWrites(addr: nat, data: seq<Byte>): (xs: seq<Access>)
    ensures |xs| == |data|
  {
    seq(|data|, i requires 0 <= i < |data| => WriteAt(Wrap(addr + i), [data[i]]))
  }

  /** As few blobs as `n` bytes take, at 256 bytes each, the last one open at its end. */
  ghost predicate FilledBy(bs: seq<Blob>, addr: nat, n: nat) {
    && |bs| == (n + 255) / 256
    && (n > 0 ==> var last := bs[|bs| - 1];
                  && last.maxsize == 257 && |last.data| == n - 256 * (|bs| - 1)
                  && Wrap(last.addr + |last.data|) == Wrap(addr + n))
  }

  lemma {:induction false} FilledOn(bs: seq<Blob>, addr: nat, n: nat, b: Byte)
    requires FilledBy(bs, addr, n)
    ensures FilledBy(Appended(bs, Wrap(addr + n), [b]), addr, n + 1)
  {
    hide Wrap;
    WrapTwice(addr + n);
    if n > 0 {
      WrapNext(bs[|bs| - 1].addr + |bs[|bs| - 1].data|, addr + n);
    }
  }

  lemma {:induction false} BytesFillBlobs(addr: nat, data: seq<Byte>)
    ensures FilledBy(Outputs(ByteWrites(addr, data)), addr, |data|)
  {
    hide Wrap, FilledBy, Appended;
    if data == [] {
      NoneFilled(addr);
    } else {
      var n := |data| - 1;
      var xs := ByteWrites(addr, data);
      BytesFillBlobs(addr, data[..n]);
      assert xs[..n] == ByteWrites(addr, data[..n]);
      FilledOn(Outputs(xs[..n]), addr, n, data[n]);
    }
  }

  lemma {:induction false} NoneFilled(addr: nat)
    ensures FilledBy([], addr, 0)
  {
  }

  lemma {:induction false} WrapNext(x: nat, y: nat)
    requires Wrap(x) == Wrap(y)
    ensures Wrap(x + 1) == Wrap(y + 1)
  {
    WrapSum(x, 1);
    WrapSum(y, 1);
  }

  lemma {:induction false} WrapTwice(x: nat)
    ensures Wrap(Wrap(x) + 1) == Wrap(x + 1)
  {
    WrapSum(x, 1);
  }
}
