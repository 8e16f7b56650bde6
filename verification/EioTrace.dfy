/** System-call records of lab3/eio.c: recording through the tracing access function, over the
    page-table memory. */
module EioTrace {
  import opened PageTable
  import opened Transactions

  // ---------------------------------------------------------------- the memory as a value

  ghost function Image(mem: Memory): (m: Flat)
    requires mem.Valid()
    reads mem, mem.ptab, mem.repr
    ensures forall a: nat {:trigger m[a]} | a < SPACE :: m[a] == mem.View(a)
  {
    seq(SPACE, a requires 0 <= a < SPACE && mem.Valid() reads mem, mem.ptab, mem.repr => mem.View(a))
  }

  /** One byte read: nothing changes. */
  method ReadOne(mem: Memory, loc: nat) returns (b: Byte)
    requires mem.Valid() && loc < SPACE
    modifies mem, mem.ptab, mem.repr
    ensures mem.Valid() && fresh(mem.repr - old(mem.repr)) && Image(mem) == old(Image(mem)) && b == Image(mem)[loc]
  {
    OneByte(loc);
    ghost var m := Image(mem);
    var fault, out := mem.MemAccess(Read, loc, [], 1);
    b := out[0];
    forall a: nat | a < SPACE ensures Image(mem)[a] == m[a] {
      assert Image(mem)[a] == mem.View(a);
      assert m[a] == old(mem.View(a));
    }
    assert out[0] == old(mem.View(loc + 0));
  }

  method WriteOne(mem: Memory, loc: nat, b: Byte)
    requires mem.Valid() && loc < SPACE
    modifies mem, mem.ptab, mem.repr
    ensures mem.Valid() && fresh(mem.repr - old(mem.repr)) && Image(mem) == old(Image(mem))[loc := b]
  {
    OneByte(loc);
    ghost var m := Image(mem);
    var fault, out := mem.MemAccess(Write, loc, [b], 1);
    forall a: nat | a < SPACE ensures Image(mem)[a] == m[loc := b][a] {
      assert Image(mem)[a] == mem.View(a);
      assert m[a] == old(mem.View(a));
    }
  }

  // ---------------------------------------------------------------- a record of accesses

  /** mem_rec_t with its list: the finished blobs, and the last one with its buffer. */
  class MemRec {
    var done: seq<Blob>
    var open: bool
    var addr: nat
    var size: nat
    var data: array<Byte>

    /** The last blob never outgrows its buffer. */
    ghost predicate Valid()
      reads this, data
    {
      size <= data.Length && (!open ==> done == [])
    }

    ghost function All(): seq<Blob>
      requires Valid()
      reads this, data
    {
      done + if open then [Blob(addr, data[..size], data.Length)] else []
    }

    constructor ()
      ensures Valid() && All() == [] && fresh(data)
    {
      done, open, addr, size := [], false, 0, 0;
      data := new Byte[0];
    }

    method Blobs() returns (bs: seq<Blob>)
      requires Valid()
      ensures bs == All()
    {
      bs := done + if open then [Blob(addr, data[..size], data.Length)] else [];
    }

    method CopyIn(p: seq<Byte>)
      requires size + |p| <= data.Length
      modifies data
      ensures data[..size] == old(data[..size]) && data[size..size + |p|] == p
    {
      var i := 0;
      while i < |p|
        invariant i <= |p| && data[..size] == old(data[..size]) && data[size..size + i] == p[..i]
      {
        data[size + i] := p[i];
        i := i + 1;
      }
    }

    /** The coalescing code of my_mem_fn. */
    method Add(at: nat, p: seq<Byte>)
      requires Valid() && at < SPACE
      modifies this, data
      ensures Valid() && All() == Appended(old(All()), at, p)
      ensures data == old(data) || fresh(data)
    {
      ghost var all := All();
      if open && Wrap(addr + size) == at && size + |p| < data.Length {
        CopyIn(p);
        assert data[..size + |p|] == data[..size] + data[size..size + |p|];
        size := size + |p|;
      } else {
        if open {
          done := done + [Blob(addr, data[..size], data.Length)];
        }
        data := new Byte[|p| + BLOB_TAIL_SIZE];
        open, addr, size := true, at, 0;
        CopyIn(p);
        size := |p|;
        assert done == all && data[..size] == p;
      }
    }
  }

  // ---------------------------------------------------------------- recording

  /** The state of eio_write_trace while the system call runs. */
  class Recorder {
    const mem: Memory
    const input: MemRec
    const output: MemRec
    var seenWrite: bool

    ghost predicate Valid()
      reads this, mem, mem.ptab, mem.repr, input, input.data, output, output.data
    {
      && mem.Valid() && input.Valid() && output.Valid() && input != output && input.data != output.data
      && OwnParts() !! MemParts()
    }

    ghost function OwnParts(): set<object>
      reads input, output
    {
      {this, input, input.data, output, output.data}
    }

    ghost function MemParts(): set<object>
      reads mem
    {
      {mem, mem.ptab} + mem.repr
    }

    constructor (m: Memory)
      requires m.Valid()
      ensures Valid() && mem == m && !seenWrite && input.All() == [] && output.All() == []
      ensures fresh(input) && fresh(output) && fresh(input.data) && fresh(output.data)
    {
      mem, seenWrite := m, false;
      input := new MemRec();
      output := new MemRec();
    }

    /** my_mem_fn for a read: it ends the program after a write; else the bytes read are recorded, or what the
        buffer held if the read faults. */
    method RecordRead(addr: nat, buf: seq<Byte>) returns (fatal: bool, out: seq<Byte>)
      requires Valid() && addr < SPACE
      modifies mem, mem.ptab, mem.repr, input, input.data
      ensures Valid() && fresh(mem.repr - old(mem.repr)) && Image(mem) == old(Image(mem))
              && output.All() == old(output.All())
      ensures fatal == seenWrite && (input.data == old(input.data) || fresh(input.data))
      ensures !fatal ==> out == Got(Image(mem), addr, buf) && input.All() == Appended(old(input.All()), addr, out)
    {
      hide Memory.Valid, Appended, MemRec.All, Got;
      out := [];
      if seenWrite {
        return true, [];
      }
      fatal := false;
      out := ReadBytes(mem, addr, buf);
      Disjoint();
      input.Add(addr, out);
      assert mem.Valid();
    }

    /** my_mem_fn for a write: recorded, then tried. */
    method RecordWrite(addr: nat, bytes: seq<Byte>)
      requires Valid() && addr < SPACE
      modifies this, mem, mem.ptab, mem.repr, output, output.data
      ensures Valid() && fresh(mem.repr - old(mem.repr)) && Image(mem) == Tried(old(Image(mem)), addr, bytes)
              && input.All() == old(input.All())
      ensures seenWrite && output.All() == Appended(old(output.All()), addr, bytes)
      ensures output.data == old(output.data) || fresh(output.data)
    {
      hide Memory.Valid, Appended, MemRec.All, Tried;
      seenWrite := true;
      Disjoint();
      output.Add(addr, bytes);
      assert mem.Valid();
      Disjoint();
      WriteBytes(mem, addr, bytes);
    }

    /** A system call's accesses, in order; it fails exactly if some read comes after a write. */
    method Perform(xs: seq<Access>) returns (fatal: bool)
      requires Valid() && !seenWrite && input.All() == [] && output.All() == [] && Addressed(xs)
      modifies this, mem, mem.ptab, mem.repr, input, input.data, output, output.data
      ensures Valid() && fresh(mem.repr - old(mem.repr)) && fatal == !ReadsFirst(xs)
      ensures !fatal ==> && Image(mem) == Ran(old(Image(mem)), xs)
                         && input.All() == Inputs(old(Image(mem)), xs) && output.All() == Outputs(xs)
    {
      hide Memory.Valid, Appended, MemRec.All, Tried, Got, Image, Addressed, ReadsFirst;
      ghost var m := Image(mem);
      fatal := false;
      var n := 0;
      assert xs[..0] == [];
      NoAccess();
      while n < |xs|
        invariant n <= |xs| && Valid() && Addressed(xs[..n]) && ReadsFirst(xs[..n]) && !fatal
        invariant fresh(mem.repr - old(mem.repr))
        invariant input.data == old(input.data) || fresh(input.data)
        invariant output.data == old(output.data) || fresh(output.data)
        invariant seenWrite <==> exists i {:trigger xs[i]} :: 0 <= i < n && xs[i].WriteAt?
        invariant Image(mem) == Ran(m, xs[..n]) && input.All() == Inputs(m, xs[..n]) && output.All() == Outputs(xs[..n])
      {
        OneAccess(xs, n);
        match xs[n] {
          case ReadAt(a, b) =>
            var out;
            fatal, out := RecordRead(a, b);
            if fatal {
              return;
            }
          case WriteAt(a, d) =>
            RecordWrite(a, d);
        }
        n := n + 1;
      }
      assert xs[..n] == xs;
    }

    lemma {:induction false} Disjoint()
      requires Valid()
      ensures forall o <- MemParts() :: o != this && o != input && o != input.data && o != output && o != output.data
    {
    }
  }

  lemma {:induction false} NoAccess()
    ensures Addressed([]) && ReadsFirst([])
  {
  }

  lemma {:induction false} OneAccess(xs: seq<Access>, n: nat)
    requires n < |xs| && Addressed(xs)
    ensures xs[n].addr < SPACE && Addressed(xs[..n + 1]) && xs[..n + 1][..n] == xs[..n]
    ensures ReadsFirst(xs[..n]) ==>
              (ReadsFirst(xs[..n + 1]) <==> xs[n].WriteAt? || !exists i {:trigger xs[i]} ::
                  0 <= i < n && xs[i].WriteAt?)
    ensures xs[n].ReadAt? && (exists i {:trigger xs[i]} :: 0 <= i < n && xs[i].WriteAt?) ==> !ReadsFirst(xs)
  {
    var p := xs[..n + 1];
    assert forall i | 0 <= i <= n :: p[i] == xs[i];
    assert forall i | 0 <= i < n :: xs[..n][i] == xs[i];
  }

  method WriteBytes(mem: Memory, addr: nat, bytes: seq<Byte>)
    requires mem.Valid() && addr < SPACE
    modifies mem, mem.ptab, mem.repr
    ensures mem.Valid() && fresh(mem.repr - old(mem.repr)) && Image(mem) == Tried(old(Image(mem)), addr, bytes)
  {
    ghost var m := Image(mem);
    var fault, out := mem.MemAccess(Write, addr, bytes, |bytes|);
    forall a: nat | a < SPACE ensures mem.View(a) == Tried(m, addr, bytes)[a] {
      assert m[a] == old(mem.View(a));
    }
    SameImage(mem, Tried(m, addr, bytes));
  }

  /** A read into a buffer, which stays as it is if the read faults. */
  method ReadBytes(mem: Memory, addr: nat, buf: seq<Byte>) returns (out: seq<Byte>)
    requires mem.Valid() && addr < SPACE
    modifies mem, mem.ptab, mem.repr
    ensures mem.Valid() && fresh(mem.repr - old(mem.repr)) && Image(mem) == old(Image(mem))
    ensures out == Got(Image(mem), addr, buf)
  {
    ghost var m, n := Image(mem), |buf|;
    var fault;
    fault, out := mem.MemAccess(Read, addr, [], |buf|);
    forall a: nat | a < SPACE ensures mem.View(a) == m[a] {
      assert m[a] == old(mem.View(a));
    }
    SameImage(mem, m);
    if !fault.NoFault? {
      return buf;
    }
    forall i: nat | i < n ensures out[i] == m[addr + i] {
      assert m[addr + i] == old(mem.View(addr + i));
    }
    ReadIsGet(m, addr, n, out);
  }

  /** The image is the same if every byte is. */
  lemma {:induction false} SameImage(mem: Memory, m: Flat)
    requires mem.Valid() && forall a: nat {:trigger m[a]} | a < SPACE :: mem.View(a) == m[a]
    ensures Image(mem) == m
  {
  }

  lemma {:induction false} ReadIsGet(m: Flat, addr: nat, n: nat, out: seq<Byte>)
    requires addr + n <= SPACE && |out| == n && forall i {:trigger out[i]} | 0 <= i < n :: out[i] == m[addr + i]
    ensures out == Get(m, addr, n)
  {
  }
}
