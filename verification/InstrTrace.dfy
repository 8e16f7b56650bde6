/** The instruction trace of lab3/instr.c: a list of fixed-size chunks that is a plain sequence. */
module InstrTrace {
  import opened Bits

  const INSTR_TRACE_SIZE := 16384

  class Chunk<T> {
    const table: array<T>
    var size: nat
    var next: Chunk?<T>

    constructor (zero: T)
      ensures size == 0 && next == null && table.Length == INSTR_TRACE_SIZE && fresh(table)
    {
      table := new T[INSTR_TRACE_SIZE](_ => zero);
      size, next := 0, null;
    }
  }

  class Trace<T> {
    const head: Chunk<T>
    const zero: T
    ghost var chunks: seq<Chunk<T>>
    ghost var repr: set<object>

    /** The chunks are linked, different, and full but for the last one. */
    ghost predicate Valid()
      reads this, repr
    {
      && this !in repr && |chunks| > 0 && chunks[0] == head
      && (forall i {:trigger chunks[i]} | 0 <= i < |chunks| ::
            && chunks[i] in repr && chunks[i].table in repr && chunks[i].table.Length == INSTR_TRACE_SIZE
            && chunks[i].size <= INSTR_TRACE_SIZE
            && (i < |chunks| - 1 ==> chunks[i].size == INSTR_TRACE_SIZE)
            && chunks[i].next == if i < |chunks| - 1 then Next(i) else null)
      && (forall i, j | 0 <= i < j < |chunks| :: chunks[i] != chunks[j] && chunks[i].table != chunks[j].table)
    }

    ghost function Next(i: nat): Chunk?<T>
      reads this
    {
      if i + 1 < |chunks| then chunks[i + 1] else null
    }

    /** The number of instructions, and the one at an index. */
    ghost function Length(): nat
      requires Valid()
      reads this, repr
    {
      (|chunks| - 1) * INSTR_TRACE_SIZE + chunks[|chunks| - 1].size
    }

    ghost function Item(k: nat): T
      requires Valid() && k < Length()
      reads this, repr
    {
      IndexFits(k);
      chunks[k / INSTR_TRACE_SIZE].table[k % INSTR_TRACE_SIZE]
    }

    lemma {:induction false} IndexFits(k: nat)
      requires Valid() && k < Length()
      ensures k / INSTR_TRACE_SIZE < |chunks| && k % INSTR_TRACE_SIZE < chunks[k / INSTR_TRACE_SIZE].size
    {
    }

    constructor (z: T)
      ensures Valid() && Length() == 0 && zero == z && fresh(repr)
    {
      var first := new Chunk<T>(z);
      head, zero := first, z;
      chunks, repr := [first], {first, first.table};
    }

    /** The search of put_instr for a chunk with room, or for the last one. */
    method LastChunk() returns (trace: Chunk<T>)
      requires Valid()
      ensures trace == chunks[|chunks| - 1]
    {
      trace := head;
      ghost var i := 0;
      while trace.size == INSTR_TRACE_SIZE && trace.next != null
        invariant i < |chunks| && trace == chunks[i]
        decreases |chunks| - i
      {
        trace := trace.next;
        i := i + 1;
      }
    }

    /** A new chunk linked after a full one. */
    method LinkChunk(last: Chunk<T>) returns (trace: Chunk<T>)
      requires Valid() && last == chunks[|chunks| - 1] && last.size == INSTR_TRACE_SIZE
      modifies last`next, this`chunks, this`repr
      ensures Valid() && chunks == old(chunks) + [trace] && repr == old(repr) + {trace, trace.table}
      ensures trace.size == 0 && fresh(trace) && fresh(trace.table)
    {
      ghost var was := chunks;
      LastOnly();
      trace := new Chunk<T>(zero);
      last.next := trace;
      chunks, repr := was + [trace], repr + {trace, trace.table};
      forall i | 0 <= i < |was| ensures chunks[i] == was[i] && chunks[i].next == Next(i) {
      }
    }

    lemma {:induction false} LastOnly()
      requires Valid()
      ensures forall i {:trigger chunks[i]} | 0 <= i < |chunks| - 1 :: chunks[i] != chunks[|chunks| - 1]
    {
    }

    /** A new chunk holds nothing yet. */
    method AddChunk(last: Chunk<T>) returns (trace: Chunk<T>)
      requires Valid() && last == chunks[|chunks| - 1] && last.size == INSTR_TRACE_SIZE
      modifies last`next, this`chunks, this`repr
      ensures Valid() && fresh(repr - old(repr)) && old(repr) <= repr && Length() == old(Length())
      ensures trace == chunks[|chunks| - 1] && trace.size == 0 && fresh(trace) && fresh(trace.table)
      ensures forall k: nat {:trigger Item(k)} | k < Length() :: Item(k) == old(Item(k))
    {
      ghost var n := Length();
      trace := LinkChunk(last);
      assert Length() == n;
      forall k: nat {:trigger Item(k)} | k < n ensures Item(k) == old(Item(k)) {
        InOldChunk(k, |chunks| - 1);
      }
    }

    static lemma {:induction false} InOldChunk(k: nat, n: nat)
      requires k < n * INSTR_TRACE_SIZE
      ensures k / INSTR_TRACE_SIZE < n
    {
    }

    /** The next free place of the last chunk. */
    method Store(trace: Chunk<T>, instr: T)
      requires Valid() && trace == chunks[|chunks| - 1] && trace.size < INSTR_TRACE_SIZE
      modifies trace`size, trace.table
      ensures Valid() && Length() == old(Length()) + 1
      ensures forall k: nat {:trigger Item(k)} | k < Length() ::
              Item(k) == if k == old(Length()) then instr else old(Item(k))
    {
      ghost var n := Length();
      DivModUnique(|chunks| - 1, trace.size, INSTR_TRACE_SIZE);
      trace.table[trace.size] := instr;
      trace.size := trace.size + 1;
      assert Valid();
      forall k: nat {:trigger Item(k)} | k < Length() ensures Item(k) == if k == n then instr else old(Item(k)) {
        IndexFits(k);
      }
    }

    /** put_instr: the trace becomes one longer, and nothing else changes. */
    method PutInstr(instr: T)
      requires Valid()
      modifies this`chunks, this`repr, repr
      ensures Valid() && fresh(repr - old(repr)) && Length() == old(Length()) + 1
      ensures forall k: nat {:trigger Item(k)} | k < Length() ::
              Item(k) == if k == old(Length()) then instr else old(Item(k))
    {
      LastInside();
      var trace := LastChunk();
      if trace.size == INSTR_TRACE_SIZE {
        trace := AddChunk(trace);
      }
      Store(trace, instr);
    }

    lemma {:induction false} LastInside()
      requires Valid()
      ensures var last := chunks[|chunks| - 1]; last in repr && last.table in repr && last.size <= INSTR_TRACE_SIZE
    {
    }

    /** get_instr: the instruction at an index. */
    method GetInstr(index: nat) returns (instr: T)
      requires Valid() && index < Length()
      ensures instr == Item(index)
    {
      IndexFits(index);
      var trace, k := head, index;
      ghost var i := 0;
      while k >= INSTR_TRACE_SIZE
        invariant i < |chunks| && trace == chunks[i] && index == i * INSTR_TRACE_SIZE + k && k >= 0
        decreases k
      {
        k := k - INSTR_TRACE_SIZE;
        i := i + 1;
        assert i <= index / INSTR_TRACE_SIZE;
        trace := trace.next;
      }
      DivModUnique(i, k, INSTR_TRACE_SIZE);
      instr := trace.table[k];
    }
  }
}
