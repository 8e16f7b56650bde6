/** Writing and reading the records of system calls of lab3/eio.c, as terms. */
module EioReplay {
  import opened Words
  import opened Wrappers
  import opened PageTable
  import opened Transactions
  import opened EioTrace

  // ---------------------------------------------------------------- terms

  /** What libexo prints and reads back. */
  datatype Term = Integer(v: int) | Address(a: nat) | List(items: seq<Term>) | BlobTerm(data: seq<Byte>)

  const FIRST_REG := 2
  const LAST_REG := 7
  const NUM_REGS := 32

  function RegTerms(regs: seq<int>): (ts: seq<Term>) {
    seq(|regs|, i requires 0 <= i < |regs| => Address(Wide(regs[i])))
  }

  function MemTerm(b: Blob): Term { List([Address(b.addr), BlobTerm(b.data)]) }

  function MemTerms(bs: seq<Blob>): (ts: seq<Term>) {
    seq(|bs|, i requires 0 <= i < |bs| => MemTerm(bs[i]))
  }

  /** The record of eio_write_trace: count, PC, registers and memory read, break point and registers and
      memory written. */
  function Transaction(icnt: int, pc: nat, inRegs: seq<int>, input: seq<Blob>, brk: nat, outRegs: seq<int>,
                       output: seq<Blob>): Term {
    List([Integer(Wide(icnt)), Address(pc), List(RegTerms(inRegs)), List(MemTerms(input)),
          List([Address(brk)] + RegTerms(outRegs)), List(MemTerms(output))])
  }

  // ---------------------------------------------------------------- what a reader accepts

  predicate IsMemTerm(t: Term) { t.List? && |t.items| == 2 && t.items[0].Address? && t.items[1].BlobTerm? }

  predicate AllAddresses(ts: seq<Term>) { forall i {:trigger ts[i]} | 0 <= i < |ts| :: ts[i].Address? }

  predicate AllMemTerms(ts: seq<Term>) { forall i {:trigger ts[i]} | 0 <= i < |ts| :: IsMemTerm(ts[i]) }

  /** The shape of a transaction. */
  predicate IsTransaction(t: Term) {
    && t.List? && |t.items| == 6 && t.items[0].Integer? && t.items[1].Address?
    && t.items[2].List? && t.items[3].List? && t.items[4].List? && t.items[5].List?
    && |t.items[2].items| == LAST_REG - FIRST_REG + 1 && AllAddresses(t.items[2].items)
    && AllMemTerms(t.items[3].items)
    && |t.items[4].items| == LAST_REG - FIRST_REG + 2 && AllAddresses(t.items[4].items)
    && AllMemTerms(t.items[5].items)
  }

  function AddressTerms(xs: seq<nat>): (ts: seq<Term>)
    ensures |ts| == |xs| && forall i {:trigger ts[i]} | 0 <= i < |ts| :: ts[i] == Address(xs[i])
  {
    seq(|xs|, i requires 0 <= i < |xs| => Address(xs[i]))
  }

  function PairTerms(xs: seq<(nat, seq<Byte>)>): (ts: seq<Term>)
    ensures |ts| == |xs| && forall i {:trigger ts[i]} | 0 <= i < |ts| ::
            ts[i] == List([Address(xs[i].0), BlobTerm(xs[i].1)])
  {
    seq(|xs|, i requires 0 <= i < |xs| => List([Address(xs[i].0), BlobTerm(xs[i].1)]))
  }

  /** What a list of addresses, or of addresses with bytes, says. */
  lemma {:induction false} AddressesAre(ts: seq<Term>) returns (xs: seq<nat>)
    requires AllAddresses(ts)
    ensures ts == AddressTerms(xs)
  {
    xs := seq(|ts|, i requires 0 <= i < |ts| => ts[i].a);
    assert |AddressTerms(xs)| == |ts|;
    forall i | 0 <= i < |ts| ensures ts[i] == AddressTerms(xs)[i] {
      assert ts[i].Address?;
    }
  }

  lemma {:induction false} PairsAre(ts: seq<Term>) returns (xs: seq<(nat, seq<Byte>)>)
    requires AllMemTerms(ts)
    ensures ts == PairTerms(xs)
  {
    xs := seq(|ts|, i requires 0 <= i < |ts| => (ts[i].items[0].a, ts[i].items[1].data));
    assert |PairTerms(xs)| == |ts|;
    forall i | 0 <= i < |ts| ensures ts[i] == PairTerms(xs)[i] {
      assert IsMemTerm(ts[i]);
      assert ts[i].items == [ts[i].items[0], ts[i].items[1]];
    }
  }

  function RecordTerm(icnt: int, pc: nat, ins: seq<nat>, input: seq<(nat, seq<Byte>)>, outs: seq<nat>,
                      output: seq<(nat, seq<Byte>)>): Term {
    List([Integer(icnt), Address(pc), List(AddressTerms(ins)), List(PairTerms(input)), List(AddressTerms(outs)),
          List(PairTerms(output))])
  }

  /** The terms that a reader accepts are those of six and seven addresses and any bytes of memory, and no others. */
  lemma {:induction false} TransactionsAre(t: Term)
    ensures IsTransaction(t) <==>
              exists icnt, pc, ins, input, outs, output ::
                |ins| == 6 && |outs| == 7 && t == RecordTerm(icnt, pc, ins, input, outs, output)
  {
    hide AllAddresses, AllMemTerms, AddressTerms, PairTerms;
    if IsTransaction(t) {
      var x := t.items;
      var ins := AddressesAre(x[2].items);
      var input := PairsAre(x[3].items);
      var outs := AddressesAre(x[4].items);
      var output := PairsAre(x[5].items);
      assert x == [x[0], x[1], x[2], x[3], x[4], x[5]];
      assert t == RecordTerm(x[0].v, x[1].a, ins, input, outs, output);
    }
    if icnt, pc, ins, input, outs, output :|
        |ins| == 6 && |outs| == 7 && t == RecordTerm(icnt, pc, ins, input, outs, output) {
      TermsAccepted(ins, input);
      TermsAccepted(outs, output);
    }
  }

  lemma {:induction false} TermsAccepted(xs: seq<nat>, ys: seq<(nat, seq<Byte>)>)
    ensures AllAddresses(AddressTerms(xs)) && AllMemTerms(PairTerms(ys))
  {
  }

  /** A term's address is cut to 32 bits. */
  function BlobOf(t: Term): Blob
    requires IsMemTerm(t)
  {
    Blob(Wrap(t.items[0].a), t.items[1].data, |t.items[1].data|)
  }

  function BlobsOf(ts: seq<Term>): (bs: seq<Blob>)
    requires AllMemTerms(ts)
    ensures |bs| == |ts| && forall i {:trigger bs[i]} | 0 <= i < |ts| :: bs[i] == BlobOf(ts[i])
  {
    seq(|ts|, i requires 0 <= i < |ts| => BlobOf(ts[i]))
  }

  /** No blob has more bytes than there are addresses. */
  ghost predicate Bounded(ts: seq<Term>) {
    forall i {:trigger ts[i]} | 0 <= i < |ts| :: IsMemTerm(ts[i]) ==> |ts[i].items[1].data| <= SPACE
  }

  lemma {:induction false} BlobsFit(ts: seq<Term>)
    requires AllMemTerms(ts) && Bounded(ts)
    ensures Fits(BlobsOf(ts))
  {
    forall i | 0 <= i < |ts| ensures IsMemTerm(ts[i]) && |BlobsOf(ts)[i].data| <= SPACE {
    }
  }

  // ---------------------------------------------------------------- checking and writing memory

  /** The comparison loop for one blob of input memory. */
  method CheckBlob(mem: Memory, addr: nat, data: seq<Byte>) returns (ok: bool)
    requires mem.Valid() && addr < SPACE
    modifies mem, mem.ptab, mem.repr
    ensures mem.Valid() && fresh(mem.repr - old(mem.repr)) && Image(mem) == old(Image(mem))
    ensures ok <==> Get(Image(mem), addr, |data|) == data
  {
    hide Memory.Valid, Image;
    var i := 0;
    while i < |data|
      invariant i <= |data| && mem.Valid() && fresh(mem.repr - old(mem.repr)) && Image(mem) == old(Image(mem))
      invariant forall j {:trigger data[j]} | 0 <= j < i :: data[j] == Get(Image(mem), addr, |data|)[j]
    {
      ghost var want := Get(Image(mem), addr, |data|);
      var val := ReadOne(mem, Wrap(addr + i));
      assert want[i] == val;
      if val != data[i] {
        return false;
      }
      i := i + 1;
    }
    ok := true;
  }

  /** The writing loop for one blob of output memory. */
  method WriteBlob(mem: Memory, addr: nat, data: seq<Byte>)
    requires mem.Valid() && addr < SPACE && |data| <= SPACE
    modifies mem, mem.ptab, mem.repr
    ensures mem.Valid() && fresh(mem.repr - old(mem.repr)) && Image(mem) == Put(old(Image(mem)), addr, data)
  {
    hide Memory.Valid, Image, Put;
    ghost var m := Image(mem);
    PutNothing(m, addr);
    assert data[..0] == [];
    var i := 0;
    while i < |data|
      invariant i <= |data| && mem.Valid() && fresh(mem.repr - old(mem.repr)) && Image(mem) == Put(m, addr, data[..i])
    {
      PutOneMore(m, addr, data, i);
      WriteOne(mem, Wrap(addr + i), data[i]);
      i := i + 1;
    }
    assert data[..i] == data;
  }

  lemma {:induction false} PutNothing(m: Flat, addr: nat)
    requires addr < SPACE
    ensures Put(m, addr, []) == m
  {
  }

  lemma {:induction false} PutOneMore(m: Flat, addr: nat, data: seq<Byte>, i: nat)
    requires addr < SPACE && i < |data| <= SPACE
    ensures Put(m, addr, data[..i + 1]) == Put(m, addr, data[..i])[Wrap(addr + i) := data[i]]
  {
    DistIs(addr, i);
  }

  /** All blobs of input memory. */
  method CheckInputs(mem: Memory, ts: seq<Term>) returns (ok: bool)
    requires mem.Valid() && Bounded(ts)
    modifies mem, mem.ptab, mem.repr
    ensures mem.Valid() && fresh(mem.repr - old(mem.repr)) && Image(mem) == old(Image(mem))
    ensures ok <==> AllMemTerms(ts) && Matches(Image(mem), BlobsOf(ts))
  {
    hide Memory.Valid, Image, Get;
    var n := 0;
    while n < |ts|
      invariant n <= |ts| && mem.Valid() && fresh(mem.repr - old(mem.repr)) && Image(mem) == old(Image(mem))
      invariant forall i {:trigger ts[i]} | 0 <= i < n ::
                  IsMemTerm(ts[i]) && Get(Image(mem), BlobOf(ts[i]).addr, |BlobOf(ts[i]).data|) == BlobOf(ts[i]).data
    {
      if !IsMemTerm(ts[n]) {
        return false;
      }
      var same := CheckBlob(mem, Wrap(ts[n].items[0].a), ts[n].items[1].data);
      if !same {
        NotAllMatch(Image(mem), ts, n);
        return false;
      }
      n := n + 1;
    }
    ok := true;
  }

  lemma {:induction false} NotAllMatch(m: Flat, ts: seq<Term>, n: nat)
    requires n < |ts| && IsMemTerm(ts[n]) && Get(m, BlobOf(ts[n]).addr, |BlobOf(ts[n]).data|) != BlobOf(ts[n]).data
    ensures AllMemTerms(ts) ==> !Matches(m, BlobsOf(ts))
  {
    assert AllMemTerms(ts) ==> BlobsOf(ts)[n] == BlobOf(ts[n]);
  }

  /** All blobs of output memory. */
  method WriteOutputs(mem: Memory, ts: seq<Term>) returns (ok: bool)
    requires mem.Valid() && Bounded(ts)
    modifies mem, mem.ptab, mem.repr
    ensures mem.Valid() && fresh(mem.repr - old(mem.repr)) && ok == AllMemTerms(ts)
    ensures ok ==> Fits(BlobsOf(ts)) && Image(mem) == PutAll(old(Image(mem)), BlobsOf(ts))
  {
    hide Memory.Valid, Image, Put;
    ghost var m := Image(mem);
    var n := 0;
    assert ts[..0] == [];
    while n < |ts|
      invariant n <= |ts| && mem.Valid() && fresh(mem.repr - old(mem.repr))
      invariant AllMemTerms(ts[..n]) && Bounded(ts[..n]) && Fits(BlobsOf(ts[..n]))
                && Image(mem) == PutAll(m, BlobsOf(ts[..n]))
    {
      if !IsMemTerm(ts[n]) {
        return false;
      }
      OneTerm(ts, n);
      WriteBlob(mem, Wrap(ts[n].items[0].a), ts[n].items[1].data);
      n := n + 1;
    }
    assert ts[..n] == ts;
    ok := true;
  }

  lemma {:induction false} OneTerm(ts: seq<Term>, n: nat)
    requires n < |ts| && IsMemTerm(ts[n]) && AllMemTerms(ts[..n]) && Bounded(ts)
    ensures AllMemTerms(ts[..n + 1]) && Bounded(ts[..n + 1]) && Fits(BlobsOf(ts[..n + 1]))
            && |ts[n].items[1].data| <= SPACE
    ensures BlobsOf(ts[..n + 1])[..n] == BlobsOf(ts[..n]) && BlobsOf(ts[..n + 1])[n] == BlobOf(ts[n])
  {
    assert forall i | 0 <= i < n :: ts[..n + 1][i] == ts[..n][i];
    assert forall i | 0 <= i <= n :: ts[..n + 1][i] == ts[i];
    BlobsFit(ts[..n + 1]);
  }

  // ---------------------------------------------------------------- replaying

  /** The recorded inputs agree with the machine. */
  ghost predicate InputsAgree(t: Term, icnt: int, pc: nat, regs: seq<int>, m: Flat)
    requires IsTransaction(t) && |regs| == NUM_REGS
  {
    && AsCounter(t.items[0].v) == icnt && Wrap(t.items[1].a) == pc
    && (forall i {:trigger t.items[2].items[i]} | 0 <= i <= LAST_REG - FIRST_REG ::
        AsWord(t.items[2].items[i].a) == regs[FIRST_REG + i])
    && Matches(m, BlobsOf(t.items[3].items))
  }

  /** The registers that a list of address terms stands for. */
  function RegsOf(ts: seq<Term>): (rs: seq<int>)
    requires AllAddresses(ts)
    ensures |rs| == |ts| && forall i {:trigger rs[i]} | 0 <= i < |ts| :: rs[i] == AsWord(ts[i].a)
  {
    seq(|ts|, i requires 0 <= i < |ts| => AsWord(ts[i].a))
  }

  function WithRegs(regs: seq<int>, out: seq<int>): (r: seq<int>)
    requires |regs| == NUM_REGS && |out| == LAST_REG - FIRST_REG + 1
    ensures |r| == NUM_REGS
  {
    regs[..FIRST_REG] + out + regs[LAST_REG + 1..]
  }

  method CheckRegs(ts: seq<Term>, regs: array<int>) returns (ok: bool)
    requires regs.Length == NUM_REGS
    ensures ok <==> |ts| == LAST_REG - FIRST_REG + 1 && AllAddresses(ts)
                    && forall i {:trigger ts[i]} | 0 <= i < |ts| :: AsWord(ts[i].a) == regs[FIRST_REG + i]
  {
    var i := 0;
    while i <= LAST_REG - FIRST_REG
      invariant 0 <= i <= LAST_REG - FIRST_REG + 1 && i <= |ts|
      invariant forall j {:trigger ts[j]} | 0 <= j < i :: ts[j].Address? && AsWord(ts[j].a) == regs[FIRST_REG + j]
    {
      if i >= |ts| || !ts[i].Address? || AsWord(ts[i].a) != regs[FIRST_REG + i] {
        return false;
      }
      i := i + 1;
    }
    ok := |ts| == i;
  }

  method SetRegs(ts: seq<Term>, regs: array<int>) returns (ok: bool)
    requires regs.Length == NUM_REGS
    modifies regs
    ensures ok <==> |ts| == LAST_REG - FIRST_REG + 1 && AllAddresses(ts)
    ensures ok ==> regs[..] == WithRegs(old(regs[..]), RegsOf(ts))
  {
    var i := 0;
    while i <= LAST_REG - FIRST_REG
      invariant 0 <= i <= LAST_REG - FIRST_REG + 1 && i <= |ts|
      invariant forall j {:trigger ts[j]} | 0 <= j < i :: ts[j].Address? && regs[FIRST_REG + j] == AsWord(ts[j].a)
      invariant regs[..FIRST_REG] == old(regs[..FIRST_REG]) && regs[LAST_REG + 1..] == old(regs[LAST_REG + 1..])
    {
      if i >= |ts| || !ts[i].Address? {
        return false;
      }
      regs[FIRST_REG + i] := AsWord(ts[i].a);
      i := i + 1;
    }
    ok := |ts| == i;
    if ok {
      var r := RegsOf(ts);
      forall k | 0 <= k < NUM_REGS ensures regs[k] == WithRegs(old(regs[..]), r)[k] {
        if FIRST_REG <= k <= LAST_REG {
          assert ts[k - FIRST_REG].Address?;
        } else if k < FIRST_REG {
          assert regs[k] == regs[..FIRST_REG][k];
        } else {
          assert regs[k] == regs[LAST_REG + 1..][k - LAST_REG - 1];
        }
      }
    }
  }

  /** eio_read_trace on a term that was read: it ends the program unless the term is a transaction whose
      inputs agree with the machine; then the outputs are what the machine gets. */
  method ReadTrace(mem: Memory, t: Term, icnt: int, pc: nat, regs: array<int>) returns (ok: bool, brk: nat)
    requires mem.Valid() && regs.Length == NUM_REGS && regs !in mem.repr
    requires t.List? ==> forall i {:trigger t.items[i]} | 0 <= i < |t.items| && t.items[i].List? ::
             Bounded(t.items[i].items)
    modifies mem, mem.ptab, mem.repr, regs
    ensures ok ==> mem.Valid() && fresh(mem.repr - old(mem.repr))
    ensures ok <==> IsTransaction(t) && InputsAgree(t, icnt, pc, old(regs[..]), old(Image(mem)))
    ensures ok ==> && Fits(BlobsOf(t.items[5].items))
                   && Image(mem) == PutAll(old(Image(mem)), BlobsOf(t.items[5].items))
                   && regs[..] == WithRegs(old(regs[..]), RegsOf(t.items[4].items[1..]))
                   && brk == Wrap(t.items[4].items[0].a)
  {
    ok, brk := false, 0;
    if !(t.List? && |t.items| == 6 && t.items[0].Integer? && t.items[1].Address?
         && t.items[2].List? && t.items[3].List? && t.items[4].List? && t.items[5].List?) {
      return;
    }
    if AsCounter(t.items[0].v) != icnt || Wrap(t.items[1].a) != pc {
      return;
    }
    ok := CheckRegs(t.items[2].items, regs);
    if !ok {
      return;
    }
    ok := CheckInputs(mem, t.items[3].items);
    if !ok {
      return;
    }
    var outRegs := t.items[4].items;
    if outRegs == [] || !outRegs[0].Address? {
      return false, 0;
    }
    brk := Wrap(outRegs[0].a);
    ok := SetRegs(outRegs[1..], regs);
    if !ok {
      return;
    }
    ok := WriteOutputs(mem, t.items[5].items);
  }

  // ---------------------------------------------------------------- recording and then replaying

  /** The reader does not see how much room a blob had. */
  lemma {:induction false} TermsOfBlobs(bs: seq<Blob>, m: Flat)
    requires Fits(bs)
    ensures AllMemTerms(MemTerms(bs)) && Bounded(MemTerms(bs)) && Fits(BlobsOf(MemTerms(bs)))
    ensures Matches(m, BlobsOf(MemTerms(bs))) <==> Matches(m, bs)
    ensures PutAll(m, BlobsOf(MemTerms(bs))) == PutAll(m, bs)
  {
    var cs := BlobsOf(MemTerms(bs));
    forall i {:trigger cs[i]} | 0 <= i < |bs| ensures cs[i].addr == bs[i].addr && cs[i].data == bs[i].data {
      assert MemTerms(bs)[i] == MemTerm(bs[i]);
    }
    SamePuts(bs, cs, m);
    assert forall i | 0 <= i < |bs| :: Get(m, bs[i].addr, |bs[i].data|) == Get(m, cs[i].addr, |cs[i].data|);
    if Matches(m, cs) {
      forall i | 0 <= i < |bs| ensures Get(m, bs[i].addr, |bs[i].data|) == bs[i].data {
        assert Get(m, cs[i].addr, |cs[i].data|) == cs[i].data;
      }
    }
  }

  lemma {:induction false} SamePuts(bs: seq<Blob>, cs: seq<Blob>, m: Flat)
    requires Fits(bs) && Fits(cs) && |bs| == |cs|
    requires forall i {:trigger bs[i]} {:trigger cs[i]} | 0 <= i < |bs| ::
             cs[i].addr == bs[i].addr && cs[i].data == bs[i].data
    ensures PutAll(m, bs) == PutAll(m, cs)
  {
    hide Put;
    if bs != [] {
      SamePuts(bs[..|bs| - 1], cs[..|cs| - 1], m);
    }
  }

  /** Registers hold words. */
  ghost predicate AllWords(regs: seq<int>) {
    forall i {:trigger regs[i]} | 0 <= i < |regs| :: IsWord(regs[i])
  }

  lemma {:induction false} WrapSmall(a: nat)
    requires a < SPACE
    ensures Wrap(a) == a
  {
  }

  function InRegs(regs: seq<int>): (r: seq<int>)
    requires |regs| == NUM_REGS
    ensures |r| == LAST_REG - FIRST_REG + 1
  {
    regs[FIRST_REG..LAST_REG + 1]
  }

  lemma {:induction false} RegTermsBack(rs: seq<int>)
    requires AllWords(rs)
    ensures AllAddresses(RegTerms(rs)) && RegsOf(RegTerms(rs)) == rs
  {
    forall i | 0 <= i < |rs| ensures RegsOf(RegTerms(rs))[i] == rs[i] {
      assert RegTerms(rs)[i] == Address(Wide(rs[i]));
      WordBack(rs[i]);
    }
  }

  /** The registers of two machines that a transaction compares. */
  lemma {:induction false} InRegsAgree(regs: seq<int>, regs2: seq<int>)
    requires |regs| == |regs2| == NUM_REGS && AllWords(regs)
    ensures |RegTerms(InRegs(regs))| == LAST_REG - FIRST_REG + 1
    ensures var ts := RegTerms(InRegs(regs));
      (forall i {:trigger ts[i]} | 0 <= i <= LAST_REG - FIRST_REG :: AsWord(ts[i].a) == regs2[FIRST_REG + i])
      <==> InRegs(regs2) == InRegs(regs)
  {
    hide AsWord, Wide;
    var ts := RegTerms(InRegs(regs));
    forall i {:trigger ts[i]} | 0 <= i < |ts| ensures AsWord(ts[i].a) == InRegs(regs)[i] {
      assert InRegs(regs)[i] == regs[FIRST_REG + i];
      WordBack(regs[FIRST_REG + i]);
    }
    forall i {:trigger ts[i]} | 0 <= i < |ts| ensures InRegs(regs2)[i] == regs2[FIRST_REG + i] {
    }
    if forall i {:trigger ts[i]} | 0 <= i <= LAST_REG - FIRST_REG :: AsWord(ts[i].a) == regs2[FIRST_REG + i] {
      forall i | 0 <= i < |ts| ensures InRegs(regs2)[i] == InRegs(regs)[i] {
        assert ts[i].Address?;
      }
    }
  }

  /** A record made at one instruction of one machine is accepted at one of another exactly if instruction
      count, PC, registers R2 to R7 and every byte that was read are the same; then every write is done, and
      the registers and the break point are those of the outcome. */
  lemma {:induction false} TransactionReplays(icnt: int, pc: nat, regs: seq<int>, m: Flat, xs: seq<Access>, brk: nat,
                                              regs': seq<int>, icnt2: int, pc2: nat, regs2: seq<int>, m2: Flat)
    requires Addressed(xs) && ReadsFirst(xs) && |regs| == |regs'| == |regs2| == NUM_REGS && AllWords(regs)
             && AllWords(regs') && IsCounter(icnt) && pc < SPACE && brk < SPACE
    ensures var t := Transaction(icnt, pc, InRegs(regs), Inputs(m, xs), brk, InRegs(regs'), Outputs(xs));
      && IsTransaction(t) && Bounded(t.items[3].items) && Bounded(t.items[5].items)
      && (InputsAgree(t, icnt2, pc2, regs2, m2) <==>
            icnt2 == icnt && pc2 == pc && InRegs(regs2) == InRegs(regs) && SeenIn(m, m2, xs))
      && Fits(BlobsOf(t.items[5].items)) && PutAll(m2, BlobsOf(t.items[5].items)) == AllPut(m2, xs)
      && RegsOf(t.items[4].items[1..]) == InRegs(regs') && Wrap(t.items[4].items[0].a) == brk
  {
    hide Fits, Matches, PutAll, AllPut, Inputs, Outputs, Addressed, ReadsFirst, SeenIn, Bounded, AllMemTerms, Wide;
    hide AsWord, AsCounter, Wrap, InRegs;
    RecordReplays(m, m2, xs);
    TermsOfBlobs(Inputs(m, xs), m2);
    TermsOfBlobs(Outputs(xs), m2);
    InRegsAgree(regs, regs2);
    RegTermsBack(InRegs(regs)) by { InRegsAreWords(regs); }
    RegTermsBack(InRegs(regs')) by { InRegsAreWords(regs'); }
    CounterBack(icnt);
    WrapSmall(pc);
    WrapSmall(brk);
    var t := Transaction(icnt, pc, InRegs(regs), Inputs(m, xs), brk, InRegs(regs'), Outputs(xs));
    assert t.items[4].items[1..] == RegTerms(InRegs(regs'));
  }

  lemma {:induction false} InRegsAreWords(regs: seq<int>)
    requires |regs| == NUM_REGS && AllWords(regs)
    ensures AllWords(InRegs(regs))
  {
  }

  /** eio_write_trace for a system call that makes the accesses `xs` and leaves the registers `regs'`. */
  method WriteTrace(mem: Memory, icnt: int, pc: nat, regs: seq<int>, xs: seq<Access>, regs': seq<int>, brk: nat)
      returns (t: Option<Term>)
    requires mem.Valid() && |regs| == |regs'| == NUM_REGS && Addressed(xs)
    modifies mem, mem.ptab, mem.repr
    ensures t.Some? <==> ReadsFirst(xs)
    ensures t.Some? ==> && mem.Valid() && fresh(mem.repr - old(mem.repr)) && Image(mem) == Ran(old(Image(mem)), xs)
                        && t.value == Transaction(icnt, pc, InRegs(regs), Inputs(old(Image(mem)), xs),
                                                  brk, InRegs(regs'), Outputs(xs))
  {
    hide Memory.Valid, Image, Ran, Inputs, Outputs, Addressed, ReadsFirst;
    var r := new Recorder(mem);
    var fatal := r.Perform(xs);
    if fatal {
      return None;
    }
    var input := r.input.Blobs();
    var output := r.output.Blobs();
    t := Some(Transaction(icnt, pc, InRegs(regs), input, brk, InRegs(regs'), output));
  }

  /** A system call recorded on one machine and replayed on another.  The replay goes through exactly if the
      other is at the same instruction with the same R2 to R7 and holds every byte that the call read; then
      every address that the call wrote has the byte of its last write, and break point and registers are
      those of the call.  A call that accesses memory byte by byte leaves the same bytes there on both. */
  method RecordThenReplay(first: Memory, icnt: int, pc: nat, regs: seq<int>, xs: seq<Access>, regs': seq<int>, brk: nat,
                          second: Memory, icnt2: int, pc2: nat, regs2: array<int>)
    returns (ok: bool, brk': nat)
    requires first.Valid() && second.Valid()
    requires {first, first.ptab as object} + first.repr !! {second, second.ptab as object} + second.repr
    requires regs2 !in second.repr && regs2 !in first.repr && regs2.Length == |regs| == |regs'| == NUM_REGS
             && AllWords(regs) && AllWords(regs') && IsCounter(icnt) && pc < SPACE && brk < SPACE
    requires Addressed(xs) && ReadsFirst(xs)
    modifies first, first.ptab, first.repr, second, second.ptab, second.repr, regs2
    ensures ok <==> icnt2 == icnt && pc2 == pc && InRegs(old(regs2[..])) == InRegs(regs)
                    && SeenIn(old(Image(first)), old(Image(second)), xs)
    ensures ok ==> first.Valid() && second.Valid()
    ensures ok ==> brk' == brk && regs2[..] == WithRegs(old(regs2[..]), InRegs(regs'))
    ensures ok ==> Image(first) == Ran(old(Image(first)), xs) && Image(second) == AllPut(old(Image(second)), xs)
    ensures ok && Bytewise(xs) ==> SameWrites(xs, old(Image(second)), Image(first), Image(second))
    ensures ok && old(Image(first)) == old(Image(second)) ==>
              (Image(first) == Image(second) <==> WritesHeld(old(Image(first)), xs))
  {
    hide Memory.Valid, Image, Ran, AllPut, Inputs, Outputs, Addressed, ReadsFirst, SeenIn, WritesHeld, Bytewise;
    hide IsTransaction, InputsAgree, Fits, PutAll, RegsOf, Wide, AsCounter, Wrap, SameWrites, InRegs, WithRegs;
    ghost var m, m2 := Image(first), Image(second);
    TransactionReplays(icnt, pc, regs, m, xs, brk, regs', icnt2, pc2, regs2[..], m2);
    OutputsReplayIff(m, xs);
    if Bytewise(xs) {
      BytesWritten(m, m2, xs);
    }
    var t := WriteTrace(first, icnt, pc, regs, xs, regs', brk);
    assert Image(second) == m2 && second.Valid();
    ok, brk' := ReadTrace(second, t.value, icnt2, pc2, regs2);
  }

  /** Two memories hold the same bytes at all addresses that were written; the second is elsewhere as it was. */
  ghost predicate SameWrites(xs: seq<Access>, was: Flat, m: Flat, m2: Flat)
    requires Addressed(xs)
  {
    forall a: nat {:trigger m2[a]} | a < SPACE :: m2[a] == if LastTo(xs, a).Some? then m[a] else was[a]
  }

  lemma {:induction false} BytesWritten(m: Flat, m2: Flat, xs: seq<Access>)
    requires Addressed(xs) && Bytewise(xs)
    ensures SameWrites(xs, m2, Ran(m, xs), AllPut(m2, xs))
  {
    hide Ran, AllPut, LastTo, WritesHeld;
    BytesReplay(m, xs);
    OutputsReplayIff(m, xs);
    forall a: nat | a < SPACE ensures AllPut(m2, xs)[a] == if LastTo(xs, a).Some? then Ran(m, xs)[a] else m2[a] {
      AllPutAt(m, xs, a);
      AllPutAt(m2, xs, a);
    }
  }

  /** A machine that starts alike ends alike: what the other machine has read, seen and written is its own. */
  lemma {:induction false} SameStartSameEnd(m: Flat, xs: seq<Access>, regs: seq<int>, regs': seq<int>)
    requires Addressed(xs) && Bytewise(xs) && |regs| == |regs'| == NUM_REGS
    requires forall i {:trigger regs'[i]} | 0 <= i < NUM_REGS && !(FIRST_REG <= i <= LAST_REG) :: regs'[i] == regs[i]
    ensures SeenIn(m, m, xs) && AllPut(m, xs) == Ran(m, xs) && WithRegs(regs, InRegs(regs')) == regs'
  {
    hide Ran, AllPut, WritesHeld, SeenIn, ReadsSeen;
    BytesReplay(m, xs);
    SeenInSame(m, xs);
    OutputsReplayIff(m, xs);
  }
}
