/** The three prefetchers of lab4/cache.c: which blocks they ask for, and what their tables learn. */
module Prefetchers {
  import opened Bits

  const SPACE := 0x1_0000_0000

  // ---------------------------------------------------------------- next line

  function BlockBase(bsize: nat, addr: nat): nat
    requires bsize > 0
  {
    addr / bsize * bsize
  }

  /** next_line_prefetcher, before the block's base address is taken */
  function NextLine(bsize: nat, addr: nat): nat { (addr + bsize) % SPACE }

  /** That is the next block, round the end of the space. */
  lemma {:induction false} NextLineIsNext(bsize: nat, addr: nat)
    requires bsize > 0 && SPACE % bsize == 0 && addr < SPACE
    ensures BlockBase(bsize, NextLine(bsize, addr)) == (BlockBase(bsize, addr) + bsize) % SPACE
  {
    var q, n := addr / bsize, SPACE / bsize;
    Quotients(bsize, addr);
    NextBase(bsize, q, addr % bsize, n);
  }

  lemma {:induction false} Quotients(b: nat, a: nat)
    requires b > 0 && SPACE % b == 0 && a < SPACE
    ensures a == a / b * b + a % b && SPACE / b * b == SPACE && a / b < SPACE / b
  {
    MultipleBelow(a / b * b, b, SPACE) by {
      DivModUnique(a / b, 0, b);
    }
  }

  lemma {:induction false} NextBase(b: nat, q: nat, r: nat, n: nat)
    requires b > 0 && r < b && q < n && n * b == SPACE
    ensures (q * b + r + b) % SPACE / b * b == (q * b + b) % SPACE
  {
    var base, x := (q + 1) * b, q * b + r + b;
    assert base == q * b + b && x == base + r;
    if q + 1 < n {
      MulStep(q + 1, n, b);
      Reduced(base);
      Reduced(x);
      DivModUnique(q + 1, r, b);
    } else {
      assert base == SPACE;
      Reduced(0);
      Reduced(r);
      DivModUnique(0, r, b);
    }
  }

  /** Which of `n` blocks number `q` is, one step round either end. */
  function Round(q: int, n: nat): nat
    requires n > 0 && -1 <= q <= n
  {
    if q == -1 then n - 1 else if q == n then 0 else q
  }

  lemma {:induction false} BlockRound(b: nat, q: int, r: nat, n: nat, x: int)
    requires r < b && n > 0 && -1 <= q <= n && n * b == SPACE && x == q * b + r
    ensures BlockBase(b, x % SPACE) == Round(q, n) * b
  {
    var p := Round(q, n);
    MulStep(p, n, b);
    Reduced(p * b + r);
    DivModUnique(p, r, b);
    if q == -1 {
      assert (n - 1) * b == n * b - b;
      assert x == p * b + r - SPACE;
    } else if q == n {
      assert x == SPACE + r && p * b == 0;
    }
  }

  lemma {:induction false} Reduced(x: nat)
    requires x < SPACE
    ensures x % SPACE == x && (SPACE + x) % SPACE == x && (x - SPACE) % SPACE == x
  {
  }

  // ---------------------------------------------------------------- tables indexed by the PC

  /** A memory instruction and the address it used. */
  datatype Use = Use(pc: nat, addr: nat)

  function Index(n: nat, pc: nat): (i: nat)
    requires n > 0
    ensures i < n
  {
    pc / 8 % n
  }

  /** A table after some uses, each of which advances its own entry. */
  function TableRun<E>(step: (E, Use) -> E, table: seq<E>, us: seq<Use>): (r: seq<E>)
    requires table != []
    ensures |r| == |table|
  {
    if us == [] then table else
    var p, u := TableRun(step, table, us[..|us| - 1]), us[|us| - 1];
    var i := Index(|table|, u.pc);
    p[i := step(p[i], u)]
  }

  function EntryRun<E>(step: (E, Use) -> E, e: E, us: seq<Use>): E {
    if us == [] then e else step(EntryRun(step, e, us[..|us| - 1]), us[|us| - 1])
  }

  lemma {:induction false} EntryRunSplit<E>(step: (E, Use) -> E, e: E, us: seq<Use>, k: nat)
    requires k <= |us|
    ensures EntryRun(step, e, us) == EntryRun(step, EntryRun(step, e, us[..k]), us[k..])
  {
    if k == |us| {
      assert us[..k] == us && us[k..] == [];
    } else {
      var p := us[..|us| - 1];
      EntryRunSplit(step, e, p, k);
      assert p[..k] == us[..k] && p[k..] == us[k..][..|us[k..]| - 1];
    }
  }

  function Own(us: seq<Use>, pc: nat): (r: seq<Use>)
    ensures forall i {:trigger r[i]} | 0 <= i < |r| :: r[i].pc == pc
  {
    if us == [] then [] else
    Own(us[..|us| - 1], pc) + if us[|us| - 1].pc == pc then [us[|us| - 1]] else []
  }

  /** No other instruction of the trace has the entry of this one. */
  ghost predicate Unaliased(n: nat, us: seq<Use>, pc: nat)
    requires n > 0
  {
    forall i {:trigger us[i]} | 0 <= i < |us| :: us[i].pc / 8 % n == pc / 8 % n ==> us[i].pc == pc
  }

  /** Then the entry is what its own uses make of it. */
  lemma {:induction false} Alone<E>(step: (E, Use) -> E, table: seq<E>, us: seq<Use>, pc: nat)
    requires table != [] && Unaliased(|table|, us, pc)
    ensures TableRun(step, table, us)[Index(|table|, pc)] == EntryRun(step, table[Index(|table|, pc)], Own(us, pc))
  {
    if us != [] {
      var p := us[..|us| - 1];
      assert forall i | 0 <= i < |p| :: p[i] == us[i];
      Alone(step, table, p, pc);
      if us[|us| - 1].pc == pc {
        assert Own(us, pc)[..|Own(us, pc)| - 1] == Own(p, pc);
      } else {
        assert Own(us, pc) == Own(p, pc);
      }
    }
  }

  // ---------------------------------------------------------------- stride

  datatype Phase = Init | Steady | Transient | NoPred

  datatype RptEntry = RptEntry(tag: nat, prev: nat, stride: int, phase: Phase)

  const FRESH_RPT := RptEntry(0, 0, 0, Init)

  /** The switch of stride_prefetcher, for a new stride `d`. */
  function Turned(x: (Phase, int), d: int): (Phase, int) {
    var (phase, stride) := x;
    match phase
    case Init => if d == stride then (Steady, stride) else (Transient, d)
    case Steady => if d != stride then (Init, stride) else (Steady, stride)
    case Transient => if d == stride then (Steady, stride) else (NoPred, d)
    case NoPred => if d == stride then (Transient, stride) else (NoPred, d)
  }

  function RptStep(e: RptEntry, u: Use): RptEntry {
    if u.pc == e.tag then
      var (phase, stride) := Turned((e.phase, e.stride), u.addr - e.prev);
      RptEntry(e.tag, u.addr, stride, phase)
    else RptEntry(u.pc, u.addr, 0, Init)
  }

  /** What is asked for, given the entry before the use. */
  function StrideTargets(e: RptEntry, u: Use): seq<nat> {
    if u.pc == e.tag && !RptStep(e, u).phase.NoPred?
    then [(u.addr + RptStep(e, u).stride) % SPACE]
    else []
  }

  /** The last address, and the stride with which use `i` came. */
  function PrevAddr(prev: nat, us: seq<Use>): nat { if us == [] then prev else us[|us| - 1].addr }

  function StrideAt(prev: nat, us: seq<Use>, i: nat): int
    requires i < |us|
  {
    us[i].addr - PrevAddr(prev, us[..i])
  }

  ghost predicate OwnUses(e: RptEntry, us: seq<Use>) { forall i {:trigger us[i]} | 0 <= i < |us| :: us[i].pc == e.tag }

  lemma {:induction false} RptLast(e: RptEntry, us: seq<Use>)
    requires OwnUses(e, us)
    ensures var r := EntryRun(RptStep, e, us); r.tag == e.tag && r.prev == PrevAddr(e.prev, us)
    ensures us != [] ==>
      var r, p := EntryRun(RptStep, e, us), EntryRun(RptStep, e, us[..|us| - 1]);
      && OwnUses(e, us[..|us| - 1]) && p.tag == e.tag
      && (r.phase, r.stride) == Turned((p.phase, p.stride), StrideAt(e.prev, us, |us| - 1))
  {
    if us != [] {
      var p := us[..|us| - 1];
      assert forall i | 0 <= i < |p| :: p[i] == us[i];
      RptLast(e, p);
    }
  }

  /** All of the uses come with the same stride. */
  ghost predicate Strided(prev: nat, us: seq<Use>, d: int) {
    forall i {:trigger us[i]} | 0 <= i < |us| :: StrideAt(prev, us, i) == d
  }

  /** How many uses of one stride it takes to be steady on it. */
  function Delay(phase: Phase, stride: int, d: int): nat {
    if stride == d then (if phase.Steady? then 0 else if phase.NoPred? then 2 else 1)
    else if phase.Init? then 2 else 3
  }

  /** Strides do not depend on later uses. */
  lemma {:induction false} StrideFront(prev: nat, us: seq<Use>)
    requires us != []
    ensures var p := us[..|us| - 1];
      forall i: nat {:trigger p[i]} {:trigger us[i]} {:trigger StrideAt(prev, p, i)} | i < |p| ::
        p[i] == us[i] && StrideAt(prev, p, i) == StrideAt(prev, us, i)
  {
    var p := us[..|us| - 1];
    forall i: nat {:trigger p[i]} | i < |p| ensures p[i] == us[i] && StrideAt(prev, p, i) == StrideAt(prev, us, i) {
      assert p[..i] == us[..i];
    }
  }

  lemma {:induction false} StridedFront(prev: nat, us: seq<Use>, d: int)
    requires Strided(prev, us, d) && us != []
    ensures Strided(prev, us[..|us| - 1], d) && StrideAt(prev, us, |us| - 1) == d
  {
    hide StrideAt;
    StrideFront(prev, us);
    assert us[|us| - 1] == us[|us| - 1];
  }

  lemma {:induction false} StridedStates(e: RptEntry, us: seq<Use>, d: int)
    requires OwnUses(e, us) && Strided(e.prev, us, d)
    ensures var r, x := EntryRun(RptStep, e, us), (e.phase, e.stride);
      (r.phase, r.stride) == if |us| == 0 then x else if |us| == 1 then Turned(x, d)
                             else if |us| == 2 then Turned(Turned(x, d), d) else (Steady, d)
  {
    if us != [] {
      StridedFront(e.prev, us, d);
      RptLast(e, us);
      StridedStates(e, us[..|us| - 1], d);
    }
  }

  /** Whatever an entry holds, a run of one stride makes it steady on that stride exactly from a certain use
      on, at latest the third; and then the block a stride ahead is asked for. */
  lemma {:induction false} LocksOn(e: RptEntry, us: seq<Use>, d: int)
    requires OwnUses(e, us) && Strided(e.prev, us, d)
    ensures var r := EntryRun(RptStep, e, us); r.phase.Steady? && r.stride == d <==> |us| >= Delay(e.phase, e.stride, d)
    ensures |us| >= Delay(e.phase, e.stride, d) && us != [] ==>
              StrideTargets(EntryRun(RptStep, e, us[..|us| - 1]), us[|us| - 1]) == [(us[|us| - 1].addr + d) % SPACE]
  {
    StridedStates(e, us, d);
    RptLast(e, us);
  }

  /** Uses off the stride stand alone. */
  ghost predicate LoneJumps(prev: nat, us: seq<Use>, d: int) {
    && (forall i: nat {:trigger us[i]} | i + 1 < |us| && StrideAt(prev, us, i) != d :: StrideAt(prev, us, i + 1) == d)
  }

  lemma {:induction false} LoneJumpsFront(prev: nat, us: seq<Use>, d: int)
    requires LoneJumps(prev, us, d) && us != []
    ensures LoneJumps(prev, us[..|us| - 1], d)
    ensures |us| > 1 ==> StrideAt(prev, us[..|us| - 1], |us| - 2) == StrideAt(prev, us, |us| - 2)
    ensures |us| > 1 && StrideAt(prev, us, |us| - 2) != d ==> StrideAt(prev, us, |us| - 1) == d
  {
    hide StrideAt;
    StrideFront(prev, us);
    if |us| > 1 {
      assert us[|us| - 2] == us[..|us| - 1][|us| - 2];
    }
  }

  /** A steady entry keeps its stride, and goes on asking for the block a stride ahead, as long as jumps come
      one at a time: as between the rows that an inner loop walks. */
  lemma {:induction false} JumpsForgiven(e: RptEntry, us: seq<Use>, d: int)
    requires e.phase.Steady? && e.stride == d && OwnUses(e, us) && LoneJumps(e.prev, us, d)
    ensures var r := EntryRun(RptStep, e, us);
      r.stride == d && r.phase == if us == [] || StrideAt(e.prev, us, |us| - 1) == d then Steady else Init
    ensures us != [] ==> StrideTargets(EntryRun(RptStep, e, us[..|us| - 1]), us[|us| - 1])
                         == [(us[|us| - 1].addr + d) % SPACE]
  {
    if us != [] {
      LoneJumpsFront(e.prev, us, d);
      RptLast(e, us);
      JumpsForgiven(e, us[..|us| - 1], d);
    }
  }

  // ---------------------------------------------------------------- what is answered, from the addresses alone

  /** What is asked for at use `i` of an entry. */
  function Answer(e: RptEntry, us: seq<Use>, i: nat): seq<nat>
    requires i < |us|
  {
    StrideTargets(EntryRun(RptStep, e, us[..i]), us[i])
  }

  lemma {:induction false} AnswerFront(e: RptEntry, us: seq<Use>, i: nat)
    requires i + 1 < |us|
    ensures Answer(e, us[..|us| - 1], i) == Answer(e, us, i)
  {
    assert us[..|us| - 1][..i] == us[..i];
  }

  /** Whatever an entry holds, a stride that repeats the one before is answered with the block as far ahead. */
  lemma {:induction false} RepeatIsAnswered(e: RptEntry, us: seq<Use>, i: nat)
    requires OwnUses(e, us) && 0 < i < |us| && StrideAt(e.prev, us, i) == StrideAt(e.prev, us, i - 1)
    ensures Answer(e, us, i) == [(us[i].addr + StrideAt(e.prev, us, i)) % SPACE]
  {
    var p, q := us[..i], us[..i + 1];
    assert q[..i] == p && p[..i - 1] == us[..i - 1] && forall j | 0 <= j < |q| :: q[j] == us[j];
    RptLast(e, q);
    RptLast(e, p);
    assert StrideAt(e.prev, q, i) == StrideAt(e.prev, us, i)
           && StrideAt(e.prev, p, i - 1) == StrideAt(e.prev, us, i - 1);
  }

  /** The stride before use `i`, starting with the one that the entry holds. */
  function StrideBefore(e: RptEntry, us: seq<Use>, i: nat): int
    requires i <= |us|
  {
    if i == 0 then e.stride else StrideAt(e.prev, us, i - 1)
  }

  /** No two strides in a row are the same. */
  ghost predicate Erratic(e: RptEntry, us: seq<Use>) {
    forall i: nat {:trigger StrideAt(e.prev, us, i)} | i < |us| :: StrideAt(e.prev, us, i) != StrideBefore(e, us, i)
  }

  /** Nothing is asked for at any of the uses. */
  ghost predicate Unanswered(e: RptEntry, us: seq<Use>) {
    forall i: nat {:trigger Answer(e, us, i)} | i < |us| :: Answer(e, us, i) == []
  }

  lemma {:induction false} UnansweredFront(e: RptEntry, us: seq<Use>)
    requires us != []
    ensures var p := us[..|us| - 1];
      Unanswered(e, us) <==> Unanswered(e, p) && Answer(e, us, |p|) == []
  {
    hide Answer;
    var p := us[..|us| - 1];
    forall i: nat | i < |p| ensures Answer(e, p, i) == Answer(e, us, i) {
      AnswerFront(e, us, i);
    }
  }

  lemma {:induction false} ErraticFront(e: RptEntry, us: seq<Use>)
    requires us != []
    ensures var p := us[..|us| - 1];
      && (Erratic(e, us) <==> Erratic(e, p) && StrideAt(e.prev, us, |p|) != StrideBefore(e, us, |p|))
      && StrideBefore(e, p, |p|) == StrideBefore(e, us, |p|)
  {
    hide StrideAt;
    StrideFront(e.prev, us);
    var p := us[..|us| - 1];
    assert us[|p|] == us[|us| - 1];
    if p != [] {
      assert p[|p| - 1] == us[|p| - 1];
    }
    if Erratic(e, us) {
      forall i: nat {:trigger StrideAt(e.prev, p, i)} | i < |p|
          ensures StrideAt(e.prev, p, i) != StrideBefore(e, p, i) {
        assert us[i] == p[i];
        assert i > 0 ==> p[i - 1] == us[i - 1];
      }
    }
    if Erratic(e, p) && StrideAt(e.prev, us, |p|) != StrideBefore(e, us, |p|) {
      forall i: nat {:trigger StrideAt(e.prev, us, i)} | i < |us|
          ensures StrideAt(e.prev, us, i) != StrideBefore(e, us, i) {
        if i < |p| {
          assert us[i] == p[i];
          assert i > 0 ==> p[i - 1] == us[i - 1];
        }
      }
    }
  }

  /** An entry that has just been without a constant stride gives no answer exactly as long as no stride is
      repeated; the first repeated one is answered with the block as far ahead. */
  lemma {:induction false} ErraticUnanswered(e: RptEntry, us: seq<Use>)
    requires (e.phase.NoPred? || e.phase.Transient?) && OwnUses(e, us)
    ensures Erratic(e, us) <==> Unanswered(e, us)
    ensures us != [] && Erratic(e, us[..|us| - 1])
            && StrideAt(e.prev, us, |us| - 1) == StrideBefore(e, us, |us| - 1) ==>
              Answer(e, us, |us| - 1) == [(us[|us| - 1].addr + StrideAt(e.prev, us, |us| - 1)) % SPACE]
    ensures Erratic(e, us) ==>
              var r := EntryRun(RptStep, e, us);
              r.stride == StrideBefore(e, us, |us|) && (r.phase.NoPred? || (us == [] && r.phase.Transient?))
  {
    hide StrideAt, Erratic, Unanswered;
    if us == [] {
      NothingErratic(e);
    } else {
      ErraticFront(e, us);
      UnansweredFront(e, us);
      RptLast(e, us);
      ErraticUnanswered(e, us[..|us| - 1]);
    }
  }

  lemma {:induction false} NothingErratic(e: RptEntry)
    ensures Erratic(e, []) && Unanswered(e, [])
  {
  }

  /** The entry of an instruction after its first use. */
  function Claimed(u: Use): RptEntry { RptEntry(u.pc, u.addr, 0, Init) }

  /** After its first use an instruction is answered at once, at its second use, and then at every use of a
      constant stride. */
  lemma {:induction false} ClaimedAnswers(first: Use, us: seq<Use>, d: int)
    requires us != [] && OwnUses(Claimed(first), us)
    ensures var e := Claimed(first);
      && Answer(e, us, 0) == [(us[0].addr + StrideAt(e.prev, us, 0)) % SPACE]
      && (Strided(e.prev, us, d) ==>
            forall i: nat {:trigger Answer(e, us, i)} | i < |us| :: Answer(e, us, i) == [(us[i].addr + d) % SPACE])
  {
    var e := Claimed(first);
    assert us[..0] == [];
    if Strided(e.prev, us, d) {
      forall i: nat {:trigger Answer(e, us, i)} | i < |us| ensures Answer(e, us, i) == [(us[i].addr + d) % SPACE] {
        assert us[i] == us[i];
        if i > 0 {
          assert us[i - 1] == us[i - 1];
          RepeatIsAnswered(e, us, i);
        }
      }
    }
  }

  /** None of the uses from the second on comes with the stride of the one before. */
  ghost predicate NeverRepeats(prev: nat, us: seq<Use>) {
    forall i: nat {:trigger StrideAt(prev, us, i)} | 0 < i < |us| :: StrideAt(prev, us, i) != StrideAt(prev, us, i - 1)
  }

  /** If the second use comes with a stride, the later ones are without answer exactly as long as none of them
      repeats a stride. */
  lemma {:induction false} ClaimedErratic(first: Use, us: seq<Use>)
    requires us != [] && OwnUses(Claimed(first), us) && us[0].addr != first.addr
    ensures NeverRepeats(first.addr, us)
            <==> forall i: nat {:trigger Answer(Claimed(first), us, i)} | 0 < i < |us| ::
                Answer(Claimed(first), us, i) == []
  {
    hide Erratic, Unanswered, NeverRepeats, StrideAt, Answer;
    var e := Claimed(first);
    var r := RptEntry(e.tag, us[0].addr, us[0].addr - first.addr, Transient);
    AfterSecond(first, us, r);
    ErraticUnanswered(r, us[1..]);
  }

  lemma {:induction false} AfterSecond(first: Use, us: seq<Use>, r: RptEntry)
    requires us != [] && OwnUses(Claimed(first), us) && us[0].addr != first.addr
    requires r == RptEntry(first.pc, us[0].addr, us[0].addr - first.addr, Transient)
    ensures OwnUses(r, us[1..])
    ensures NeverRepeats(first.addr, us) <==> Erratic(r, us[1..])
    ensures (forall i: nat {:trigger Answer(Claimed(first), us, i)} | 0 < i < |us| ::
            Answer(Claimed(first), us, i) == [])
            <==> Unanswered(r, us[1..])
  {
    var e, rest := Claimed(first), us[1..];
    assert us[..1] == [us[0]] && us[..1][..0] == [] && us[..0] == [];
    assert EntryRun(RptStep, e, us[..1]) == r;
    forall i: nat | i < |rest|
      ensures Answer(r, rest, i) == Answer(e, us, i + 1) && StrideAt(r.prev, rest, i) == StrideAt(e.prev, us, i + 1)
    {
      EntryRunSplit(RptStep, e, us[..i + 1], 1);
      assert us[..i + 1][..1] == us[..1] && us[..i + 1][1..] == rest[..i];
    }
    forall i: nat {:trigger Answer(e, us, i)} {:trigger StrideAt(e.prev, us, i)} | 0 < i < |us|
      ensures Answer(e, us, i) == Answer(r, rest, i - 1) && StrideAt(e.prev, us, i) == StrideAt(r.prev, rest, i - 1)
    {
      assert i - 1 < |rest|;
    }
    assert StrideAt(e.prev, us, 0) == r.stride;
  }

  /** In a table: an instruction that shares its entry with no other, and has not owned it before, gets no
      answer at its first use, and then those of its own uses alone, whatever else happens between. */
  lemma {:induction false} TableAnswers(table: seq<RptEntry>, us: seq<Use>, pc: nat)
    requires table != [] && us != [] && us[|us| - 1].pc == pc
    requires Unaliased(|table|, us, pc) && table[Index(|table|, pc)].tag != pc
    ensures var own := Own(us, pc);
      && own != [] && own[|own| - 1] == us[|us| - 1]
      && StrideTargets(TableRun(RptStep, table, us[..|us| - 1])[Index(|table|, pc)], us[|us| - 1])
         == if |own| == 1 then [] else Answer(Claimed(own[0]), own[1..], |own| - 2)
  {
    hide StrideTargets, RptStep;
    var p, own, i := us[..|us| - 1], Own(us, pc), Index(|table|, pc);
    assert Unaliased(|table|, p, pc) by {
      assert forall j | 0 <= j < |p| :: p[j] == us[j];
    }
    Alone(RptStep, table, p, pc);
    assert Own(p, pc) == own[..|own| - 1];
    if |own| == 1 {
      NewTag(table[i], own[0]);
    } else {
      FirstUse(table[i], own);
      EntryRunSplit(RptStep, table[i], Own(p, pc), 1);
      assert Own(p, pc)[..1] == own[..1] && Own(p, pc)[1..] == own[1..][..|own| - 2];
    }
  }

  lemma {:induction false} NewTag(e: RptEntry, u: Use)
    requires u.pc != e.tag
    ensures StrideTargets(e, u) == []
  {
  }

  /** Such an instruction is answered at each use of a constant stride from the second use on. */
  lemma {:induction false} TableAnswersStride(table: seq<RptEntry>, us: seq<Use>, pc: nat, d: int)
    requires table != [] && us != [] && us[|us| - 1].pc == pc
    requires Unaliased(|table|, us, pc) && table[Index(|table|, pc)].tag != pc
    requires var own := Own(us, pc); |own| >= 2 && Strided(own[0].addr, own[1..], d)
    ensures StrideTargets(TableRun(RptStep, table, us[..|us| - 1])[Index(|table|, pc)], us[|us| - 1])
            == [(us[|us| - 1].addr + d) % SPACE]
  {
    hide Strided, StrideTargets, Answer, Erratic, Unanswered;
    TableAnswers(table, us, pc);
    ClaimedAnswers(Own(us, pc)[0], Own(us, pc)[1..], d);
  }

  /** It is steady on the stride from the third use on. */
  lemma {:induction false} TableLocksOn(table: seq<RptEntry>, us: seq<Use>, pc: nat, d: int)
    requires table != [] && Unaliased(|table|, us, pc) && table[Index(|table|, pc)].tag != pc
    requires var own := Own(us, pc); |own| >= 3 && Strided(own[0].addr, own[1..], d)
    ensures var r := TableRun(RptStep, table, us)[Index(|table|, pc)];
      r.tag == pc && r.phase.Steady? && r.stride == d
  {
    hide Strided, StrideTargets;
    var own, i := Own(us, pc), Index(|table|, pc);
    Alone(RptStep, table, us, pc);
    EntryRunSplit(RptStep, table[i], own, 1);
    FirstUse(table[i], own);
    LocksOn(Claimed(own[0]), own[1..], d);
    RptLast(Claimed(own[0]), own[1..]);
  }

  lemma {:induction false} FirstUse(e: RptEntry, us: seq<Use>)
    requires us != [] && us[0].pc != e.tag
    ensures EntryRun(RptStep, e, us[..1]) == Claimed(us[0])
  {
    assert us[..1][..0] == [];
    assert EntryRun(RptStep, e, us[..1]) == RptStep(EntryRun(RptStep, e, us[..1][..0]), us[0]);
  }
}
