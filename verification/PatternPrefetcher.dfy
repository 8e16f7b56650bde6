/** The open-ended prefetcher of lab4/cache.c: a ring of recent addresses for each instruction, and a
    confidence that sets how many blocks ahead it asks for. */
module PatternPrefetcher {
  import opened Words
  import opened Prefetchers

  const TABLE_SIZE := 512
  const HISTORY := 8
  const MAX_DEGREE := 4
  const THETA := 3
  const TOLERANCE := 64

  type Ring = h: seq<nat> | |h| == HISTORY witness seq(HISTORY, _ => 0)

  datatype PltEntry = PltEntry(pc: nat, stride: int, confidence: int, history: Ring, idx: nat)

  const FRESH_PLT := PltEntry(0, 0, 0, seq(HISTORY, _ => 0), 0)

  function Abs(v: int): nat { if v < 0 then -v else v }

  // ---------------------------------------------------------------- one use

  /** detect_stride: the new stride, if it is near the one before; else 0. */
  function Detected(e: PltEntry, addr: nat): int {
    if e.idx < 2 then 0 else
    var addr1: int, addr2: int := e.history[(e.idx - 1) % HISTORY], e.history[(e.idx - 2) % HISTORY];
    var stride, before := AsWord(addr - addr1), AsWord(addr1 - addr2);
    if stride != 0 && (stride == before || Abs(stride - before) <= TOLERANCE) then stride else 0
  }

  function PltStep(e: PltEntry, u: Use): PltEntry {
    if e.pc != u.pc then PltEntry(u.pc, 0, 0, e.history[0 := u.addr], 1) else
    var d := Detected(e, u.addr);
    var h := e.history[e.idx % HISTORY := u.addr];
    if d != 0 then
      if e.stride == d && e.confidence < 7 then PltEntry(e.pc, d, e.confidence + 1, h, e.idx + 1)
      else PltEntry(e.pc, d, if e.confidence > 1 then e.confidence - 1 else 1, h, e.idx + 1)
    else PltEntry(e.pc, e.stride, if e.confidence > 0 then e.confidence - 1 else e.confidence, h, e.idx + 1)
  }

  /** calculate_degree */
  function Degree(confidence: int): nat {
    if confidence < THETA then 1
    else if confidence >= 6 then 4
    else if confidence >= 4 then 3
    else 2
  }

  /** A stride shorter than a block is a block long. */
  function Pace(bsize: nat, stride: int): int {
    if Abs(stride) >= bsize then stride else if stride > 0 then bsize else 0 - bsize
  }

  /** The addresses `n` paces ahead. */
  function Ahead(addr: nat, pace: int, n: nat): (ts: seq<nat>)
    ensures |ts| == n && forall i {:trigger ts[i]} | 0 <= i < n :: ts[i] == (addr + (i + 1) * pace) % SPACE
  {
    seq(n, i requires 0 <= i < n => (addr + (i + 1) * pace) % SPACE)
  }

  /** What is asked for, given the entry before the use. */
  function PatternTargets(bsize: nat, e: PltEntry, u: Use): seq<nat> {
    var e' := PltStep(e, u);
    if e.pc == u.pc && e'.confidence >= THETA && e'.stride != 0 then
      var degree := Degree(e'.confidence);
      Ahead(u.addr, Pace(bsize, e'.stride), if degree > MAX_DEGREE then MAX_DEGREE else degree)
    else []
  }

  // ---------------------------------------------------------------- any uses

  ghost predicate InBounds(e: PltEntry) { 0 <= e.confidence <= 7 && (e.confidence > 0 ==> e.stride != 0) }

  /** Whatever the uses, confidence stays in its range and comes with a stride: so neither the limit on the
      degree nor the test for a stride ever decides, and at most four blocks are asked for. */
  lemma {:induction false} ConfidenceBounded(bsize: nat, e: PltEntry, us: seq<Use>, u: Use)
    requires InBounds(e)
    ensures var r := EntryRun(PltStep, e, us);
      && InBounds(r) && |PatternTargets(bsize, r, u)| <= MAX_DEGREE
      && (PatternTargets(bsize, r, u) != [] <==> u.pc == r.pc && PltStep(r, u).confidence >= THETA)
      && (PatternTargets(bsize, r, u) != [] ==> |PatternTargets(bsize, r, u)| == Degree(PltStep(r, u).confidence))
  {
    hide Detected;
    if us != [] {
      ConfidenceBounded(bsize, e, us[..|us| - 1], us[|us| - 1]);
    }
  }

  ghost predicate AllOf(pc: nat, us: seq<Use>) { forall i {:trigger us[i]} | 0 <= i < |us| :: us[i].pc == pc }

  lemma {:induction false} AllOfFront(pc: nat, us: seq<Use>)
    requires AllOf(pc, us) && us != []
    ensures AllOf(pc, us[..|us| - 1]) && us[|us| - 1].pc == pc
  {
    var p := us[..|us| - 1];
    assert forall i | 0 <= i < |p| :: p[i] == us[i];
  }

  lemma {:induction false} StepRing(e: PltEntry, u: Use)
    requires e.pc == u.pc
    ensures PltStep(e, u).pc == e.pc && PltStep(e, u).idx == e.idx + 1
            && PltStep(e, u).history == e.history[e.idx % HISTORY := u.addr]
  {
    hide Detected;
  }

  lemma {:induction false} OtherSlot(j: nat, n: nat)
    requires j < n < j + HISTORY
    ensures j % HISTORY != n % HISTORY
  {
  }

  /** From the use that claimed the entry on, the ring holds the last eight addresses. */
  lemma {:induction false} RingRemembers(e: PltEntry, us: seq<Use>, pc: nat)
    requires e.pc != pc && AllOf(pc, us) && us != []
    ensures var r, n := EntryRun(PltStep, e, us), |us|;
      r.pc == pc && r.idx == n && forall j: nat {:trigger us[j]} | j < n <= j + HISTORY ::
          r.history[j % HISTORY] == us[j].addr
  {
    hide PltStep;
    AllOfFront(pc, us);
    var p, u := us[..|us| - 1], us[|us| - 1];
    if p == [] {
      assert EntryRun(PltStep, e, us) == PltStep(e, u);
      Claims(e, u);
    } else {
      RingRemembers(e, p, pc);
      StepRing(EntryRun(PltStep, e, p), u);
      var r := EntryRun(PltStep, e, us);
      forall j: nat {:trigger us[j]} | j < |us| <= j + HISTORY ensures r.history[j % HISTORY] == us[j].addr {
        if j < |p| {
          assert p[j] == us[j];
          OtherSlot(j, |p|);
        }
      }
    }
  }

  lemma {:induction false} Claims(e: PltEntry, u: Use)
    requires e.pc != u.pc
    ensures PltStep(e, u) == PltEntry(u.pc, 0, 0, e.history[0 := u.addr], 1)
  {
  }

  // ---------------------------------------------------------------- what the detector sees

  /** The stride with which use `i` comes. */
  function PaceAt(us: seq<Use>, i: nat): int
    requires 0 < i < |us|
  {
    AsWord(us[i].addr - us[i - 1].addr)
  }

  /** Use `i` goes on nearly as the one before did. */
  ghost predicate Continues(us: seq<Use>, i: nat)
    requires 0 < i < |us|
  {
    i >= 2 && PaceAt(us, i) != 0 && Abs(PaceAt(us, i) - PaceAt(us, i - 1)) <= TOLERANCE
  }

  /** Once an instruction has claimed its entry, a stride is detected exactly if it is within the tolerance of
      the one before. */
  lemma {:induction false} Detects(e: PltEntry, us: seq<Use>, pc: nat)
    requires e.pc != pc && AllOf(pc, us) && |us| > 1
    ensures Detected(EntryRun(PltStep, e, us[..|us| - 1]), us[|us| - 1].addr)
            == if Continues(us, |us| - 1) then PaceAt(us, |us| - 1) else 0
  {
    hide AsWord, EntryRun;
    AllOfFront(pc, us);
    var p, n := us[..|us| - 1], |us|;
    RingRemembers(e, p, pc);
    assert p[n - 2] == us[n - 2];
    if n > 2 {
      assert p[n - 3] == us[n - 3];
    }
  }

  lemma {:induction false} StaysInBounds(e: PltEntry, us: seq<Use>, pc: nat)
    requires e.pc != pc && AllOf(pc, us) && us != []
    ensures InBounds(EntryRun(PltStep, e, us)) && EntryRun(PltStep, e, us).pc == pc
  {
    hide Detected;
    AllOfFront(pc, us);
    if |us| > 1 {
      StaysInBounds(e, us[..|us| - 1], pc);
    } else {
      assert EntryRun(PltStep, e, us) == PltStep(e, us[0]);
    }
  }

  /** What is asked for with a confidence and a stride. */
  function Asked(bsize: nat, addr: nat, confidence: int, stride: int): seq<nat> {
    if confidence >= THETA then Ahead(addr, Pace(bsize, stride), Degree(confidence)) else []
  }

  lemma {:induction false} OneUse(bsize: nat, e: PltEntry, us: seq<Use>, pc: nat)
    requires e.pc != pc && AllOf(pc, us) && |us| > 1
    ensures var r, p := EntryRun(PltStep, e, us), EntryRun(PltStep, e, us[..|us| - 1]);
      var n := |us| - 1;
      && (!Continues(us, n) ==> r.stride == p.stride && r.confidence == if p.confidence > 0 then p.confidence - 1
          else 0)
      && (Continues(us, n) && PaceAt(us, n) != p.stride ==>
            r.stride == PaceAt(us, n) && r.confidence == if p.confidence > 1 then p.confidence - 1 else 1)
      && PatternTargets(bsize, p, us[n]) == Asked(bsize, us[n].addr, r.confidence, r.stride)
  {
    hide Detected, Continues, PaceAt, Ahead;
    AllOfFront(pc, us);
    Detects(e, us, pc);
    StaysInBounds(e, us[..|us| - 1], pc);
    PaceNotZero(us);
  }

  lemma {:induction false} PaceNotZero(us: seq<Use>)
    requires |us| > 1
    ensures Continues(us, |us| - 1) ==> PaceAt(us, |us| - 1) != 0
  {
  }

  lemma {:induction false} ContinuesFront(us: seq<Use>, i: nat)
    requires 0 < i < |us| - 1
    ensures PaceAt(us[..|us| - 1], i) == PaceAt(us, i) && (Continues(us[..|us| - 1], i) <==> Continues(us, i))
  {
    var p := us[..|us| - 1];
    assert p[i] == us[i] && p[i - 1] == us[i - 1] && (i > 1 ==> p[i - 2] == us[i - 2]);
  }

  /** From use `m` on, no use goes on as the one before. */
  ghost predicate Broken(us: seq<Use>, m: nat)
    requires m > 0
  {
    forall i {:trigger Continues(us, i)} | m <= i < |us| :: !Continues(us, i)
  }

  /** Without a pattern the stride is kept and the confidence in it fades with every use; what is asked for
      is then ever fewer blocks at the old pace, and at last nothing. */
  lemma {:induction false} Fades(bsize: nat, e: PltEntry, us: seq<Use>, m: nat, pc: nat)
    requires e.pc != pc && AllOf(pc, us) && 0 < m <= |us| && Broken(us, m)
    ensures var r, s := EntryRun(PltStep, e, us), EntryRun(PltStep, e, us[..m]);
      var left := s.confidence - (|us| - m);
      && r.stride == s.stride && r.confidence == (if left > 0 then left else 0) && s.confidence >= 0
      && (m < |us| ==> PatternTargets(bsize, EntryRun(PltStep, e, us[..|us| - 1]), us[|us| - 1])
                       == Asked(bsize, us[|us| - 1].addr, left, s.stride))
    decreases |us|
  {
    hide PltStep, PatternTargets, Continues, EntryRun, Ahead;
    if m == |us| {
      assert us[..m] == us;
      StaysInBounds(e, us, pc);
    } else {
      var p := us[..|us| - 1];
      AllOfFront(pc, us);
      forall i | m <= i < |p| ensures !Continues(p, i) {
        ContinuesFront(us, i);
      }
      Fades(bsize, e, p, m, pc);
      assert p[..m] == us[..m];
      OneUse(bsize, e, us, pc);
    }
  }

  /** From use `m` on every use goes on nearly, but never exactly, as the one before. */
  ghost predicate Drifting(us: seq<Use>, m: nat)
    requires m > 0
  {
    forall i {:trigger Continues(us, i)} | m <= i < |us| ::
      Continues(us, i) && (i > m ==> PaceAt(us, i) != PaceAt(us, i - 1))
  }

  /** A drifting stride is followed at each use, but costs confidence, down to one: the prefetcher falls silent. */
  lemma {:induction false} Drifts(bsize: nat, e: PltEntry, us: seq<Use>, m: nat, pc: nat)
    requires e.pc != pc && AllOf(pc, us) && 0 < m < |us| && Drifting(us, m)
    requires PaceAt(us, m) != EntryRun(PltStep, e, us[..m]).stride
    ensures var r, s := EntryRun(PltStep, e, us), EntryRun(PltStep, e, us[..m]);
      var left := s.confidence - (|us| - m);
      && r.stride == PaceAt(us, |us| - 1) && r.confidence == (if left > 1 then left else 1)
      && PatternTargets(bsize, EntryRun(PltStep, e, us[..|us| - 1]), us[|us| - 1])
         == Asked(bsize, us[|us| - 1].addr, left, PaceAt(us, |us| - 1))
    decreases |us|
  {
    hide PltStep, PatternTargets, Continues, PaceAt, EntryRun, Ahead;
    var p, n := us[..|us| - 1], |us| - 1;
    assert Continues(us, n);
    OneUse(bsize, e, us, pc);
    if m < n {
      AllOfFront(pc, us);
      forall i | m <= i < |p| ensures Continues(p, i) && (i > m ==> PaceAt(p, i) != PaceAt(p, i - 1)) {
        assert Continues(us, i);
        ContinuesFront(us, i);
        if i > m {
          ContinuesFront(us, i - 1);
        }
      }
      ContinuesFront(us, m);
      ContinuesFront(us, n - 1);
      assert p[..m] == us[..m];
      Drifts(bsize, e, p, m, pc);
    } else {
      assert us[..m] == p;
    }
  }

  // ---------------------------------------------------------------- a constant stride

  /** All uses but the first come with stride `d`. */
  ghost predicate Paced(us: seq<Use>, d: int) {
    forall i: nat {:trigger us[i]} | 0 < i < |us| :: AsWord(us[i].addr - us[i - 1].addr) == d
  }

  lemma {:induction false} PacedFront(us: seq<Use>, d: int)
    requires Paced(us, d) && us != []
    ensures Paced(us[..|us| - 1], d)
  {
    var p := us[..|us| - 1];
    forall i: nat {:trigger p[i]} | 0 < i < |p| ensures AsWord(p[i].addr - p[i - 1].addr) == d {
      assert p[i] == us[i] && p[i - 1] == us[i - 1];
    }
  }

  /** Confidence after `n` uses: it climbs from the third on, and at the top falls back every other time. */
  function ConfidenceAfter(n: nat): nat {
    if n <= 2 then 0 else if n <= 9 then n - 2 else if n % 2 == 1 then 7 else 6
  }

  /** What the detector sees at the end of paced uses. */
  lemma {:induction false} DetectsPace(e: PltEntry, us: seq<Use>, pc: nat, d: int)
    requires e.pc != pc && AllOf(pc, us) && |us| > 1 && Paced(us, d) && d != 0
    ensures Detected(EntryRun(PltStep, e, us[..|us| - 1]), us[|us| - 1].addr) == if |us| == 2 then 0 else d
  {
    hide AsWord, Detected;
    Detects(e, us, pc);
    var n := |us| - 1;
    assert us[n] == us[n];
    if n > 1 {
      assert us[n - 1] == us[n - 1];
    }
  }

  /** An instruction that walks with a constant stride. */
  lemma {:induction false} ConstantStride(e: PltEntry, us: seq<Use>, pc: nat, d: int)
    requires e.pc != pc && AllOf(pc, us) && us != [] && Paced(us, d) && d != 0
    ensures var r := EntryRun(PltStep, e, us);
      r.pc == pc && r.confidence == ConfidenceAfter(|us|) && r.stride == if |us| <= 2 then 0 else d
  {
    hide PltStep, Detected;
    AllOfFront(pc, us);
    PacedFront(us, d);
    var u := us[|us| - 1];
    if |us| > 1 {
      ConstantStride(e, us[..|us| - 1], pc, d);
      DetectsPace(e, us, pc, d);
      var before := EntryRun(PltStep, e, us[..|us| - 1]);
      StepConfidence(before, u, d, |us| - 1);
    } else {
      assert EntryRun(PltStep, e, us) == PltStep(e, u);
      Claims(e, u);
    }
  }

  lemma {:induction false} StepConfidence(e: PltEntry, u: Use, d: int, n: nat)
    requires n > 0 && d != 0 && e.pc == u.pc && e.confidence == ConfidenceAfter(n) && e.stride == if n <= 2 then 0
             else d
    requires Detected(e, u.addr) == if n + 1 == 2 then 0 else d
    ensures PltStep(e, u).pc == e.pc
    ensures PltStep(e, u).confidence == ConfidenceAfter(n + 1) && PltStep(e, u).stride == if n + 1 <= 2 then 0 else d
  {
    hide Detected;
  }

  /** How many blocks are then asked for at the n-th use. */
  function DegreeAfter(n: nat): nat {
    if n < 5 then 0 else if n == 5 then 2 else if n < 8 then 3 else 4
  }

  /** The n-th use asks for the next blocks at its pace: none before the fifth, and four from the eighth on. */
  lemma {:induction false} ConstantStrideTargets(bsize: nat, e: PltEntry, us: seq<Use>, pc: nat, d: int)
    requires e.pc != pc && AllOf(pc, us) && us != [] && Paced(us, d) && d != 0
    ensures PatternTargets(bsize, EntryRun(PltStep, e, us[..|us| - 1]), us[|us| - 1])
            == Ahead(us[|us| - 1].addr, Pace(bsize, d), DegreeAfter(|us|))
  {
    hide Detected, PltStep;
    var last := us[|us| - 1];
    AllOfFront(pc, us);
    PacedFront(us, d);
    ConstantStride(e, us, pc, d);
    var before := EntryRun(PltStep, e, us[..|us| - 1]);
    assert EntryRun(PltStep, e, us) == PltStep(before, last);
    if |us| > 1 {
      ConstantStride(e, us[..|us| - 1], pc, d);
    } else {
      assert before == e;
    }
  }

  /** From the sixth use on, each was asked for by the one before: its very address if the stride is at least a
      block; else its block, unless that is the block of the use before. */
  lemma {:induction false} CoversNext(bsize: nat, e: PltEntry, us: seq<Use>, next: Use, pc: nat, d: int)
    requires e.pc != pc && AllOf(pc, us) && Paced(us + [next], d) && d != 0 && bsize > 0 && SPACE % bsize == 0
    requires |us| >= 5 && next.addr < SPACE && us[|us| - 1].addr < SPACE
    ensures var ts := PatternTargets(bsize, EntryRun(PltStep, e, us[..|us| - 1]), us[|us| - 1]);
      && ts != [] && (Abs(d) >= bsize ==> next.addr == ts[0])
      && BlockBase(bsize, next.addr) in {BlockBase(bsize, us[|us| - 1].addr), BlockBase(bsize, ts[0])}
  {
    hide Detected, PltStep, PatternTargets, EntryRun, AsWord, AllOf, Abs, Pace, BlockBase;
    var all := us + [next];
    assert all[..|all| - 1] == us;
    PacedFront(all, d);
    ConstantStrideTargets(bsize, e, us, pc, d);
    var last := us[|us| - 1].addr;
    assert all[|us|] == next && AsWord(next.addr - last) == d;
    NextAddress(last, next.addr, d);
    var target := Ahead(last, Pace(bsize, d), DegreeAfter(|us|))[0];
    assert target == (last + Pace(bsize, d)) % SPACE;
    NearBlock(bsize, last, d);
  }

  /** A step of less than a block stays in the block or goes to the one a block ahead. */
  lemma {:induction false} NearBlock(bsize: nat, a: nat, d: int)
    requires bsize > 0 && SPACE % bsize == 0 && a < SPACE && d != 0
    ensures Abs(d) >= bsize ==> Pace(bsize, d) == d
    ensures BlockBase(bsize, (a + d) % SPACE) in {BlockBase(bsize, a), BlockBase(bsize, (a + Pace(bsize, d)) % SPACE)}
  {
    hide BlockBase, Abs, Pace;
    PaceIs(bsize, d);
    if Abs(d) < bsize {
      Quotients(bsize, a);
      Reduced(a);
      NearPlace(bsize, a / bsize, a % bsize, SPACE / bsize, a, d);
    }
  }

  lemma {:induction false} PaceIs(bsize: nat, d: int)
    requires bsize > 0 && d != 0
    ensures if Abs(d) >= bsize then Pace(bsize, d) == d
            else 0 - bsize < d < bsize && Pace(bsize, d) == if d > 0 then bsize else 0 - bsize
  {
  }

  lemma {:induction false} NearPlace(b: nat, q: nat, r: nat, n: nat, a: nat, d: int)
    requires a == q * b + r && b > 0 && r < b && q < n && n * b == SPACE && d != 0 && 0 - b < d < b
    ensures BlockBase(b, (a + d) % SPACE)
            in {BlockBase(b, a % SPACE), BlockBase(b, (a + if d > 0 then b else 0 - b) % SPACE)}
  {
    hide BlockBase, Round;
    var e, s := if d > 0 then 1 else -1, r + d;
    var pace := if d > 0 then b else 0 - b;
    assert (q + e) * b == q * b + pace;
    BlockRound(b, q, r, n, a);
    BlockRound(b, q + e, r, n, a + pace);
    if 0 <= s < b {
      BlockRound(b, q, s, n, a + d);
    } else {
      BlockRound(b, q + e, s - pace, n, a + d);
    }
  }

  lemma {:induction false} NextAddress(a: nat, b: nat, d: int)
    requires a < SPACE && b < SPACE && AsWord(b - a) == d
    ensures (a + d) % SPACE == b
  {
  }
}
