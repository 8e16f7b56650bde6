/** The two-level branch predictor of lab2/predictor.cc: a table of six-bit histories and eight tables of
    two-bit counters, with bounds on its mistakes. */
module TwoLevel {
  import opened Bits
  import opened Counters
  import H = Histories

  const HISTORIES := 64
  const WEAK_NOT_TAKEN := 1

  // ---------------------------------------------------------------- one branch by itself

  /** The history of a branch and the counters it is looked up in. */
  datatype Branch = Branch(history: nat, counters: seq<nat>)

  ghost predicate ValidBranch(b: Branch) {
    && b.history < HISTORIES && |b.counters| == HISTORIES
    && forall h {:trigger b.counters[h]} | 0 <= h < HISTORIES :: b.counters[h] <= 3
  }

  function Predicts(b: Branch): bool
    requires ValidBranch(b)
  {
    b.counters[b.history] > 1
  }

  /** The six newest outcomes, the last one in the lowest bit. */
  function Shifted(history: nat, taken: bool): (h: nat)
    ensures h < HISTORIES
  {
    (2 * history + if taken then 1 else 0) % HISTORIES
  }

  function Learnt(b: Branch, taken: bool): (b': Branch)
    requires ValidBranch(b)
    ensures ValidBranch(b')
  {
    Branch(Shifted(b.history, taken), b.counters[b.history := Counted(b.counters[b.history], taken)])
  }

  function Run(b: Branch, outcomes: seq<bool>): (b': Branch)
    requires ValidBranch(b)
    ensures ValidBranch(b')
    decreases |outcomes|
  {
    if outcomes == [] then b else Run(Learnt(b, outcomes[0]), outcomes[1..])
  }

  function Mistakes(b: Branch, outcomes: seq<bool>): nat
    requires ValidBranch(b)
    decreases |outcomes|
  {
    if outcomes == [] then 0
    else (if Predicts(b) != outcomes[0] then 1 else 0) + Mistakes(Learnt(b, outcomes[0]), outcomes[1..])
  }

  // ---------------------------------------------------------------- the mistake bound

  /** Each outcome is the table's entry for the history before it. */
  ghost predicate Follows(b: Branch, f: seq<bool>, outcomes: seq<bool>)
    requires ValidBranch(b) && |f| == HISTORIES
    decreases |outcomes|
  {
    outcomes == [] || (outcomes[0] == f[b.history] && Follows(Learnt(b, outcomes[0]), f, outcomes[1..]))
  }

  /** How many entries among the first `n` are taken; of those, how many still have a counter of one. */
  function Takens(f: seq<bool>, n: nat): (k: nat)
    requires n <= |f|
    ensures k <= n
  {
    if n == 0 then 0 else Takens(f, n - 1) + if f[n - 1] then 1 else 0
  }

  function Unlearnt(f: seq<bool>, counters: seq<nat>, n: nat): (k: nat)
    requires n <= |f| == |counters|
    ensures k <= Takens(f, n)
  {
    if n == 0 then 0 else Unlearnt(f, counters, n - 1) + if f[n - 1] && counters[n - 1] <= 1 then 1 else 0
  }

  /** No counter has been moved against its entry. */
  ghost predicate OnCourse(f: seq<bool>, counters: seq<nat>)
    requires |f| == |counters|
  {
    forall h {:trigger counters[h]} | 0 <= h < |f| :: if f[h] then counters[h] >= 1 else counters[h] <= 1
  }

  lemma {:induction false} UnlearntUpdate(f: seq<bool>, counters: seq<nat>, h: nat, c: nat, n: nat)
    requires n <= |f| == |counters| && h < |f|
    ensures Unlearnt(f, counters[h := c], n) ==
            Unlearnt(f, counters, n)
            - (if h < n && f[h] && counters[h] <= 1 then 1 else 0) + (if h < n && f[h] && c <= 1 then 1 else 0)
  {
    if n > 0 {
      UnlearntUpdate(f, counters, h, c, n - 1);
    }
  }

  /** When the outcome is a function of the history, the mistakes are exactly the taken histories that a
      run learns: each is mistaken once, and no other one ever. */
  lemma {:induction false} MistakesAreLearnt(b: Branch, f: seq<bool>, outcomes: seq<bool>)
    requires ValidBranch(b) && |f| == HISTORIES && OnCourse(f, b.counters) && Follows(b, f, outcomes)
    ensures OnCourse(f, Run(b, outcomes).counters)
    ensures Mistakes(b, outcomes)
            == Unlearnt(f, b.counters, HISTORIES) - Unlearnt(f, Run(b, outcomes).counters, HISTORIES)
    decreases |outcomes|
  {
    if outcomes != [] {
      var c := Counted(b.counters[b.history], outcomes[0]);
      UnlearntUpdate(f, b.counters, b.history, c, HISTORIES);
      MistakesAreLearnt(Learnt(b, outcomes[0]), f, outcomes[1..]);
    }
  }

  /** From fresh counters: no more mistakes than there are histories followed by a taken branch. */
  lemma {:induction false} MistakeBound(b: Branch, f: seq<bool>, outcomes: seq<bool>)
    requires ValidBranch(b) && |f| == HISTORIES && Follows(b, f, outcomes)
    requires forall h {:trigger b.counters[h]} | 0 <= h < HISTORIES :: b.counters[h] == WEAK_NOT_TAKEN
    ensures Mistakes(b, outcomes) <= Takens(f, HISTORIES) <= HISTORIES
  {
    MistakesAreLearnt(b, f, outcomes);
  }

  // ---------------------------------------------------------------- seven taken, one not

  const FULL := 63

  /** Seven taken and one not taken. */
  const PERIOD_OF_EIGHT: seq<bool> := [true, true, true, true, true, true, true, false]

  lemma {:induction false} MistakesConcat(b: Branch, x: seq<bool>, y: seq<bool>)
    requires ValidBranch(b)
    ensures Run(b, x + y) == Run(Run(b, x), y)
    ensures Mistakes(b, x + y) == Mistakes(b, x) + Mistakes(Run(b, x), y)
    decreases |x|
  {
    if x == [] {
      assert x + y == y;
    } else {
      assert (x + y)[1..] == x[1..] + y;
      MistakesConcat(Learnt(b, x[0]), x[1..], y);
    }
  }

  function AllTaken(n: nat): (r: seq<bool>)
    ensures |r| == n && forall i {:trigger r[i]} | 0 <= i < n :: r[i]
  {
    seq(n, _ => true)
  }

  /** `n` ones shifted in from the right, without bound. */
  function Filled(x: nat, n: nat): nat
    decreases n
  {
    if n == 0 then x else Filled(2 * x + 1, n - 1)
  }

  lemma {:induction false} ShiftModulo(x: nat)
    ensures Shifted(x % HISTORIES, true) == (2 * x + 1) % HISTORIES
  {
    var q, r := x / HISTORIES, x % HISTORIES;
    if r < 32 {
      DivModUnique(2 * q, 2 * r + 1, HISTORIES);
    } else {
      DivModUnique(2 * q + 1, 2 * r + 1 - HISTORIES, HISTORIES);
    }
  }

  lemma {:induction false} TakenFills(b: Branch, x: nat, n: nat)
    requires ValidBranch(b) && b.history == x % HISTORIES
    ensures Run(b, AllTaken(n)).history == Filled(x, n) % HISTORIES
    decreases n
  {
    hide Shifted;
    if n > 0 {
      ShiftModulo(x);
      assert AllTaken(n)[1..] == AllTaken(n - 1);
      TakenFills(Learnt(b, true), 2 * x + 1, n - 1);
    }
  }

  lemma {:induction false} SixOnes(x: nat)
    ensures Filled(x, 6) == HISTORIES * x + FULL
  {
    assert Filled(x, 6) == Filled(4 * x + 3, 4) == Filled(16 * x + 15, 2);
  }

  /** Six taken outcomes fill the history, whatever it was. */
  lemma {:induction false} SixTaken(b: Branch)
    requires ValidBranch(b)
    ensures Run(b, AllTaken(6)).history == FULL
  {
    hide Run, Filled;
    TakenFills(b, b.history, 6);
    SixOnes(b.history);
  }

  /** The taken and the not-taken outcome after a full history cannot both be predicted. */
  lemma {:induction false} FullTwice(b: Branch)
    requires ValidBranch(b) && b.history == FULL
    ensures Mistakes(b, [true, false]) >= 1
    ensures b.counters[FULL] == WEAK_NOT_TAKEN ==>
              var r := Run(b, [true, false]);
              && Mistakes(b, [true, false]) == 2 && r.history == 62 && r.counters[FULL] == WEAK_NOT_TAKEN
              && Untaken(r) == Untaken(b) && (Rising(b) ==> Rising(r))
  {
    assert [true, false][1..] == [false] && [false][1..] == [];
    var b1 := Learnt(b, true);
    assert b1.history == FULL;
    assert b1.counters[FULL] == Counted(b.counters[FULL], true);
  }

  /** In any state, a period of seven taken and one not taken has a mistake. */
  lemma {:induction false} EveryPeriodMistaken(b: Branch)
    requires ValidBranch(b)
    ensures Mistakes(b, PERIOD_OF_EIGHT) >= 1
  {
    hide Run, Mistakes;
    var six := AllTaken(6);
    assert PERIOD_OF_EIGHT == six + [true, false];
    MistakesConcat(b, six, [true, false]);
    SixTaken(b);
    FullTwice(Run(b, six));
  }

  function Repeated(period: seq<bool>, n: nat): seq<bool> {
    if n == 0 then [] else period + Repeated(period, n - 1)
  }

  /** So a run of n such periods has at least n mistakes. */
  lemma {:induction false} PeriodOfEightUnpredictable(b: Branch, n: nat)
    requires ValidBranch(b)
    ensures Mistakes(b, Repeated(PERIOD_OF_EIGHT, n)) >= n
    decreases n
  {
    hide Run, Mistakes;
    if n > 0 {
      MistakesConcat(b, PERIOD_OF_EIGHT, Repeated(PERIOD_OF_EIGHT, n - 1));
      EveryPeriodMistaken(b);
      PeriodOfEightUnpredictable(Run(b, PERIOD_OF_EIGHT), n - 1);
    }
  }

  // ---------------------------------------------------------------- exact counts from the initial tables

  const PERIOD_OF_SEVEN: seq<bool> := [true, true, true, true, true, true, false]

  const FRESH := Branch(0, seq(HISTORIES, _ => WEAK_NOT_TAKEN))

  /** One taken branch, to history `h`, then the rest. */
  lemma {:induction false} TakenFirst(b: Branch, n: nat, h: nat) returns (b': Branch)
    requires ValidBranch(b) && n > 0 && h == (2 * b.history + 1) % HISTORIES
    ensures ValidBranch(b') && b'.history == h
    ensures Run(b, AllTaken(n)) == Run(b', AllTaken(n - 1))
    ensures Mistakes(b, AllTaken(n)) == (if b.counters[b.history] > 1 then 0 else 1) + Mistakes(b', AllTaken(n - 1))
    ensures b.counters[b.history] > 0 ==> b'.counters[b.history] > 1
    ensures forall j {:trigger b'.counters[j]} | 0 <= j < HISTORIES && j != b.history :: b'.counters[j] == b.counters[j]
  {
    assert AllTaken(n)[1..] == AllTaken(n - 1);
    b' := Learnt(b, true);
  }

  lemma {:induction false} FreshValid()
    ensures ValidBranch(FRESH) && forall h {:trigger FRESH.counters[h]} | 0 <= h < HISTORIES ::
            FRESH.counters[h] == WEAK_NOT_TAKEN
  {
  }

  lemma {:induction false} NoneTaken(b: Branch)
    requires ValidBranch(b)
    ensures Run(b, AllTaken(0)) == b && Mistakes(b, AllTaken(0)) == 0
  {
    assert AllTaken(0) == [];
  }

  /** The counters of the histories that six taken branches after one not taken go through: how many of them
      say not taken. */
  function Untaken(b: Branch): (n: nat)
    requires ValidBranch(b)
  {
    var c := b.counters;
    (if c[62] > 1 then 0 else 1) + (if c[61] > 1 then 0 else 1) + (if c[59] > 1 then 0 else 1)
    + (if c[55] > 1 then 0 else 1) + (if c[47] > 1 then 0 else 1) + (if c[31] > 1 then 0 else 1)
  }

  /** None of them is at zero. */
  ghost predicate Rising(b: Branch)
    requires ValidBranch(b)
  {
    var c := b.counters;
    c[62] > 0 && c[61] > 0 && c[59] > 0 && c[55] > 0 && c[47] > 0 && c[31] > 0
  }

  /** Six taken branches after one not taken: each of those histories is mistaken that was not known, and all
      are known afterwards. */
  lemma {:induction false} SixMore(b: Branch)
    requires ValidBranch(b) && b.history == 62 && Rising(b)
    ensures var r := Run(b, AllTaken(6));
      && Mistakes(b, AllTaken(6)) == Untaken(b) && r.history == FULL && r.counters[FULL] == b.counters[FULL]
      && Untaken(r) == 0 && Rising(r)
  {
    hide Run, Mistakes, AllTaken;
    var b1 := TakenFirst(b, 6, 61);
    var b2 := TakenFirst(b1, 5, 59);
    var b3 := TakenFirst(b2, 4, 55);
    var b4 := TakenFirst(b3, 3, 47);
    var b5 := TakenFirst(b4, 2, 31);
    var b6 := TakenFirst(b5, 1, 63);
    NoneTaken(b6);
  }

  /** Six taken branches at the very start: all are mistaken. */
  lemma {:induction false} SixFirst()
    ensures ValidBranch(FRESH)
    ensures var r := Run(FRESH, AllTaken(6));
      && Mistakes(FRESH, AllTaken(6)) == 6 && r.history == FULL && r.counters[FULL] == WEAK_NOT_TAKEN
      && Untaken(r) == 5 && Rising(r)
  {
    hide Run, Mistakes, AllTaken;
    FreshValid();
    var b1 := TakenFirst(FRESH, 6, 1);
    var b2 := TakenFirst(b1, 5, 3);
    var b3 := TakenFirst(b2, 4, 7);
    var b4 := TakenFirst(b3, 3, 15);
    var b5 := TakenFirst(b4, 2, 31);
    var b6 := TakenFirst(b5, 1, 63);
    NoneTaken(b6);
  }

  /** One not-taken branch after a full history that says so. */
  lemma {:induction false} FullOnce(b: Branch)
    requires ValidBranch(b) && b.history == FULL && b.counters[FULL] <= 1
    ensures var r := Run(b, [false]);
      && Mistakes(b, [false]) == 0 && r.history == 62 && r.counters[FULL] <= 1
      && Untaken(r) == Untaken(b) && (Rising(b) ==> Rising(r))
  {
    assert [false][1..] == [];
  }

  /** The rest of a period of seven. */
  lemma {:induction false} SevenOn(b: Branch, n: nat)
    requires ValidBranch(b) && b.history == 62 && b.counters[FULL] <= 1 && Rising(b)
    ensures Mistakes(b, Repeated(PERIOD_OF_SEVEN, n)) == if n == 0 then 0 else Untaken(b)
    decreases n
  {
    hide Run, Mistakes;
    if n == 0 {
      NoneTaken(b);
      assert Repeated(PERIOD_OF_SEVEN, 0) == AllTaken(0);
    } else {
      var rest := Repeated(PERIOD_OF_SEVEN, n - 1);
      var six := Run(b, AllTaken(6));
      assert Repeated(PERIOD_OF_SEVEN, n) == AllTaken(6) + ([false] + rest);
      MistakesConcat(b, AllTaken(6), [false] + rest);
      MistakesConcat(six, [false], rest);
      SixMore(b);
      FullOnce(six);
      SevenOn(Run(six, [false]), n - 1);
    }
  }

  /** From the initial tables a period of seven is mistaken six times in its first round, five times in its
      second, and never again. */
  lemma {:induction false} PeriodOfSevenLearnt(n: nat)
    ensures ValidBranch(FRESH)
    ensures Mistakes(FRESH, Repeated(PERIOD_OF_SEVEN, n)) == if n == 0 then 0 else if n == 1 then 6 else 11
  {
    hide Run, Mistakes, Learnt;
    SixFirst();
    if n == 0 {
      NoneTaken(FRESH);
      assert Repeated(PERIOD_OF_SEVEN, 0) == AllTaken(0);
    } else {
      var rest := Repeated(PERIOD_OF_SEVEN, n - 1);
      var six := Run(FRESH, AllTaken(6));
      assert Repeated(PERIOD_OF_SEVEN, n) == AllTaken(6) + ([false] + rest);
      MistakesConcat(FRESH, AllTaken(6), [false] + rest);
      MistakesConcat(six, [false], rest);
      FullOnce(six);
      SevenOn(Run(six, [false]), n - 1);
    }
  }

  /** The rest of a period of eight. */
  lemma {:induction false} EightOn(b: Branch, n: nat)
    requires ValidBranch(b) && b.history == 62 && b.counters[FULL] == WEAK_NOT_TAKEN && Rising(b)
    ensures Mistakes(b, Repeated(PERIOD_OF_EIGHT, n)) == if n == 0 then 0 else 2 * n + Untaken(b)
    decreases n
  {
    hide Run, Mistakes;
    if n == 0 {
      NoneTaken(b);
      assert Repeated(PERIOD_OF_EIGHT, 0) == AllTaken(0);
    } else {
      var rest := Repeated(PERIOD_OF_EIGHT, n - 1);
      var six := Run(b, AllTaken(6));
      assert Repeated(PERIOD_OF_EIGHT, n) == AllTaken(6) + ([true, false] + rest);
      MistakesConcat(b, AllTaken(6), [true, false] + rest);
      MistakesConcat(six, [true, false], rest);
      SixMore(b);
      FullTwice(six);
      EightOn(Run(six, [true, false]), n - 1);
    }
  }

  /** From the initial tables a period of eight is mistaken twice in every round, besides the same eleven. */
  lemma {:induction false} PeriodOfEightNeverLearnt(n: nat)
    ensures ValidBranch(FRESH)
    ensures Mistakes(FRESH, Repeated(PERIOD_OF_EIGHT, n)) == if n == 0 then 0 else if n == 1 then 8 else 2 * n + 11
  {
    hide Run, Mistakes, Learnt;
    SixFirst();
    if n == 0 {
      NoneTaken(FRESH);
      assert Repeated(PERIOD_OF_EIGHT, 0) == AllTaken(0);
    } else {
      var rest := Repeated(PERIOD_OF_EIGHT, n - 1);
      var six := Run(FRESH, AllTaken(6));
      assert Repeated(PERIOD_OF_EIGHT, n) == AllTaken(6) + ([true, false] + rest);
      MistakesConcat(FRESH, AllTaken(6), [true, false] + rest);
      MistakesConcat(six, [true, false], rest);
      FullTwice(six);
      EightOn(Run(six, [true, false]), n - 1);
    }
  }

  // ---------------------------------------------------------------- the whole predictor

  const ROWS := 8
  const ENTRIES := 512

  datatype State = State(bht: seq<nat>, pht: seq<seq<nat>>)

  /** The counter table of an address, by its low three bits, and its history register, by the next nine. */
  function Row(pc: nat): (i: nat) ensures i < ROWS { pc % 8 }
  function Entry(pc: nat): (i: nat) ensures i < ENTRIES { (pc / 8) % 512 }

  ghost predicate ValidState(s: State) {
    && |s.bht| == ENTRIES && |s.pht| == ROWS
    && forall pc: nat {:trigger View(s, pc)} :: ValidBranch(View(s, pc))
  }

  function View(s: State, pc: nat): Branch
    requires |s.bht| == ENTRIES && |s.pht| == ROWS
  {
    Branch(s.bht[Entry(pc)], s.pht[Row(pc)])
  }

  /** UpdatePredictor_2level */
  function Updated(s: State, pc: nat, taken: bool): (s': State)
    requires ValidState(s)
    ensures |s'.bht| == ENTRIES && |s'.pht| == ROWS
  {
    assert ValidBranch(View(s, pc));
    var b := Learnt(View(s, pc), taken);
    State(s.bht[Entry(pc) := b.history], s.pht[Row(pc) := b.counters])
  }

  lemma {:induction false} UpdatedView(s: State, pc: nat, taken: bool)
    requires ValidState(s)
    ensures ValidState(Updated(s, pc, taken)) && ValidBranch(View(s, pc))
    ensures View(Updated(s, pc, taken), pc) == Learnt(View(s, pc), taken)
    ensures forall q: nat {:trigger View(Updated(s, pc, taken), q)} | Row(q) != Row(pc) && Entry(q) != Entry(pc) ::
              View(Updated(s, pc, taken), q) == View(s, q)
  {
    hide Learnt, Row, Entry;
    assert ValidBranch(View(s, pc));
    var s' := Updated(s, pc, taken);
    forall q: nat ensures ValidBranch(View(s', q)) {
      assert ValidBranch(View(s, q));
    }
  }

  datatype Outcome = Outcome(pc: nat, taken: bool)

  /** The outcomes of one branch in a trace; its mistakes when the whole trace updates the predictor. */
  function OutcomesOf(trace: seq<Outcome>, pc: nat): seq<bool> {
    if trace == [] then []
    else (if trace[0].pc == pc then [trace[0].taken] else []) + OutcomesOf(trace[1..], pc)
  }

  function MistakesOf(s: State, trace: seq<Outcome>, pc: nat): nat
    requires ValidState(s)
    decreases |trace|
  {
    if trace == [] then 0 else
    UpdatedView(s, trace[0].pc, trace[0].taken);
    (if trace[0].pc == pc && Predicts(View(s, pc)) != trace[0].taken then 1 else 0)
    + MistakesOf(Updated(s, trace[0].pc, trace[0].taken), trace[1..], pc)
  }

  /** No other branch of the trace shares the branch's counters, by its low three address bits, or its
      history, by the next nine. */
  ghost predicate Unaliased(trace: seq<Outcome>, pc: nat) {
    forall i {:trigger trace[i]} | 0 <= i < |trace| && trace[i].pc != pc ::
        trace[i].pc % 8 != pc % 8 && trace[i].pc / 8 % 512 != pc / 8 % 512
  }

  lemma {:induction false} OtherPlace(x: nat, pc: nat)
    requires x % 8 != pc % 8 && x / 8 % 512 != pc / 8 % 512
    ensures Row(x) != Row(pc) && Entry(x) != Entry(pc)
  {
  }

  /** Then the branch is predicted as if it were alone. */
  lemma {:induction false} Alone(s: State, trace: seq<Outcome>, pc: nat)
    requires ValidState(s) && Unaliased(trace, pc)
    ensures ValidBranch(View(s, pc)) && MistakesOf(s, trace, pc) == Mistakes(View(s, pc), OutcomesOf(trace, pc))
    decreases |trace|
  {
    hide Learnt, Row, Entry, Updated, View;
    if trace != [] {
      var x := trace[0];
      if x.pc != pc {
        OtherPlace(x.pc, pc);
      }
      UpdatedView(s, x.pc, x.taken);
      assert forall i | 0 <= i < |trace[1..]| :: trace[1..][i] == trace[i + 1];
      Alone(Updated(s, x.pc, x.taken), trace[1..], pc);
      var rest := OutcomesOf(trace[1..], pc);
      assert ([x.taken] + rest)[1..] == rest && [] + rest == rest;
    }
  }

  /** A whole trace from the initial tables: an unaliased branch whose outcomes are a function of its
      history is mistaken at most once for each taken history. */
  lemma {:induction false} TraceBound(s: State, trace: seq<Outcome>, pc: nat, f: seq<bool>)
    requires ValidState(s) && Unaliased(trace, pc) && |f| == HISTORIES
             && s.pht == seq(ROWS, _ => seq(HISTORIES, _ => WEAK_NOT_TAKEN))
    requires ValidBranch(View(s, pc)) && Follows(View(s, pc), f, OutcomesOf(trace, pc))
    ensures MistakesOf(s, trace, pc) <= Takens(f, HISTORIES) <= HISTORIES
  {
    hide Mistakes, MistakesOf, Follows, Takens;
    Alone(s, trace, pc);
    MistakeBound(View(s, pc), f, OutcomesOf(trace, pc));
  }

  // ---------------------------------------------------------------- the same over outcomes

  /** What follows each history. */
  ghost function Table(os: seq<bool>): (f: seq<bool>)
    ensures |f| == HISTORIES
  {
    seq(HISTORIES, h requires 0 <= h < HISTORIES =>
        exists i {:trigger os[i]} :: 0 <= i < |os| && os[i] && H.Number(H.Last(6, os[..i])) == h)
  }

  lemma {:induction false} TableTells(os: seq<bool>, i: nat)
    requires H.Determined(6, os) && i < |os|
    ensures H.Number(H.Last(6, os[..i])) < HISTORIES && os[i] == Table(os)[H.Number(H.Last(6, os[..i]))]
  {
    hide H.Last, H.Number;
    SixBits(H.Last(6, os[..i]));
    if Table(os)[H.Number(H.Last(6, os[..i]))] {
      var j :| 0 <= j < |os| && os[j] && H.Number(H.Last(6, os[..j])) == H.Number(H.Last(6, os[..i]));
      H.NumberTells(H.Last(6, os[..j]), H.Last(6, os[..i]));
      assert os[i] == os[j];
    }
  }

  lemma {:induction false} SixBits(bits: seq<bool>)
    requires |bits| == 6
    ensures H.Number(bits) < HISTORIES && Exp2(6) == HISTORIES
  {
    H.NumberBelow(bits);
    assert Exp2(3) == 8;
  }

  lemma {:induction false} FollowsFrom(b: Branch, os: seq<bool>, k: nat)
    requires ValidBranch(b) && H.Determined(6, os) && k <= |os| && b.history == H.Number(H.Last(6, os[..k]))
    ensures Follows(b, Table(os), os[k..])
    decreases |os| - k
  {
    hide H.Determined, Table, H.Last, H.Number;
    if k < |os| {
      TableTells(os, k);
      var b' := Learnt(b, os[k]);
      SixBits(H.Last(6, os[..k]));
      H.ShiftIsLast(6, os[..k], os[k]);
      assert os[..k] + [os[k]] == os[..k + 1] && os[k..][1..] == os[k + 1..];
      FollowsFrom(b', os, k + 1);
    }
  }

  /** A whole trace from the initial tables: an unaliased branch whose outcomes are determined by the six before
      them is mistaken at most once for each history that a taken branch follows. */
  lemma {:induction false} OutcomesBound(s: State, trace: seq<Outcome>, pc: nat)
    requires ValidState(s) && Unaliased(trace, pc) && H.Determined(6, OutcomesOf(trace, pc))
    requires s.pht == seq(ROWS, _ => seq(HISTORIES, _ => WEAK_NOT_TAKEN)) && s.bht == seq(ENTRIES, _ => 0)
    ensures MistakesOf(s, trace, pc) <= Takens(Table(OutcomesOf(trace, pc)), HISTORIES) <= HISTORIES
  {
    hide MistakesOf, Follows, Takens, H.Determined, Table, H.Last, H.Number;
    var os := OutcomesOf(trace, pc);
    assert ValidBranch(View(s, pc));
    H.NoOutcomes(6);
    assert os[..0] == [] && os[0..] == os;
    FollowsFrom(View(s, pc), os, 0);
    TraceBound(s, trace, pc, Table(os));
  }
}
