/** The predictors of lab2/predictor.cc in their own form: the two-level tables, and the two-bit counters
    packed four to a byte. */
module Predictors {
  import opened TwoLevel

  class TwoLevelPredictor {
    const bht: array<nat>
    const pht: array2<nat>

    ghost predicate Valid()
      reads bht, pht
    {
      && bht.Length == ENTRIES && pht.Length0 == ROWS && pht.Length1 == HISTORIES
      && (forall i {:trigger bht[i]} | 0 <= i < ENTRIES :: bht[i] < HISTORIES)
      && (forall i, h {:trigger pht[i, h]} | 0 <= i < ROWS && 0 <= h < HISTORIES :: pht[i, h] <= 3)
    }

    ghost function RowOf(i: nat): (r: seq<nat>)
      requires i < pht.Length0
      reads pht
      ensures |r| == pht.Length1 && forall h {:trigger r[h]} | 0 <= h < |r| :: r[h] == pht[i, h]
    {
      seq(pht.Length1, h requires 0 <= h < pht.Length1 reads pht => pht[i, h])
    }

    ghost function Abs(): (s: State)
      requires Valid()
      reads bht, pht
      ensures |s.pht| == ROWS && forall i {:trigger s.pht[i]} | 0 <= i < ROWS :: s.pht[i] == RowOf(i)
    {
      State(bht[..], seq(ROWS, i requires 0 <= i < ROWS && pht.Length0 == ROWS reads pht => RowOf(i)))
    }

    lemma {:induction false} AbsValid()
      requires Valid()
      ensures ValidState(Abs())
    {
    }

    /** InitPredictor_2level over a zeroed BHT. */
    constructor ()
      ensures Valid() && fresh(bht) && fresh(pht)
      ensures Abs() == State(seq(ENTRIES, _ => 0), seq(ROWS, _ => seq(HISTORIES, _ => WEAK_NOT_TAKEN)))
    {
      bht := new nat[ENTRIES](_ => 0);
      pht := new nat[ROWS, HISTORIES];
      new;
      var i := 0;
      while i < ROWS
        invariant i <= ROWS && bht.Length == ENTRIES && forall k {:trigger bht[k]} | 0 <= k < ENTRIES :: bht[k] == 0
        invariant forall a, b {:trigger pht[a, b]} | 0 <= a < i && 0 <= b < HISTORIES :: pht[a, b] == WEAK_NOT_TAKEN
      {
        var j := 0;
        while j < HISTORIES
          invariant j <= HISTORIES && forall k {:trigger bht[k]} | 0 <= k < ENTRIES :: bht[k] == 0
          invariant forall a, b {:trigger pht[a, b]} | 0 <= a < i && 0 <= b < HISTORIES :: pht[a, b] == WEAK_NOT_TAKEN
          invariant forall b {:trigger pht[i, b]} | 0 <= b < j :: pht[i, b] == WEAK_NOT_TAKEN
        {
          pht[i, j] := WEAK_NOT_TAKEN;
          j := j + 1;
        }
        i := i + 1;
      }
      assert bht[..] == seq(ENTRIES, _ => 0);
      forall a | 0 <= a < ROWS ensures RowOf(a) == seq(HISTORIES, _ => WEAK_NOT_TAKEN) {
      }
    }

    /** GetPrediction_2level */
    method Predict(pc: nat) returns (taken: bool)
      requires Valid()
      ensures ValidState(Abs()) && ValidBranch(View(Abs(), pc)) && taken == Predicts(View(Abs(), pc))
    {
      AbsValid();
      assert ValidBranch(View(Abs(), pc));
      taken := pht[Row(pc), bht[Entry(pc)]] > 1;
    }

    /** UpdatePredictor_2level */
    method Update(pc: nat, taken: bool)
      requires Valid()
      modifies bht, pht
      ensures Valid() && ValidState(old(Abs())) && Abs() == Updated(old(Abs()), pc, taken)
    {
      AbsValid();
      ghost var was := Abs();
      assert ValidBranch(View(was, pc));
      var history := bht[Entry(pc)];
      var prediction := pht[Row(pc), history];
      if taken && prediction < 3 {
        pht[Row(pc), history] := prediction + 1;
      } else if !taken && prediction > 0 {
        pht[Row(pc), history] := prediction - 1;
      }
      bht[Entry(pc)] := (2 * history + if taken then 1 else 0) % HISTORIES;
      ghost var now := Updated(was, pc, taken);
      forall i | 0 <= i < ROWS ensures RowOf(i) == now.pht[i] {
        assert old(RowOf(i)) == was.pht[i];
      }
      assert Abs().pht == now.pht;
    }

    /** A trace: predict, compare, update. */
    method Simulate(trace: seq<Outcome>, pc: nat) returns (mistakes: nat)
      requires Valid()
      modifies bht, pht
      ensures Valid() && ValidState(old(Abs())) && mistakes == MistakesOf(old(Abs()), trace, pc)
    {
      hide Updated;
      AbsValid();
      mistakes := 0;
      var n := 0;
      while n < |trace|
        invariant n <= |trace| && Valid() && ValidState(Abs())
        invariant mistakes + MistakesOf(Abs(), trace[n..], pc) == MistakesOf(old(Abs()), trace, pc)
      {
        assert trace[n..][0] == trace[n] && trace[n..][1..] == trace[n + 1..];
        var predicted := Predict(trace[n].pc);
        Update(trace[n].pc, trace[n].taken);
        AbsValid();
        if trace[n].pc == pc && predicted != trace[n].taken {
          mistakes := mistakes + 1;
        }
        n := n + 1;
      }
    }
  }

  // ---------------------------------------------------------------- packed two-bit counters

  const NUM_ENTRIES := 1024
  const NUM_COUNTERS := 4096

  /** The two bits at place `k` of a byte. */
  function Field(b: bv8, k: nat): (f: bv8)
    requires k < 4
    ensures f <= 3
  {
    match k
    case 0 => b & 3
    case 1 => (b >> 2) & 3
    case 2 => (b >> 4) & 3
    case 3 => (b >> 6) & 3
  }

  /** Clears the two bits at place `k` and sets them to `v`. */
  function WithField(b: bv8, k: nat, v: bv8): bv8
    requires k < 4 && v <= 3
  {
    match k
    case 0 => (b & !(3 as bv8)) | v
    case 1 => (b & !((3 as bv8) << 2)) | (v << 2)
    case 2 => (b & !((3 as bv8) << 4)) | (v << 4)
    case 3 => (b & !((3 as bv8) << 6)) | (v << 6)
  }

  /** Setting one counter of a byte leaves the other three as they were. */
  lemma {:induction false} FieldSet(b: bv8, k: nat, v: bv8, j: nat)
    requires k < 4 && v <= 3 && j < 4
    ensures Field(WithField(b, k, v), j) == if j == k then v else Field(b, j)
  {
    match k {
      case 0 => match j { case 0 => case 1 => case 2 => case 3 => }
      case 1 => match j { case 0 => case 1 => case 2 => case 3 => }
      case 2 => match j { case 0 => case 1 => case 2 => case 3 => }
      case 3 => match j { case 0 => case 1 => case 2 => case 3 => }
    }
  }

  class PackedCounters {
    const table: array<bv8>

    ghost predicate Valid() { table.Length == NUM_ENTRIES }

    /** get_2bit_prediction */
    function Counter(i: nat): (c: bv8)
      requires Valid() && i < NUM_COUNTERS
      reads table
      ensures c <= 3
    {
      Field(table[i / 4], i % 4)
    }

    /** set_2bit_counter: that counter and no other changes. */
    method SetCounter(i: nat, v: bv8)
      requires Valid() && i < NUM_COUNTERS && v <= 3
      modifies table
      ensures forall j: nat {:trigger Counter(j)} | j < NUM_COUNTERS ::
              Counter(j) == if j == i then v else old(Counter(j))
    {
      hide Field, WithField;
      var b := table[i / 4];
      table[i / 4] := WithField(b, i % 4, v);
      forall j: nat {:trigger Counter(j)} | j < NUM_COUNTERS
          ensures Counter(j) == if j == i then v else old(Counter(j)) {
        if j / 4 == i / 4 {
          FieldSet(b, i % 4, v, j % 4);
        }
      }
    }

    /** InitPredictor_2bitsat: all counters weakly not taken. */
    constructor ()
      ensures Valid() && fresh(table)
      ensures forall i: nat {:trigger Counter(i)} | i < NUM_COUNTERS :: Counter(i) == 1
    {
      table := new bv8[NUM_ENTRIES](_ => 0x55);
      new;
      forall i: nat {:trigger Counter(i)} | i < NUM_COUNTERS ensures Counter(i) == 1 {
        FieldsOfInitial(i % 4);
      }
    }

    static lemma {:induction false} FieldsOfInitial(k: nat)
      requires k < 4
      ensures Field(0x55, k) == 1
    {
    }

    /** GetPrediction_2bitsat */
    method Predict(pc: nat) returns (taken: bool)
      requires Valid()
      ensures taken <==> Counter(pc % NUM_COUNTERS) >= 2
    {
      taken := Counter(pc % NUM_COUNTERS) > 1;
    }

    /** UpdatePredictor_2bitsat: the counter of the address counts, saturating; all others stay. */
    method Update(pc: nat, taken: bool)
      requires Valid()
      modifies table
      ensures forall i: nat {:trigger Counter(i)} | i < NUM_COUNTERS && i != pc % NUM_COUNTERS ::
              Counter(i) == old(Counter(i))
      ensures var c := old(Counter(pc % NUM_COUNTERS));
        Counter(pc % NUM_COUNTERS) == if taken then (if c == 3 then 3 else c + 1) else (if c == 0 then 0 else c - 1)
    {
      var index := pc % NUM_COUNTERS;
      var prediction := Counter(index);
      if taken && prediction < 3 {
        prediction := prediction + 1;
      } else if !taken && prediction > 0 {
        prediction := prediction - 1;
      }
      SetCounter(index, prediction);
    }
  }
}
