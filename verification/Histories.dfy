/** Outcomes of a branch, the history that a shift register holds of them, and branches that their history
    determines. */
module Histories {
  import opened Bits

  // ---------------------------------------------------------------- outcomes and their number

  /** The last `w` outcomes, the newest first; before the first one there are only branches not taken. */
  function Last(w: nat, os: seq<bool>): (r: seq<bool>)
    ensures |r| == w && forall j {:trigger r[j]} | 0 <= j < w :: r[j] == (j < |os| && os[|os| - 1 - j])
  {
    seq(w, j requires 0 <= j < w => j < |os| && os[|os| - 1 - j])
  }

  function Number(bits: seq<bool>): nat {
    if bits == [] then 0 else (if bits[0] then 1 else 0) + 2 * Number(bits[1..])
  }

  lemma {:induction false} NumberBelow(bits: seq<bool>)
    ensures Number(bits) < Exp2(|bits|)
  {
    if bits != [] {
      NumberBelow(bits[1..]);
    }
  }

  /** The number of a history tells it. */
  lemma {:induction false} NumberTells(x: seq<bool>, y: seq<bool>)
    requires |x| == |y| && Number(x) == Number(y)
    ensures x == y
  {
    if x != [] {
      NumberTells(x[1..], y[1..]);
      assert x == [x[0]] + x[1..] && y == [y[0]] + y[1..];
    }
  }

  /** Dropping the oldest outcome is a remainder. */
  lemma {:induction false} NumberFront(bits: seq<bool>)
    requires bits != []
    ensures Number(bits) % Exp2(|bits| - 1) == Number(bits[..|bits| - 1])
  {
    if |bits| > 1 {
      NumberFront(bits[1..]);
      assert bits[1..][..|bits| - 2] == bits[..|bits| - 1][1..];
      ModTwice(if bits[0] then 1 else 0, Number(bits[1..]), Exp2(|bits| - 2));
    }
  }

  /** A shift register of `w` bits holds the last outcomes: shifting one in keeps it so. */
  lemma {:induction false} ShiftIsLast(w: nat, os: seq<bool>, taken: bool)
    ensures (2 * Number(Last(w, os)) + if taken then 1 else 0) % Exp2(w) == Number(Last(w, os + [taken]))
  {
    var was, now := Last(w, os), Last(w, os + [taken]);
    if w > 0 {
      assert now[0] == taken && now[1..] == was[..w - 1];
      NumberFront(was);
      ModTwice(if taken then 1 else 0, Number(was), Exp2(w - 1));
    }
  }

  lemma {:induction false} NoOutcomes(w: nat)
    ensures Number(Last(w, [])) == 0
  {
    if w > 0 {
      assert Last(w, [])[1..] == Last(w - 1, []);
      NoOutcomes(w - 1);
    }
  }

  // ---------------------------------------------------------------- outcomes that follow from the history

  /** Each outcome is determined by the `w` outcomes before it. */
  ghost predicate Determined(w: nat, os: seq<bool>) {
    forall i, j {:trigger os[i], os[j]} | 0 <= i < j < |os| && Last(w, os[..i]) == Last(w, os[..j]) :: os[i] == os[j]
  }

  /** The histories that were met. */
  function Met(w: nat, os: seq<bool>): (s: set<nat>)
    ensures forall h <- s :: h < Exp2(w)
  {
    if os == [] then {} else
    NumberBelow(Last(w, os[..|os| - 1]));
    Met(w, os[..|os| - 1]) + {Number(Last(w, os[..|os| - 1]))}
  }

  lemma {:induction false} MetAt(w: nat, os: seq<bool>, h: nat) returns (i: nat)
    requires h in Met(w, os)
    ensures i < |os| && Number(Last(w, os[..i])) == h
  {
    if h in Met(w, os[..|os| - 1]) {
      i := MetAt(w, os[..|os| - 1], h);
      assert os[..|os| - 1][..i] == os[..i];
    } else {
      i := |os| - 1;
    }
  }

  lemma {:induction false} DeterminedFront(w: nat, os: seq<bool>, taken: bool)
    requires Determined(w, os + [taken])
    ensures Determined(w, os)
    ensures forall i {:trigger os[i]} | 0 <= i < |os| && Last(w, os[..i]) == Last(w, os) :: os[i] == taken
  {
    hide Last;
    var all := os + [taken];
    forall i {:trigger os[i]} | 0 <= i < |os| && Last(w, os[..i]) == Last(w, os) ensures os[i] == taken {
      assert all[..i] == os[..i] && all[..|os|] == os && all[i] == os[i] && all[|os|] == taken;
    }
    forall i, j {:trigger os[i], os[j]} | 0 <= i < j < |os| && Last(w, os[..i]) == Last(w, os[..j])
      ensures os[i] == os[j]
    {
      assert all[..i] == os[..i] && all[..j] == os[..j] && all[i] == os[i] && all[j] == os[j];
    }
  }

  lemma {:induction false} BelowCard(s: set<nat>, n: nat)
    requires forall h <- s :: h < n
    ensures |s| <= n
  {
    if n == 0 {
      assert s == {};
    } else {
      BelowCard(s - {n - 1}, n - 1);
      assert |s| <= |s - {n - 1}| + 1;
    }
  }
}
