/** Tables of two-bit saturating counters, and how often a table can be wrong. */
module Counters {
  /** The saturating count. */
  function Counted(c: nat, taken: bool): nat {
    if taken && c < 3 then c + 1 else if !taken && c > 0 then c - 1 else c
  }

  /** A counter that is asked and then told. */
  datatype Told = Told(idx: nat, up: bool)

  ghost predicate InTable(n: nat, ts: seq<Told>) { forall i {:trigger ts[i]} | 0 <= i < |ts| :: ts[i].idx < n }

  ghost predicate TwoBit(table: seq<nat>) { forall i {:trigger table[i]} | 0 <= i < |table| :: table[i] <= 3 }

  lemma {:induction false} InTableFront(n: nat, ts: seq<Told>)
    requires InTable(n, ts) && ts != []
    ensures InTable(n, ts[..|ts| - 1]) && ts[|ts| - 1].idx < n
  {
    assert forall i | 0 <= i < |ts| - 1 :: ts[..|ts| - 1][i] == ts[i];
  }

  ghost function After(table: seq<nat>, ts: seq<Told>): (r: seq<nat>)
    requires InTable(|table|, ts)
    ensures |r| == |table|
  {
    if ts == [] then table else
    InTableFront(|table|, ts);
    var p, t := After(table, ts[..|ts| - 1]), ts[|ts| - 1];
    p[t.idx := Counted(p[t.idx], t.up)]
  }

  /** A counter of two or three says up. */
  ghost function Wrong(table: seq<nat>, ts: seq<Told>): nat
    requires InTable(|table|, ts)
  {
    if ts == [] then 0 else
    InTableFront(|table|, ts);
    var p, t := After(table, ts[..|ts| - 1]), ts[|ts| - 1];
    Wrong(table, ts[..|ts| - 1]) + if (p[t.idx] >= 2) != t.up then 1 else 0
  }

  function TimesTold(ts: seq<Told>, up: bool): nat {
    if ts == [] then 0 else TimesTold(ts[..|ts| - 1], up) + if ts[|ts| - 1].up == up then 1 else 0
  }

  /** How many counts the counters are away from saying `up`. */
  function Gap(c: nat, up: bool): nat {
    if up then (if c < 2 then 2 - c else 0) else if c > 1 then c - 1 else 0
  }

  function Gaps(table: seq<nat>, up: bool): nat {
    if table == [] then 0 else Gaps(table[..|table| - 1], up) + Gap(table[|table| - 1], up)
  }

  lemma {:induction false} GapsUpdate(table: seq<nat>, up: bool, k: nat, c: nat)
    requires k < |table|
    ensures Gaps(table[k := c], up) == Gaps(table, up) - Gap(table[k], up) + Gap(c, up)
  {
    var t, n := table[k := c], |table| - 1;
    if k == n {
      assert t[..n] == table[..n];
    } else {
      assert t[..n] == table[..n][k := c];
      GapsUpdate(table[..n], up, k, c);
    }
  }

  lemma {:induction false} GapStep(c: nat, told: bool, up: bool)
    requires c <= 3
    ensures Counted(c, told) <= 3
    ensures (if (c >= 2) != told then 1 else 0) + Gap(Counted(c, told), up) <= Gap(c, up) + if told == up then 0 else 2
  {
  }

  lemma {:induction false} GapsBound(table: seq<nat>, ts: seq<Told>, up: bool)
    requires InTable(|table|, ts) && TwoBit(table)
    ensures TwoBit(After(table, ts))
    ensures Wrong(table, ts) + Gaps(After(table, ts), up) <= 2 * TimesTold(ts, !up) + Gaps(table, up)
  {
    hide Gap, Counted;
    if ts != [] {
      InTableFront(|table|, ts);
      var p, t := After(table, ts[..|ts| - 1]), ts[|ts| - 1];
      GapsBound(table, ts[..|ts| - 1], up);
      GapStep(p[t.idx], t.up, up);
      GapsUpdate(p, up, t.idx, Counted(p[t.idx], t.up));
    }
  }

  /** Whatever the sharing of counters, a table is wrong at most twice for each time it is told the one
      direction, and the counts its counters were away from the other. */
  lemma {:induction false} WrongBound(table: seq<nat>, ts: seq<Told>, up: bool)
    requires InTable(|table|, ts) && TwoBit(table)
    ensures Wrong(table, ts) <= 2 * TimesTold(ts, !up) + Gaps(table, up)
  {
    GapsBound(table, ts, up);
  }

  // ---------------------------------------------------------------- the bound is reached

  /** Down and up in turn. */
  function Alternating(n: nat): seq<Told> {
    if n == 0 then [] else Alternating(n - 1) + [Told(0, false), Told(0, true)]
  }

  lemma {:induction false} AlternatingIsWrong(n: nat)
    ensures InTable(1, Alternating(n)) && |Alternating(n)| == 2 * n
    ensures After([2], Alternating(n)) == [2]
    ensures Wrong([2], Alternating(n)) == 2 * n && TimesTold(Alternating(n), true) == n
            && TimesTold(Alternating(n), false) == n
  {
    if n > 0 {
      AlternatingIsWrong(n - 1);
      var ts, p := Alternating(n), Alternating(n - 1);
      var one := ts[..|ts| - 1];
      assert one == p + [Told(0, false)] && one[..|one| - 1] == p;
      InTableMore(1, p, Told(0, false));
      InTableMore(1, one, Told(0, true));
      assert one + [Told(0, true)] == ts;
      assert After([2], one) == [1];
    }
  }

  lemma {:induction false} InTableMore(n: nat, ts: seq<Told>, t: Told)
    requires InTable(n, ts) && t.idx < n
    ensures InTable(n, ts + [t])
  {
  }
}
