/** The direction predictors of lab4/bpred.c: bimodal, two-level with or without exclusive or, and the
    combination of both that a table of counters chooses between. */
module Combining {
  import opened Bits
  import opened Counters

  const BR_SHIFT := 8

  // ---------------------------------------------------------------- the tables

  /** `width` bits of history in each register. */
  datatype Config = Config(width: nat, useXor: bool)

  datatype Tables = Tables(bimod: seq<nat>, regs: seq<nat>, l2: seq<nat>, meta: seq<nat>)

  /** What bpred_dir_create sets up and every update keeps. */
  ghost predicate ValidTables(c: Config, t: Tables) {
    && t.bimod != [] && t.regs != [] && t.l2 != [] && t.meta != []
    && TwoBit(t.bimod) && TwoBit(t.l2) && TwoBit(t.meta)
    && forall i {:trigger t.regs[i]} | 0 <= i < |t.regs| :: t.regs[i] < Exp2(c.width)
  }

  /** BIMOD_HASH and the index of a history register, with masks as remainders. */
  function BimodIndex(n: nat, baddr: nat): (i: nat)
    requires n > 0
    ensures i < n
  {
    Xor(baddr / 0x8_0000, baddr / BR_SHIFT) % n
  }

  function RegIndex(n: nat, baddr: nat): (i: nat)
    requires n > 0
    ensures i < n
  {
    baddr / BR_SHIFT % n
  }

  /** The history, or its exclusive or with the address, below the other address bits. */
  function L2Index(c: Config, n: nat, reg: nat, baddr: nat): (i: nat)
    requires n > 0
    ensures i < n
  {
    var b := baddr / BR_SHIFT;
    ((if c.useXor then Xor(reg, b) % Exp2(c.width) else reg) + b * Exp2(c.width)) % n
  }

  /** The counters that a branch is looked up in. */
  datatype Places = Places(bimod: nat, reg: nat, l2: nat, meta: nat)

  function PlacesOf(c: Config, t: Tables, baddr: nat): (p: Places)
    requires t.bimod != [] && t.regs != [] && t.l2 != [] && t.meta != []
    ensures p.bimod < |t.bimod| && p.reg < |t.regs| && p.l2 < |t.l2| && p.meta < |t.meta|
  {
    var r := RegIndex(|t.regs|, baddr);
    Places(BimodIndex(|t.bimod|, baddr), r, L2Index(c, |t.l2|, t.regs[r], baddr), BimodIndex(|t.meta|, baddr))
  }

  // ---------------------------------------------------------------- one conditional branch

  datatype Branch = Branch(baddr: nat, taken: bool)

  /** The directions of both predictors, and which of them counts. */
  datatype Guess = Guess(bimod: bool, twolev: bool, meta: bool)

  function Final(g: Guess): bool { if g.meta then g.twolev else g.bimod }

  function GuessOf(c: Config, t: Tables, baddr: nat): Guess
    requires t.bimod != [] && t.regs != [] && t.l2 != [] && t.meta != []
  {
    var p := PlacesOf(c, t, baddr);
    Guess(t.bimod[p.bimod] >= 2, t.l2[p.l2] >= 2, t.meta[p.meta] >= 2)
  }

  function Shifted(c: Config, reg: nat, taken: bool): (r: nat)
    ensures r < Exp2(c.width)
  {
    (2 * reg + if taken then 1 else 0) % Exp2(c.width)
  }

  /** What a lookup names lies within the tables. */
  predicate InTables(t: Tables, p: Places) { p.bimod < |t.bimod| && p.l2 < |t.l2| && p.meta < |t.meta| }

  /** The part of bpred_update for directions, with what a lookup, however long ago, recorded: its counters and
      directions.  The history register is that of the branch now. */
  function UpdatedFrom(c: Config, t: Tables, b: Branch, p: Places, g: Guess): (t': Tables)
    requires t.regs != [] && InTables(t, p)
    ensures |t'.bimod| == |t.bimod| && |t'.regs| == |t.regs| && |t'.l2| == |t.l2| && |t'.meta| == |t.meta|
  {
    var r := RegIndex(|t.regs|, b.baddr);
    Tables(t.bimod[p.bimod := Counted(t.bimod[p.bimod], b.taken)],
           t.regs[r := Shifted(c, t.regs[r], b.taken)],
           t.l2[p.l2 := Counted(t.l2[p.l2], b.taken)],
           if g.bimod == g.twolev then t.meta else t.meta[p.meta := Counted(t.meta[p.meta], g.twolev == b.taken)])
  }

  /** The same right after the lookup of the same branch. */
  function Updated(c: Config, t: Tables, b: Branch): (t': Tables)
    requires t.bimod != [] && t.regs != [] && t.l2 != [] && t.meta != []
    ensures |t'.bimod| == |t.bimod| && |t'.regs| == |t.regs| && |t'.l2| == |t.l2| && |t'.meta| == |t.meta|
  {
    UpdatedFrom(c, t, b, PlacesOf(c, t, b.baddr), GuessOf(c, t, b.baddr))
  }

  // ---------------------------------------------------------------- a trace

  function Run(c: Config, t: Tables, bs: seq<Branch>): (t': Tables)
    requires t.bimod != [] && t.regs != [] && t.l2 != [] && t.meta != []
    ensures |t'.bimod| == |t.bimod| && |t'.regs| == |t.regs| && |t'.l2| == |t.l2| && |t'.meta| == |t.meta|
  {
    if bs == [] then t else Updated(c, Run(c, t, bs[..|bs| - 1]), bs[|bs| - 1])
  }

  datatype Score = Score(combined: nat, bimod: nat, twolev: nat)

  function Scored(s: Score, g: Guess, taken: bool): Score {
    Score(s.combined + if Final(g) != taken then 1 else 0,
          s.bimod + if g.bimod != taken then 1 else 0,
          s.twolev + if g.twolev != taken then 1 else 0)
  }

  /** The mistakes of the combination and of each of its two parts. */
  function Mistakes(c: Config, t: Tables, bs: seq<Branch>): Score
    requires t.bimod != [] && t.regs != [] && t.l2 != [] && t.meta != []
  {
    if bs == [] then Score(0, 0, 0) else
    var p, b := bs[..|bs| - 1], bs[|bs| - 1];
    Scored(Mistakes(c, t, p), GuessOf(c, Run(c, t, p), b.baddr), b.taken)
  }

  lemma {:induction false} UpdateFromValid(c: Config, t: Tables, b: Branch, p: Places, g: Guess)
    requires ValidTables(c, t) && InTables(t, p)
    ensures ValidTables(c, UpdatedFrom(c, t, b, p, g))
  {
    hide Exp2, RegIndex;
  }

  lemma {:induction false} UpdateValid(c: Config, t: Tables, b: Branch)
    requires ValidTables(c, t)
    ensures ValidTables(c, Updated(c, t, b))
  {
    hide Xor, Exp2, BimodIndex, RegIndex, L2Index;
  }

  lemma {:induction false} RunValid(c: Config, t: Tables, bs: seq<Branch>)
    requires ValidTables(c, t)
    ensures ValidTables(c, Run(c, t, bs))
  {
    hide Updated;
    if bs != [] {
      RunValid(c, t, bs[..|bs| - 1]);
      UpdateValid(c, Run(c, t, bs[..|bs| - 1]), bs[|bs| - 1]);
    }
  }

  // ---------------------------------------------------------------- the combination competes

  /** What the choosing table is told: the disagreements, and whether the two-level predictor was right. */
  ghost function Disputes(c: Config, t: Tables, bs: seq<Branch>): (ts: seq<Told>)
    requires t.bimod != [] && t.regs != [] && t.l2 != [] && t.meta != []
    ensures InTable(|t.meta|, ts)
  {
    if bs == [] then [] else
    var p, b := bs[..|bs| - 1], bs[|bs| - 1];
    var s := Run(c, t, p);
    var g := GuessOf(c, s, b.baddr);
    Disputes(c, t, p) + if g.bimod == g.twolev then [] else [Told(PlacesOf(c, s, b.baddr).meta, g.twolev == b.taken)]
  }

  /** How often both predictors are wrong. */
  function BothWrong(c: Config, t: Tables, bs: seq<Branch>): nat
    requires t.bimod != [] && t.regs != [] && t.l2 != [] && t.meta != []
  {
    if bs == [] then 0 else
    var p, b := bs[..|bs| - 1], bs[|bs| - 1];
    var g := GuessOf(c, Run(c, t, p), b.baddr);
    BothWrong(c, t, p) + if g.bimod == g.twolev != b.taken then 1 else 0
  }

  lemma {:induction false} OneTold(table: seq<nat>, ts: seq<Told>, x: Told)
    requires InTable(|table|, ts) && x.idx < |table|
    ensures var all := ts + [x];
      && InTable(|table|, all)
      && After(table, all) == After(table, ts)[x.idx := Counted(After(table, ts)[x.idx], x.up)]
      && Wrong(table, all) == Wrong(table, ts) + (if (After(table, ts)[x.idx] >= 2) != x.up then 1 else 0)
      && forall up {:trigger TimesTold(all, up)} ::
          TimesTold(all, up) == TimesTold(ts, up) + if x.up == up then 1 else 0
  {
    InTableMore(|table|, ts, x);
    assert (ts + [x])[..|ts|] == ts;
  }

  /** The mistakes of the combination are those of both parts, and those of its choice. */
  lemma {:induction false} MistakesSplit(c: Config, t: Tables, bs: seq<Branch>)
    requires t.bimod != [] && t.regs != [] && t.l2 != [] && t.meta != []
    ensures var ts, n, s := Disputes(c, t, bs), BothWrong(c, t, bs), Mistakes(c, t, bs);
      && Run(c, t, bs).meta == After(t.meta, ts)
      && s.combined == n + Wrong(t.meta, ts)
      && s.twolev == n + TimesTold(ts, false) && s.bimod == n + TimesTold(ts, true)
  {
    hide PlacesOf, After, Wrong, TimesTold, Counted;
    if bs == [] {
      NothingTold(t.meta);
    } else {
      var p, b := bs[..|bs| - 1], bs[|bs| - 1];
      MistakesSplit(c, t, p);
      var s := Run(c, t, p);
      var g := GuessOf(c, s, b.baddr);
      if g.bimod != g.twolev {
        OneTold(t.meta, Disputes(c, t, p), Told(PlacesOf(c, s, b.baddr).meta, g.twolev == b.taken));
      } else {
        assert Disputes(c, t, bs) == Disputes(c, t, p);
      }
    }
  }

  lemma {:induction false} NothingTold(table: seq<nat>)
    ensures After(table, []) == table && Wrong(table, []) == 0 && TimesTold([], false) == TimesTold([], true) == 0
  {
  }

  /** Over any trace, from any tables, and however branches share counters: the combination makes at most
      twice the mistakes of either part, and what its choosing counters were away from that part. */
  lemma {:induction false} CompetesWithBoth(c: Config, t: Tables, bs: seq<Branch>)
    requires ValidTables(c, t)
    ensures var s := Mistakes(c, t, bs);
      && s.combined <= 2 * s.twolev + Gaps(t.meta, true)
      && s.combined <= 2 * s.bimod + Gaps(t.meta, false)
  {
    hide Gaps;
    MistakesSplit(c, t, bs);
    WrongBound(t.meta, Disputes(c, t, bs), true);
    WrongBound(t.meta, Disputes(c, t, bs), false);
  }

  // ---------------------------------------------------------------- from creation

  /** The flip-flop of bpred_dir_create: weakly not taken and weakly taken in turn. */
  function FlipFlop(n: nat): (s: seq<nat>)
    ensures |s| == n && forall i {:trigger s[i]} | 0 <= i < n :: s[i] == if i % 2 == 0 then 1 else 2
  {
    seq(n, i => if i % 2 == 0 then 1 else 2)
  }

  lemma {:induction false} FlipFlopGaps(n: nat)
    ensures Gaps(FlipFlop(n), true) == (n + 1) / 2 && Gaps(FlipFlop(n), false) == n / 2
  {
    if n > 0 {
      assert FlipFlop(n)[..n - 1] == FlipFlop(n - 1);
      FlipFlopGaps(n - 1);
    }
  }

  function Created(bimodSize: nat, l1size: nat, l2size: nat, metaSize: nat): Tables {
    Tables(FlipFlop(bimodSize), seq(l1size, _ => 0), FlipFlop(l2size), FlipFlop(metaSize))
  }

  /** A new combining predictor, over any trace: at most twice the mistakes of its better part, and half the
      size of its choosing table. */
  lemma {:induction false} NewCompetes(c: Config, bimodSize: nat, l1size: nat, l2size: nat, metaSize: nat,
                                       bs: seq<Branch>)
    requires bimodSize > 0 && l1size > 0 && l2size > 0 && metaSize > 0
    ensures var s := Mistakes(c, Created(bimodSize, l1size, l2size, metaSize), bs);
      && s.combined <= 2 * s.twolev + (metaSize + 1) / 2
      && s.combined <= 2 * s.bimod + metaSize / 2
  {
    hide Mistakes, Gaps;
    FlipFlopGaps(metaSize);
    CompetesWithBoth(c, Created(bimodSize, l1size, l2size, metaSize), bs);
  }

  // ---------------------------------------------------------------- one part by itself

  /** What the bimodal table is told. */
  function BimodTold(n: nat, bs: seq<Branch>): (ts: seq<Told>)
    requires n > 0
    ensures |ts| == |bs| && forall i {:trigger ts[i]} | 0 <= i < |ts| ::
            ts[i] == Told(BimodIndex(n, bs[i].baddr), bs[i].taken)
  {
    seq(|bs|, i requires 0 <= i < |bs| => Told(BimodIndex(n, bs[i].baddr), bs[i].taken))
  }

  lemma {:induction false} BimodIsTable(c: Config, t: Tables, bs: seq<Branch>)
    requires t.bimod != [] && t.regs != [] && t.l2 != [] && t.meta != []
    ensures var ts := BimodTold(|t.bimod|, bs);
      InTable(|t.bimod|, ts) && Run(c, t, bs).bimod == After(t.bimod, ts)
          && Mistakes(c, t, bs).bimod == Wrong(t.bimod, ts)
  {
    hide BimodIndex, RegIndex, L2Index, Counted;
    if bs != [] {
      BimodIsTable(c, t, bs[..|bs| - 1]);
      assert BimodTold(|t.bimod|, bs)[..|bs| - 1] == BimodTold(|t.bimod|, bs[..|bs| - 1]);
    }
  }

  function Count(bs: seq<Branch>, taken: bool): nat {
    if bs == [] then 0 else Count(bs[..|bs| - 1], taken) + if bs[|bs| - 1].taken == taken then 1 else 0
  }

  lemma {:induction false} CountTold(n: nat, bs: seq<Branch>, taken: bool)
    requires n > 0
    ensures TimesTold(BimodTold(n, bs), taken) == Count(bs, taken)
  {
    hide BimodIndex;
    if bs != [] {
      CountTold(n, bs[..|bs| - 1], taken);
      assert BimodTold(n, bs)[..|bs| - 1] == BimodTold(n, bs[..|bs| - 1]);
    }
  }

  /** A new bimodal predictor is wrong at most twice for each branch of the rarer direction, and half its size. */
  lemma {:induction false} BimodalBound(c: Config, bimodSize: nat, l1size: nat, l2size: nat, metaSize: nat,
                                        bs: seq<Branch>)
    requires bimodSize > 0 && l1size > 0 && l2size > 0 && metaSize > 0
    ensures var s := Mistakes(c, Created(bimodSize, l1size, l2size, metaSize), bs);
      && s.bimod <= 2 * Count(bs, false) + (bimodSize + 1) / 2
      && s.bimod <= 2 * Count(bs, true) + bimodSize / 2
  {
    hide Mistakes, Gaps, Run, BimodTold, After, Wrong, TimesTold, Count;
    var t := Created(bimodSize, l1size, l2size, metaSize);
    BimodIsTable(c, t, bs);
    FlipFlopGaps(bimodSize);
    CountTold(bimodSize, bs, true);
    CountTold(bimodSize, bs, false);
    WrongBound(t.bimod, BimodTold(bimodSize, bs), true);
    WrongBound(t.bimod, BimodTold(bimodSize, bs), false);
  }
}
