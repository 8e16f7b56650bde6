/** The combining direction predictor of lab4/bpred.c in its own form: tables updated in place, and the
    record that a lookup leaves for the update. */
module DirectionTables {
  import opened Counters
  import opened Combining

  /** The parts of bpred_update_t for directions: the counters looked up, as their places, and what they said. */
  datatype Record = Record(places: Places, guess: Guess)

  /** The flip-flop loop of bpred_dir_create. */
  method NewTable(n: nat) returns (table: array<nat>)
    ensures fresh(table) && table[..] == FlipFlop(n)
  {
    table := new nat[n](_ => 0);
    var flipflop := 1;
    var cnt := 0;
    while cnt < n
      invariant cnt <= n && flipflop == if cnt % 2 == 0 then 1 else 2
      invariant table[..cnt] == FlipFlop(n)[..cnt]
    {
      table[cnt] := flipflop;
      flipflop := 3 - flipflop;
      cnt := cnt + 1;
    }
  }

  /** Counts up to three, or down to zero. */
  method CountIn(table: array<nat>, i: nat, taken: bool)
    requires i < table.Length
    modifies table
    ensures table[..] == old(table[..])[i := Counted(old(table[i]), taken)]
  {
    if taken {
      if table[i] < 3 {
        table[i] := table[i] + 1;
      }
    } else if table[i] > 0 {
      table[i] := table[i] - 1;
    }
  }

  class CombPredictor {
    const c: Config
    const bimod: array<nat>
    const regs: array<nat>
    const l2: array<nat>
    const meta: array<nat>

    ghost predicate Valid()
      reads bimod, regs, l2, meta
    {
      && bimod != regs && bimod != l2 && bimod != meta && regs != l2 && regs != meta && l2 != meta
      && ValidTables(c, Abs())
    }

    ghost function Abs(): Tables
      reads bimod, regs, l2, meta
    {
      Tables(bimod[..], regs[..], l2[..], meta[..])
    }

    /** bpred_create for a combining predictor. */
    constructor (config: Config, bimodSize: nat, l1size: nat, l2size: nat, metaSize: nat)
      requires bimodSize > 0 && l1size > 0 && l2size > 0 && metaSize > 0
      ensures Valid() && c == config && Abs() == Created(bimodSize, l1size, l2size, metaSize)
      ensures fresh(bimod) && fresh(regs) && fresh(l2) && fresh(meta)
    {
      var b := NewTable(bimodSize);
      var two := NewTable(l2size);
      var m := NewTable(metaSize);
      c, bimod, l2, meta := config, b, two, m;
      regs := new nat[l1size](_ => 0);
      new;
      assert regs[..] == seq(l1size, _ => 0);
    }

    /** The conditional-branch part of bpred_lookup. */
    method Lookup(baddr: nat) returns (u: Record, taken: bool)
      requires Valid()
      ensures u == Record(PlacesOf(c, Abs(), baddr), GuessOf(c, Abs(), baddr))
              && taken == Final(GuessOf(c, Abs(), baddr))
    {
      hide BimodIndex, RegIndex, L2Index;
      var r := RegIndex(regs.Length, baddr);
      var p := Places(BimodIndex(bimod.Length, baddr), r,
                      L2Index(c, l2.Length, regs[r], baddr), BimodIndex(meta.Length, baddr));
      u := Record(p, Guess(bimod[p.bimod] >= 2, l2[p.l2] >= 2, meta[p.meta] >= 2));
      taken := if meta[p.meta] >= 2 then l2[p.l2] >= 2 else bimod[p.bimod] >= 2;
    }

    /** The direction part of bpred_update, with the record of any lookup. */
    method Update(b: Branch, u: Record)
      requires Valid() && InTables(Abs(), u.places)
      modifies bimod, regs, l2, meta
      ensures Valid() && InTables(old(Abs()), u.places)
      ensures Abs() == UpdatedFrom(c, old(Abs()), b, u.places, u.guess)
    {
      hide RegIndex, Counted, ValidTables, TwoBit;
      UpdateFromValid(c, Abs(), b, u.places, u.guess);
      NonEmpty();
      var p, r := u.places, RegIndex(regs.Length, b.baddr);
      regs[r] := Shifted(c, regs[r], b.taken);
      CountIn(bimod, p.bimod, b.taken);
      CountIn(l2, p.l2, b.taken);
      if u.guess.bimod != u.guess.twolev {
        CountIn(meta, p.meta, u.guess.twolev == b.taken);
      }
    }

    lemma {:induction false} NonEmpty()
      requires ValidTables(c, Abs())
      ensures bimod.Length > 0 && regs.Length > 0 && l2.Length > 0 && meta.Length > 0
    {
    }

    /** A trace in program order, each branch looked up and then updated. */
    method Simulate(bs: seq<Branch>) returns (s: Score)
      requires Valid()
      modifies bimod, regs, l2, meta
      ensures Valid() && Abs() == Run(c, old(Abs()), bs) && s == Mistakes(c, old(Abs()), bs)
      ensures s.combined <= 2 * s.twolev + Gaps(old(meta[..]), true)
              && s.combined <= 2 * s.bimod + Gaps(old(meta[..]), false)
    {
      hide UpdatedFrom, PlacesOf, GuessOf, Gaps;
      ghost var t := Abs();
      CompetesWithBoth(c, t, bs);
      s := Score(0, 0, 0);
      var n := 0;
      while n < |bs|
        invariant n <= |bs| && Valid() && Abs() == Run(c, t, bs[..n]) && s == Mistakes(c, t, bs[..n])
      {
        assert bs[..n + 1][..n] == bs[..n];
        var u, taken := Lookup(bs[n].baddr);
        s := Scored(s, u.guess, bs[n].taken);
        Update(bs[n], u);
        n := n + 1;
      }
      assert bs[..n] == bs;
    }
  }
}
