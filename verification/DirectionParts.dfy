/** What each part of the direction predictor of lab4/bpred.c learns of a branch that shares no counters: the
    two-level part every branch whose outcome depends on its last outcomes alone, with and without exclusive
    or, and the bimodal part every branch that mostly goes one way. */
module DirectionParts {
  import opened Bits
  import opened Counters
  import opened Combining
  import opened Histories

  /** The history register holds the last outcomes: shifting one in keeps it so. */
  lemma {:induction false} ShiftedIsLast(c: Config, os: seq<bool>, taken: bool)
    ensures Shifted(c, Number(Last(c.width, os)), taken) == Number(Last(c.width, os + [taken]))
  {
    ShiftIsLast(c.width, os, taken);
  }

  // ---------------------------------------------------------------- exclusive or

  lemma {:induction false} XorUnfold(a: nat, b: nat)
    ensures Xor(a, b) == (a + b) % 2 + 2 * Xor(a / 2, b / 2)
  {
  }

  lemma {:induction false} TwiceTells(p: nat, y: nat, p2: nat, y2: nat)
    requires p < 2 && p2 < 2 && p + 2 * y == p2 + 2 * y2
    ensures p == p2 && y == y2
  {
  }

  lemma {:induction false} SameParity(a: nat, b: nat, x: nat)
    requires (a + x) % 2 == (b + x) % 2
    ensures a % 2 == b % 2
  {
  }

  /** Different numbers stay different, in their low bits. */
  lemma {:induction false} XorTells(w: nat, a: nat, b: nat, x: nat)
    requires Xor(a, x) % Exp2(w) == Xor(b, x) % Exp2(w)
    ensures a % Exp2(w) == b % Exp2(w)
  {
    hide Xor;
    if w > 0 {
      var m := Exp2(w - 1);
      var y, z := Xor(a / 2, x / 2), Xor(b / 2, x / 2);
      XorUnfold(a, x);
      XorUnfold(b, x);
      ModTwice((a + x) % 2, y, m);
      ModTwice((b + x) % 2, z, m);
      TwiceTells((a + x) % 2, y % m, (b + x) % 2, z % m);
      SameParity(a, b, x);
      XorTells(w - 1, a / 2, b / 2, x / 2);
      ModTwice(a % 2, a / 2, m);
      ModTwice(b % 2, b / 2, m);
      assert a == a % 2 + 2 * (a / 2) && b == b % 2 + 2 * (b / 2);
    }
  }

  // ---------------------------------------------------------------- the counters of one branch

  /** The level-two table is a whole number of counters for each of the histories. */
  ghost predicate Roomy(c: Config, n: nat) { n > 0 && n % Exp2(c.width) == 0 }

  /** Two addresses in different lines of a table with `n` lines. */
  predicate Apart(n: nat, x: nat, y: nat)
    requires n > 0
  {
    x / 8 % n != y / 8 % n
  }

  function Low(c: Config, h: nat, b: nat): (x: nat)
    ensures h < Exp2(c.width) ==> x < Exp2(c.width)
  {
    if c.useXor then Xor(h, b) % Exp2(c.width) else h
  }

  /** Lines of `e` counters, `m` of them. */
  lemma {:induction false} LineOf(x: nat, b: nat, m: nat, e: nat)
    requires x < e && m > 0
    ensures (x + b * e) % (m * e) == x + b % m * e < m * e
  {
    var q, r := b / m, b % m;
    MulStep(r, m, e);
    assert b == q * m + r;
    assert b * e == q * (m * e) + r * e by {
      assert (q * m + r) * e == q * m * e + r * e;
      assert q * m * e == q * (m * e);
    }
    DivModUnique(q, x + r * e, m * e);
  }

  lemma {:induction false} Lines(n: nat, e: nat)
    requires n > 0 && e > 0 && n % e == 0
    ensures n / e > 0 && n == n / e * e
  {
  }

  lemma {:induction false} PlaceIs(c: Config, n: nat, h: nat, baddr: nat)
    requires Roomy(c, n) && h < Exp2(c.width)
    ensures n / Exp2(c.width) > 0
    ensures L2Index(c, n, h, baddr) == Low(c, h, baddr / 8) + baddr / 8 % (n / Exp2(c.width)) * Exp2(c.width)
  {
    hide Xor, Exp2;
    Lines(n, Exp2(c.width));
    LineOf(Low(c, h, baddr / 8), baddr / 8, n / Exp2(c.width), Exp2(c.width));
  }

  lemma {:induction false} LinesDiffer(x: nat, r: nat, y: nat, s: nat, e: nat)
    requires x < e && y < e && x + r * e == y + s * e
    ensures r == s && x == y
  {
    DivModUnique(r, x, e);
    DivModUnique(s, y, e);
  }

  lemma {:induction false} LowTells(c: Config, h: nat, h2: nat, b: nat)
    requires h < Exp2(c.width) && h2 < Exp2(c.width) && Low(c, h, b) == Low(c, h2, b)
    ensures h == h2
  {
    hide Xor, Exp2;
    if c.useXor {
      XorTells(c.width, h, h2, b);
      SmallMod(h, Exp2(c.width));
      SmallMod(h2, Exp2(c.width));
    }
  }

  lemma {:induction false} SmallMod(h: nat, e: nat)
    requires h < e
    ensures h % e == h
  {
  }

  /** A branch has a counter for each history, and shares none with a branch in another line. */
  lemma {:induction false} PlacesDiffer(c: Config, n: nat, h: nat, pc: nat, h2: nat, pc2: nat)
    requires Roomy(c, n) && h < Exp2(c.width) && h2 < Exp2(c.width) && n / Exp2(c.width) > 0
    requires if pc == pc2 then h != h2 else Apart(n / Exp2(c.width), pc, pc2)
    ensures L2Index(c, n, h, pc) != L2Index(c, n, h2, pc2)
  {
    hide L2Index, Xor, Exp2, Low;
    var e, m := Exp2(c.width), n / Exp2(c.width);
    PlaceIs(c, n, h, pc);
    PlaceIs(c, n, h2, pc2);
    if L2Index(c, n, h, pc) == L2Index(c, n, h2, pc2) {
      LinesDiffer(Low(c, h, pc / 8), pc / 8 % m, Low(c, h2, pc2 / 8), pc2 / 8 % m, e);
      if pc == pc2 {
        LowTells(c, h, h2, pc / 8);
      }
    }
  }

  // ---------------------------------------------------------------- one branch in a trace

  function Adds(b: Branch, pc: nat): seq<bool> { if b.baddr == pc then [b.taken] else [] }

  /** The outcomes of one branch. */
  function Own(bs: seq<Branch>, pc: nat): seq<bool> {
    if bs == [] then [] else Own(bs[..|bs| - 1], pc) + Adds(bs[|bs| - 1], pc)
  }

  /** The mistakes of the two-level part at that branch. */
  function WrongAt(c: Config, t: Tables, bs: seq<Branch>, pc: nat): nat
    requires t.bimod != [] && t.regs != [] && t.l2 != [] && t.meta != []
  {
    if bs == [] then 0 else
    var p, b := bs[..|bs| - 1], bs[|bs| - 1];
    WrongAt(c, t, p, pc) + if b.baddr == pc && GuessOf(c, Run(c, t, p), pc).twolev != b.taken then 1 else 0
  }

  /** No other branch of the trace has its history register or its part of the level-two table. */
  ghost predicate AloneIn(c: Config, t: Tables, bs: seq<Branch>, pc: nat)
    requires t.regs != [] && t.l2 != [] && Roomy(c, |t.l2|)
  {
    && |t.l2| / Exp2(c.width) > 0
    && forall i {:trigger bs[i]} | 0 <= i < |bs| && bs[i].baddr != pc ::
        Apart(|t.regs|, bs[i].baddr, pc) && Apart(|t.l2| / Exp2(c.width), bs[i].baddr, pc)
  }

  /** The counter says what the branch did. */
  predicate Agrees(x: nat, taken: bool) { if taken then x >= 2 else x <= 1 }

  /** What the tables know of the branch. */
  ghost predicate Knows(c: Config, r: Tables, pc: nat, os: seq<bool>)
    requires r.regs != [] && r.l2 != []
  {
    && r.regs[RegIndex(|r.regs|, pc)] == Number(Last(c.width, os))
    && (forall i {:trigger os[i]} | 0 <= i < |os| ::
          Agrees(r.l2[L2Index(c, |r.l2|, Number(Last(c.width, os[..i])), pc)], os[i]))
    && (forall h: nat | h < Exp2(c.width) && h !in Met(c.width, os) :: 1 <= r.l2[L2Index(c, |r.l2|, h, pc)] <= 2)
  }

  lemma {:induction false} CountedAgrees(x: nat, taken: bool)
    requires Agrees(x, taken) || 1 <= x <= 2
    ensures Agrees(Counted(x, taken), taken)
  {
  }

  /** What a lookup of the branch finds: its history, and a counter that agrees if the history was met before. */
  lemma {:induction false} Found(c: Config, r: Tables, pc: nat, os: seq<bool>, taken: bool)
    requires ValidTables(c, r) && Knows(c, r, pc, os) && Determined(c.width, os + [taken])
    ensures var h := Number(Last(c.width, os));
      var p := PlacesOf(c, r, pc);
      && h < Exp2(c.width) && p.l2 == L2Index(c, |r.l2|, h, pc)
      && (h in Met(c.width, os) ==> Agrees(r.l2[p.l2], taken))
      && (h !in Met(c.width, os) ==> 1 <= r.l2[p.l2] <= 2)
  {
    hide Last, L2Index, RegIndex, BimodIndex, Exp2, Number, Met;
    var h := Number(Last(c.width, os));
    NumberBelow(Last(c.width, os));
    if h in Met(c.width, os) {
      var i := MetAt(c.width, os, h);
      NumberTells(Last(c.width, os[..i]), Last(c.width, os));
      DeterminedFront(c.width, os, taken);
      assert os[i] == taken;
    }
  }

  lemma {:induction false} OwnStep(c: Config, r: Tables, pc: nat, os: seq<bool>, taken: bool)
    requires ValidTables(c, r) && Roomy(c, |r.l2|) && Knows(c, r, pc, os) && Determined(c.width, os + [taken])
    ensures Knows(c, Updated(c, r, Branch(pc, taken)), pc, os + [taken])
  {
    hide Last, L2Index, RegIndex, BimodIndex, Exp2, Number, Shifted, Xor, Counted;
    var w, all, u, n := c.width, os + [taken], Updated(c, r, Branch(pc, taken)), |r.l2|;
    var h := Number(Last(w, os));
    Found(c, r, pc, os, taken);
    var p := L2Index(c, n, h, pc);
    CountedAgrees(r.l2[p], taken);
    ShiftedIsLast(c, os, taken);
    RoomyParts(c, n);
    assert u.l2 == r.l2[p := Counted(r.l2[p], taken)];
    assert all[..|os|] == os;
    forall i {:trigger all[i]} | 0 <= i < |all|
      ensures Agrees(u.l2[L2Index(c, n, Number(Last(w, all[..i])), pc)], all[i])
    {
      if i < |os| {
        assert all[..i] == os[..i] && all[i] == os[i];
        KeepsAgreeing(c, r, pc, os, taken, i);
      }
    }
    assert Met(w, all) == Met(w, os) + {h};
    forall k: nat | k < Exp2(w) && k !in Met(w, all) ensures 1 <= u.l2[L2Index(c, n, k, pc)] <= 2 {
      PlacesDiffer(c, n, k, pc, h, pc);
    }
  }

  lemma {:induction false} RoomyParts(c: Config, n: nat)
    requires Roomy(c, n)
    ensures n / Exp2(c.width) > 0
  {
    hide Exp2;
    Lines(n, Exp2(c.width));
  }

  lemma {:induction false} KeepsAgreeing(c: Config, r: Tables, pc: nat, os: seq<bool>, taken: bool, i: nat)
    requires ValidTables(c, r) && Roomy(c, |r.l2|) && |r.l2| / Exp2(c.width) > 0 && i < |os|
    requires Knows(c, r, pc, os) && Determined(c.width, os + [taken])
    ensures var h, g := Number(Last(c.width, os)), Number(Last(c.width, os[..i]));
      var p, q := L2Index(c, |r.l2|, h, pc), L2Index(c, |r.l2|, g, pc);
      Agrees(r.l2[p := Counted(r.l2[p], taken)][q], os[i])
  {
    hide Last, L2Index, RegIndex, BimodIndex, Exp2, Number, Xor, Counted, Determined;
    var w := c.width;
    var h, g := Number(Last(w, os)), Number(Last(w, os[..i]));
    NumberBelow(Last(w, os));
    NumberBelow(Last(w, os[..i]));
    assert os[i] == os[i];
    if g == h {
      NumberTells(Last(w, os[..i]), Last(w, os));
      DeterminedFront(w, os, taken);
      assert os[i] == taken;
      assert Agrees(r.l2[L2Index(c, |r.l2|, g, pc)], os[i]);
      CountedAgrees(r.l2[L2Index(c, |r.l2|, h, pc)], taken);
    } else {
      PlacesDiffer(c, |r.l2|, g, pc, h, pc);
    }
  }

  /** Another branch leaves all this alone. */
  lemma {:induction false} OtherStep(c: Config, r: Tables, pc: nat, os: seq<bool>, b: Branch)
    requires ValidTables(c, r) && Roomy(c, |r.l2|) && Knows(c, r, pc, os) && |r.l2| / Exp2(c.width) > 0
    requires b.baddr != pc && Apart(|r.regs|, b.baddr, pc) && Apart(|r.l2| / Exp2(c.width), b.baddr, pc)
    ensures Knows(c, Updated(c, r, b), pc, os)
  {
    hide Last, L2Index, BimodIndex, Exp2, Number, Shifted, Xor, Counted, Met;
    var n, u := |r.l2|, Updated(c, r, b);
    var reg := r.regs[RegIndex(|r.regs|, b.baddr)];
    assert reg < Exp2(c.width);
    forall h: nat | h < Exp2(c.width) ensures u.l2[L2Index(c, n, h, pc)] == r.l2[L2Index(c, n, h, pc)] {
      PlacesDiffer(c, n, h, pc, reg, b.baddr);
    }
    forall i {:trigger os[i]} | 0 <= i < |os|
      ensures Agrees(u.l2[L2Index(c, n, Number(Last(c.width, os[..i])), pc)], os[i])
    {
      NumberBelow(Last(c.width, os[..i]));
    }
  }

  // ---------------------------------------------------------------- the bound

  /** As at creation: empty histories, and counters that say neither direction for sure. */
  ghost predicate New(c: Config, t: Tables) {
    && ValidTables(c, t) && Roomy(c, |t.l2|)
    && (forall i {:trigger t.regs[i]} | 0 <= i < |t.regs| :: t.regs[i] == 0)
    && (forall i {:trigger t.l2[i]} | 0 <= i < |t.l2| :: 1 <= t.l2[i] <= 2)
  }

  lemma {:induction false} NewKnows(c: Config, t: Tables, pc: nat)
    requires New(c, t)
    ensures Knows(c, t, pc, [])
  {
    hide L2Index, RegIndex;
    NoOutcomes(c.width);
  }

  lemma {:induction false} OneMore(c: Config, r: Tables, pc: nat, os: seq<bool>, taken: bool)
    requires ValidTables(c, r) && Knows(c, r, pc, os) && Determined(c.width, os + [taken])
    ensures |Met(c.width, os + [taken])|
            >= |Met(c.width, os)| + if GuessOf(c, r, pc).twolev != taken then 1 else 0
  {
    hide Knows, Determined, PlacesOf, L2Index, Last, Number;
    Found(c, r, pc, os, taken);
    var h := Number(Last(c.width, os));
    assert (os + [taken])[..|os|] == os;
    assert Met(c.width, os + [taken]) == Met(c.width, os) + {h};
    if h in Met(c.width, os) {
      assert Met(c.width, os) + {h} == Met(c.width, os);
    }
  }

  lemma {:induction false} OneStep(c: Config, r: Tables, pc: nat, os: seq<bool>, b: Branch)
    requires ValidTables(c, r) && Roomy(c, |r.l2|) && Knows(c, r, pc, os) && |r.l2| / Exp2(c.width) > 0
    requires Determined(c.width, os + Adds(b, pc))
    requires b.baddr != pc ==> Apart(|r.regs|, b.baddr, pc) && Apart(|r.l2| / Exp2(c.width), b.baddr, pc)
    ensures ValidTables(c, Updated(c, r, b)) && Knows(c, Updated(c, r, b), pc, os + Adds(b, pc))
    ensures |Met(c.width, os + Adds(b, pc))|
            >= |Met(c.width, os)| + if b.baddr == pc && GuessOf(c, r, pc).twolev != b.taken then 1 else 0
  {
    hide Knows, Determined, Updated, GuessOf, Met, Last, Number, Roomy, Exp2;
    UpdateValid(c, r, b);
    if b.baddr == pc {
      OwnStep(c, r, pc, os, b.taken);
      OneMore(c, r, pc, os, b.taken);
    } else {
      OtherStep(c, r, pc, os, b);
      assert os + Adds(b, pc) == os;
    }
  }

  lemma {:induction false} AloneFront(c: Config, t: Tables, bs: seq<Branch>, pc: nat)
    requires t.regs != [] && t.l2 != [] && Roomy(c, |t.l2|) && AloneIn(c, t, bs, pc) && bs != []
    ensures AloneIn(c, t, bs[..|bs| - 1], pc) && |t.l2| / Exp2(c.width) > 0
    ensures var b := bs[|bs| - 1];
      b.baddr != pc ==> Apart(|t.regs|, b.baddr, pc) && Apart(|t.l2| / Exp2(c.width), b.baddr, pc)
  {
    hide Roomy, Exp2;
    var p := bs[..|bs| - 1];
    assert forall i | 0 <= i < |p| :: p[i] == bs[i];
  }

  lemma {:induction false} DeterminedBefore(w: nat, os: seq<bool>, b: Branch, pc: nat)
    requires Determined(w, os + Adds(b, pc))
    ensures Determined(w, os)
  {
    hide Determined;
    if b.baddr == pc {
      DeterminedFront(w, os, b.taken);
    } else {
      assert os + Adds(b, pc) == os;
    }
  }

  /** The histories are known throughout, and only one that is met for the first time is mistaken. */
  lemma {:induction false} WrongOnlyOnce(c: Config, t: Tables, bs: seq<Branch>, pc: nat)
    requires New(c, t) && AloneIn(c, t, bs, pc) && Determined(c.width, Own(bs, pc))
    ensures ValidTables(c, Run(c, t, bs)) && Knows(c, Run(c, t, bs), pc, Own(bs, pc))
    ensures WrongAt(c, t, bs, pc) <= |Met(c.width, Own(bs, pc))|
  {
    hide Knows, Determined, Updated, GuessOf, Met, Roomy, AloneIn, Exp2;
    if bs == [] {
      NewKnows(c, t, pc);
    } else {
      var p, b := bs[..|bs| - 1], bs[|bs| - 1];
      AloneFront(c, t, bs, pc);
      DeterminedBefore(c.width, Own(p, pc), b, pc);
      WrongOnlyOnce(c, t, p, pc);
      OneStep(c, Run(c, t, p), pc, Own(p, pc), b);
    }
  }

  lemma {:induction false} CreatedNew(c: Config, bimodSize: nat, l1size: nat, l2size: nat, metaSize: nat)
    requires bimodSize > 0 && l1size > 0 && metaSize > 0 && Roomy(c, l2size)
    ensures New(c, Created(bimodSize, l1size, l2size, metaSize))
  {
  }

  /** From creation, in any trace: a branch whose outcomes are determined by the last `width` before them, and
      that is alone in its entries, is mistaken by the two-level part at most once for each history. */
  lemma {:induction false} HistoryBound(c: Config, bimodSize: nat, l1size: nat, l2size: nat, metaSize: nat,
                                        bs: seq<Branch>, pc: nat)
    requires bimodSize > 0 && l1size > 0 && metaSize > 0 && Roomy(c, l2size)
    requires AloneIn(c, Created(bimodSize, l1size, l2size, metaSize), bs, pc) && Determined(c.width, Own(bs, pc))
    ensures WrongAt(c, Created(bimodSize, l1size, l2size, metaSize), bs, pc) <= Exp2(c.width)
  {
    hide Determined, AloneIn, WrongAt, Met, Exp2, Roomy, New;
    var t := Created(bimodSize, l1size, l2size, metaSize);
    CreatedNew(c, bimodSize, l1size, l2size, metaSize);
    WrongOnlyOnce(c, t, bs, pc);
    BelowCard(Met(c.width, Own(bs, pc)), Exp2(c.width));
  }

  /** When the trace is that branch alone, these are all the mistakes of the two-level part; so the combination
      makes at most twice as many, and half the size of its choosing table. */
  lemma {:induction false} LoneBranchLearnt(c: Config, bimodSize: nat, l1size: nat, l2size: nat, metaSize: nat,
                                            bs: seq<Branch>, pc: nat)
    requires bimodSize > 0 && l1size > 0 && metaSize > 0 && Roomy(c, l2size)
    requires (forall i {:trigger bs[i]} | 0 <= i < |bs| :: bs[i].baddr == pc) && Determined(c.width, Own(bs, pc))
    ensures var s := Mistakes(c, Created(bimodSize, l1size, l2size, metaSize), bs);
      s.twolev <= Exp2(c.width) && s.combined <= 2 * Exp2(c.width) + (metaSize + 1) / 2
  {
    hide Determined, Mistakes, WrongAt, Exp2, Roomy;
    var t := Created(bimodSize, l1size, l2size, metaSize);
    RoomyParts(c, l2size);
    HistoryBound(c, bimodSize, l1size, l2size, metaSize, bs, pc);
    AllOwn(c, t, bs, pc);
    NewCompetes(c, bimodSize, l1size, l2size, metaSize, bs);
  }

  lemma {:induction false} AllOwn(c: Config, t: Tables, bs: seq<Branch>, pc: nat)
    requires t.bimod != [] && t.regs != [] && t.l2 != [] && t.meta != []
    requires forall i {:trigger bs[i]} | 0 <= i < |bs| :: bs[i].baddr == pc
    ensures Mistakes(c, t, bs).twolev == WrongAt(c, t, bs, pc)
  {
    hide GuessOf, Run;
    if bs != [] {
      var p := bs[..|bs| - 1];
      assert forall i | 0 <= i < |p| :: p[i] == bs[i];
      assert bs[|bs| - 1].baddr == pc;
      AllOwn(c, t, p, pc);
    }
  }

  // ---------------------------------------------------------------- the bimodal part

  lemma {:induction false} XorCommutes(a: nat, b: nat)
    ensures Xor(a, b) == Xor(b, a)
  {
    if a > 0 || b > 0 {
      XorCommutes(a / 2, b / 2);
    }
  }

  /** Branches within half a megabyte of each other that differ in their low address bits. */
  ghost predicate Near(n: nat, x: nat, y: nat)
    requires n > 0
  {
    x / 0x8_0000 == y / 0x8_0000 && Apart(n, x, y)
  }

  lemma {:induction false} NearDiffer(w: nat, x: nat, y: nat)
    requires Near(Exp2(w), x, y)
    ensures BimodIndex(Exp2(w), x) != BimodIndex(Exp2(w), y)
  {
    hide Xor, Exp2;
    XorCommutes(x / 0x8_0000, x / 8);
    XorCommutes(y / 0x8_0000, y / 8);
    if BimodIndex(Exp2(w), x) == BimodIndex(Exp2(w), y) {
      XorTells(w, x / 8, y / 8, x / 0x8_0000);
    }
  }

  /** The mistakes of the bimodal part at one branch. */
  function BimodWrongAt(c: Config, t: Tables, bs: seq<Branch>, pc: nat): nat
    requires t.bimod != [] && t.regs != [] && t.l2 != [] && t.meta != []
  {
    if bs == [] then 0 else
    var p, b := bs[..|bs| - 1], bs[|bs| - 1];
    BimodWrongAt(c, t, p, pc) + if b.baddr == pc && GuessOf(c, Run(c, t, p), pc).bimod != b.taken then 1 else 0
  }

  function Times(os: seq<bool>, taken: bool): nat {
    if os == [] then 0 else Times(os[..|os| - 1], taken) + if os[|os| - 1] == taken then 1 else 0
  }

  lemma {:induction false} TimesMore(os: seq<bool>, b: Branch, pc: nat, taken: bool)
    ensures Times(os + Adds(b, pc), taken) == Times(os, taken) + if b.baddr == pc && b.taken == taken then 1 else 0
  {
    if b.baddr == pc {
      assert (os + [b.taken])[..|os|] == os;
    } else {
      assert os + Adds(b, pc) == os;
    }
  }

  /** How far the branch's counter is from saying `up`, against the mistakes made so far. */
  lemma {:induction false} BimodGap(c: Config, t: Tables, w: nat, bs: seq<Branch>, pc: nat, up: bool)
    requires ValidTables(c, t) && |t.bimod| == Exp2(w)
    requires forall i {:trigger bs[i]} | 0 <= i < |bs| && bs[i].baddr != pc :: Near(Exp2(w), bs[i].baddr, pc)
    ensures var i := BimodIndex(Exp2(w), pc);
      && ValidTables(c, Run(c, t, bs))
      && BimodWrongAt(c, t, bs, pc) + Gap(Run(c, t, bs).bimod[i], up) <= 2 * Times(Own(bs, pc), !up) + Gap(t.bimod[i],
          up)
  {
    hide BimodIndex, Exp2, Times, RegIndex, L2Index, Shifted, Gap, Counted, Near, Own;
    RunValid(c, t, bs);
    if bs == [] {
      NoneOwn(pc);
    } else {
      var p, b := bs[..|bs| - 1], bs[|bs| - 1];
      assert forall i | 0 <= i < |p| :: p[i] == bs[i];
      BimodGap(c, t, w, p, pc, up);
      var i := BimodIndex(Exp2(w), pc);
      OwnLast(bs, pc);
      TimesMore(Own(p, pc), b, pc, !up);
      if b.baddr == pc {
        GapStep(Run(c, t, p).bimod[i], b.taken, up);
      } else {
        assert Near(Exp2(w), b.baddr, pc);
        NearDiffer(w, b.baddr, pc);
      }
    }
  }

  lemma {:induction false} NoneOwn(pc: nat)
    ensures Own([], pc) == []
  {
  }

  lemma {:induction false} OwnLast(bs: seq<Branch>, pc: nat)
    requires bs != []
    ensures Own(bs, pc) == Own(bs[..|bs| - 1], pc) + Adds(bs[|bs| - 1], pc)
  {
  }

  /** From creation, in any trace of branches near each other that share no counter with this one: the bimodal
      part mistakes it at most twice for each outcome in the rarer direction, and once more. */
  lemma {:induction false} BiasBound(c: Config, w: nat, l1size: nat, l2size: nat, metaSize: nat, bs: seq<Branch>,
                                     pc: nat)
    requires l1size > 0 && l2size > 0 && metaSize > 0
    requires forall i {:trigger bs[i]} | 0 <= i < |bs| && bs[i].baddr != pc :: Near(Exp2(w), bs[i].baddr, pc)
    ensures var n, os := BimodWrongAt(c, Created(Exp2(w), l1size, l2size, metaSize), bs, pc), Own(bs, pc);
      n <= 2 * Times(os, false) + 1 && n <= 2 * Times(os, true) + 1
  {
    hide Exp2, Times, BimodWrongAt, Own, Near;
    var t := Created(Exp2(w), l1size, l2size, metaSize);
    BimodGap(c, t, w, bs, pc, true);
    BimodGap(c, t, w, bs, pc, false);
  }

  // ---------------------------------------------------------------- the choice between them

  /** The mistakes of the combination at one branch. */
  function CombinedWrongAt(c: Config, t: Tables, bs: seq<Branch>, pc: nat): nat
    requires t.bimod != [] && t.regs != [] && t.l2 != [] && t.meta != []
  {
    if bs == [] then 0 else
    var p, b := bs[..|bs| - 1], bs[|bs| - 1];
    CombinedWrongAt(c, t, p, pc) + if b.baddr == pc && Final(GuessOf(c, Run(c, t, p), pc)) != b.taken then 1 else 0
  }

  /** What one update does to the choosing counter at place `i`. */
  lemma {:induction false} ChoiceStep(c: Config, t: Tables, b: Branch, i: nat)
    requires ValidTables(c, t) && i < |t.meta|
    ensures var g, t' := GuessOf(c, t, b.baddr), Updated(c, t, b);
      && (BimodIndex(|t.meta|, b.baddr) != i || g.bimod == g.twolev ==> t'.meta[i] == t.meta[i])
      && (BimodIndex(|t.meta|, b.baddr) == i && g.bimod != g.twolev ==>
            t'.meta[i] == Counted(t.meta[i], g.twolev == b.taken))
      && (BimodIndex(|t.meta|, b.baddr) == i ==> g.meta == (t.meta[i] >= 2))
  {
    hide BimodIndex, RegIndex, L2Index, Shifted, Counted;
  }

  lemma {:induction false} ChoiceGap(c: Config, t: Tables, w: nat, bs: seq<Branch>, pc: nat)
    requires ValidTables(c, t) && |t.meta| == Exp2(w)
    requires forall i {:trigger bs[i]} | 0 <= i < |bs| && bs[i].baddr != pc :: Near(Exp2(w), bs[i].baddr, pc)
    ensures var i, n := BimodIndex(Exp2(w), pc), CombinedWrongAt(c, t, bs, pc);
      && ValidTables(c, Run(c, t, bs))
      && n + Gap(Run(c, t, bs).meta[i], true) <= 2 * WrongAt(c, t, bs, pc) + Gap(t.meta[i], true)
      && n + Gap(Run(c, t, bs).meta[i], false) <= 2 * BimodWrongAt(c, t, bs, pc) + Gap(t.meta[i], false)
  {
    hide BimodIndex, Exp2, Updated, GuessOf, Gap, Counted, Near;
    RunValid(c, t, bs);
    if bs != [] {
      var p, b := bs[..|bs| - 1], bs[|bs| - 1];
      assert forall i | 0 <= i < |p| :: p[i] == bs[i];
      ChoiceGap(c, t, w, p, pc);
      var i, r := BimodIndex(Exp2(w), pc), Run(c, t, p);
      ChoiceStep(c, r, b, i);
      if b.baddr == pc {
        var right := GuessOf(c, r, pc).twolev == b.taken;
        GapStep(r.meta[i], right, true);
        GapStep(r.meta[i], right, false);
      } else {
        assert Near(Exp2(w), b.baddr, pc);
        NearDiffer(w, b.baddr, pc);
      }
    }
  }

  /** From creation, in any trace of branches near each other that share no choosing counter with this one: at
      this branch the combination makes at most twice the mistakes of either part, and one. */
  lemma {:induction false} ChoiceBound(c: Config, w: nat, bimodSize: nat, l1size: nat, l2size: nat, bs: seq<Branch>,
                                       pc: nat)
    requires bimodSize > 0 && l1size > 0 && l2size > 0
    requires forall i {:trigger bs[i]} | 0 <= i < |bs| && bs[i].baddr != pc :: Near(Exp2(w), bs[i].baddr, pc)
    ensures var t := Created(bimodSize, l1size, l2size, Exp2(w));
      && CombinedWrongAt(c, t, bs, pc) <= 2 * WrongAt(c, t, bs, pc) + 1
      && CombinedWrongAt(c, t, bs, pc) <= 2 * BimodWrongAt(c, t, bs, pc) + 1
  {
    hide Exp2, WrongAt, BimodWrongAt, CombinedWrongAt, Near;
    ChoiceGap(c, Created(bimodSize, l1size, l2size, Exp2(w)), w, bs, pc);
  }
}
