/** The prefetchers of lab4/cache.c in their own form: the tables that generate_prefetch updates in place. */
module PrefetchTables {
  import opened Prefetchers
  import opened PatternPrefetcher

  class Prefetcher {
    const kind: nat
    const bsize: nat
    const rpt: array<RptEntry>
    const plt: array<PltEntry>

    ghost predicate Valid() {
      bsize > 0 && plt.Length == TABLE_SIZE && (kind > 2 ==> rpt.Length == kind)
    }

    /** The tables as the first use finds them; above two the kind is the size of the stride table. */
    constructor (k: nat, b: nat)
      requires b > 0
      ensures Valid() && kind == k && bsize == b && fresh(rpt) && fresh(plt)
      ensures plt[..] == seq(TABLE_SIZE, _ => FRESH_PLT) && (k > 2 ==> rpt[..] == seq(k, _ => FRESH_RPT))
    {
      kind, bsize := k, b;
      rpt := new RptEntry[k](_ => FRESH_RPT);
      plt := new PltEntry[TABLE_SIZE](_ => FRESH_PLT);
      new;
      assert rpt[..] == seq(k, _ => FRESH_RPT);
      assert plt[..] == seq(TABLE_SIZE, _ => FRESH_PLT);
    }

    /** stride_prefetcher */
    method Stride(pc: nat, addr: nat) returns (targets: seq<nat>)
      requires Valid() && kind > 2
      modifies rpt
      ensures var i, u := Index(kind, pc), Use(pc, addr);
        rpt[..] == old(rpt[..])[i := RptStep(old(rpt[i]), u)] && targets == StrideTargets(old(rpt[i]), u)
    {
      var i := Index(kind, pc);
      var e := rpt[i];
      if e.tag != pc {
        rpt[i] := RptEntry(pc, addr, 0, Init);
        return [];
      }
      var stride, phase := addr - e.prev, e.phase;
      var newStride := e.stride;
      match e.phase {
        case Init =>
          if stride == e.stride { phase := Steady; } else { phase, newStride := Transient, stride; }
        case Steady =>
          if stride != e.stride { phase := Init; }
        case Transient =>
          if stride == e.stride { phase := Steady; } else { phase, newStride := NoPred, stride; }
        case NoPred =>
          if stride == e.stride { phase := Transient; } else { newStride := stride; }
      }
      rpt[i] := RptEntry(pc, addr, newStride, phase);
      targets := if phase.NoPred? then [] else [(addr + newStride) % SPACE];
    }

    /** open_ended_prefetcher */
    method OpenEnded(pc: nat, addr: nat) returns (targets: seq<nat>)
      requires Valid()
      modifies plt
      ensures var i, u := Index(TABLE_SIZE, pc), Use(pc, addr);
        plt[..] == old(plt[..])[i := PltStep(old(plt[i]), u)] && targets == PatternTargets(bsize, old(plt[i]), u)
    {
      hide Detected, Degree;
      var i := Index(TABLE_SIZE, pc);
      var e := plt[i];
      if e.pc != pc {
        plt[i] := PltEntry(pc, 0, 0, e.history[0 := addr], 1);
        return [];
      }
      var d := Detected(e, addr);
      var stride, confidence := e.stride, e.confidence;
      if d != 0 {
        if stride == d && confidence < 7 {
          confidence := confidence + 1;
        } else {
          stride := d;
          confidence := if confidence > 1 then confidence - 1 else 1;
        }
      } else if confidence > 0 {
        confidence := confidence - 1;
      }
      plt[i] := PltEntry(pc, stride, confidence, e.history[e.idx % HISTORY := addr], e.idx + 1);
      targets := [];
      if confidence >= THETA && stride != 0 {
        var degree := Degree(confidence);
        targets := Issue(addr, Pace(bsize, stride), if degree > MAX_DEGREE then MAX_DEGREE else degree);
      }
    }

    /** The loop that issues prefetches. */
    method Issue(addr: nat, pace: int, degree: nat) returns (targets: seq<nat>)
      ensures targets == Ahead(addr, pace, degree)
    {
      targets := [];
      var i := 1;
      while i <= degree
        invariant 1 <= i <= degree + 1 && targets == Ahead(addr, pace, i - 1)
      {
        targets := targets + [(addr + i * pace) % SPACE];
        i := i + 1;
      }
    }

    /** generate_prefetch: the addresses whose blocks are probed and, if absent, accessed. */
    method Generate(pc: nat, addr: nat) returns (targets: seq<nat>)
      requires Valid()
      modifies rpt, plt
      ensures var u := Use(pc, addr);
        match kind
        case 0 => targets == [] && rpt[..] == old(rpt[..]) && plt[..] == old(plt[..])
        case 1 => targets == [NextLine(bsize, addr)] && rpt[..] == old(rpt[..]) && plt[..] == old(plt[..])
        case 2 => var i := Index(TABLE_SIZE, pc);
          targets == PatternTargets(bsize, old(plt[i]), u) && plt[..] == old(plt[..])[i := PltStep(old(plt[i]), u)]
              && rpt[..] == old(rpt[..])
        case _ => var i := Index(kind, pc);
          targets == StrideTargets(old(rpt[i]), u) && rpt[..] == old(rpt[..])[i := RptStep(old(rpt[i]), u)]
              && plt[..] == old(plt[..])
    {
      hide PltStep, RptStep, PatternTargets, StrideTargets;
      match kind {
        case 0 => targets := [];
        case 1 => targets := [NextLine(bsize, addr)];
        case 2 => targets := OpenEnded(pc, addr);
        case _ => targets := Stride(pc, addr);
      }
    }

    /** A whole trace: the tables are the specification's runs. */
    method GenerateAll(us: seq<Use>) returns (targets: seq<seq<nat>>)
      requires Valid()
      modifies rpt, plt
      ensures |targets| == |us|
      ensures kind == 2 ==> plt[..] == TableRun(PltStep, old(plt[..]), us)
      ensures kind > 2 ==> rpt[..] == TableRun(RptStep, old(rpt[..]), us)
      ensures kind > 2 ==> forall i {:trigger targets[i]} | 0 <= i < |us| ::
                targets[i] == StrideTargets(TableRun(RptStep, old(rpt[..]), us[..i])[Index(kind, us[i].pc)], us[i])
      ensures kind == 2 ==> forall i {:trigger targets[i]} | 0 <= i < |us| ::
                targets[i]
                == PatternTargets(bsize, TableRun(PltStep, old(plt[..]), us[..i])[Index(TABLE_SIZE, us[i].pc)], us[i])
    {
      hide PltStep, RptStep, PatternTargets, StrideTargets;
      targets := [];
      var n := 0;
      while n < |us|
        invariant n == |targets| <= |us|
        invariant kind == 2 ==> plt[..] == TableRun(PltStep, old(plt[..]), us[..n])
        invariant kind > 2 ==> rpt[..] == TableRun(RptStep, old(rpt[..]), us[..n])
        invariant kind > 2 ==> forall i {:trigger targets[i]} | 0 <= i < n ::
                    targets[i] == StrideTargets(TableRun(RptStep, old(rpt[..]), us[..i])[Index(kind, us[i].pc)], us[i])
        invariant kind == 2 ==> forall i {:trigger targets[i]} | 0 <= i < n ::
                    targets[i]
                    == PatternTargets(bsize, TableRun(PltStep, old(plt[..]), us[..i])[Index(TABLE_SIZE, us[i].pc)],
                                      us[i])
      {
        assert us[..n + 1][..n] == us[..n];
        var ts := Generate(us[n].pc, us[n].addr);
        targets := targets + [ts];
        n := n + 1;
      }
      assert us[..n] == us;
    }
  }
}
