/** What a FIFO cache and a cache with random replacement hold: the blocks brought in last, and the block
    brought in last at each place. */
module CacheQueue {
  import opened CacheSpec
  import opened CacheStack
  import opened CacheRecency
  import opened Recency

  // ---------------------------------------------------------------- first in, first out

  /** The tags brought into set `i` since the last flush, the most recent first: those that were not among the
      last `assoc` brought in when they were used. */
  function Filled(c: Config, ops: seq<Step>, i: nat): seq<nat>
    requires ValidConfig(c)
  {
    if ops == [] then [] else
    var p, x := Filled(c, ops[..|ops| - 1], i), ops[|ops| - 1];
    match x
    case Call(r, _) =>
      if SetOf(c, r.addr) == i && Tag(c, r.addr) !in Take(p, c.assoc) then [Tag(c, r.addr)] + p else p
    case FlushBlock(_) => p
    case FlushAll => []
  }

  /** A hit changes its line in place. */
  lemma {:induction false} TagsInPlace(ways: seq<Line>, k: nat, line: Line)
    requires ValidFirst(ways) && k < Depth(ways) && Matches(line, ways[k].tag)
    ensures ValidFirst(ways[k := line]) && Tags(ways[k := line]) == Tags(ways)
  {
    DepthAt(ways[k := line], Depth(ways));
  }

  lemma {:induction false} FifoSet(c: Config, ways: seq<Line>, filled: seq<nat>, tag: nat, hit: Line, fill: Line)
    requires c.assoc > 0 && Holds(c, ways, filled) && Matches(hit, tag) && Matches(fill, tag)
    ensures var k := Find(ways, tag);
      if k < c.assoc then tag in Take(filled, c.assoc) && Holds(c, ways[k := hit], filled)
      else tag !in Take(filled, c.assoc) && Holds(c, ToFront(ways, c.assoc - 1, fill), [tag] + filled)
  {
    hide Find, Depth;
    FoundInTags(ways, tag);
    var k := Find(ways, tag);
    if k < c.assoc {
      assert Tags(ways)[k] == tag;
      TagsInPlace(ways, k, hit);
    } else {
      TagsAfterAccess(ways, tag, fill);
      TagsLength(ways);
      var t := Take(filled, c.assoc);
      assert Take([tag] + filled, c.assoc) == [tag] + if |t| == c.assoc then t[..c.assoc - 1] else t;
    }
  }

  lemma {:induction false} FifoAccess(c: Config, s: State, r: Request) returns (hit: Line, fill: Line)
    requires Shaped(c, s) && ValidRequest(c, |s.mem|, r) && c.policy.FIFO?
    ensures Matches(hit, Tag(c, r.addr)) && Matches(fill, Tag(c, r.addr))
    ensures var i := SetOf(c, r.addr);
      var ways := s.sets[i];
      var k := Find(ways, Tag(c, r.addr));
      && |ways| == c.assoc
      && Access(c, s, r).sets == s.sets[i := if k < c.assoc then ways[k := hit] else ToFront(ways, c.assoc - 1, fill)]
  {
    OffsetFits(c, r.addr, r.nbytes);
    var i := SetOf(c, r.addr);
    var ways := s.sets[i];
    assert ShapedSet(c, ways);
    var k := Find(ways, Tag(c, r.addr));
    fill := Loaded(c, WrittenBack(c, s.mem, ways[VictimOf(c, r)], i), r);
    hit := if k < |ways| then Touched(c, r, ways[k]) else fill;
  }

  ghost predicate AllFilled(c: Config, s: State, ops: seq<Step>)
    requires ValidConfig(c)
  {
    |s.sets| == c.nsets && forall i {:trigger s.sets[i]} | 0 <= i < c.nsets :: Holds(c, s.sets[i], Filled(c, ops, i))
  }

  lemma {:induction false} StepFills(c: Config, s: State, ops: seq<Step>)
    requires ValidConfig(c) && c.policy.FIFO? && Shaped(c, s) && ops != [] && Plain(ops)
    requires AllFilled(c, s, ops[..|ops| - 1]) && ValidStep(c, |s.mem|, ops[|ops| - 1])
    ensures AllFilled(c, StepOf(c, s, ops[|ops| - 1]), ops)
  {
    hide Holds, ShapedSet, Access, Find, ValidRequest, Take;
    var x := ops[|ops| - 1];
    if x.Call? {
      var hit, fill := FifoAccess(c, s, x.r);
      var i := SetOf(c, x.r.addr);
      FifoSet(c, s.sets[i], Filled(c, ops[..|ops| - 1], i), Tag(c, x.r.addr), hit, fill);
    } else {
      FlushSetsKeepShape(c, s, c.nsets);
      forall i | 0 <= i < c.nsets ensures Holds(c, Flush(c, s).sets[i], Filled(c, ops, i)) {
        ShapeSizes(c, Flush(c, s), i);
        EmptyHolds(c, Flush(c, s).sets[i]);
      }
    }
  }

  /** After any accesses and flushes every set of a FIFO cache holds exactly the blocks brought in last, in that
      order, as many as fit: however often they are used. */
  lemma {:induction false} RunFills(c: Config, mem: seq<Byte>, ops: seq<Step>)
    requires ValidConfig(c) && c.policy.FIFO? && ValidSteps(c, |mem|, ops) && Plain(ops)
    ensures Shaped(c, Created(c, mem)) && AllFilled(c, Run(c, Created(c, mem), ops), ops)
    decreases |ops|
  {
    hide Holds, StepOf, ValidStep, Filled;
    var s := Created(c, mem);
    CreatedShape(c, mem);
    if ops == [] {
      NothingFilled(c, mem);
    } else {
      var p := ops[..|ops| - 1];
      assert forall i | 0 <= i < |p| :: p[i] == ops[i];
      RunLast(c, s, ops);
      RunFills(c, mem, p);
      StepFills(c, Run(c, s, p), ops);
    }
  }

  lemma {:induction false} NothingFilled(c: Config, mem: seq<Byte>)
    requires ValidConfig(c)
    ensures AllFilled(c, Created(c, mem), [])
  {
    forall i | 0 <= i < c.nsets ensures Holds(c, Created(c, mem).sets[i], []) {
      EmptyHolds(c, Created(c, mem).sets[i]);
    }
  }

  /** An address hits in a FIFO cache if and only if its block is among the last `assoc` brought into its set. */
  lemma {:induction false} HitIffFilled(c: Config, mem: seq<Byte>, ops: seq<Step>, addr: nat)
    requires ValidConfig(c) && c.policy.FIFO? && ValidSteps(c, |mem|, ops) && Plain(ops)
    ensures Shaped(c, Created(c, mem))
    ensures Probe(c, Run(c, Created(c, mem), ops), addr)
            <==> Tag(c, addr) in Take(Filled(c, ops, SetOf(c, addr)), c.assoc)
  {
    hide Run, Filled, Take, ValidSteps;
    RunFills(c, mem, ops);
    var ways := Run(c, Created(c, mem), ops).sets[SetOf(c, addr)];
    FoundInTags(ways, Tag(c, addr));
  }

  // ---------------------------------------------------------------- random replacement

  /** Who is at each place of set `i`: a block that is not there yet takes the place that is drawn for it. */
  function Drawn(c: Config, ops: seq<Step>, i: nat): (d: seq<nat>)
    requires ValidConfig(c)
    ensures |d| == c.assoc
  {
    if ops == [] then seq(c.assoc, _ => 0) else
    var p, x := Drawn(c, ops[..|ops| - 1], i), ops[|ops| - 1];
    match x
    case Call(r, _) =>
      if SetOf(c, r.addr) == i && Tag(c, r.addr) + 1 !in p && r.victim < c.assoc then p[r.victim := Tag(c, r.addr) + 1]
          else p
    case FlushBlock(_) => p
    case FlushAll => seq(c.assoc, _ => 0)
  }

  /** Place `k` holds what was drawn there, 0 standing for nothing. */
  ghost predicate Seated(c: Config, ways: seq<Line>, d: seq<nat>) {
    |ways| == |d| == c.assoc
    && forall k {:trigger ways[k]} {:trigger d[k]} | 0 <= k < c.assoc ::
         if ways[k].valid then d[k] == ways[k].tag + 1 else d[k] == 0
  }

  lemma {:induction false} FoundSeated(c: Config, ways: seq<Line>, d: seq<nat>, tag: nat)
    requires Seated(c, ways, d)
    ensures Find(ways, tag) < c.assoc <==> tag + 1 in d
  {
    hide Find;
    var k := Find(ways, tag);
    if k < c.assoc {
      assert d[k] == tag + 1;
    }
  }

  lemma {:induction false} RandomAccess(c: Config, s: State, r: Request) returns (hit: Line, fill: Line)
    requires Shaped(c, s) && ValidRequest(c, |s.mem|, r) && c.policy.Random?
    ensures Matches(hit, Tag(c, r.addr)) && Matches(fill, Tag(c, r.addr))
    ensures var i := SetOf(c, r.addr);
      var ways := s.sets[i];
      var k := Find(ways, Tag(c, r.addr));
      && |ways| == c.assoc && r.victim < c.assoc
      && Access(c, s, r).sets == s.sets[i := if k < c.assoc then ways[k := hit] else ways[r.victim := fill]]
  {
    OffsetFits(c, r.addr, r.nbytes);
    var i := SetOf(c, r.addr);
    var ways := s.sets[i];
    assert ShapedSet(c, ways);
    var k := Find(ways, Tag(c, r.addr));
    fill := Loaded(c, WrittenBack(c, s.mem, ways[VictimOf(c, r)], i), r);
    hit := if k < |ways| then Touched(c, r, ways[k]) else fill;
  }

  lemma {:induction false} SeatedAfter(c: Config, ways: seq<Line>, d: seq<nat>, tag: nat, v: nat, hit: Line, fill: Line)
    requires Seated(c, ways, d) && v < c.assoc && Matches(hit, tag) && Matches(fill, tag)
    ensures var k := Find(ways, tag);
      Seated(c, if k < c.assoc then ways[k := hit] else ways[v := fill], if tag + 1 in d then d else d[v := tag + 1])
  {
    hide Find;
    FoundSeated(c, ways, d, tag);
  }

  ghost predicate AllSeated(c: Config, s: State, ops: seq<Step>)
    requires ValidConfig(c)
  {
    |s.sets| == c.nsets && forall i {:trigger s.sets[i]} | 0 <= i < c.nsets :: Seated(c, s.sets[i], Drawn(c, ops, i))
  }

  lemma {:induction false} EmptySeated(c: Config, ways: seq<Line>)
    requires |ways| == c.assoc && NoneValid(ways)
    ensures Seated(c, ways, seq(c.assoc, _ => 0))
  {
  }

  lemma {:induction false} StepSeats(c: Config, s: State, ops: seq<Step>)
    requires ValidConfig(c) && c.policy.Random? && Shaped(c, s) && ops != [] && Plain(ops)
    requires AllSeated(c, s, ops[..|ops| - 1]) && ValidStep(c, |s.mem|, ops[|ops| - 1])
    ensures AllSeated(c, StepOf(c, s, ops[|ops| - 1]), ops)
  {
    hide Seated, ShapedSet, Access, Find, ValidRequest;
    var x := ops[|ops| - 1];
    if x.Call? {
      var hit, fill := RandomAccess(c, s, x.r);
      var i := SetOf(c, x.r.addr);
      SeatedAfter(c, s.sets[i], Drawn(c, ops[..|ops| - 1], i), Tag(c, x.r.addr), x.r.victim, hit, fill);
    } else {
      FlushSetsKeepShape(c, s, c.nsets);
      forall i | 0 <= i < c.nsets ensures Seated(c, Flush(c, s).sets[i], Drawn(c, ops, i)) {
        ShapeSizes(c, Flush(c, s), i);
        EmptySeated(c, Flush(c, s).sets[i]);
      }
    }
  }

  lemma {:induction false} NothingSeated(c: Config, mem: seq<Byte>)
    requires ValidConfig(c)
    ensures AllSeated(c, Created(c, mem), [])
  {
    forall i | 0 <= i < c.nsets ensures Seated(c, Created(c, mem).sets[i], seq(c.assoc, _ => 0)) {
      EmptySeated(c, Created(c, mem).sets[i]);
    }
  }

  /** With random replacement each place of each set holds the block last brought in with that draw. */
  lemma {:induction false} RunSeats(c: Config, mem: seq<Byte>, ops: seq<Step>)
    requires ValidConfig(c) && c.policy.Random? && ValidSteps(c, |mem|, ops) && Plain(ops)
    ensures Shaped(c, Created(c, mem)) && AllSeated(c, Run(c, Created(c, mem), ops), ops)
    decreases |ops|
  {
    hide Seated, StepOf, ValidStep, Drawn;
    var s := Created(c, mem);
    CreatedShape(c, mem);
    if ops == [] {
      NothingSeated(c, mem);
    } else {
      var p := ops[..|ops| - 1];
      assert forall i | 0 <= i < |p| :: p[i] == ops[i];
      RunLast(c, s, ops);
      RunSeats(c, mem, p);
      StepSeats(c, Run(c, s, p), ops);
    }
  }

  /** So an address hits if and only if its block was drawn a place and no later one the same place. */
  lemma {:induction false} HitIffDrawn(c: Config, mem: seq<Byte>, ops: seq<Step>, addr: nat)
    requires ValidConfig(c) && c.policy.Random? && ValidSteps(c, |mem|, ops) && Plain(ops)
    ensures Shaped(c, Created(c, mem))
    ensures Probe(c, Run(c, Created(c, mem), ops), addr) <==> Tag(c, addr) + 1 in Drawn(c, ops, SetOf(c, addr))
  {
    hide Run, Drawn, ValidSteps, Seated;
    RunSeats(c, mem, ops);
    FoundSeated(c, Run(c, Created(c, mem), ops).sets[SetOf(c, addr)], Drawn(c, ops, SetOf(c, addr)), Tag(c, addr));
  }
}
