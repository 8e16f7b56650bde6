/** What an LRU cache holds: in each set, the blocks most recently used. */
module CacheRecency {
  import opened CacheSpec
  import opened CacheStack
  import opened Recency
  import opened Sequences

  /** Accesses without prefetches, and flushes of the whole cache. */
  ghost predicate Plain(ops: seq<Step>) {
    forall i {:trigger ops[i]} | 0 <= i < |ops| :: !ops[i].FlushBlock? && (ops[i].Call? ==> ops[i].targets == [])
  }

  /** The different tags used in set `i` since the last flush, the most recent first. */
  function Used(c: Config, ops: seq<Step>, i: nat): seq<nat>
    requires ValidConfig(c)
  {
    if ops == [] then [] else
    var p, x := Used(c, ops[..|ops| - 1], i), ops[|ops| - 1];
    match x
    case Call(r, _) => if SetOf(c, r.addr) == i then [Tag(c, r.addr)] + Minus(p, Tag(c, r.addr)) else p
    case FlushBlock(_) => p
    case FlushAll => []
  }

  lemma {:induction false} UsedOnce(c: Config, ops: seq<Step>, i: nat)
    requires ValidConfig(c)
    ensures NoRepeat(Used(c, ops, i))
  {
    if ops != [] {
      var p := Used(c, ops[..|ops| - 1], i);
      UsedOnce(c, ops[..|ops| - 1], i);
      if ops[|ops| - 1].Call? {
        var tag := Tag(c, ops[|ops| - 1].r.addr);
        var k := MinusAt(p, tag);
        assert NoRepeat([tag] + Minus(p, tag));
      }
    }
  }

  /** A used tag goes to the front of the most recent ones as LRU moves it. */
  lemma {:induction false} FrontOfTake(r: seq<nat>, n: nat, tag: nat, k: nat, src: nat)
    requires n > 0 && src < n
    requires k <= |r| && (k < |r| ==> r[k] == tag) && (forall j | 0 <= j < |r| && j != k :: r[j] != tag)
    requires var t := Take(r, n);
      (src < |t| && t[src] == tag) || (src == n - 1 && forall j | 0 <= j < |t| :: t[j] != tag)
    ensures var t := Take(r, n);
      Take([tag] + (if k < |r| then Without(r, k) else r), n) == [tag] + if src < |t| then Without(t, src) else t
  {
    var t, r' := Take(r, n), if k < |r| then Without(r, k) else r;
    assert forall j | 0 <= j < |t| :: t[j] == r[j];
    assert src < |t| && t[src] == tag ==> src == k;
    var lhs, rhs := Take([tag] + r', n), [tag] + if src < |t| then Without(t, src) else t;
    assert |lhs| == |rhs|;
    forall j | 0 < j < |lhs| ensures lhs[j] == rhs[j] {
      assert lhs[j] == r'[j - 1];
    }
  }

  /** One set holds the first `assoc` of a list of tags. */
  ghost predicate Holds(c: Config, ways: seq<Line>, used: seq<nat>) {
    |ways| == c.assoc && ValidFirst(ways) && Tags(ways) == Take(used, c.assoc)
  }

  lemma {:induction false} SetAfterAccess(c: Config, ways: seq<Line>, used: seq<nat>, tag: nat, line: Line)
    requires c.assoc > 0 && Holds(c, ways, used) && NoRepeat(used) && Matches(line, tag)
    ensures Holds(c, ToFront(ways, Source(ways, tag), line), [tag] + Minus(used, tag))
  {
    hide Minus, NoRepeat, Find, Depth, ValidFirst;
    var src := Source(ways, tag);
    TagsAfterAccess(ways, tag, line);
    FoundInTags(ways, tag);
    TagsLength(ways);
    var k := MinusAt(used, tag);
    FrontOfTake(used, c.assoc, tag, k, src);
  }

  lemma {:induction false} TagsLength(ways: seq<Line>)
    ensures |Tags(ways)| == Depth(ways)
  {
  }

  lemma {:induction false} EmptyHolds(c: Config, ways: seq<Line>)
    requires |ways| == c.assoc && NoneValid(ways)
    ensures Holds(c, ways, [])
  {
    DepthAt(ways, 0);
  }

  ghost predicate AllHold(c: Config, s: State, ops: seq<Step>)
    requires ValidConfig(c)
  {
    |s.sets| == c.nsets && forall i {:trigger s.sets[i]} | 0 <= i < c.nsets :: Holds(c, s.sets[i], Used(c, ops, i))
  }

  lemma {:induction false} StepHolds(c: Config, s: State, ops: seq<Step>)
    requires ValidConfig(c) && c.policy.LRU? && Shaped(c, s) && ops != [] && Plain(ops)
    requires AllHold(c, s, ops[..|ops| - 1]) && ValidStep(c, |s.mem|, ops[|ops| - 1])
    ensures AllHold(c, StepOf(c, s, ops[|ops| - 1]), ops)
  {
    hide Holds, Minus, ShapedSet, Access, Find, ValidRequest;
    var x := ops[|ops| - 1];
    if x.Call? {
      var line := LruAccess(c, s, x.r);
      var i := SetOf(c, x.r.addr);
      UsedOnce(c, ops[..|ops| - 1], i);
      SetAfterAccess(c, s.sets[i], Used(c, ops[..|ops| - 1], i), Tag(c, x.r.addr), line);
    } else {
      FlushSetsKeepShape(c, s, c.nsets);
      forall i | 0 <= i < c.nsets ensures Holds(c, Flush(c, s).sets[i], Used(c, ops, i)) {
        ShapeSizes(c, Flush(c, s), i);
        EmptyHolds(c, Flush(c, s).sets[i]);
      }
    }
  }

  /** After any accesses and flushes every set holds exactly the blocks most recently used in it, in that
      order, as many as fit. */
  lemma {:induction false} RunHolds(c: Config, mem: seq<Byte>, ops: seq<Step>)
    requires ValidConfig(c) && c.policy.LRU? && ValidSteps(c, |mem|, ops) && Plain(ops)
    ensures Shaped(c, Created(c, mem)) && AllHold(c, Run(c, Created(c, mem), ops), ops)
    decreases |ops|
  {
    hide Holds, StepOf, ValidStep, Used;
    var s := Created(c, mem);
    CreatedShape(c, mem);
    if ops == [] {
      NothingHeld(c, mem);
    } else {
      var p := ops[..|ops| - 1];
      assert forall i | 0 <= i < |p| :: p[i] == ops[i];
      RunLast(c, s, ops);
      RunHolds(c, mem, p);
      StepHolds(c, Run(c, s, p), ops);
    }
  }

  lemma {:induction false} CreatedShape(c: Config, mem: seq<Byte>)
    requires ValidConfig(c)
    ensures Shaped(c, Created(c, mem))
  {
    forall i | 0 <= i < c.nsets ensures ShapedSet(c, Created(c, mem).sets[i]) {
    }
  }

  lemma {:induction false} NothingHeld(c: Config, mem: seq<Byte>)
    requires ValidConfig(c)
    ensures AllHold(c, Created(c, mem), [])
  {
    forall i | 0 <= i < c.nsets ensures Holds(c, Created(c, mem).sets[i], []) {
      EmptyHolds(c, Created(c, mem).sets[i]);
    }
  }

  /** An address hits if and only if fewer than `assoc` different blocks of its set were used since its own
      block was, and it was used since the last flush. */
  lemma {:induction false} HitIffRecent(c: Config, mem: seq<Byte>, ops: seq<Step>, addr: nat)
    requires ValidConfig(c) && c.policy.LRU? && ValidSteps(c, |mem|, ops) && Plain(ops)
    ensures Shaped(c, Created(c, mem))
    ensures Probe(c, Run(c, Created(c, mem), ops), addr)
            <==> Tag(c, addr) in Take(Used(c, ops, SetOf(c, addr)), c.assoc)
  {
    hide Run, Used, Take, ValidSteps;
    RunHolds(c, mem, ops);
    var ways := Run(c, Created(c, mem), ops).sets[SetOf(c, addr)];
    FoundInTags(ways, Tag(c, addr));
  }
}
