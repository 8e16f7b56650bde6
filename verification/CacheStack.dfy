/** The stack property of LRU: a cache of higher associativity contains every smaller one that has
    the same sets and blocks and sees the same accesses and flushes. */
module CacheStack {
  import opened CacheSpec
  import opened Sequences

  // ---------------------------------------------------------------- the valid tags of a set

  /** Position of the first invalid line. */
  function Depth(ways: seq<Line>): (n: nat)
    ensures n <= |ways| && (n < |ways| ==> !ways[n].valid) && forall j | 0 <= j < n :: ways[j].valid
  {
    if ways == [] || !ways[0].valid then 0 else 1 + Depth(ways[1..])
  }

  /** The valid tags in way-list order, most recently used first. */
  function Tags(ways: seq<Line>): (t: seq<nat>) {
    seq(Depth(ways), j requires 0 <= j < Depth(ways) => ways[j].tag)
  }

  /** No valid line comes after an invalid one. */
  ghost predicate ValidFirst(ways: seq<Line>) {
    forall j | Depth(ways) <= j < |ways| :: !ways[j].valid
  }

  lemma {:induction false} DepthAt(ways: seq<Line>, n: nat)
    requires n <= |ways| && (n < |ways| ==> !ways[n].valid) && forall j | 0 <= j < n :: ways[j].valid
    ensures Depth(ways) == n
  {
  }

  /** Bringing a line to the front: a valid one from its place, or a new one over the last line. */
  lemma {:induction false} TagsToFront(ways: seq<Line>, k: nat, line: Line)
    requires ValidFirst(ways) && k < |ways| && line.valid && (k < Depth(ways) || k == |ways| - 1)
    ensures var ways' := ToFront(ways, k, line);
      && ValidFirst(ways')
      && Tags(ways') == [line.tag] + (if k < Depth(ways) then Without(Tags(ways), k) else Tags(ways))
  {
    hide Depth;
    var ways' := ToFront(ways, k, line);
    var n := if k < Depth(ways) then Depth(ways) else Depth(ways) + 1;
    DepthAt(ways', n);
    var rest := if k < Depth(ways) then Without(Tags(ways), k) else Tags(ways);
    forall i | 0 < i < n ensures Tags(ways')[i] == rest[i - 1] {
    }
  }

  lemma {:induction false} TagsToTail(ways: seq<Line>, k: nat, line: Line)
    requires ValidFirst(ways) && k < Depth(ways) && !line.valid
    ensures var ways' := ToTail(ways, k, line);
      ValidFirst(ways') && Tags(ways') == Without(Tags(ways), k)
  {
    var ways' := ToTail(ways, k, line);
    DepthAt(ways', Depth(ways) - 1);
  }

  // ---------------------------------------------------------------- one set in two caches

  /** The smaller set's valid tags are a prefix of the larger set's. */
  ghost predicate Within(a: seq<Line>, b: seq<Line>) {
    && ValidFirst(a) && ValidFirst(b) && |a| <= |b|
    && Tags(a) <= Tags(b)
  }

  lemma {:induction false} FoundInTags(ways: seq<Line>, tag: nat)
    requires ValidFirst(ways)
    ensures var k := Find(ways, tag);
      if k < |ways| then k < Depth(ways) && Tags(ways)[k] == tag && forall j | 0 <= j < k :: Tags(ways)[j] != tag
      else forall j | 0 <= j < Depth(ways) :: Tags(ways)[j] != tag
  {
  }

  /** A hit in the smaller set is a hit in the larger one, at the same depth; what the larger one finds
      beyond that lies below everything the smaller one holds. */
  lemma {:induction false} HitsWithin(a: seq<Line>, b: seq<Line>, tag: nat)
    requires Within(a, b)
    ensures Find(a, tag) < |a| ==> Find(b, tag) == Find(a, tag)
    ensures Find(a, tag) == |a| && Find(b, tag) < |b| ==> Find(b, tag) >= Depth(a)
  {
    FoundInTags(a, tag);
    FoundInTags(b, tag);
    var ta, tb := Tags(a), Tags(b);
    assert forall j | 0 <= j < |ta| :: ta[j] == tb[j];
    var ka, kb := Find(a, tag), Find(b, tag);
    assert ka < |a| ==> tb[ka] == tag && Matches(b[ka], tag);
    assert kb < |b| && kb < |ta| ==> ta[kb] == tag;
  }

  /** Where LRU takes the line for `tag` from: its place, or the end of the list. */
  function Source(ways: seq<Line>, tag: nat): (k: nat)
    requires |ways| > 0
    ensures k < |ways|
  {
    if Find(ways, tag) < |ways| then Find(ways, tag) else |ways| - 1
  }

  /** Dropping the same tag, or from the larger list one beyond the smaller, keeps the prefix. */
  lemma {:induction false} WithoutPrefix(ta: seq<nat>, tb: seq<nat>, k: nat)
    requires ta <= tb && k < |tb|
    ensures if k < |ta| then Without(ta, k) <= Without(tb, k) else ta <= Without(tb, k)
    ensures ta != [] ==> Without(ta, |ta| - 1) <= ta
  {
    assert forall j | 0 <= j < |ta| :: ta[j] == tb[j];
  }

  /** The tags after an access, whether it hits or misses. */
  lemma {:induction false} TagsAfterAccess(ways: seq<Line>, tag: nat, line: Line)
    requires ValidFirst(ways) && |ways| > 0 && Matches(line, tag)
    ensures var ways' := ToFront(ways, Source(ways, tag), line);
      && ValidFirst(ways')
      && Tags(ways') == [tag] + (if Source(ways, tag) < Depth(ways) then Without(Tags(ways), Source(ways, tag))
          else Tags(ways))
  {
    FoundInTags(ways, tag);
    TagsToFront(ways, Source(ways, tag), line);
  }

  lemma {:induction false} AccessWithin(a: seq<Line>, b: seq<Line>, tag: nat, la: Line, lb: Line)
    requires Within(a, b) && |a| > 0 && Matches(la, tag) && Matches(lb, tag)
    ensures Within(ToFront(a, Source(a, tag), la), ToFront(b, Source(b, tag), lb))
  {
    hide ValidFirst, Depth, Find;
    TagsAfterAccess(a, tag, la);
    TagsAfterAccess(b, tag, lb);
    HitsWithin(a, b, tag);
    var ta, tb, ka, kb := Tags(a), Tags(b), Source(a, tag), Source(b, tag);
    if kb < |tb| {
      WithoutPrefix(ta, tb, kb);
    }
    if ka < |ta| && ka != kb {
      WithoutPrefix(ta, ta, ka);
    }
  }

  lemma {:induction false} TagsAfterFlush(ways: seq<Line>, tag: nat)
    requires ValidFirst(ways)
    ensures var k := Find(ways, tag);
      var ways' := if k < |ways| then ToTail(ways, k, ways[k].(valid := false)) else ways;
      && ValidFirst(ways') && |ways'| == |ways|
      && (k < |ways| ==> k < Depth(ways)) && Tags(ways') == if k < |ways| then Without(Tags(ways), k) else Tags(ways)
  {
    FoundInTags(ways, tag);
    if Find(ways, tag) < |ways| {
      TagsToTail(ways, Find(ways, tag), ways[Find(ways, tag)].(valid := false));
    }
  }

  lemma {:induction false} FlushWithin(a: seq<Line>, b: seq<Line>, tag: nat)
    requires Within(a, b)
    ensures var ka, kb := Find(a, tag), Find(b, tag);
      Within(if ka < |a| then ToTail(a, ka, a[ka].(valid := false)) else a,
             if kb < |b| then ToTail(b, kb, b[kb].(valid := false)) else b)
  {
    hide ValidFirst, Depth, Find;
    TagsAfterFlush(a, tag);
    TagsAfterFlush(b, tag);
    HitsWithin(a, b, tag);
    if Find(b, tag) < |b| {
      WithoutPrefix(Tags(a), Tags(b), Find(b, tag));
    }
  }

  // ---------------------------------------------------------------- whole caches

  /** Two LRU caches that differ in associativity at most, and in whether blocks hold data. */
  ghost predicate Comparable(ca: Config, cb: Config) {
    && ValidConfig(ca) && ValidConfig(cb) && ca.nsets == cb.nsets && ca.bsize == cb.bsize
    && ca.policy.LRU? && cb.policy.LRU? && ca.assoc <= cb.assoc
  }

  ghost predicate Included(ca: Config, a: State, cb: Config, b: State) {
    && Comparable(ca, cb) && Shaped(ca, a) && Shaped(cb, b)
    && forall i {:trigger a.sets[i]} {:trigger b.sets[i]} | 0 <= i < ca.nsets :: Within(a.sets[i], b.sets[i])
  }

  /** Every hit in the smaller cache is a hit in the larger one. */
  lemma {:induction false} HitsIncluded(ca: Config, a: State, cb: Config, b: State, addr: nat)
    requires Included(ca, a, cb, b)
    ensures Probe(ca, a, addr) ==> Probe(cb, b, addr)
  {
    HitsWithin(a.sets[SetOf(ca, addr)], b.sets[SetOf(ca, addr)], Tag(ca, addr));
  }

  lemma {:induction false} LruAccess(c: Config, s: State, r: Request) returns (line: Line)
    requires Shaped(c, s) && ValidRequest(c, |s.mem|, r) && c.policy.LRU?
    ensures Matches(line, Tag(c, r.addr)) && (c.data ==> |line.data| == c.bsize)
    ensures var i := SetOf(c, r.addr);
      Access(c, s, r).sets == s.sets[i := ToFront(s.sets[i], Source(s.sets[i], Tag(c, r.addr)), line)]
  {
    OffsetFits(c, r.addr, r.nbytes);
    var ways := s.sets[SetOf(c, r.addr)];
    assert ShapedSet(c, ways);
    var k := Find(ways, Tag(c, r.addr));
    line := if k < |ways| then Touched(c, r, ways[k])
            else Loaded(c, WrittenBack(c, s.mem, ways[VictimOf(c, r)], SetOf(c, r.addr)), r);
  }

  lemma {:induction false} ShapeFront(c: Config, ways: seq<Line>, k: nat, line: Line)
    requires ShapedSet(c, ways) && k < |ways| && (c.data ==> |line.data| == c.bsize)
    ensures ShapedSet(c, ToFront(ways, k, line)) && ShapedSet(c, ToTail(ways, k, line))
  {
  }

  lemma {:induction false} AccessIncluded(ca: Config, a: State, cb: Config, b: State, r: Request)
    requires Included(ca, a, cb, b) && ValidRequest(ca, |a.mem|, r) && ValidRequest(cb, |b.mem|, r)
    ensures Included(ca, Access(ca, a, r), cb, Access(cb, b, r))
  {
    hide Within, ShapedSet;
    var la := LruAccess(ca, a, r);
    var lb := LruAccess(cb, b, r);
    var i, tag := SetOf(ca, r.addr), Tag(ca, r.addr);
    assert |a.sets[i]| == ca.assoc && |b.sets[i]| == cb.assoc by { ShapeSizes(ca, a, i); ShapeSizes(cb, b, i); }
    AccessWithin(a.sets[i], b.sets[i], tag, la, lb);
    ShapeFront(ca, a.sets[i], Source(a.sets[i], tag), la);
    ShapeFront(cb, b.sets[i], Source(b.sets[i], tag), lb);
  }

  lemma {:induction false} ShapeSizes(c: Config, s: State, i: nat)
    requires Shaped(c, s) && i < c.nsets
    ensures |s.sets[i]| == c.assoc && ShapedSet(c, s.sets[i])
  {
  }

  lemma {:induction false} FlushAddrIncluded(ca: Config, a: State, cb: Config, b: State, addr: nat)
    requires Included(ca, a, cb, b)
    ensures Included(ca, FlushAddr(ca, a, addr), cb, FlushAddr(cb, b, addr))
  {
    hide Within, ShapedSet;
    var i, tag := SetOf(ca, addr), Tag(ca, addr);
    ShapeSizes(ca, a, i);
    ShapeSizes(cb, b, i);
    FlushWithin(a.sets[i], b.sets[i], tag);
    if Find(a.sets[i], tag) < |a.sets[i]| {
      ShapeFront(ca, a.sets[i], Find(a.sets[i], tag), a.sets[i][Find(a.sets[i], tag)].(valid := false));
    }
    if Find(b.sets[i], tag) < |b.sets[i]| {
      ShapeFront(cb, b.sets[i], Find(b.sets[i], tag), b.sets[i][Find(b.sets[i], tag)].(valid := false));
    }
  }

  lemma {:induction false} FlushIncluded(ca: Config, a: State, cb: Config, b: State)
    requires Included(ca, a, cb, b)
    ensures Included(ca, Flush(ca, a), cb, Flush(cb, b))
  {
    hide Find;
    FlushSetsKeepShape(ca, a, ca.nsets);
    FlushSetsKeepShape(cb, b, cb.nsets);
    forall i | 0 <= i < ca.nsets ensures Within(Flush(ca, a).sets[i], Flush(cb, b).sets[i]) {
      assert Within(a.sets[i], b.sets[i]);
      DepthAt(Flush(ca, a).sets[i], 0);
      DepthAt(Flush(cb, b).sets[i], 0);
    }
  }

  // ---------------------------------------------------------------- whole runs

  /** No prefetcher takes part. */
  predicate Unprefetched(ops: seq<Step>) {
    forall i | 0 <= i < |ops| :: ops[i].Call? ==> ops[i].targets == []
  }

  lemma {:induction false} StepIncluded(ca: Config, a: State, cb: Config, b: State, x: Step)
    requires Included(ca, a, cb, b) && ValidStep(ca, |a.mem|, x) && ValidStep(cb, |b.mem|, x)
             && (x.Call? ==> x.targets == [])
    ensures Included(ca, StepOf(ca, a, x), cb, StepOf(cb, b, x))
  {
    hide Within, Shaped;
    match x
    case Call(r, _) => AccessIncluded(ca, a, cb, b, r);
    case FlushBlock(addr) => FlushAddrIncluded(ca, a, cb, b, addr);
    case FlushAll => FlushIncluded(ca, a, cb, b);
  }

  lemma {:induction false} RunIncluded(ca: Config, a: State, cb: Config, b: State, ops: seq<Step>)
    requires Included(ca, a, cb, b) && ValidSteps(ca, |a.mem|, ops) && ValidSteps(cb, |b.mem|, ops) && Unprefetched(ops)
    ensures Included(ca, Run(ca, a, ops), cb, Run(cb, b, ops))
    decreases |ops|
  {
    hide Within, ShapedSet, StepOf;
    if ops != [] {
      StepIncluded(ca, a, cb, b, ops[0]);
      RunIncluded(ca, StepOf(ca, a, ops[0]), cb, StepOf(cb, b, ops[0]), ops[1..]);
    }
  }

  /** After any common history of accesses and flushes from creation on, every address that hits in the
      smaller cache hits in the larger one. */
  lemma {:induction false} StackProperty(ca: Config, cb: Config, ma: seq<Byte>, mb: seq<Byte>, ops: seq<Step>,
                                         addr: nat)
    requires Comparable(ca, cb) && ValidSteps(ca, |ma|, ops) && ValidSteps(cb, |mb|, ops) && Unprefetched(ops)
    ensures Shaped(ca, Created(ca, ma)) && Shaped(cb, Created(cb, mb))
    ensures Included(ca, Run(ca, Created(ca, ma), ops), cb, Run(cb, Created(cb, mb), ops))
    ensures Probe(ca, Run(ca, Created(ca, ma), ops), addr) ==> Probe(cb, Run(cb, Created(cb, mb), ops), addr)
  {
    hide Within, ShapedSet, Probe, Run;
    CreatedIncluded(ca, cb, ma, mb);
    RunIncluded(ca, Created(ca, ma), cb, Created(cb, mb), ops);
    HitsIncluded(ca, Run(ca, Created(ca, ma), ops), cb, Run(cb, Created(cb, mb), ops), addr);
  }

  lemma {:induction false} CreatedIncluded(ca: Config, cb: Config, ma: seq<Byte>, mb: seq<Byte>)
    requires Comparable(ca, cb)
    ensures Included(ca, Created(ca, ma), cb, Created(cb, mb))
  {
    var a, b := Created(ca, ma), Created(cb, mb);
    forall i | 0 <= i < ca.nsets ensures ShapedSet(ca, a.sets[i]) && ShapedSet(cb, b.sets[i])
        && Within(a.sets[i], b.sets[i]) {
      DepthAt(a.sets[i], 0);
      DepthAt(b.sets[i], 0);
    }
  }
}
