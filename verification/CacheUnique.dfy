/** What every operation of the cache keeps: in no set is a tag valid twice, and blocks that hold data
    agree with the memory unless dirty. */
module CacheUnique {
  import opened CacheSpec
  import opened CacheMemory

  ghost predicate AllUnique(s: State) {
    forall i {:trigger s.sets[i]} | 0 <= i < |s.sets| :: Unique(s.sets[i])
  }

  ghost predicate Consistent(c: Config, s: State) {
    Shaped(c, s) && AllUnique(s) && (c.data ==> Good(c, s))
  }

  lemma {:induction false} UniqueMoved(ways: seq<Line>, k: nat, line: Line)
    requires Unique(ways) && k < |ways|
    requires line.valid ==> forall j | 0 <= j < |ways| && j != k :: !Matches(ways[j], line.tag)
    ensures Unique(ToFront(ways, k, line)) && Unique(ToTail(ways, k, line)) && Unique(ways[k := line])
  {
  }

  lemma {:induction false} AccessUnique(c: Config, s: State, r: Request)
    requires Shaped(c, s) && AllUnique(s) && ValidRequest(c, |s.mem|, r)
    ensures AllUnique(Access(c, s, r))
  {
    OffsetFits(c, r.addr, r.nbytes);
    var i := SetOf(c, r.addr);
    var ways := s.sets[i];
    assert ShapedSet(c, ways) && Unique(ways);
    var k := Find(ways, Tag(c, r.addr));
    if k < |ways| {
      UniqueMoved(ways, k, Touched(c, r, ways[k]));
    } else {
      var v := VictimOf(c, r);
      UniqueMoved(ways, v, Loaded(c, WrittenBack(c, s.mem, ways[v], i), r));
    }
  }

  lemma {:induction false} AccessConsistent(c: Config, s: State, r: Request)
    requires Consistent(c, s) && ValidRequest(c, |s.mem|, r)
    ensures Consistent(c, Access(c, s, r))
  {
    hide Good, AllUnique;
    AccessKeepsShape(c, s, r);
    AccessUnique(c, s, r);
    if c.data {
      AccessKeepsGood(c, s, r);
    }
  }

  lemma {:induction false} FlushAddrConsistent(c: Config, s: State, addr: nat)
    requires Consistent(c, s)
    ensures Consistent(c, FlushAddr(c, s, addr))
  {
    FlushAddrKeepsShape(c, s, addr);
    var ways := s.sets[SetOf(c, addr)];
    var k := Find(ways, Tag(c, addr));
    assert Unique(ways);
    if k < |ways| {
      UniqueMoved(ways, k, ways[k].(valid := false));
    }
    hide GoodSet;
    if c.data {
      FlushAddrView(c, s, addr, 0);
    }
  }

  lemma {:induction false} FlushAtConsistent(c: Config, s: State, i: nat, k: nat)
    requires Consistent(c, s) && i < c.nsets && k < c.assoc
    ensures |s.sets[i]| == c.assoc && Consistent(c, FlushAt(c, s, i, k))
  {
    var ways := s.sets[i];
    assert Unique(ways) && ShapedSet(c, ways);
    UniqueMoved(ways, k, ways[k].(valid := false));
    assert ShapedSet(c, FlushAt(c, s, i, k).sets[i]);
    hide GoodSet;
    if c.data {
      FlushAtView(c, s, i, k, 0);
    }
  }
}
