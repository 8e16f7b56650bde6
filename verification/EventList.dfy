/** The time-ordered event list of lab3/eventq.c as a value. */
module EventList {
  import opened Sequences

  /** What an event does: to a bit of a bitmap, to a flag, to a summand, or a call of a handler. */
  datatype Action =
    | SetBit(bmap: nat, bit: nat) | ClearBit(bmap: nat, bit: nat)
    | SetFlag(flag: nat, value: int) | AddOp(summand: nat, addend: int)
    | Callback(fn: nat, arg: int)

  datatype Event = Event(due: int, id: nat, action: Action)

  /** What events act on; handlers are seen by the calls they get. */
  datatype World = World(bits: set<(nat, nat)>, cells: map<nat, int>, calls: seq<(nat, int, int)>)

  function Cell(w: World, c: nat): int { if c in w.cells then w.cells[c] else 0 }

  /** EXECUTE_ACTION */
  function Acted(w: World, a: Action, now: int): World {
    match a
    case SetBit(m, b) => w.(bits := w.bits + {(m, b)})
    case ClearBit(m, b) => w.(bits := w.bits - {(m, b)})
    case SetFlag(c, v) => w.(cells := w.cells[c := v])
    case AddOp(c, v) => w.(cells := w.cells[c := Cell(w, c) + v])
    case Callback(f, x) => w.(calls := w.calls + [(f, now, x)])
  }

  // ---------------------------------------------------------------- the list

  /** How many events come before time `t`; how many are due at it. */
  function Before(l: seq<Event>, t: int): (k: nat)
    ensures k <= |l| && (forall i {:trigger l[i]} | 0 <= i < k :: l[i].due < t) && (k < |l| ==> l[k].due >= t)
  {
    if l == [] || l[0].due >= t then 0 else 1 + Before(l[1..], t)
  }

  lemma {:induction false} BeforeIs(l: seq<Event>, k: nat, t: int)
    requires k <= |l| && (forall i {:trigger l[i]} | 0 <= i < k :: l[i].due < t) && (k < |l| ==> l[k].due >= t)
    ensures Before(l, t) == k
  {
  }

  function Inserted(l: seq<Event>, e: Event): (r: seq<Event>)
    ensures |r| == |l| + 1
    ensures var k := Before(l, e.due);
      forall i {:trigger r[i]} | 0 <= i < |r| :: r[i] == if i < k then l[i] else if i == k then e else l[i - 1]
  {
    var k := Before(l, e.due);
    l[..k] + [e] + l[k..]
  }

  /** By time, and the newest first among equal times. */
  ghost predicate Ordered(l: seq<Event>) {
    forall i, j | 0 <= i < j < |l| :: l[i].due < l[j].due || (l[i].due == l[j].due && l[i].id > l[j].id)
  }

  /** Ids are given out in order, each once. */
  ghost predicate IdsBelow(l: seq<Event>, n: nat) {
    && (forall i {:trigger l[i]} | 0 <= i < |l| :: l[i].id < n)
    && (forall i, j | 0 <= i < j < |l| :: l[i].id != l[j].id)
  }

  lemma {:induction false} InsertedOrdered(l: seq<Event>, e: Event)
    requires Ordered(l) && IdsBelow(l, e.id)
    ensures Ordered(Inserted(l, e)) && IdsBelow(Inserted(l, e), e.id + 1)
  {
    InsertedByTime(l, e);
    InsertedIds(l, e);
  }

  lemma {:induction false} InsertedIds(l: seq<Event>, e: Event)
    requires IdsBelow(l, e.id)
    ensures IdsBelow(Inserted(l, e), e.id + 1)
  {
    hide Inserted, Before;
    var k, r := Before(l, e.due), Inserted(l, e);
    forall i, j | 0 <= i < j < |r| ensures r[i].id != r[j].id {
      assert i < k ==> l[i].id < e.id;
    }
  }

  lemma {:induction false} InsertedByTime(l: seq<Event>, e: Event)
    requires Ordered(l) && IdsBelow(l, e.id)
    ensures Ordered(Inserted(l, e))
  {
    hide Inserted, Before;
    var k, r := Before(l, e.due), Inserted(l, e);
    assert forall i | k < i < |l| :: l[i].due >= l[k].due;
  }

  function Position(l: seq<Event>, id: nat): (k: nat)
    ensures k <= |l| && (k < |l| ==> l[k].id == id) && forall i {:trigger l[i]} | 0 <= i < k :: l[i].id != id
  {
    if l == [] || l[0].id == id then 0 else 1 + Position(l[1..], id)
  }

  lemma {:induction false} PositionIs(l: seq<Event>, k: nat, id: nat)
    requires k <= |l| && (k < |l| ==> l[k].id == id) && forall i {:trigger l[i]} | 0 <= i < k :: l[i].id != id
    ensures Position(l, id) == k
  {
  }

  lemma {:induction false} WithoutOrdered(l: seq<Event>, k: nat, n: nat)
    requires Ordered(l) && IdsBelow(l, n) && k < |l|
    ensures Ordered(Without(l, k)) && IdsBelow(Without(l, k), n)
  {
  }

  /** Exactly the event of that id is gone. */
  lemma {:induction false} WithoutMembers(l: seq<Event>, k: nat, n: nat, e: Event)
    requires IdsBelow(l, n) && k < |l|
    ensures e in Without(l, k) <==> e in l && e.id != l[k].id
  {
    var r := Without(l, k);
    if e in l && e.id != l[k].id {
      var i :| 0 <= i < |l| && l[i] == e;
      assert r[if i < k then i else i - 1] == e;
    }
    if e in r {
      var i :| 0 <= i < |r| && r[i] == e;
      assert l[if i < k then i else i + 1] == e;
    }
  }

  // ---------------------------------------------------------------- servicing

  /** How many events eventq_service_events takes. */
  function Due(l: seq<Event>, now: int): (k: nat)
    ensures k <= |l| && (forall i {:trigger l[i]} | 0 <= i < k :: l[i].due <= now) && (k < |l| ==> l[k].due > now)
  {
    if l == [] || l[0].due > now then 0 else 1 + Due(l[1..], now)
  }

  /** The first events of the list take effect, in order. */
  function Effect(w: World, l: seq<Event>, now: int): World
    decreases |l|
  {
    if l == [] then w else Effect(Acted(w, l[0].action, now), l[1..], now)
  }

  function Served(w: World, l: seq<Event>, now: int): (World, seq<Event>) {
    (Effect(w, l[..Due(l, now)], now), l[Due(l, now)..])
  }

  /** After service no event is left that was due, and none is lost that was not. */
  lemma {:induction false} OnlyLaterLeft(l: seq<Event>, now: int)
    requires Ordered(l)
    ensures forall e :: e in l[Due(l, now)..] <==> e in l && e.due > now
    ensures Ordered(l[Due(l, now)..])
  {
    hide Due, Ordered;
    var k := Due(l, now);
    OrderedTail(l, k);
    if k < |l| {
      LaterAfter(l, k);
    }
    forall e ensures e in l[k..] <==> e in l && e.due > now {
      if e in l && e.due > now {
        var i :| 0 <= i < |l| && l[i] == e;
        assert l[k..][i - k] == e;
      }
    }
  }

  lemma {:induction false} OrderedTail(l: seq<Event>, k: nat)
    requires Ordered(l) && k <= |l|
    ensures Ordered(l[k..])
  {
  }

  lemma {:induction false} LaterAfter(l: seq<Event>, k: nat)
    requires Ordered(l) && k < |l|
    ensures forall e {:trigger e in l[k..]} | e in l[k..] :: e in l && e.due >= l[k].due
  {
    forall e {:trigger e in l[k..]} | e in l[k..] ensures e in l && e.due >= l[k].due {
      var i :| 0 <= i < |l[k..]| && l[k..][i] == e;
      assert l[k + i] == e;
    }
  }

  lemma {:induction false} EffectConcat(w: World, a: seq<Event>, b: seq<Event>, now: int)
    ensures Effect(w, a + b, now) == Effect(Effect(w, a, now), b, now)
    decreases |a|
  {
    if a == [] {
      assert a + b == b;
    } else {
      assert (a + b)[1..] == a[1..] + b;
      EffectConcat(Acted(w, a[0].action, now), a[1..], b, now);
    }
  }

  lemma {:induction false} DueIs(l: seq<Event>, k: nat, now: int)
    requires k <= |l| && (forall i {:trigger l[i]} | 0 <= i < k :: l[i].due <= now) && (k < |l| ==> l[k].due > now)
    ensures Due(l, now) == k
  {
  }

  lemma {:induction false} DueMonotone(l: seq<Event>, t1: int, t2: int)
    requires t1 <= t2
    ensures Due(l, t1) <= Due(l, t2)
  {
    if l != [] {
      DueMonotone(l[1..], t1, t2);
    }
  }

  lemma {:induction false} DueAfter(l: seq<Event>, t1: int, t2: int)
    requires t1 <= t2
    ensures Due(l, t1) <= Due(l, t2)
    ensures Due(l[Due(l, t1)..], t2) == Due(l, t2) - Due(l, t1)
    ensures l[..Due(l, t2)] == l[..Due(l, t1)] + l[Due(l, t1)..][..Due(l, t2) - Due(l, t1)]
  {
    hide Due;
    var k, m := Due(l, t1), Due(l, t2);
    DueMonotone(l, t1, t2);
    DueIs(l[k..], m - k, t2);
  }

  // ---------------------------------------------------------------- what is left in bits and cells

  /** No event from place `k` on clears the bit. */
  ghost predicate Stays(l: seq<Event>, k: nat, m: nat, b: nat) {
    forall j {:trigger l[j]} | k <= j < |l| :: l[j].action != ClearBit(m, b)
  }

  /** Some event sets the bit and no later one clears it. */
  ghost predicate LeftSet(l: seq<Event>, m: nat, b: nat) {
    exists i {:trigger l[i]} :: 0 <= i < |l| && l[i].action == SetBit(m, b) && Stays(l, i + 1, m, b)
  }

  lemma {:induction false} StaysTail(l: seq<Event>, k: nat, m: nat, b: nat)
    requires 0 < k
    ensures l != [] ==> (Stays(l, k, m, b) <==> Stays(l[1..], k - 1, m, b))
  {
    if l != [] {
      var t := l[1..];
      assert forall j {:trigger l[j]} | k <= j < |l| :: l[j] == t[j - 1];
      assert forall j {:trigger t[j]} | k - 1 <= j < |t| :: t[j] == l[j + 1];
    }
  }

  lemma {:induction false} LeftSetTail(l: seq<Event>, m: nat, b: nat)
    requires l != []
    ensures LeftSet(l, m, b) <==> LeftSet(l[1..], m, b) || (l[0].action == SetBit(m, b) && Stays(l[1..], 0, m, b))
  {
    hide Stays;
    var t := l[1..];
    StaysTail(l, 1, m, b);
    if LeftSet(l, m, b) {
      var i :| 0 <= i < |l| && l[i].action == SetBit(m, b) && Stays(l, i + 1, m, b);
      if i > 0 {
        StaysTail(l, i + 1, m, b);
        assert t[i - 1] == l[i];
      }
    }
    if LeftSet(t, m, b) {
      var i :| 0 <= i < |t| && t[i].action == SetBit(m, b) && Stays(t, i + 1, m, b);
      StaysTail(l, i + 2, m, b);
      assert l[i + 1] == t[i];
    }
  }

  /** After some events have taken effect a bit is set exactly if some event sets it, or it was set, and no
      later one clears it. */
  lemma {:induction false} BitAfter(w: World, l: seq<Event>, now: int, m: nat, b: nat)
    ensures (m, b) in Effect(w, l, now).bits <==> LeftSet(l, m, b) || ((m, b) in w.bits && Stays(l, 0, m, b))
    decreases |l|
  {
    hide LeftSet;
    if l == [] {
      assert !LeftSet(l, m, b) by { NoneLeft(m, b); }
    } else {
      BitAfter(Acted(w, l[0].action, now), l[1..], now, m, b);
      LeftSetTail(l, m, b);
      StaysTail(l, 1, m, b);
      assert Stays(l, 0, m, b) <==> l[0].action != ClearBit(m, b) && Stays(l, 1, m, b);
    }
  }

  lemma {:induction false} NoneLeft(m: nat, b: nat)
    ensures !LeftSet([], m, b)
  {
  }

  /** What some events add to a cell. */
  function Added(l: seq<Event>, c: nat): int
    decreases |l|
  {
    if l == [] then 0
    else (if l[0].action.AddOp? && l[0].action.summand == c then l[0].action.addend else 0) + Added(l[1..], c)
  }

  predicate Flags(e: Event, c: nat) { e.action.SetFlag? && e.action.flag == c }

  /** After some events a cell holds the value that the last flag event gave it, or what it held, and what
      was added since. */
  lemma {:induction false} CellAfter(w: World, l: seq<Event>, now: int, c: nat, k: nat)
    requires k <= |l| && forall j {:trigger l[j]} | k <= j < |l| :: !Flags(l[j], c)
    requires k > 0 ==> Flags(l[k - 1], c)
    ensures Cell(Effect(w, l, now), c) == (if k > 0 then l[k - 1].action.value else Cell(w, c)) + Added(l[k..], c)
    decreases |l|
  {
    if l != [] {
      var t, v := l[1..], Acted(w, l[0].action, now);
      assert forall j {:trigger t[j]} | 0 <= j < |t| :: t[j] == l[j + 1];
      CellAfter(v, t, now, c, if k > 0 then k - 1 else 0);
      if k > 0 {
        assert t[k - 1..] == l[k..];
      } else {
        assert t[0..] == l[0..][1..];
      }
    }
  }

  // ---------------------------------------------------------------- one service or two

  /** The calls of handlers among some events. */
  function CallsAt(l: seq<Event>, now: int): seq<(nat, int, int)>
    decreases |l|
  {
    if l == [] then [] else
    (if l[0].action.Callback? then [(l[0].action.fn, now, l[0].action.arg)] else []) + CallsAt(l[1..], now)
  }

  ghost predicate NoCallback(l: seq<Event>) {
    forall i {:trigger l[i]} | 0 <= i < |l| :: !l[i].action.Callback?
  }

  /** The time matters only to handlers: bits and cells do not depend on it. */
  lemma {:induction false} EffectAtTimes(w: World, v: World, l: seq<Event>, t1: int, t2: int)
    requires w.bits == v.bits && w.cells == v.cells
    ensures Effect(w, l, t1).bits == Effect(v, l, t2).bits && Effect(w, l, t1).cells == Effect(v, l, t2).cells
    ensures Effect(w, l, t1).calls == w.calls + CallsAt(l, t1)
    decreases |l|
  {
    if l == [] {
      assert w.calls + [] == w.calls;
    } else {
      EffectAtTimes(Acted(w, l[0].action, t1), Acted(v, l[0].action, t2), l[1..], t1, t2);
      var one := if l[0].action.Callback? then [(l[0].action.fn, t1, l[0].action.arg)] else [];
      assert Acted(w, l[0].action, t1).calls == w.calls + one;
      assert w.calls + one + CallsAt(l[1..], t1) == w.calls + (one + CallsAt(l[1..], t1));
    }
  }

  lemma {:induction false} CallsSame(l: seq<Event>, t1: int, t2: int)
    ensures |CallsAt(l, t1)| == |CallsAt(l, t2)|
    ensures CallsAt(l, t1) == CallsAt(l, t2) <==> t1 == t2 || NoCallback(l)
    decreases |l|
  {
    if l != [] {
      CallsSame(l[1..], t1, t2);
      var a, b := CallsAt(l, t1), CallsAt(l, t2);
      assert forall i | 0 < i < |l| :: l[i] == l[1..][i - 1];
      if l[0].action.Callback? {
        assert a[0].1 == t1 && b[0].1 == t2;
      } else {
        assert a == CallsAt(l[1..], t1) && b == CallsAt(l[1..], t2);
        assert NoCallback(l) <==> NoCallback(l[1..]);
      }
    }
  }

  /** Servicing at `t1` and then at `t2` leaves the same events as servicing at `t2` alone, with the same
      bits and cells; the handlers get the same calls exactly if the times are equal or no handler was
      due at `t1`, since a late handler is told the time of the service and not its own. */
  lemma {:induction false} TwiceIsOnce(w: World, l: seq<Event>, t1: int, t2: int)
    requires t1 <= t2
    ensures var first, once := Served(w, l, t1), Served(w, l, t2);
      var twice := Served(first.0, first.1, t2);
      && twice.1 == once.1 && twice.0.bits == once.0.bits && twice.0.cells == once.0.cells
      && (twice.0 == once.0 <==> t1 == t2 || NoCallback(l[..Due(l, t1)]))
  {
    hide Effect, Due, CallsAt, NoCallback;
    var k, m := Due(l, t1), Due(l, t2);
    DueAfter(l, t1, t2);
    var a, b := l[..k], l[k..][..m - k];
    assert l[k..][m - k..] == l[m..];
    EffectConcat(w, a, b, t2);
    EffectAtTimes(w, w, a, t1, t2);
    EffectAtTimes(w, w, a, t2, t2);
    var x, y := Effect(w, a, t1), Effect(w, a, t2);
    EffectAtTimes(x, y, b, t2, t2);
    EffectAtTimes(y, y, b, t2, t2);
    CallsSame(a, t1, t2);
    var c := CallsAt(b, t2);
    SamePrefix(w.calls, CallsAt(a, t1), CallsAt(a, t2), c);
  }

  lemma {:induction false} SamePrefix(p: seq<(nat, int, int)>, a: seq<(nat, int, int)>, b: seq<(nat, int, int)>,
                                      c: seq<(nat, int, int)>)
    requires |a| == |b|
    ensures p + a + c == p + b + c <==> a == b
  {
    if p + a + c == p + b + c {
      assert a == (p + a + c)[|p|..|p| + |a|];
      assert b == (p + b + c)[|p|..|p| + |b|];
    }
  }
}
