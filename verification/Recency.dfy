/** Lists of different numbers, the most recently used first. */
module Recency {
  import opened Sequences

  function Minus(s: seq<nat>, x: nat): seq<nat> {
    if s == [] then [] else (if s[0] == x then [] else [s[0]]) + Minus(s[1..], x)
  }

  function Take(s: seq<nat>, n: nat): seq<nat> { if |s| <= n then s else s[..n] }

  ghost predicate NoRepeat(s: seq<nat>) { forall i, j | 0 <= i < j < |s| :: s[i] != s[j] }

  lemma {:induction false} MinusNone(s: seq<nat>, x: nat)
    requires forall j | 0 <= j < |s| :: s[j] != x
    ensures Minus(s, x) == s
  {
    if s != [] {
      MinusNone(s[1..], x);
    }
  }

  /** Taking out a number takes out its one place, if it has one. */
  lemma {:induction false} MinusAt(s: seq<nat>, x: nat) returns (k: nat)
    requires NoRepeat(s)
    ensures k <= |s| && Minus(s, x) == (if k < |s| then Without(s, k) else s)
    ensures (k < |s| ==> s[k] == x) && (forall j | 0 <= j < |s| && j != k :: s[j] != x)
  {
    if s == [] {
      k := 0;
    } else if s[0] == x {
      k := 0;
      MinusNone(s[1..], x);
      assert Without(s, 0) == s[1..];
    } else {
      var l := MinusAt(s[1..], x);
      k := l + 1;
      MinusHead(s, x, l);
    }
  }

  lemma {:induction false} MinusHead(s: seq<nat>, x: nat, l: nat)
    requires s != [] && s[0] != x && l <= |s| - 1
    requires Minus(s[1..], x) == if l < |s| - 1 then Without(s[1..], l) else s[1..]
    ensures Minus(s, x) == if l + 1 < |s| then Without(s, l + 1) else s
  {
    assert l < |s| - 1 ==> [s[0]] + Without(s[1..], l) == Without(s, l + 1);
    assert [s[0]] + s[1..] == s;
  }
}
