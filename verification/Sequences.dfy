/** Taking an element of a sequence out, and moving it to the front. */
module Sequences {
  function Without<T>(s: seq<T>, k: nat): (r: seq<T>)
    requires k < |s|
    ensures |r| == |s| - 1
    ensures forall j {:trigger r[j]} | 0 <= j < |r| :: r[j] == if j < k then s[j] else s[j + 1]
  {
    s[..k] + s[k + 1..]
  }

  function Front<T>(s: seq<T>, k: nat): (r: seq<T>)
    requires k < |s|
    ensures |r| == |s|
    ensures forall j {:trigger r[j]} | 0 <= j < |s| ::
            r[j] == if j == 0 then s[k] else if j <= k then s[j - 1] else s[j]
  {
    [s[k]] + s[..k] + s[k + 1..]
  }

  ghost function PosOf<T>(s: seq<T>, x: T): (k: nat)
    requires x in s
    ensures k < |s| && s[k] == x
  {
    if s[0] == x then 0 else 1 + PosOf(s[1..], x)
  }
}
