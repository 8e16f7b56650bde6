/** The integer types that lab3/host.h and lab3/machine.h name: a value becomes a 64-bit EXO term and is
    cut back to the width of what holds it. */
module Words {
  const WORD := 0x1_0000_0000
  const QUAD := 0x1_0000_0000_0000_0000

  predicate IsWord(v: int) { -WORD / 2 <= v < WORD / 2 }

  predicate IsCounter(v: int) { -QUAD / 2 <= v < QUAD / 2 }

  /** (exo_integer_t) of a signed value: its sign extended to 64 bits. */
  function Wide(v: int): (r: nat)
    ensures r < QUAD
  {
    v % QUAD
  }

  /** A cast to sword_t. */
  function AsWord(v: int): (r: int)
    ensures IsWord(r)
  {
    var w := v % WORD;
    if w < WORD / 2 then w else w - WORD
  }

  /** A cast to counter_t. */
  function AsCounter(v: int): (r: int)
    ensures IsCounter(r)
  {
    var w := v % QUAD;
    if w < QUAD / 2 then w else w - QUAD
  }

  /** A word comes back from the term it was put into. */
  lemma {:induction false} WordBack(v: int)
    requires IsWord(v)
    ensures AsWord(Wide(v)) == v
  {
    var w := if v < 0 then v + QUAD else v;
    assert Wide(v) == w;
    assert w == (if v < 0 then v + WORD else v) + WORD * (if v < 0 then WORD - 1 else 0);
  }

  lemma {:induction false} CounterBack(v: int)
    requires IsCounter(v)
    ensures AsCounter(Wide(v)) == v
  {
  }
}
