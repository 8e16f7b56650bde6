/** The expression grammar of lab3/eval.c: what its recursive descent makes of a list of tokens, and that
    it undoes the printing of expression trees. */
module Expressions {
  import opened Wrappers

  datatype Token =
    | Ident(name: string) | Const(text: string)
    | Plus | Minus | Mult | Div | OParen | CParen | Eof | Invalid

  datatype Error = UnmatchedParen | NoTerm | DivideByZero | BadConstant | UndefinedVariable

  datatype Outcome = Done(value: int, rest: seq<Token>) | Failed(error: Error)

  /** The identifier evaluator of the user, and what strtol and its fallbacks make of a constant. */
  datatype Env = Env(ident: string -> Option<int>, literal: string -> Option<int>)

  // ---------------------------------------------------------------- recursive descent

  function Head(ts: seq<Token>): Token { if ts == [] then Eof else ts[0] }

  /** The tokens after a look at the next one: an invalid token is not kept, since the code for it also
      marks an empty peek slot. */
  function Peeked(ts: seq<Token>): seq<Token> { if Head(ts).Invalid? then ts[1..] else ts }

  /** Division of C's integers: toward zero. */
  function Quotient(a: int, b: int): int
    requires b != 0
  {
    var q := (if a < 0 then -a else a) / (if b < 0 then -b else b);
    if (a < 0) == (b < 0) then q else -q
  }

  /** That is the one quotient whose remainder is smaller than the divisor and zero or of the dividend's sign. */
  lemma {:induction false} QuotientTruncates(a: int, b: int, q: int)
    requires b != 0
    ensures q == Quotient(a, b) <==>
              var r, d := a - b * q, if b < 0 then -b else b;
              if a < 0 then -d < r <= 0 else 0 <= r < d
  {
    var n, d := if a < 0 then -a else a, if b < 0 then -b else b;
    var p := if (a < 0) == (b < 0) then q else -q;
    SignedProduct(a, b, q);
    assert n == n / d * d + n % d;
    if 0 <= n - d * p < d {
      if p < n / d {
        MoreThan(p, n / d, d);
      } else if p > n / d {
        MoreThan(n / d, p, d);
      }
    }
  }

  lemma {:induction false} MoreThan(x: int, y: int, d: nat)
    requires x < y
    ensures d * x + d <= d * y
  {
    assert d * (y - x - 1) >= 0;
    assert d * y == d * (y - x - 1) + d * x + d;
  }

  lemma {:induction false} SignedProduct(a: int, b: int, q: int)
    requires b != 0
    ensures var n, d := if a < 0 then -a else a, if b < 0 then -b else b;
      var p := if (a < 0) == (b < 0) then q else -q;
      n - d * p == if a < 0 then -(a - b * q) else a - b * q
  {
  }

  function ParseFactor(env: Env, ts: seq<Token>): (o: Outcome)
    ensures o.Done? ==> |o.rest| < |ts|
    decreases |ts|, 0
  {
    match Head(ts)
    case OParen =>
      var o := ParseExpr(env, ts[1..]);
      if o.Failed? then o
      else if !Head(o.rest).CParen? then Failed(UnmatchedParen)
      else Done(o.value, o.rest[1..])
    case Minus =>
      var o := ParseFactor(env, ts[1..]);
      if o.Failed? then o else Done(-o.value, o.rest)
    case Ident(name) =>
      if env.ident(name).Some? then Done(env.ident(name).value, ts[1..]) else Failed(UndefinedVariable)
    case Const(text) =>
      if env.literal(text).Some? then Done(env.literal(text).value, ts[1..]) else Failed(BadConstant)
    case _ => Failed(NoTerm)
  }

  function ParseTerm(env: Env, ts: seq<Token>): (o: Outcome)
    ensures o.Done? ==> |o.rest| < |ts|
    decreases |ts|, 1
  {
    var o := ParseFactor(env, ts);
    if o.Failed? then o else
    match Head(o.rest)
    case Mult =>
      var p := ParseTerm(env, o.rest[1..]);
      if p.Failed? then p else Done(o.value * p.value, p.rest)
    case Div =>
      var p := ParseTerm(env, o.rest[1..]);
      if p.Failed? then p
      else if p.value == 0 then Failed(DivideByZero)
      else Done(Quotient(o.value, p.value), p.rest)
    case _ => Done(o.value, Peeked(o.rest))
  }

  function ParseExpr(env: Env, ts: seq<Token>): (o: Outcome)
    ensures o.Done? ==> |o.rest| < |ts|
    decreases |ts|, 2
  {
    var o := ParseTerm(env, ts);
    if o.Failed? then o else
    match Head(o.rest)
    case Plus =>
      var p := ParseExpr(env, o.rest[1..]);
      if p.Failed? then p else Done(o.value + p.value, p.rest)
    case Minus =>
      var p := ParseExpr(env, o.rest[1..]);
      if p.Failed? then p else Done(o.value - p.value, p.rest)
    case _ => Done(o.value, Peeked(o.rest))
  }

  // ---------------------------------------------------------------- trees

  /** An identifier or a constant. */
  type Word = t: Token | t.Ident? || t.Const? witness Const("0")

  /** The trees of the grammar: both operators of a level group to the right. */
  datatype Expr = Just(term: Term) | Add(left: Term, right: Expr) | Sub(left: Term, right: Expr)
  datatype Term = Only(factor: Factor) | Mul(first: Factor, more: Term) | Quot(first: Factor, more: Term)
  datatype Factor = Leaf(word: Word) | Neg(f: Factor) | Paren(e: Expr)

  datatype Value = Val(v: int) | Err(error: Error)

  /** The value, or the first error from left to right. */
  function ExprValue(env: Env, e: Expr): Value {
    match e
    case Just(t) => TermValue(env, t)
    case Add(t, r) => Both(TermValue(env, t), ExprValue(env, r), (x, y) => Val(x + y))
    case Sub(t, r) => Both(TermValue(env, t), ExprValue(env, r), (x, y) => Val(x - y))
  }

  function TermValue(env: Env, t: Term): Value {
    match t
    case Only(f) => FactorValue(env, f)
    case Mul(f, r) => Both(FactorValue(env, f), TermValue(env, r), (x, y) => Val(x * y))
    case Quot(f, r) =>
      Both(FactorValue(env, f), TermValue(env, r), (x, y) => if y == 0 then Err(DivideByZero) else Val(Quotient(x, y)))
  }

  function FactorValue(env: Env, f: Factor): Value {
    match f
    case Leaf(Ident(name)) => if env.ident(name).Some? then Val(env.ident(name).value) else Err(UndefinedVariable)
    case Leaf(Const(text)) => if env.literal(text).Some? then Val(env.literal(text).value) else Err(BadConstant)
    case Neg(g) => Both(Val(0), FactorValue(env, g), (x, y) => Val(x - y))
    case Paren(e) => ExprValue(env, e)
  }

  function Both(a: Value, b: Value, op: (int, int) -> Value): Value {
    if a.Err? then a else if b.Err? then b else op(a.v, b.v)
  }

  // ---------------------------------------------------------------- printing

  function ExprTokens(e: Expr): (ts: seq<Token>)
    ensures ts != []
  {
    match e
    case Just(t) => TermTokens(t)
    case Add(t, r) => TermTokens(t) + [Plus] + ExprTokens(r)
    case Sub(t, r) => TermTokens(t) + [Minus] + ExprTokens(r)
  }

  function TermTokens(t: Term): (ts: seq<Token>)
    ensures ts != []
  {
    match t
    case Only(f) => FactorTokens(f)
    case Mul(f, r) => FactorTokens(f) + [Mult] + TermTokens(r)
    case Quot(f, r) => FactorTokens(f) + [Div] + TermTokens(r)
  }

  function FactorTokens(f: Factor): (ts: seq<Token>)
    ensures ts != []
  {
    match f
    case Leaf(w) => [w]
    case Neg(g) => [Minus] + FactorTokens(g)
    case Paren(e) => [OParen] + ExprTokens(e) + [CParen]
  }

  // ---------------------------------------------------------------- parsing undoes printing

  function Result(v: Value, rest: seq<Token>): Outcome {
    if v.Val? then Done(v.v, rest) else Failed(v.error)
  }

  lemma {:induction false} FactorParses(env: Env, f: Factor, rest: seq<Token>)
    ensures ParseFactor(env, FactorTokens(f) + rest) == Result(FactorValue(env, f), rest)
    decreases f, 0
  {
    var ts := FactorTokens(f) + rest;
    match f {
      case Leaf(w) =>
        assert ts[1..] == rest;
      case Neg(g) =>
        assert ts[1..] == FactorTokens(g) + rest;
        FactorParses(env, g, rest);
      case Paren(e) =>
        assert ts[1..] == ExprTokens(e) + ([CParen] + rest);
        ExprParses(env, e, [CParen] + rest);
        assert ([CParen] + rest)[1..] == rest;
    }
  }

  /** What an operator after a factor or a term makes of the outcome of the rest. */
  function Combined(v: int, op: Token, p: Outcome): Outcome {
    if p.Failed? then p else
    match op
    case Mult => Done(v * p.value, p.rest)
    case Div => if p.value == 0 then Failed(DivideByZero) else Done(Quotient(v, p.value), p.rest)
    case Plus => Done(v + p.value, p.rest)
    case _ => Done(v - p.value, p.rest)
  }

  lemma {:induction false} AfterFactor(env: Env, ts: seq<Token>, o: Outcome, op: Token, more: seq<Token>)
    requires ParseFactor(env, ts) == o && (o.Done? ==> o.rest == [op] + more) && (op.Mult? || op.Div?)
    ensures ParseTerm(env, ts) == if o.Failed? then o else Combined(o.value, op, ParseTerm(env, more))
  {
    assert ([op] + more)[1..] == more;
  }

  lemma {:induction false} AfterTerm(env: Env, ts: seq<Token>, o: Outcome, op: Token, more: seq<Token>)
    requires ParseTerm(env, ts) == o && (o.Done? ==> o.rest == [op] + more) && (op.Plus? || op.Minus?)
    ensures ParseExpr(env, ts) == if o.Failed? then o else Combined(o.value, op, ParseExpr(env, more))
  {
    assert ([op] + more)[1..] == more;
  }

  lemma {:induction false} FactorAlone(env: Env, ts: seq<Token>, o: Outcome)
    requires ParseFactor(env, ts) == o && (o.Done?
             ==> !Head(o.rest).Mult? && !Head(o.rest).Div? && !Head(o.rest).Invalid?)
    ensures ParseTerm(env, ts) == o
  {
  }

  lemma {:induction false} TermAlone(env: Env, ts: seq<Token>, o: Outcome)
    requires ParseTerm(env, ts) == o && (o.Done? ==> Head(o.rest).Eof? || Head(o.rest).CParen?)
    ensures ParseExpr(env, ts) == o
  {
  }

  lemma {:induction false} TermParses(env: Env, t: Term, rest: seq<Token>)
    requires !Head(rest).Mult? && !Head(rest).Div? && !Head(rest).Invalid?
    ensures ParseTerm(env, TermTokens(t) + rest) == Result(TermValue(env, t), rest)
    decreases t, 1
  {
    hide ParseTerm, ParseFactor, FactorTokens, FactorValue, Quotient;
    match t {
      case Only(f) =>
        FactorParses(env, f, rest);
        FactorAlone(env, FactorTokens(f) + rest, Result(FactorValue(env, f), rest));
      case Mul(f, r) =>
        var more := TermTokens(r) + rest;
        FactorParses(env, f, [Mult] + more);
        TermParses(env, r, rest);
        assert FactorTokens(f) + ([Mult] + more) == TermTokens(t) + rest;
        AfterFactor(env, TermTokens(t) + rest, Result(FactorValue(env, f), [Mult] + more), Mult, more);
      case Quot(f, r) =>
        var more := TermTokens(r) + rest;
        FactorParses(env, f, [Div] + more);
        TermParses(env, r, rest);
        assert FactorTokens(f) + ([Div] + more) == TermTokens(t) + rest;
        AfterFactor(env, TermTokens(t) + rest, Result(FactorValue(env, f), [Div] + more), Div, more);
    }
  }

  /** Parsing the tokens of a tree, followed by the end or a closing parenthesis, takes just them and
      gives the tree's value, or its first error. */
  lemma {:induction false} ExprParses(env: Env, e: Expr, rest: seq<Token>)
    requires (Head(rest).Eof? || Head(rest).CParen?)
    ensures ParseExpr(env, ExprTokens(e) + rest) == Result(ExprValue(env, e), rest)
    decreases e, 2
  {
    hide ParseExpr, ParseTerm, TermTokens, TermValue;
    match e {
      case Just(t) =>
        TermParses(env, t, rest);
        TermAlone(env, TermTokens(t) + rest, Result(TermValue(env, t), rest));
      case Add(t, r) =>
        var more := ExprTokens(r) + rest;
        TermParses(env, t, [Plus] + more);
        ExprParses(env, r, rest);
        assert TermTokens(t) + ([Plus] + more) == ExprTokens(e) + rest;
        AfterTerm(env, ExprTokens(e) + rest, Result(TermValue(env, t), [Plus] + more), Plus, more);
      case Sub(t, r) =>
        var more := ExprTokens(r) + rest;
        TermParses(env, t, [Minus] + more);
        ExprParses(env, r, rest);
        assert TermTokens(t) + ([Minus] + more) == ExprTokens(e) + rest;
        AfterTerm(env, ExprTokens(e) + rest, Result(TermValue(env, t), [Minus] + more), Minus, more);
    }
  }

  // ---------------------------------------------------------------- nothing else is accepted

  /** The tokens without the invalid ones, which a look ahead drops. */
  function Kept(ts: seq<Token>): seq<Token> {
    if ts == [] then [] else (if ts[0].Invalid? then [] else [ts[0]]) + Kept(ts[1..])
  }

  lemma {:induction false} KeptConcat(a: seq<Token>, b: seq<Token>)
    ensures Kept(a + b) == Kept(a) + Kept(b)
  {
    if a == [] {
      assert a + b == b;
    } else {
      assert (a + b)[1..] == a[1..] + b;
      KeptConcat(a[1..], b);
    }
  }

  /** The first `k` tokens are these, but for invalid ones, and leave `rest`. */
  predicate Takes(ts: seq<Token>, k: nat, taken: seq<Token>, rest: seq<Token>) {
    k <= |ts| && rest == ts[k..] && Kept(ts[..k]) == taken
  }

  lemma {:induction false} TakesNone(ts: seq<Token>)
    ensures Takes(ts, 0, [], ts)
  {
  }

  /** Tokens taken in two goes with one between. */
  lemma {:induction false} TakesThrough(ts: seq<Token>, j: nat, a: seq<Token>, rest: seq<Token>, i: nat, b: seq<Token>,
                                        rest2: seq<Token>)
    requires Takes(ts, j, a, rest) && rest != [] && Takes(rest[1..], i, b, rest2)
    ensures Takes(ts, j + 1 + i, a + (if rest[0].Invalid? then [] else [rest[0]]) + b, rest2)
  {
    var k := j + 1 + i;
    assert rest[0] == ts[j] && rest[1..] == ts[j + 1..] && rest2 == ts[k..];
    KeptConcat(ts[..j], [ts[j]]);
    KeptConcat(ts[..j] + [ts[j]], rest[1..][..i]);
    assert ts[..j] + [ts[j]] + rest[1..][..i] == ts[..k];
    assert [ts[j]][1..] == [];
  }

  /** A look at the next token. */
  lemma {:induction false} TakesPeeked(ts: seq<Token>, j: nat, a: seq<Token>, rest: seq<Token>) returns (k: nat)
    requires Takes(ts, j, a, rest)
    ensures Takes(ts, k, a, Peeked(rest))
  {
    k := j;
    if Head(rest).Invalid? {
      k := j + 1;
      TakesNone(rest[1..]);
      TakesThrough(ts, j, a, rest, 0, [], rest[1..]);
      assert a + [] + [] == a;
    }
  }

  lemma {:induction false} FactorSound(env: Env, ts: seq<Token>) returns (f: Factor, k: nat)
    requires ParseFactor(env, ts).Done?
    ensures Takes(ts, k, FactorTokens(f), ParseFactor(env, ts).rest)
    ensures FactorValue(env, f) == Val(ParseFactor(env, ts).value)
    decreases |ts|, 0
  {
    hide ParseExpr, ParseTerm, Takes, ExprTokens, ExprValue;
    TakesNone(ts);
    var t := Head(ts);
    if t.OParen? {
      var o := ParseExpr(env, ts[1..]);
      var e, j := ExprSound(env, ts[1..]);
      TakesThrough(ts, 0, [], ts, j, ExprTokens(e), o.rest);
      TakesNone(o.rest[1..]);
      TakesThrough(ts, 1 + j, [] + [OParen] + ExprTokens(e), o.rest, 0, [], o.rest[1..]);
      f, k := Paren(e), j + 2;
      assert [] + [OParen] + ExprTokens(e) + [CParen] + [] == FactorTokens(f);
    } else if t.Minus? {
      var g, j := FactorSound(env, ts[1..]);
      TakesThrough(ts, 0, [], ts, j, FactorTokens(g), ParseFactor(env, ts[1..]).rest);
      f, k := Neg(g), j + 1;
      assert [] + [Minus] + FactorTokens(g) == FactorTokens(f);
    } else {
      TakesNone(ts[1..]);
      TakesThrough(ts, 0, [], ts, 0, [], ts[1..]);
      f, k := Leaf(t), 1;
      assert [] + [t] + [] == FactorTokens(f);
    }
  }

  lemma {:induction false} TermSound(env: Env, ts: seq<Token>) returns (t: Term, k: nat)
    requires ParseTerm(env, ts).Done?
    ensures Takes(ts, k, TermTokens(t), ParseTerm(env, ts).rest)
    ensures TermValue(env, t) == Val(ParseTerm(env, ts).value)
    decreases |ts|, 1
  {
    hide ParseFactor, Takes, FactorTokens, FactorValue, Quotient, Peeked;
    var o := ParseFactor(env, ts);
    var f, j := FactorSound(env, ts);
    match Head(o.rest) {
      case Mult =>
        var r, i := TermSound(env, o.rest[1..]);
        TakesThrough(ts, j, FactorTokens(f), o.rest, i, TermTokens(r), ParseTerm(env, o.rest[1..]).rest);
        t, k := Mul(f, r), j + 1 + i;
      case Div =>
        var r, i := TermSound(env, o.rest[1..]);
        TakesThrough(ts, j, FactorTokens(f), o.rest, i, TermTokens(r), ParseTerm(env, o.rest[1..]).rest);
        t, k := Quot(f, r), j + 1 + i;
      case _ =>
        k := TakesPeeked(ts, j, FactorTokens(f), o.rest);
        t := Only(f);
    }
  }

  /** Whatever the tokens: when the descent gives a value, what it took is a tree's tokens, but for invalid ones
      among them, and the value is the tree's. */
  lemma {:induction false} ExprSound(env: Env, ts: seq<Token>) returns (e: Expr, k: nat)
    requires ParseExpr(env, ts).Done?
    ensures Takes(ts, k, ExprTokens(e), ParseExpr(env, ts).rest)
    ensures ExprValue(env, e) == Val(ParseExpr(env, ts).value)
    decreases |ts|, 2
  {
    hide ParseTerm, Takes, TermTokens, TermValue, Peeked;
    var o := ParseTerm(env, ts);
    var t, j := TermSound(env, ts);
    match Head(o.rest) {
      case Plus =>
        var r, i := ExprSound(env, o.rest[1..]);
        TakesThrough(ts, j, TermTokens(t), o.rest, i, ExprTokens(r), ParseExpr(env, o.rest[1..]).rest);
        e, k := Add(t, r), j + 1 + i;
      case Minus =>
        var r, i := ExprSound(env, o.rest[1..]);
        TakesThrough(ts, j, TermTokens(t), o.rest, i, ExprTokens(r), ParseExpr(env, o.rest[1..]).rest);
        e, k := Sub(t, r), j + 1 + i;
      case _ =>
        k := TakesPeeked(ts, j, TermTokens(t), o.rest);
        e := Just(t);
    }
  }

  ghost predicate Stands(env: Env, ts: seq<Token>, v: int) {
    exists e {:trigger ExprTokens(e)} :: ExprTokens(e) == ts && ExprValue(env, e) == Val(v)
  }

  lemma {:induction false} KeptAll(ts: seq<Token>)
    requires forall i {:trigger ts[i]} | 0 <= i < |ts| :: !ts[i].Invalid?
    ensures Kept(ts) == ts
  {
    if ts != [] {
      assert forall i | 0 <= i < |ts| - 1 :: ts[1..][i] == ts[i + 1];
      KeptAll(ts[1..]);
    }
  }

  /** Valid tokens are used up and give a value exactly if they are those of a tree with that value. */
  lemma {:induction false} AcceptsTrees(env: Env, ts: seq<Token>, v: int)
    requires forall i {:trigger ts[i]} | 0 <= i < |ts| :: !ts[i].Invalid?
    ensures ParseExpr(env, ts) == Done(v, []) <==> Stands(env, ts, v)
  {
    hide ParseExpr, ExprTokens, ExprValue;
    if ParseExpr(env, ts) == Done(v, []) {
      var e, k := ExprSound(env, ts);
      assert k == |ts| && ts[..k] == ts;
      KeptAll(ts);
    }
    if e :| ExprTokens(e) == ts && ExprValue(env, e) == Val(v) {
      ExprParses(env, e, []);
      assert ts + [] == ts;
    }
  }
}
