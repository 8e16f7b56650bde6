/** The tokenizer of lab3/eval.c, and that it reads back any spacing of printable tokens. */
module Lexer {
  import opened Expressions

  // ---------------------------------------------------------------- characters

  predicate IsBlank(c: char) { c == ' ' || c == '\t' }
  predicate IsIdent(c: char) { 'a' <= c <= 'z' || 'A' <= c <= 'Z' || c == '_' || c == '$' }
  predicate IsConst(c: char) { '0' <= c <= '9' || c == '.' }

  function Lower(c: char): char { if 'A' <= c <= 'Z' then c - 'A' + 'a' else c }

  function OpToken(c: char): Token {
    match c
    case '+' => Plus
    case '-' => Minus
    case '*' => Mult
    case '/' => Div
    case '(' => OParen
    case ')' => CParen
    case _ => Invalid
  }

  // ---------------------------------------------------------------- tokens

  function SkipBlanks(s: string): (r: string)
    ensures |r| <= |s| && (r != [] ==> !IsBlank(r[0]))
  {
    if s != [] && IsBlank(s[0]) then SkipBlanks(s[1..]) else s
  }

  function IdentEnd(s: string, k: nat): (e: nat)
    requires k <= |s|
    ensures k <= e <= |s|
    decreases |s| - k
  {
    if k < |s| && (IsIdent(s[k]) || IsConst(s[k])) then IdentEnd(s, k + 1) else k
  }

  /** May a numeric literal go on with `c`, after `last`, with hexadecimal digits or not? */
  predicate Continues(c: char, last: char, hex: bool) {
    || IsConst(c) || ((c == '-' || c == '+') && last == 'e')
    || Lower(c) == 'e' || Lower(c) == 'x' || (hex && 'a' <= Lower(c) <= 'f')
  }

  function ConstEnd(s: string, k: nat, last: char, hex: bool): (e: nat)
    requires k <= |s|
    ensures k <= e <= |s|
    decreases |s| - k
  {
    if k < |s| && Continues(s[k], last, hex)
    then ConstEnd(s, k + 1, Lower(s[k]), hex || Lower(s[k]) == 'x')
    else k
  }

  /** The token that a text without leading blanks starts with, and its length. */
  function FirstToken(s: string): (t: (Token, nat))
    ensures t.1 <= |s| && (s != [] ==> t.1 > 0 && !t.0.Eof?)
  {
    if s == [] then (Eof, 0)
    else if IsIdent(s[0]) then (Ident(s[..IdentEnd(s, 1)]), IdentEnd(s, 1))
    else if IsConst(s[0]) then (Const(s[..ConstEnd(s, 1, '\0', false)]), ConstEnd(s, 1, '\0', false))
    else (OpToken(s[0]), 1)
  }

  function Lex(s: string): (ts: seq<Token>)
    decreases |s|
  {
    var r := SkipBlanks(s);
    if r == [] then [] else [FirstToken(r).0] + Lex(r[FirstToken(r).1..])
  }

  // ---------------------------------------------------------------- which tokens a tree prints

  predicate IsWord(t: Token) { t.Ident? || t.Const? }

  /** Identifiers, constants of digits, operators and parentheses, no two words side by side. */
  ghost predicate Printable(ts: seq<Token>) {
    && (forall i {:trigger ts[i]} | 0 <= i < |ts| :: PlainToken(ts[i]))
    && (forall i | 0 <= i < |ts| - 1 :: !(IsWord(ts[i]) && IsWord(ts[i + 1])))
  }

  ghost predicate PlainToken(t: Token) {
    match t
    case Ident(s) =>
      s != [] && IsIdent(s[0]) && forall i {:trigger s[i]} | 0 <= i < |s| :: IsIdent(s[i]) || IsConst(s[i])
    case Const(s) => s != [] && forall i {:trigger s[i]} | 0 <= i < |s| :: '0' <= s[i] <= '9'
    case Plus | Minus | Mult | Div | OParen | CParen => true
    case _ => false
  }

  lemma {:induction false} Joined(a: seq<Token>, t: Token, b: seq<Token>)
    requires Printable(a) && PlainToken(t) && !IsWord(t) && Printable(b)
    ensures Printable(a + [t] + b)
  {
  }

  /** All identifiers and constants of the tree are such. */
  ghost predicate PlainExpr(e: Expr) {
    match e
    case Just(t) => PlainTerm(t)
    case Add(t, r) => PlainTerm(t) && PlainExpr(r)
    case Sub(t, r) => PlainTerm(t) && PlainExpr(r)
  }

  ghost predicate PlainTerm(t: Term) {
    match t
    case Only(f) => PlainFactor(f)
    case Mul(f, r) => PlainFactor(f) && PlainTerm(r)
    case Quot(f, r) => PlainFactor(f) && PlainTerm(r)
  }

  ghost predicate PlainFactor(f: Factor) {
    match f
    case Leaf(w) => PlainToken(w)
    case Neg(g) => PlainFactor(g)
    case Paren(e) => PlainExpr(e)
  }

  lemma {:induction false} ExprPrintable(e: Expr)
    requires PlainExpr(e)
    ensures Printable(ExprTokens(e))
    decreases e, 2
  {
    match e {
      case Just(t) => TermPrintable(t);
      case Add(t, r) => TermPrintable(t); ExprPrintable(r); Joined(TermTokens(t), Plus, ExprTokens(r));
      case Sub(t, r) => TermPrintable(t); ExprPrintable(r); Joined(TermTokens(t), Minus, ExprTokens(r));
    }
  }

  lemma {:induction false} TermPrintable(t: Term)
    requires PlainTerm(t)
    ensures Printable(TermTokens(t))
    decreases t, 1
  {
    match t {
      case Only(f) => FactorPrintable(f);
      case Mul(f, r) => FactorPrintable(f); TermPrintable(r); Joined(FactorTokens(f), Mult, TermTokens(r));
      case Quot(f, r) => FactorPrintable(f); TermPrintable(r); Joined(FactorTokens(f), Div, TermTokens(r));
    }
  }

  lemma {:induction false} FactorPrintable(f: Factor)
    requires PlainFactor(f)
    ensures Printable(FactorTokens(f))
    decreases f, 0
  {
    match f {
      case Leaf(w) =>
      case Neg(g) =>
        FactorPrintable(g);
        Joined([], Minus, FactorTokens(g));
        assert [] + [Minus] + FactorTokens(g) == FactorTokens(f);
      case Paren(e) =>
        ExprPrintable(e);
        Joined([], OParen, ExprTokens(e));
        assert [] + [OParen] + ExprTokens(e) == [OParen] + ExprTokens(e);
        Joined([OParen] + ExprTokens(e), CParen, []);
        assert [OParen] + ExprTokens(e) + [CParen] + [] == FactorTokens(f);
    }
  }

  // ---------------------------------------------------------------- reading back

  function Shown(t: Token): string {
    match t
    case Ident(s) => s
    case Const(s) => s
    case Plus => "+"
    case Minus => "-"
    case Mult => "*"
    case Div => "/"
    case OParen => "("
    case CParen => ")"
    case _ => ""
  }

  predicate Blank(s: string) { forall i {:trigger s[i]} | 0 <= i < |s| :: IsBlank(s[i]) }

  /** The tokens with a gap of blanks before each and after the last one. */
  function Text(ts: seq<Token>, gaps: seq<string>): string
    requires |gaps| == |ts| + 1
    decreases |ts|
  {
    if ts == [] then gaps[0] else gaps[0] + (Shown(ts[0]) + Text(ts[1..], gaps[1..]))
  }

  ghost predicate AllBlank(gaps: seq<string>) { forall i {:trigger gaps[i]} | 0 <= i < |gaps| :: Blank(gaps[i]) }

  lemma {:induction false} SkipGap(gap: string, s: string)
    requires Blank(gap) && (s != [] ==> !IsBlank(s[0]))
    ensures SkipBlanks(gap + s) == s
  {
    if gap == [] {
      assert gap + s == s;
    } else {
      assert (gap + s)[1..] == gap[1..] + s;
      SkipGap(gap[1..], s);
    }
  }

  /** A literal of digits ends where its digits do, if nothing that could go on follows. */
  lemma {:induction false} DigitsEnd(s: string, n: nat, k: nat, last: char)
    requires 0 < k <= n <= |s| && (forall i {:trigger s[i]} | 0 <= i < n :: '0' <= s[i] <= '9')
    requires last == '\0' || '0' <= last <= '9'
    requires n < |s| ==> IsBlank(s[n]) || !OpToken(s[n]).Invalid?
    ensures ConstEnd(s, k, last, false) == n
    decreases n - k
  {
    if k < n {
      DigitsEnd(s, n, k + 1, s[k]);
    }
  }

  /** So does an identifier. */
  lemma {:induction false} IdentEnds(s: string, n: nat, k: nat)
    requires k <= n <= |s| && (forall i {:trigger s[i]} | 0 <= i < n :: IsIdent(s[i]) || IsConst(s[i]))
    requires n < |s| ==> IsBlank(s[n]) || !OpToken(s[n]).Invalid?
    ensures IdentEnd(s, k) == n
    decreases n - k
  {
    if k < n {
      IdentEnds(s, n, k + 1);
    }
  }

  lemma {:induction false} ShownFirst(t: Token, s: string)
    requires PlainToken(t) && (IsWord(t) && s != [] ==> IsBlank(s[0]) || !OpToken(s[0]).Invalid?)
    ensures FirstToken(Shown(t) + s) == (t, |Shown(t)|) && Shown(t) != [] && !IsBlank((Shown(t) + s)[0])
  {
    hide IdentEnd, ConstEnd;
    var x := Shown(t) + s;
    if IsWord(t) {
      var w := Shown(t);
      var n := |w|;
      assert forall i | 0 <= i < n :: x[i] == w[i];
      assert n < |x| ==> x[n] == s[0];
      if t.Const? {
        DigitsEnd(x, n, 1, '\0');
      } else {
        IdentEnds(x, n, 1);
      }
      assert x[..n] == w;
    }
  }

  /** After a word comes a blank, an operator, a parenthesis or the end. */
  lemma {:induction false} TextStart(ts: seq<Token>, gaps: seq<string>)
    requires |gaps| == |ts| + 1 && AllBlank(gaps) && Printable(ts) && (ts != [] ==> !IsWord(ts[0]))
    ensures var s := Text(ts, gaps);
      s != [] ==> IsBlank(s[0]) || !OpToken(s[0]).Invalid?
  {
    assert Blank(gaps[0]);
    if gaps[0] == [] && ts != [] {
      assert PlainToken(ts[0]);
      var s := Text(ts, gaps);
      assert s == Shown(ts[0]) + Text(ts[1..], gaps[1..]);
      assert s[0] == Shown(ts[0])[0];
    }
  }

  lemma {:induction false} TailPrintable(ts: seq<Token>)
    requires Printable(ts) && ts != []
    ensures Printable(ts[1..]) && PlainToken(ts[0]) && (|ts| > 1 && IsWord(ts[0]) ==> !IsWord(ts[1]))
  {
    assert forall i | 0 <= i < |ts| - 1 :: ts[1..][i] == ts[i + 1];
  }

  /** Whatever the blanks between them, the tokens come back. */
  lemma {:induction false} LexReadsBack(ts: seq<Token>, gaps: seq<string>)
    requires |gaps| == |ts| + 1 && AllBlank(gaps) && Printable(ts)
    ensures Lex(Text(ts, gaps)) == ts
    decreases |ts|
  {
    hide Printable, PlainToken, FirstToken, SkipBlanks, Shown;
    assert Blank(gaps[0]);
    if ts == [] {
      SkipGap(gaps[0], []);
      assert gaps[0] + [] == gaps[0];
    } else {
      TailPrintable(ts);
      assert forall i | 0 <= i < |gaps[1..]| :: gaps[1..][i] == gaps[i + 1];
      var more := Text(ts[1..], gaps[1..]);
      if IsWord(ts[0]) {
        TextStart(ts[1..], gaps[1..]);
      }
      ShownFirst(ts[0], more);
      SkipGap(gaps[0], Shown(ts[0]) + more);
      assert (Shown(ts[0]) + more)[|Shown(ts[0])|..] == more;
      LexReadsBack(ts[1..], gaps[1..]);
    }
  }

  // ---------------------------------------------------------------- where words end

  /** Whether character `i` goes on with the constant that begins at 0: a digit, a point, an `e` or an `x`, a sign
      right after an `e`, or a letter up to `f` with an `x` before it. */
  ghost predicate GoesOn(s: string, i: nat)
    requires 0 < i < |s|
  {
    var c := s[i];
    || '0' <= c <= '9' || c in {'.', 'e', 'E', 'x', 'X'}
    || (c in {'+', '-'} && s[i - 1] in {'e', 'E'})
    || (('a' <= c <= 'f' || 'A' <= c <= 'F') && XBefore(s, i))
  }

  ghost predicate XBefore(s: string, i: nat)
    requires i <= |s|
  {
    exists j {:trigger s[j]} :: 0 < j < i && s[j] in {'x', 'X'}
  }

  lemma {:induction false} ContinuesIs(s: string, k: nat, last: char, hex: bool)
    requires 0 < k < |s| && IsConst(s[0]) && last == (if k == 1 then '\0' else Lower(s[k - 1])) && hex == XBefore(s, k)
    ensures Continues(s[k], last, hex) <==> GoesOn(s, k)
    ensures XBefore(s, k + 1) <==> hex || Lower(s[k]) == 'x'
  {
    hide XBefore;
    XBeforeNext(s, k);
  }

  lemma {:induction false} XBeforeNext(s: string, k: nat)
    requires 0 < k < |s|
    ensures XBefore(s, k + 1) <==> XBefore(s, k) || s[k] in {'x', 'X'}
    ensures !XBefore(s, 1)
  {
    if s[k] in {'x', 'X'} {
      assert XBefore(s, k + 1);
    }
  }

  lemma {:induction false} ConstEndFrom(s: string, k: nat, last: char, hex: bool)
    requires 0 < k <= |s| && IsConst(s[0]) && last == (if k == 1 then '\0' else Lower(s[k - 1])) && hex == XBefore(s, k)
    ensures var e := ConstEnd(s, k, last, hex);
      (forall i | k <= i < e :: GoesOn(s, i)) && (e < |s| ==> !GoesOn(s, e))
    decreases |s| - k
  {
    hide Continues, GoesOn, XBefore, Lower;
    if k < |s| {
      ContinuesIs(s, k, last, hex);
      if Continues(s[k], last, hex) {
        ConstEndFrom(s, k + 1, Lower(s[k]), hex || Lower(s[k]) == 'x');
      }
    }
  }

  /** A constant takes in every character that goes on with it, and ends at the first that does not; so a sign
      after a hexadecimal digit `e` belongs to the constant.  An identifier takes in letters, `_`, `$`, digits and
      points. */
  lemma {:induction false} WordEnds(s: string)
    requires s != []
    ensures var t := FirstToken(s);
      && (t.0.Const? <==> '0' <= s[0] <= '9' || s[0] == '.')
      && (t.0.Const? ==> t.0.text == s[..t.1] && (forall i | 0 < i < t.1 :: GoesOn(s, i))
                         && (t.1 < |s| ==> !GoesOn(s, t.1)))
      && (t.0.Ident? <==> 'a' <= s[0] <= 'z' || 'A' <= s[0] <= 'Z' || s[0] in {'_', '$'})
      && (t.0.Ident? ==> t.0.name == s[..t.1] && (forall i {:trigger s[i]} | 0 < i < t.1 :: InName(s[i]))
                         && (t.1 < |s| ==> !InName(s[t.1])))
  {
    hide GoesOn, ConstEnd, IdentEnd;
    if IsConst(s[0]) {
      NoXYet(s);
      ConstEndFrom(s, 1, '\0', false);
    } else if IsIdent(s[0]) {
      IdentEndFrom(s, 1);
    }
  }

  lemma {:induction false} NoXYet(s: string)
    requires s != []
    ensures !XBefore(s, 1)
  {
  }

  predicate InName(c: char) {
    'a' <= c <= 'z' || 'A' <= c <= 'Z' || c in {'_', '$', '.'} || '0' <= c <= '9'
  }

  lemma {:induction false} IdentEndFrom(s: string, k: nat)
    requires k <= |s|
    ensures var e := IdentEnd(s, k);
      (forall i {:trigger s[i]} | k <= i < e :: InName(s[i])) && (e < |s| ==> !InName(s[e]))
    decreases |s| - k
  {
    if k < |s| && InName(s[k]) {
      IdentEndFrom(s, k + 1);
    }
  }
}
