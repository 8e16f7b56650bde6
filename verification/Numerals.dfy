/** The 64-bit number printing and parsing of lab3/misc.c. */
module Numerals {
  import opened Decimals

  const TWO_32 := 0x1_0000_0000
  const TWO_64 := 0x1_0000_0000_0000_0000
  const HIBIT := 0x8000_0000_0000_0000
  const LL_MAX := 0x7FFF_FFFF_FFFF_FFFF
  const ULL_MAX := 0xFFFF_FFFF_FFFF_FFFF
  const MAXDIGS := 22

  /** Signed and unsigned 64-bit values. */
  predicate IsSigned(v: int) { -HIBIT <= v < HIBIT }
  predicate IsUnsigned(v: int) { 0 <= v < TWO_64 }

  /** The bits of a value as an unsigned number, and an unsigned number's bits as a signed value. */
  function Bits64(v: int): nat { v % TWO_64 }
  function Signed64(u: nat): int { if u % TWO_64 >= HIBIT then u % TWO_64 - TWO_64 else u % TWO_64 }

  /** A 64-bit value cut to int, and 32-bit wrap-around. */
  function Int32(v: int): int { if v % TWO_32 >= TWO_32 / 2 then v % TWO_32 - TWO_32 else v % TWO_32 }

  // ---------------------------------------------------------------- printing

  function PrintSigned(v: int): string { if v < 0 then "-" + Decimal(-v) else Decimal(v) }

  /** _lowdigit: the last decimal digit of the bits as an unsigned number, and that number divided by ten. */
  method LowDigit(val: int) returns (digit: char, rest: int)
    requires IsSigned(val)
    ensures digit == Digit(Bits64(val) % 10) && rest == Bits64(val) / 10 && 0 <= rest < HIBIT
  {
    var lowbit := val % 2;
    // an arithmetic shift right with the sign bit cleared
    var value := (val / 2) % HIBIT;
    Halved(val);
    rest := value / 5;
    digit := Digit(value % 5 * 2 + lowbit);
  }

  lemma {:induction false} Halved(val: int)
    requires IsSigned(val)
    ensures var value, u := (val / 2) % HIBIT, Bits64(val);
      value == u / 2 && value / 5 == u / 10 && value % 5 * 2 + val % 2 == u % 10 && 0 <= value % 5 * 2 + val % 2 < 10
  {
    var u := Bits64(val);
    assert u == if val < 0 then val + TWO_64 else val;
    assert (val / 2) % HIBIT == u / 2;
  }

  lemma {:induction false} Int32Is(v: int) returns (k: int)
    ensures Int32(v) == v + TWO_32 * k
  {
    k := (Int32(v) - v) / TWO_32;
  }

  lemma {:induction false} Int32Small(d: nat, k: int)
    requires d < 10
    ensures Int32(d + TWO_32 * k) == d
  {
  }

  /** The digit that the decimal loop computes in int arithmetic is the last one, though the values may
      not fit. */
  lemma {:induction false} CutDigit(q: nat)
    ensures Int32(Int32(q) - Int32(Int32(q / 10) * 10)) == q % 10
  {
    hide Int32;
    var i := Int32Is(q);
    var j := Int32Is(q / 10);
    var k := Int32Is(Int32(q / 10) * 10);
    Int32Small(q % 10, i - 10 * j - k);
  }

  lemma {:induction false} DecimalStep(q: nat)
    ensures q > 9 ==> Decimal(q) == Decimal(q / 10) + [Digit(q % 10)]
    ensures q <= 9 ==> Decimal(q) == [Digit(q)]
    ensures q > 9 ==> |Decimal(q / 10)| == |Decimal(q)| - 1
  {
  }

  /** The `decimal` loop: puts the digits of a nonnegative value before position `bp`. */
  method PutDecimal(buf: array<char>, bp: nat, val: int) returns (bp': nat)
    requires 0 <= val < HIBIT && |Decimal(val)| <= bp <= buf.Length
    modifies buf
    ensures bp' <= bp && buf[bp'..bp] == Decimal(val) && buf[bp..] == old(buf[bp..])
  {
    hide Decimal, Int32, Digit;
    bp' := bp;
    var qval := val;
    while qval > 9
      invariant 0 <= qval <= val && bp' <= bp && |Decimal(qval)| <= bp'
      invariant Decimal(qval) + buf[bp'..bp] == Decimal(val) && buf[bp..] == old(buf[bp..])
    {
      CutDigit(qval);
      DecimalStep(qval);
      var n := Int32(qval);
      qval := qval / 10;
      bp' := bp' - 1;
      buf[bp'] := Digit(Int32(n - Int32(Int32(qval) * 10)));
      assert buf[bp'..bp] == [buf[bp']] + buf[bp' + 1..bp];
    }
    DecimalStep(qval);
    bp' := bp' - 1;
    buf[bp'] := Digit(qval);
    assert buf[bp'..bp] == [buf[bp']] + buf[bp' + 1..bp];
  }

  lemma {:induction false} FitsBuffer(n: nat)
    requires n < TWO_64
    ensures |Decimal(n)| <= 20
  {
    assert Power(10, 5) == 100000;
    assert Power(10, 10) == 100000 * Power(10, 5);
    assert Power(10, 15) == 100000 * Power(10, 10);
    assert Power(10, 20) == 100000 * Power(10, 15);
    DecimalLength(n, 20);
  }

  /** The digits of a value below the sign bit, after `last`. */
  method Digits(val: int, last: string) returns (s: string)
    requires 0 <= val < HIBIT && |last| <= 1 && |Decimal(val)| + |last| <= 20
    ensures s == Decimal(val) + last
  {
    hide Decimal;
    var buf := new char[4 * MAXDIGS](_ => ' ');
    var bp := MAXDIGS;
    if last != "" {
      bp := bp - 1;
      buf[bp] := last[0];
    }
    assert buf[bp..MAXDIGS] == last;
    ghost var start, tail := bp, buf[bp..];
    assert tail[..MAXDIGS - start] == last;
    bp := PutDecimal(buf, bp, val);
    assert buf[start..] == tail;
    assert buf[start..MAXDIGS] == tail[..MAXDIGS - start];
    assert buf[bp..MAXDIGS] == buf[bp..start] + buf[start..MAXDIGS];
    s := buf[bp..MAXDIGS];
  }

  /** The `ld` conversion of myvsprintf: sign and digits, whatever the value; the smallest one cannot be
      negated and gives up its last digit first. */
  method FormatSigned(value: int) returns (s: string)
    requires IsSigned(value)
    ensures s == PrintSigned(value)
  {
    hide Decimal, Digit;
    FitsBuffer(if value < 0 then -value else value);
    var val, prefix, last := value, "", "";
    if val < 0 {
      prefix := "-";
      if val != -HIBIT {
        val := -val;
      } else {
        var d;
        d, val := LowDigit(val);
        last := [d];
        DecimalStep(HIBIT);
      }
    }
    s := Digits(val, last);
    s := prefix + s;
  }

  /** The `lu` conversion: the digits of the bits as an unsigned number. */
  method FormatUnsigned(value: nat) returns (s: string)
    requires IsUnsigned(value)
    ensures s == Decimal(value)
  {
    hide Decimal, Digit;
    FitsBuffer(value);
    var val, last := Signed64(value), "";
    if val < 0 {
      var d;
      d, val := LowDigit(val);
      last := [d];
      DecimalStep(value);
    }
    s := Digits(val, last);
  }

  // ---------------------------------------------------------------- parsing

  predicate IsSpace(c: char) { c == ' ' || 9 <= c as int <= 13 }

  /** The value of a digit or letter; 36 for anything else. */
  function DigitValue(c: char): (d: nat)
    ensures d <= 36
  {
    if '0' <= c <= '9' then c as int - '0' as int
    else if 'a' <= c <= 'z' then c as int - 'a' as int + 10
    else if 'A' <= c <= 'Z' then c as int - 'A' as int + 10
    else 36
  }

  function SkipSpace(s: string, k: nat): (e: nat)
    requires k <= |s|
    ensures k <= e <= |s|
    decreases |s| - k
  {
    if k < |s| && IsSpace(s[k]) then SkipSpace(s, k + 1) else k
  }

  /** Where the digits of the base end. */
  function DigitsEnd(s: string, k: nat, base: nat): (e: nat)
    requires k <= |s|
    ensures k <= e <= |s|
    ensures forall i {:trigger s[i]} | k <= i < e :: DigitValue(s[i]) < base
    decreases |s| - k
  {
    if k < |s| && DigitValue(s[k]) < base then DigitsEnd(s, k + 1, base) else k
  }

  /** The number that the digits name. */
  function NumeralValue(digits: string, base: nat): nat {
    if digits == "" then 0
    else NumeralValue(digits[..|digits| - 1], base) * base + DigitValue(digits[|digits| - 1])
  }

  predicate HexPrefix(s: string, k: nat) {
    k + 1 < |s| && s[k] == '0' && (s[k + 1] == 'x' || s[k + 1] == 'X')
  }

  /** A result: the value, where the numeral ends, and whether errno says it was out of range. */
  datatype Parsed = Parsed(value: int, end: nat, range: bool)

  /** The two scanning loops: the largest value is never exceeded, and overflow is flagged exactly if the
      numeral does exceed it. */
  method ScanDigits(s: string, k: nat, base: nat, max: nat) returns (i: nat, end: nat, overflow: bool)
    requires k <= |s| && 2 <= base <= 36
    ensures end == DigitsEnd(s, k, base)
    ensures overflow <==> NumeralValue(s[k..end], base) > max
    ensures !overflow ==> i == NumeralValue(s[k..end], base)
    ensures i <= max
  {
    hide NumeralValue, DigitValue, DigitsEnd, IsCutoff, Appended;
    var cutoff, cutlim := Limits(base, max);
    i, end, overflow := 0, k, false;
    NoDigits(base);
    assert s[k..k] == "";
    while end < |s| && DigitValue(s[end]) < base
      invariant k <= end <= |s| && DigitsEnd(s, end, base) == DigitsEnd(s, k, base) && i <= max
      invariant overflow <==> NumeralValue(s[k..end], base) > max
      invariant !overflow ==> i == NumeralValue(s[k..end], base)
    {
      var c := DigitValue(s[end]);
      var next := Appended(i, base, c);
      OneDigit(s, k, end, base, i, max, cutoff, cutlim, next);
      if i > cutoff || (i == cutoff && c > cutlim) {
        overflow := true;
      } else {
        i := next;
      }
      end := end + 1;
    }
    EndsHere(s, end, base);
  }

  /** A digit appended to a number. */
  function Appended(i: nat, base: nat, c: nat): nat { i * base + c }

  ghost predicate IsCutoff(base: nat, max: nat, cutoff: nat, cutlim: nat) {
    base > 0 && cutoff == max / base && cutlim == max % base
  }

  method Limits(base: nat, max: nat) returns (cutoff: nat, cutlim: nat)
    requires base > 0
    ensures IsCutoff(base, max, cutoff, cutlim)
  {
    cutoff, cutlim := max / base, max % base;
  }

  lemma {:induction false} EndsHere(s: string, end: nat, base: nat)
    requires end <= |s| && (end < |s| ==> DigitValue(s[end]) >= base)
    ensures DigitsEnd(s, end, base) == end
  {
  }

  lemma {:induction false} NoDigits(base: nat)
    ensures NumeralValue("", base) == 0
  {
  }

  /** One more digit: the overflow test is exact. */
  lemma {:induction false} OneDigit(s: string, k: nat, end: nat, base: nat, i: nat, max: nat, cutoff: nat, cutlim: nat,
                                    next: nat)
    requires k <= end < |s| && DigitValue(s[end]) < base && IsCutoff(base, max, cutoff, cutlim)
    requires next == Appended(i, base, DigitValue(s[end]))
    ensures var c, v, v' := DigitValue(s[end]), NumeralValue(s[k..end], base), NumeralValue(s[k..end + 1], base);
      && (v > max ==> v' > max)
      && (i == v ==> v' == next)
      && (i > cutoff || (i == cutoff && c > cutlim) <==> next > max)
    ensures DigitsEnd(s, end + 1, base) == DigitsEnd(s, end, base)
  {
    var c, v := DigitValue(s[end]), NumeralValue(s[k..end], base);
    assert s[k..end + 1][..end - k] == s[k..end] && s[k..end + 1][end - k] == s[end];
    assert NumeralValue(s[k..end + 1], base) == v * base + c;
    hide NumeralValue;
    Cutoff(i, c, base, max);
    Grows(v, c, base, max);
  }

  lemma {:induction false} Cutoff(i: nat, c: nat, base: nat, max: nat)
    requires base > 0 && c < base
    ensures i > max / base || (i == max / base && c > max % base) <==> i * base + c > max
  {
    var q, r := max / base, max % base;
    assert max == q * base + r;
    if i > q {
      assert i * base >= (q + 1) * base;
    } else if i < q {
      assert q * base >= (i + 1) * base;
    }
  }

  lemma {:induction false} Grows(v: nat, c: nat, base: nat, max: nat)
    requires base >= 1
    ensures v * base + c >= v
  {
  }

  /** What both parsers do after the white space: the base, and for myatosq a sign, then the digits. */
  function BaseOf(s: string, k: nat, base: nat): nat { if base != 0 then base else if HexPrefix(s, k) then 16 else 10 }

  function AfterSign(s: string, k: nat): (e: nat)
    requires k <= |s|
    ensures k <= e <= |s|
  {
    if k < |s| && (s[k] == '-' || s[k] == '+') then k + 1 else k
  }

  function AfterPrefix(s: string, k: nat, base: nat): (e: nat)
    requires k <= |s|
    ensures k <= e <= |s|
  {
    if base == 16 && HexPrefix(s, k) then k + 2 else k
  }

  predicate ValidBase(base: nat) { base == 0 || 2 <= base <= 36 }

  /** The numeral whose digits begin at `d`: none leaves the text unused, one out of range gives the
      nearest value. */
  function SignedFrom(s: string, d: nat, b: nat, negative: bool): Parsed
    requires d <= |s| && 2 <= b <= 36
  {
    var e := DigitsEnd(s, d, b);
    if d == e then Parsed(0, 0, false) else
    var v: int := NumeralValue(s[d..e], b);
    if v > LL_MAX then Parsed(if negative then -LL_MAX - 1 else LL_MAX, e, true)
    else Parsed(if negative then -v else v, e, false)
  }

  function UnsignedFrom(s: string, d: nat, b: nat): Parsed
    requires d <= |s| && 2 <= b <= 36
  {
    var e := DigitsEnd(s, d, b);
    if d == e then Parsed(0, 0, false) else
    var v := NumeralValue(s[d..e], b);
    if v > ULL_MAX then Parsed(ULL_MAX, e, true) else Parsed(v, e, false)
  }

  function SignedNumeral(s: string, base: nat): Parsed
    requires ValidBase(base)
  {
    var k := SkipSpace(s, 0);
    var b := BaseOf(s, k, base);
    SignedFrom(s, AfterPrefix(s, AfterSign(s, k), b), b, k < |s| && s[k] == '-')
  }

  function UnsignedNumeral(s: string, base: nat): Parsed
    requires ValidBase(base)
  {
    var k := SkipSpace(s, 0);
    var b := BaseOf(s, k, base);
    UnsignedFrom(s, AfterPrefix(s, k, b), b)
  }

  method SkipWhite(s: string) returns (k: nat)
    ensures k == SkipSpace(s, 0)
  {
    k := 0;
    while k < |s| && IsSpace(s[k])
      invariant k <= |s| && SkipSpace(s, k) == SkipSpace(s, 0)
    {
      k := k + 1;
    }
  }

  method FinishSigned(nptr: string, s: nat, b: nat, negative: bool) returns (r: Parsed)
    requires s <= |nptr| && 2 <= b <= 36
    ensures r == SignedFrom(nptr, s, b, negative)
  {
    hide NumeralValue, DigitsEnd;
    var i, end, overflow := ScanDigits(nptr, s, b, LL_MAX);
    if end == s {
      return Parsed(0, 0, false);
    }
    var v: int := i;
    if overflow {
      r := Parsed(if negative then -LL_MAX - 1 else LL_MAX, end, true);
    } else {
      r := Parsed(if negative then -v else v, end, false);
    }
  }

  /** myatosq */
  method MyAtoSq(nptr: string, base: nat) returns (r: Parsed)
    requires nptr != "" && ValidBase(base)
    ensures r == SignedNumeral(nptr, base)
  {
    hide SkipSpace, SignedFrom;
    var s := SkipWhite(nptr);
    if s == |nptr| {
      NothingSigned(nptr, base);
      return Parsed(0, 0, false);
    }
    var b := base;
    if base == 0 {
      b := if HexPrefix(nptr, s) then 16 else 10;
    }
    var negative := nptr[s] == '-';
    if nptr[s] == '-' || nptr[s] == '+' {
      s := s + 1;
    }
    if b == 16 && HexPrefix(nptr, s) {
      s := s + 2;
    }
    r := FinishSigned(nptr, s, b, negative);
  }

  lemma {:induction false} NothingSigned(s: string, base: nat)
    requires ValidBase(base) && SkipSpace(s, 0) == |s|
    ensures SignedNumeral(s, base) == Parsed(0, 0, false) && UnsignedNumeral(s, base) == Parsed(0, 0, false)
  {
  }

  /** myatoq */
  method MyAtoQ(nptr: string, base: nat) returns (r: Parsed)
    requires nptr != "" && ValidBase(base)
    ensures r == UnsignedNumeral(nptr, base)
  {
    hide SkipSpace, NumeralValue, DigitsEnd;
    var s := SkipWhite(nptr);
    if s == |nptr| {
      NothingSigned(nptr, base);
      return Parsed(0, 0, false);
    }
    var b := base;
    if base == 0 {
      b := if HexPrefix(nptr, s) then 16 else 10;
    }
    if b == 16 && HexPrefix(nptr, s) {
      s := s + 2;
    }
    var i, end, overflow := ScanDigits(nptr, s, b, ULL_MAX);
    if end == s {
      return Parsed(0, 0, false);
    }
    r := if overflow then Parsed(ULL_MAX, end, true) else Parsed(i, end, false);
  }

  // ---------------------------------------------------------------- the round trip

  lemma {:induction false} ValueOfDecimal(n: nat)
    ensures NumeralValue(Decimal(n), 10) == n
  {
    var s := Decimal(n);
    assert DigitValue(Digit(n % 10)) == n % 10;
    assert s[|s| - 1] == Digit(n % 10);
    if n >= 10 {
      ValueOfDecimal(n / 10);
      assert s[..|s| - 1] == Decimal(n / 10);
    } else {
      assert s[..|s| - 1] == "";
    }
  }

  /** Digits followed by something that is no digit. */
  lemma {:induction false} DecimalEnds(head: string, n: nat, tail: string, k: nat)
    requires |head| <= k <= |head| + |Decimal(n)| && (tail != "" ==> DigitValue(tail[0]) >= 10)
    ensures DigitsEnd(head + Decimal(n) + tail, k, 10) == |head| + |Decimal(n)|
    decreases |head| + |Decimal(n)| - k
  {
    var s, e := head + Decimal(n) + tail, |head| + |Decimal(n)|;
    if k < e {
      assert s[k] == Decimal(n)[k - |head|];
      DecimalEnds(head, n, tail, k + 1);
    } else if tail != "" {
      assert s[e] == tail[0];
    }
  }

  lemma {:induction false} FromDecimal(head: string, n: nat, tail: string, negative: bool)
    requires tail != "" ==> DigitValue(tail[0]) >= 10
    ensures var s, e, v := head + Decimal(n) + tail, |head| + |Decimal(n)|, (if negative then 0 - n else n);
      && (n <= LL_MAX ==> SignedFrom(s, |head|, 10, negative) == Parsed(v, e, false))
      && (n > LL_MAX ==> SignedFrom(s, |head|, 10, negative)
                         == Parsed(if negative then -LL_MAX - 1 else LL_MAX, e, true))
      && (n <= ULL_MAX ==> UnsignedFrom(s, |head|, 10) == Parsed(n, e, false))
  {
    hide NumeralValue, Decimal, DigitsEnd;
    DecimalEnds(head, n, tail, |head|);
    ValueOfDecimal(n);
    assert (head + Decimal(n) + tail)[|head|..|head| + |Decimal(n)|] == Decimal(n);
  }

  lemma {:induction false} NoSpace(s: string)
    requires s != "" && !IsSpace(s[0])
    ensures SkipSpace(s, 0) == 0
  {
  }

  /** Printing a signed value and parsing it, with anything after it that is no digit, gives the value and
      stops at its end; the range is reported as exceeded for the smallest value alone. */
  lemma {:induction false} SignedRoundTrip(v: int, tail: string)
    requires IsSigned(v) && (tail != "" ==> DigitValue(tail[0]) >= 10)
    ensures SignedNumeral(PrintSigned(v) + tail, 10) == Parsed(v, |PrintSigned(v)|, v == -HIBIT)
  {
    hide SkipSpace, Decimal, SignedFrom;
    var n, head := if v < 0 then -v else v, if v < 0 then "-" else "";
    var s := PrintSigned(v) + tail;
    assert s == head + Decimal(n) + tail;
    assert s[|head|] == Decimal(n)[0];
    NoSpace(s);
    FromDecimal(head, n, tail, v < 0);
  }

  lemma {:induction false} UnsignedRoundTrip(v: nat, tail: string)
    requires IsUnsigned(v) && (tail != "" ==> DigitValue(tail[0]) >= 10)
    ensures UnsignedNumeral(Decimal(v) + tail, 10) == Parsed(v, |Decimal(v)|, false)
  {
    hide SkipSpace, Decimal, UnsignedFrom;
    var s := Decimal(v) + tail;
    assert s == "" + Decimal(v) + tail;
    assert s[0] == Decimal(v)[0];
    NoSpace(s);
    FromDecimal("", v, tail, false);
  }

  /** The two methods of each kind, one after the other. */
  method PrintAndParse(v: int) returns (r: Parsed)
    requires IsSigned(v)
    ensures r.value == v && (r.range <==> v == -HIBIT)
  {
    var s := FormatSigned(v);
    SignedRoundTrip(v, "");
    assert s + "" == s;
    r := MyAtoSq(s, 10);
  }

  // ---------------------------------------------------------------- any numeral that can be written

  function Letter(d: nat, upper: bool): char
    requires d < 36
  {
    if d < 10 then Digit(d) else (if upper then 'A' else 'a') + (d - 10) as char
  }

  lemma {:induction false} LetterValue(d: nat, upper: bool)
    requires d < 36
    ensures var c := Letter(d, upper);
      && DigitValue(c) == d && !IsSpace(c) && c != '-' && c != '+' && (c == '0' ==> d == 0)
      && (c == 'x' || c == 'X' ==> d == 33)
  {
  }

  ghost predicate DigitsOf(ds: seq<nat>, base: nat) { forall i {:trigger ds[i]} | 0 <= i < |ds| :: ds[i] < base }

  /** Digits, each in one case or the other. */
  function Letters(ds: seq<nat>, upper: seq<bool>): (s: string)
    requires |ds| == |upper| && forall i {:trigger ds[i]} | 0 <= i < |ds| :: ds[i] < 36
    ensures |s| == |ds|
    ensures forall i {:trigger s[i]} | 0 <= i < |ds| :: s[i] == Letter(ds[i], upper[i])
  {
    seq(|ds|, i requires 0 <= i < |ds| => Letter(ds[i], upper[i]))
  }

  function Number(ds: seq<nat>, base: nat): nat {
    if ds == [] then 0 else Number(ds[..|ds| - 1], base) * base + ds[|ds| - 1]
  }

  lemma {:induction false} ValueOfLetters(ds: seq<nat>, upper: seq<bool>, base: nat)
    requires |ds| == |upper| && base <= 36 && DigitsOf(ds, base)
    ensures NumeralValue(Letters(ds, upper), base) == Number(ds, base)
  {
    if ds != [] {
      var n := |ds| - 1;
      LetterValue(ds[n], upper[n]);
      assert Letters(ds, upper)[..n] == Letters(ds[..n], upper[..n]);
      ValueOfLetters(ds[..n], upper[..n], base);
    }
  }

  /** Digits in a text from `k` to `e`, and none at `e`. */
  lemma {:induction false} EndAt(s: string, k: nat, e: nat, base: nat)
    requires k <= e <= |s| && (forall i {:trigger s[i]} | k <= i < e :: DigitValue(s[i]) < base)
    requires e < |s| ==> DigitValue(s[e]) >= base
    ensures DigitsEnd(s, k, base) == e
    decreases e - k
  {
    hide DigitValue;
    if k < e {
      EndAt(s, k + 1, e, base);
    }
  }

  lemma {:induction false} LettersEnd(head: string, ds: seq<nat>, upper: seq<bool>, tail: string, base: nat)
    requires |ds| == |upper| && base <= 36 && DigitsOf(ds, base)
    requires tail != "" ==> DigitValue(tail[0]) >= base
    ensures var s, e := head + Letters(ds, upper) + tail, |head| + |ds|;
      DigitsEnd(s, |head|, base) == e && s[|head|..e] == Letters(ds, upper)
  {
    hide DigitValue, Letter;
    var l := Letters(ds, upper);
    var s, e := head + l + tail, |head| + |ds|;
    forall i {:trigger s[i]} | |head| <= i < e ensures DigitValue(s[i]) < base {
      assert s[i] == l[i - |head|];
      LetterValue(ds[i - |head|], upper[i - |head|]);
    }
    EndAt(s, |head|, e, base);
  }

  ghost predicate Spaces(s: string) {
    forall i {:trigger s[i]} | 0 <= i < |s| :: s[i] in {' ', '\t', '\n', 11 as char, 12 as char, '\r'}
  }

  lemma {:induction false} SpacesSkipped(sp: string, rest: string, k: nat)
    requires Spaces(sp) && k <= |sp| && (rest != "" ==> !IsSpace(rest[0]))
    ensures SkipSpace(sp + rest, k) == |sp|
    decreases |sp| - k
  {
    if k < |sp| {
      assert (sp + rest)[k] == sp[k];
      SpacesSkipped(sp, rest, k + 1);
    }
  }

  /** A numeral with white space before it, a sign, a prefix of base 16, digits in either case, and what follows. */
  datatype Written = Written(spaces: string, sign: string, prefix: string, ds: seq<nat>, upper: seq<bool>, tail: string)

  /** It is written as one in base `b` and read with `base`: the same, or 0 for base 10, and for base 16 if the
      prefix comes without a sign. */
  ghost predicate WellWritten(w: Written, b: nat, base: nat) {
    && Spaces(w.spaces) && w.sign in {"", "-", "+"} && w.prefix in {"", "0x", "0X"}
    && 2 <= b <= 36 && w.ds != [] && |w.ds| == |w.upper| && DigitsOf(w.ds, b)
    && (w.tail != "" ==> DigitValue(w.tail[0]) >= b)
    && (w.prefix != "" ==> b == 16)
    && (w.prefix == "" && w.ds == [0] && w.tail != "" ==> w.tail[0] !in {'x', 'X'})
    && (base == b || (base == 0 && b == if w.prefix != "" && w.sign == "" then 16 else 10))
  }

  function TextOf(w: Written): string
    requires |w.ds| == |w.upper| && forall i {:trigger w.ds[i]} | 0 <= i < |w.ds| :: w.ds[i] < 36
  {
    w.spaces + w.sign + w.prefix + Letters(w.ds, w.upper) + w.tail
  }

  /** The characters of the text that the parsers look at. */
  lemma {:induction false} Pieces(w: Written)
    requires |w.ds| == |w.upper| && (forall i {:trigger w.ds[i]} | 0 <= i < |w.ds| :: w.ds[i] < 36) && w.ds != []
    ensures var s, k := TextOf(w), |w.spaces|;
      var j := k + |w.sign| + |w.prefix|;
      && j < |s| == j + |w.ds| + |w.tail| && s[j] == Letter(w.ds[0], w.upper[0])
      && (|w.ds| > 1 ==> s[j + 1] == Letter(w.ds[1], w.upper[1]))
      && (|w.ds| == 1 && w.tail != "" ==> s[j + 1] == w.tail[0])
      && (|w.sign| == 1 ==> s[k] == w.sign[0])
      && (|w.prefix| == 2 ==> s[j - 2] == w.prefix[0] && s[j - 1] == w.prefix[1])
  {
    hide Letter, Letters;
    var l := Letters(w.ds, w.upper);
    var s, j := TextOf(w), |w.spaces| + |w.sign| + |w.prefix|;
    assert s[j] == l[0];
    assert |w.ds| > 1 ==> s[j + 1] == l[1];
  }

  lemma {:induction false} TextSkips(w: Written, b: nat, base: nat)
    requires WellWritten(w, b, base) && forall i {:trigger w.ds[i]} | 0 <= i < |w.ds| :: w.ds[i] < 36
    ensures SkipSpace(TextOf(w), 0) == |w.spaces|
  {
    hide SkipSpace, DigitValue, Letter, Letters, Spaces;
    var l := Letters(w.ds, w.upper);
    var rest := w.sign + w.prefix + l + w.tail;
    assert TextOf(w) == w.spaces + rest;
    LetterValue(w.ds[0], w.upper[0]);
    assert l[0] == Letter(w.ds[0], w.upper[0]);
    assert rest[0] == if w.sign != "" then w.sign[0] else if w.prefix != "" then w.prefix[0] else l[0];
    SpacesSkipped(w.spaces, rest, 0);
  }

  /** Where the parts of the text are found. */
  lemma {:induction false} PartsFound(w: Written, b: nat, base: nat)
    requires WellWritten(w, b, base)
    ensures forall i {:trigger w.ds[i]} | 0 <= i < |w.ds| :: w.ds[i] < 36
    ensures var s, k := TextOf(w), |w.spaces|;
      && SkipSpace(s, 0) == k && k < |s| && BaseOf(s, k, base) == b
      && (s[k] == '-' <==> w.sign == "-")
      && AfterSign(s, k) == k + |w.sign| && AfterPrefix(s, k + |w.sign|, b) == k + |w.sign| + |w.prefix|
  {
    hide SkipSpace, DigitValue, Letter, Letters, Spaces, TextOf;
    assert forall i {:trigger w.ds[i]} | 0 <= i < |w.ds| :: w.ds[i] < 36;
    var s := TextOf(w);
    Pieces(w);
    TextSkips(w, b, base);
    LetterValue(w.ds[0], w.upper[0]);
    if b <= 16 {
      NoPrefix(w, b, base, s, |w.spaces| + |w.sign| + |w.prefix|);
    }
  }

  /** Digits that do not look like a prefix. */
  lemma {:induction false} NoPrefix(w: Written, b: nat, base: nat, s: string, j: nat)
    requires WellWritten(w, b, base) && b <= 16 && j < |s| && s[j] == Letter(w.ds[0], w.upper[0])
    requires |w.ds| > 1 ==> j + 1 < |s| && s[j + 1] == Letter(w.ds[1], w.upper[1])
    requires |w.ds| == 1 ==> |s| == j + 1 + |w.tail| && (w.tail != "" ==> s[j + 1] == w.tail[0])
    ensures w.prefix == "" ==> !HexPrefix(s, j)
  {
    hide Letter, DigitValue;
    LetterValue(w.ds[0], w.upper[0]);
    if |w.ds| > 1 {
      LetterValue(w.ds[1], w.upper[1]);
    } else {
      assert w.ds == [w.ds[0]];
    }
  }

  /** Every numeral so written is read: its value, or the nearest one in range, its end, and whether it was out of
      range. */
  lemma {:induction false} ReadsSigned(w: Written, b: nat, base: nat)
    requires WellWritten(w, b, base)
    ensures forall i {:trigger w.ds[i]} | 0 <= i < |w.ds| :: w.ds[i] < 36
    ensures var n: int := Number(w.ds, b);
      var over, e := n > LL_MAX, |TextOf(w)| - |w.tail|;
      SignedNumeral(TextOf(w), base)
      == if w.sign == "-" then Parsed(if over then -LL_MAX - 1 else -n, e, over)
         else Parsed(if over then LL_MAX else n, e, over)
  {
    hide SkipSpace, DigitValue, DigitsEnd, NumeralValue, Number, Letters, WellWritten, BaseOf, AfterSign, AfterPrefix;
    PartsFound(w, b, base);
    Digital(w, b, base);
    LettersEnd(w.spaces + w.sign + w.prefix, w.ds, w.upper, w.tail, b);
    ValueOfLetters(w.ds, w.upper, b);
  }

  lemma {:induction false} Digital(w: Written, b: nat, base: nat)
    requires WellWritten(w, b, base)
    ensures |w.ds| == |w.upper| && 2 <= b <= 36 && ValidBase(base) && DigitsOf(w.ds, b) && w.ds != []
    ensures w.tail != "" ==> DigitValue(w.tail[0]) >= b
  {
  }

  /** The same without a sign, which is not accepted, up to the largest unsigned value. */
  lemma {:induction false} ReadsUnsigned(w: Written, b: nat, base: nat)
    requires WellWritten(w, b, base) && w.sign == ""
    ensures forall i {:trigger w.ds[i]} | 0 <= i < |w.ds| :: w.ds[i] < 36
    ensures var n, e := Number(w.ds, b), |TextOf(w)| - |w.tail|;
      UnsignedNumeral(TextOf(w), base) == Parsed(if n > ULL_MAX then ULL_MAX else n, e, n > ULL_MAX)
  {
    hide SkipSpace, DigitValue, DigitsEnd, NumeralValue, Number, Letters, WellWritten, BaseOf, AfterSign, AfterPrefix;
    PartsFound(w, b, base);
    Digital(w, b, base);
    LettersEnd(w.spaces + w.sign + w.prefix, w.ds, w.upper, w.tail, b);
    ValueOfLetters(w.ds, w.upper, b);
  }
}
