/** printnum (TP2-sched/lib/printfmt.c) and strtol (TP2-sched/lib/string.c): what one prints
    the other reads back. */
module PrintParse {
  import opened Common

  const DIGITS: string := "0123456789abcdef"

  // ----- printing -----

  function Repeat(c: char, n: int): (s: string)
    ensures |s| == if n > 0 then n else 0
    ensures forall i :: 0 <= i < |s| ==> s[i] == c
  {
    if n <= 0 then "" else seq(n, i => c)
  }

  /** The numeral of `num` without padding. */
  function Numeral(num: nat, base: nat): (s: string)
    requires 2 <= base <= 16
    ensures s != ""
  {
    (if num >= base then Numeral(num / base, base) else "") + [DIGITS[num % base]]
  }

  class Console {
    var out: string

    constructor ()
      ensures out == ""
    {
      out := "";
    }

    method Putch(c: char)
      modifies this
      ensures out == old(out) + [c]
    {
      out := out + [c];
    }

    /** The padding loop of printnum, with its `--width` done. */
    method Pad(padc: char, w: int)
      modifies this
      ensures out == old(out) + Repeat(padc, w)
    {
      var n := w;
      while n > 0
        invariant out == old(out) + Repeat(padc, w - if n > 0 then n else 0)
        invariant n <= w
      {
        Putch(padc);
        n := n - 1;
      }
    }

    /** printnum: the numeral, after as many pad characters as bring it to the width. */
    method PrintNum(num: nat, base: nat, width: int, padc: char)
      requires 2 <= base <= 16
      modifies this
      ensures out == old(out) + Repeat(padc, width - |Numeral(num, base)|) + Numeral(num, base)
      decreases num
    {
      hide Repeat, Numeral;
      NumeralUnfold(num, base);
      ghost var was, pads := out, Repeat(padc, width - |Numeral(num, base)|);
      if num >= base {
        PrintNum(num / base, base, width - 1, padc);
        assert out == was + pads + Numeral(num / base, base);
      } else {
        Pad(padc, width - 1);
        assert out == was + pads + "";
      }
      Putch(DIGITS[num % base]);
    }
  }

  lemma NumeralUnfold(num: nat, base: nat)
    requires 2 <= base <= 16
    ensures num >= base ==> num / base < num && Numeral(num, base) == Numeral(num / base, base) + [DIGITS[num % base]]
    ensures num < base ==> Numeral(num, base) == [DIGITS[num % base]]
  {
  }

  // ----- parsing -----

  /** The string with the NUL that ends it. */
  function At(s: string, i: nat): char
  {
    if i < |s| then s[i] else '\0'
  }

  function SkipBlanks(s: string, i: nat): (j: nat)
    requires i <= |s|
    ensures i <= j <= |s| && At(s, j) != ' ' && At(s, j) != '\t'
    ensures forall k :: i <= k < j ==> s[k] == ' ' || s[k] == '\t'
    decreases |s| - i
  {
    if At(s, i) == ' ' || At(s, i) == '\t' then SkipBlanks(s, i + 1) else i
  }

  function DigitOf(c: char): (d: int)
    ensures -1 <= d < 36
  {
    if '0' <= c <= '9' then c as int - '0' as int
    else if 'a' <= c <= 'z' then c as int - 'a' as int + 10
    else if 'A' <= c <= 'Z' then c as int - 'A' as int + 10
    else -1
  }

  predicate IsDigit(c: char, base: int)
  {
    0 <= DigitOf(c) < base
  }

  function DigitsEnd(s: string, i: nat, base: int): (j: nat)
    requires i <= |s|
    ensures i <= j <= |s| && !IsDigit(At(s, j), base)
    ensures forall k :: i <= k < j ==> IsDigit(s[k], base)
    decreases |s| - i
  {
    if IsDigit(At(s, i), base) then DigitsEnd(s, i + 1, base) else i
  }

  /** The number a string of digits stands for. */
  function Val(t: string, base: int): int
  {
    if t == "" then 0 else Val(t[..|t| - 1], base) * base + DigitOf(t[|t| - 1])
  }

  /** Where the digits start and in which base they are. */
  function Prefix(s: string, i: nat, base: int): (r: (nat, int))
    requires i <= |s|
    ensures i <= r.0 <= |s|
  {
    if (base == 0 || base == 16) && At(s, i) == '0' && At(s, i + 1) == 'x' then (i + 2, 16)
    else if base == 0 && At(s, i) == '0' then (i + 1, 8)
    else if base == 0 then (i, 10)
    else (i, base)
  }

  /** Value and end pointer: the longest string of digits after blanks, a sign and a prefix,
      its value wrapped to 32 bits. */
  function Parsed(s: string, base: int): (int, nat)
  {
    var i := SkipBlanks(s, 0);
    var j := if At(s, i) == '+' || At(s, i) == '-' then i + 1 else i;
    var (k, b) := Prefix(s, j, base);
    var e := DigitsEnd(s, k, b);
    (ToInt32(if At(s, i) == '-' then -Val(s[k..e], b) else Val(s[k..e], b)), e)
  }

  lemma WrapStep(x: int, y: int, base: int, dig: int)
    requires (y - x) % 0x1_0000_0000 == 0
    ensures ToInt32(y * base + dig) == ToInt32(x * base + dig)
  {
    var q := (y - x) / 0x1_0000_0000;
    assert y == x + q * 0x1_0000_0000;
    assert y * base + dig == x * base + dig + (q * base) * 0x1_0000_0000;
    Rewrap(x * base + dig, q * base);
  }

  lemma Rewrap(x: int, q: int)
    ensures ToInt32(x + q * 0x1_0000_0000) == ToInt32(x)
  {
  }

  lemma ValSnoc(s: string, k: nat, e: nat, base: int)
    requires k <= e < |s|
    ensures Val(s[k..e + 1], base) == Val(s[k..e], base) * base + DigitOf(s[e])
  {
    assert s[k..e + 1][..e - k] == s[k..e];
  }

  lemma EmptyVal(base: int)
    ensures Val("", base) == 0 && ToInt32(0) == 0
  {
  }

  lemma Negated(x: int)
    ensures ToInt32(-ToInt32(x)) == ToInt32(-x)
  {
    WrapStep(x, ToInt32(x), -1, 0);
  }

  /** The loop of strtol over initial whitespace. */
  method GobbleBlanks(s: string) returns (i: nat)
    ensures i == SkipBlanks(s, 0)
  {
    i := 0;
    while At(s, i) == ' ' || At(s, i) == '\t'
      invariant i <= |s| && SkipBlanks(s, i) == SkipBlanks(s, 0)
      decreases |s| - i
    {
      i := i + 1;
    }
  }

  /** The base prefix of strtol. */
  method SkipPrefix(s: string, start: nat, base: int) returns (i: nat, b: int)
    requires start <= |s|
    ensures (i, b) == Prefix(s, start, base)
  {
    i, b := start, base;
    if (b == 0 || b == 16) && At(s, i) == '0' && At(s, i + 1) == 'x' {
      i, b := i + 2, 16;
    } else if b == 0 && At(s, i) == '0' {
      i, b := i + 1, 8;
    } else if b == 0 {
      b := 10;
    }
  }

  /** The digit loop of strtol. */
  method ReadDigits(s: string, k: nat, base: int) returns (val: int, i: nat)
    requires k <= |s|
    ensures i == DigitsEnd(s, k, base) && val == ToInt32(Val(s[k..i], base))
  {
    hide ToInt32, Val, DigitOf;
    i, val := k, 0;
    EmptyVal(base);
    assert s[k..i] == "";
    while true
      invariant k <= i <= |s| && DigitsEnd(s, i, base) == DigitsEnd(s, k, base)
      invariant val == ToInt32(Val(s[k..i], base))
      decreases |s| - i
    {
      var dig := DigitOf(At(s, i));
      if dig < 0 || dig >= base {
        break;
      }
      ValSnoc(s, k, i, base);
      WrapStep(Val(s[k..i], base), val, base, dig);
      i, val := i + 1, ToInt32(val * base + dig);
    }
  }

  method Strtol(s: string, base: int) returns (r: int, end: nat)
    ensures (r, end) == Parsed(s, base)
  {
    hide ToInt32, Val, DigitsEnd, SkipBlanks, Prefix;
    var neg := false;
    var i := GobbleBlanks(s);
    if At(s, i) == '+' {
      i := i + 1;
    } else if At(s, i) == '-' {
      i, neg := i + 1, true;
    }
    var k, b := SkipPrefix(s, i, base);
    var val, e := ReadDigits(s, k, b);
    Negated(Val(s[k..e], b));
    return if neg then ToInt32(-val) else val, e;
  }

  // ----- the round trip -----

  lemma DigitRoundTrip(d: nat)
    requires d < 16
    ensures DigitOf(DIGITS[d]) == d && DIGITS[d] != 'x'
  {
  }

  lemma DivMod(num: nat, base: nat)
    requires base > 0
    ensures (num / base) * base + num % base == num
  {
  }

  function Pow(base: nat, n: nat): nat
  {
    if n == 0 then 1 else Pow(base, n - 1) * base
  }

  lemma NumeralStep(num: nat, base: nat)
    requires 2 <= base <= 16 && num >= base
    ensures 0 < num / base < num
    ensures |Numeral(num, base)| == |Numeral(num / base, base)| + 1
  {
  }

  /** The numeral has n digits exactly when the number lies between base^(n-1) and base^n. */
  lemma {:induction false} DigitCount(num: nat, base: nat)
    requires 2 <= base <= 16 && num > 0
    ensures var n := |Numeral(num, base)|; Pow(base, n - 1) <= num < Pow(base, n)
    decreases num
  {
    if num >= base {
      var q := num / base;
      NumeralStep(num, base);
      var n := |Numeral(q, base)|;
      DigitCount(q, base);
      Scaled(Pow(base, n - 1), q, Pow(base, n), num, base);
    } else {
      assert Pow(base, 0) == 1 && Pow(base, 1) == base;
    }
  }

  lemma Scaled(a: nat, q: nat, b: nat, num: nat, base: nat)
    requires base > 0 && a <= q < b && q == num / base
    ensures a * base <= num < b * base
  {
    DivMod(num, base);
    MulMono(a, q, base);
    MulMono(q + 1, b, base);
  }

  lemma {:induction false} MulMono(a: nat, b: nat, c: nat)
    requires a <= b
    ensures a * c <= b * c
  {
    if a < b {
      MulMono(a, b - 1, c);
    }
  }

  lemma ValSnocOf(t: string, c: char, base: int)
    ensures Val(t + [c], base) == Val(t, base) * base + DigitOf(c)
  {
    assert (t + [c])[..|t|] == t;
  }

  lemma {:induction false} NumeralDigits(num: nat, base: nat)
    requires 2 <= base <= 16
    ensures forall k :: 0 <= k < |Numeral(num, base)| ==> IsDigit(Numeral(num, base)[k], base)
    decreases num
  {
    hide DigitOf, Numeral;
    NumeralUnfold(num, base);
    DigitRoundTrip(num % base);
    if num >= base {
      NumeralDigits(num / base, base);
    }
  }

  /** A numeral is made of digits of its base and stands for its number. */
  lemma {:induction false} NumeralVal(num: nat, base: nat)
    requires 2 <= base <= 16
    ensures Val(Numeral(num, base), base) == num
    ensures forall k :: 0 <= k < |Numeral(num, base)| ==> IsDigit(Numeral(num, base)[k], base)
    decreases num
  {
    hide DigitOf, Numeral, Val, IsDigit;
    NumeralDigits(num, base);
    NumeralUnfold(num, base);
    var c := DIGITS[num % base];
    DigitRoundTrip(num % base);
    DivMod(num, base);
    if num >= base {
      NumeralVal(num / base, base);
      ValSnocOf(Numeral(num / base, base), c, base);
    } else {
      assert num % base == num && "" + [c] == [c];
      ValSnocOf("", c, base);
      EmptyVal(base);
    }
  }

  lemma {:induction false} LeadingZeros(n: int, t: string, base: int)
    ensures Val(Repeat('0', n) + t, base) == Val(t, base)
    decreases |t|, n
  {
    var s := Repeat('0', n) + t;
    if t != "" {
      assert s[..|s| - 1] == Repeat('0', n) + t[..|t| - 1];
      LeadingZeros(n, t[..|t| - 1], base);
    } else if n > 0 {
      assert s[..|s| - 1] == Repeat('0', n - 1) + t;
      LeadingZeros(n - 1, t, base);
    }
  }

  function Printed(num: nat, base: nat, width: int, padc: char): string
    requires 2 <= base <= 16
  {
    Repeat(padc, width - |Numeral(num, base)|) + Numeral(num, base)
  }

  /** The length is the larger of the width and the number of digits, and the numeral of a
      number below base^n has at most n of them. */
  lemma PrintedLength(num: nat, base: nat, width: int, padc: char)
    requires 2 <= base <= 16
    ensures |Printed(num, base, width, padc)| == if width > |Numeral(num, base)| then width else |Numeral(num, base)|
  {
  }

  /** Some blanks, maybe a sign, and then only digits. */
  lemma ReadsBack(s: string, i: nat, base: nat)
    requires 2 <= base <= 16 && i < |s|
    requires forall k :: 0 <= k < i ==> s[k] == ' '
    requires s[i] == '-' || IsDigit(s[i], base)
    requires forall k :: i < k < |s| ==> IsDigit(s[k], base)
    ensures Parsed(s, base) ==
      (ToInt32(if s[i] == '-' then -Val(s[i + 1..], base) else Val(s[i..], base)), |s|)
  {
    hide ToInt32, Val;
    var m := SkipBlanks(s, 0);
    assert m == i by {
      NotBlank(s[i], base);
    }
    var j := if s[i] == '-' then i + 1 else i;
    assert At(s, i) != '+';
    NotPrefix(s, j, base);
    assert DigitsEnd(s, j, base) == |s|;
    assert s[j..|s|] == s[j..];
  }

  lemma NotBlank(c: char, base: nat)
    requires c == '-' || IsDigit(c, base)
    ensures c != ' ' && c != '\t' && c != '+'
  {
  }

  lemma NotPrefix(s: string, j: nat, base: nat)
    requires 2 <= base <= 16 && j <= |s| && forall k :: j <= k < |s| ==> IsDigit(s[k], base)
    ensures Prefix(s, j, base) == (j, base)
  {
    assert j + 1 < |s| ==> IsDigit(s[j + 1], base);
  }

  lemma Fits(num: int)
    requires 0 <= num
    ensures ToInt32(num) == num <==> num < 0x8000_0000
    ensures num < 0x8000_0000 ==> ToInt32(-num) == -num
  {
  }

  lemma PrintedDigits(num: nat, base: nat, width: int, i: nat)
    requires 2 <= base <= 16
    requires var s := Printed(num, base, width, '0'); i < |s|
    ensures IsDigit(Printed(num, base, width, '0')[i], base)
  {
    hide Val, Numeral;
    var t := Numeral(num, base);
    var s := Printed(num, base, width, '0');
    NumeralVal(num, base);
    if i >= |s| - |t| {
      assert s[i] == t[i - (|s| - |t|)];
    }
  }

  lemma ReadsZeroPadded(num: nat, base: nat, width: int)
    requires 2 <= base <= 16
    ensures var s := Printed(num, base, width, '0'); Parsed(s, base) == (ToInt32(num), |s|)
  {
    var t := Numeral(num, base);
    var s := Printed(num, base, width, '0');
    NumeralVal(num, base);
    hide ToInt32, Val, Numeral, Parsed, IsDigit;
    forall k | 0 <= k < |s| ensures IsDigit(s[k], base) {
      PrintedDigits(num, base, width, k);
    }
    ReadsBack(s, 0, base);
    NotBlank(s[0], base);
    NotMinus(s[0], base);
    LeadingZeros(width - |t|, t, base);
    assert s[0..] == s;
  }

  lemma NotMinus(c: char, base: nat)
    requires IsDigit(c, base)
    ensures c != '-'
  {
  }

  lemma ReadsBlankPadded(num: nat, base: nat, width: int)
    requires 2 <= base <= 16
    ensures var s := Printed(num, base, width, ' '); Parsed(s, base) == (ToInt32(num), |s|)
  {
    var t := Numeral(num, base);
    var s := Printed(num, base, width, ' ');
    var i := if width > |t| then width - |t| else 0;
    NumeralVal(num, base);
    hide ToInt32, Val, Numeral, Parsed, IsDigit;
    assert s[i..] == t && |s| == i + |t|;
    forall k | i <= k < |s| ensures IsDigit(s[k], base) {
      assert s[k] == t[k - i];
    }
    ReadsBack(s, i, base);
    NotMinus(s[i], base);
  }

  /** Reading what was printed in the same base ends at the end and gives the number wrapped to a
      32-bit long, so the number itself exactly when it is below 2^31; for any width, and padding
      with blanks or zeros. */
  lemma RoundTrip(num: nat, base: nat, width: int, padc: char)
    requires 2 <= base <= 16
    requires padc == ' ' || padc == '0'
    ensures var s := Printed(num, base, width, padc);
      && Parsed(s, base) == (ToInt32(num), |s|)
      && (Parsed(s, base) == (num, |s|) <==> num < 0x8000_0000)
  {
    hide Parsed, Printed;
    Fits(num);
    if padc == '0' {
      ReadsZeroPadded(num, base, width);
    } else {
      ReadsBlankPadded(num, base, width);
    }
  }

  /** Padding with '-', which a minus flag in a format asks for: the number comes back only if
      there is no padding, or if it is a lone '-' before zero. */
  lemma MinusPadIff(num: nat, base: nat, width: int)
    requires 2 <= base <= 16 && num < 0x8000_0000
    ensures Parsed(Printed(num, base, width, '-'), base) == (num, |Printed(num, base, width, '-')|)
      <==> width <= |Numeral(num, base)| || (num == 0 && width == |Numeral(num, base)| + 1)
  {
    hide ToInt32, Val, Numeral;
    var t := Numeral(num, base);
    var pads := width - |t|;
    var s := Printed(num, base, width, '-');
    NumeralVal(num, base);
    Fits(num);
    if pads >= 2 {
      StopsAtSecondMinus(s, base);
    } else {
      hide Parsed;
      assert IsDigit(t[0], base) && !IsDigit('-', base);
      if pads == 1 {
        assert s == "-" + t && s[1..] == t;
      } else {
        assert s == t && s[0..] == t;
      }
      ReadsBack(s, 0, base);
    }
  }

  lemma StopsAtSecondMinus(s: string, base: nat)
    requires |s| > 2 && s[0] == '-' && s[1] == '-' && 2 <= base <= 16
    ensures Parsed(s, base).1 == 1
  {
    hide ToInt32, Val;
    assert SkipBlanks(s, 0) == 0;
    assert DigitsEnd(s, 1, base) == 1;
  }

  // ----- everything strtol reads -----

  lemma BlanksEnd(s: string, n: nat)
    requires n <= |s| && At(s, n) != ' ' && At(s, n) != '\t'
    requires forall k :: 0 <= k < n ==> s[k] == ' ' || s[k] == '\t'
    ensures SkipBlanks(s, 0) == n
  {
  }

  lemma DigitsStop(s: string, i: nat, n: nat, base: int)
    requires i <= n <= |s| && !IsDigit(At(s, n), base)
    requires forall k :: i <= k < n ==> IsDigit(s[k], base)
    ensures DigitsEnd(s, i, base) == n
  {
    hide IsDigit;
  }

  /** Which base follows from the base asked for and the characters after the sign: "0x" is hexadecimal
      if the base may be 16, and for base 0 a zero is octal and anything else decimal. */
  ghost predicate Announces(prefix: string, tail: string, base: int, b: int)
  {
    if (base == 0 || base == 16) && "0x" <= prefix + tail then prefix == "0x" && b == 16
    else if base != 0 then prefix == "" && b == base
    else if "0" <= prefix + tail then prefix == "0" && b == 8
    else prefix == "" && b == 10
  }

  lemma PrefixOf(s: string, i: nat, prefix: string, tail: string, base: int, b: int)
    requires i <= |s| && s[i..] == prefix + tail && Announces(prefix, tail, base, b)
    ensures Prefix(s, i, base) == (i + |prefix|, b)
  {
    var t := prefix + tail;
    assert forall k: nat :: i + k < |s| ==> s[i + k] == t[k];
    assert "0x" <= t <==> At(s, i) == '0' && At(s, i + 1) == 'x';
    assert "0" <= t <==> At(s, i) == '0';
  }

  /** What strtol makes of any string `s`: `i` blanks, a sign if there is one, the prefix up to `k`, and
      from there to `e` the longest string of digits, whose number it is; without digits, the number
      is 0. It stops at `e`. */
  lemma StrtolReads(s: string, i: nat, k: nat, e: nat, base: int, b: int)
    requires i <= k <= e <= |s|
    requires At(s, i) != ' ' && At(s, i) != '\t' && forall m :: 0 <= m < i ==> s[m] == ' ' || s[m] == '\t'
    requires var j := if At(s, i) == '+' || At(s, i) == '-' then i + 1 else i;
      j <= k && Announces(s[j..k], s[k..], base, b)
    requires !(0 <= DigitOf(At(s, e)) < b) && forall m :: k <= m < e ==> 0 <= DigitOf(s[m]) < b
    ensures Parsed(s, base) == (ToInt32(if At(s, i) == '-' then -Val(s[k..e], b) else Val(s[k..e], b)), e)
  {
    var j := if At(s, i) == '+' || At(s, i) == '-' then i + 1 else i;
    hide ToInt32, Val, DigitOf, Announces, SkipBlanks, DigitsEnd, Prefix, Parsed, At;
    BlanksEnd(s, i);
    assert s[j..] == s[j..k] + s[k..];
    PrefixOf(s, j, s[j..k], s[k..], base, b);
    DigitsStop(s, k, e, b);
    Assembled(s, base, i, j, k, e, b);
  }

  /** The pieces of the result. */
  lemma Assembled(s: string, base: int, i: nat, j: nat, k: nat, e: nat, b: int)
    requires SkipBlanks(s, 0) == i && j == (if At(s, i) == '+' || At(s, i) == '-' then i + 1 else i)
    requires j <= |s| && Prefix(s, j, base) == (k, b) && DigitsEnd(s, k, b) == e
    ensures Parsed(s, base) == (ToInt32(if At(s, i) == '-' then -Val(s[k..e], b) else Val(s[k..e], b)), e)
  {
    hide ToInt32, Val, SkipBlanks, DigitsEnd, Prefix, At;
  }

  const LOWER: string := "0123456789abcdefghijklmnopqrstuvwxyz"
  const UPPER: string := "0123456789ABCDEFGHIJKLMNOPQRSTUVWXYZ"

  lemma Letters(d: nat)
    requires d < 36
    ensures LOWER[d] as int == if d < 10 then '0' as int + d else 'a' as int + d - 10
    ensures UPPER[d] as int == if d < 10 then '0' as int + d else 'A' as int + d - 10
  {
  }

  lemma DigitChars(c: char, d: nat, lower: char, upper: char)
    requires d < 36
    requires lower as int == if d < 10 then '0' as int + d else 'a' as int + d - 10
    requires upper as int == if d < 10 then '0' as int + d else 'A' as int + d - 10
    ensures DigitOf(c) == d <==> c == lower || c == upper
  {
  }

  /** The digits: a decimal digit or a letter, either case. */
  lemma DigitMeans(c: char, d: nat)
    requires d < 36
    ensures DigitOf(c) == d <==> c == LOWER[d] || c == UPPER[d]
  {
    hide DigitOf;
    Letters(d);
    DigitChars(c, d, LOWER[d], UPPER[d]);
  }

  lemma {:induction false} SameValue(t: string, u: string, base: int)
    requires |t| == |u| && forall k :: 0 <= k < |t| ==> DigitOf(t[k]) == DigitOf(u[k])
    ensures Val(t, base) == Val(u, base)
    decreases |t|
  {
    if t != "" {
      SameValue(t[..|t| - 1], u[..|u| - 1], base);
    }
  }

  lemma NoNulDigit(base: int)
    ensures !IsDigit('\0', base) && DigitOf('\0') < 0
  {
  }

  lemma DigitIsPlain(c: char, base: nat)
    requires IsDigit(c, base) && base <= 16
    ensures c != ' ' && c != '\t' && c != '+' && c != '-' && c != 'x'
  {
  }

  lemma NoPrefix(t: string, base: nat)
    requires 2 <= base <= 16 && t != "" && forall k :: 0 <= k < |t| ==> IsDigit(t[k], base)
    ensures Announces("", t, base, base)
    ensures Announces("0x", t, 16, 16) && Announces("0x", t, 0, 16)
    ensures Announces("0", t, 0, 8)
    ensures t[0] != '0' ==> Announces("", t, 0, 10)
  {
    DigitIsPlain(t[0], base);
    if |t| > 1 {
      DigitIsPlain(t[1], base);
    }
    hide IsDigit;
    assert "" + t == t;
    assert ("0" + t)[1] == t[0];
  }

  /** A string of digits, behind the prefix for its base or none: all of it is read. */
  lemma AllDigitsRead(prefix: string, t: string, base: int, b: nat)
    requires 2 <= b <= 16 && t != "" && forall k :: 0 <= k < |t| ==> IsDigit(t[k], b)
    requires prefix == "" || prefix == "0" || prefix == "0x"
    requires Announces(prefix, t, base, b)
    ensures Parsed(prefix + t, base) == (ToInt32(Val(t, b)), |prefix| + |t|)
  {
    hide Parsed, Val, ToInt32, DigitOf, Announces;
    var s := prefix + t;
    DigitIsPlain(t[0], b);
    NoNulDigit(b);
    assert s[0] == if prefix == "" then t[0] else '0';
    assert s[0..|prefix|] == prefix && s[|prefix|..] == t && s[|prefix|..|s|] == t;
    StrtolReads(s, 0, |prefix|, |s|, base, b);
  }

  /** `c` is the digit `n` as printnum prints it, or its upper-case form. */
  ghost predicate SameLetter(n: char, c: char)
  {
    exists d: nat :: d < 16 && n == DIGITS[d] && (c == LOWER[d] || c == UPPER[d])
  }

  lemma SameDigit(n: char, c: char)
    requires SameLetter(n, c)
    ensures DigitOf(c) == DigitOf(n)
  {
    hide DigitOf;
    var d: nat :| d < 16 && n == DIGITS[d] && (c == LOWER[d] || c == UPPER[d]);
    DigitMeans(c, d);
    DigitRoundTrip(d);
  }

  /** `t` is the numeral `n` with any of its letters in upper case. */
  ghost predicate Lettered(n: string, t: string)
  {
    |t| == |n| && forall k :: 0 <= k < |t| ==> SameLetter(n[k], t[k])
  }

  lemma SameIsDigit(n: char, c: char, base: nat)
    requires SameLetter(n, c) && IsDigit(n, base)
    ensures DigitOf(c) == DigitOf(n) && IsDigit(c, base)
  {
    SameDigit(n, c);
  }

  lemma LetteredValue(num: nat, base: nat, t: string)
    requires 2 <= base <= 16 && Lettered(Numeral(num, base), t)
    ensures Val(t, base) == num && forall k :: 0 <= k < |t| ==> IsDigit(t[k], base)
  {
    var n := Numeral(num, base);
    hide DigitOf, Numeral, Val, SameLetter, IsDigit;
    NumeralVal(num, base);
    forall k | 0 <= k < |t| ensures DigitOf(t[k]) == DigitOf(n[k]) && IsDigit(t[k], base) {
      SameIsDigit(n[k], t[k], base);
    }
    SameValue(t, n, base);
  }

  /** A numeral in either case reads as its number in its base and, behind the prefix, in base 0. */
  lemma LetterCase(num: nat, base: nat, t: string)
    requires 2 <= base <= 16 && Lettered(Numeral(num, base), t)
    ensures Parsed(t, base) == (ToInt32(num), |t|)
    ensures base == 16 ==> Parsed("0x" + t, 0) == Parsed("0x" + t, 16) == (ToInt32(num), |t| + 2)
    ensures base == 8 ==> Parsed("0" + t, 0) == (ToInt32(num), |t| + 1)
    ensures base == 10 && num > 0 ==> Parsed(t, 0) == (ToInt32(num), |t|)
  {
    hide DigitOf, Numeral, Val, ToInt32, Parsed, IsDigit, Announces;
    LetteredValue(num, base, t);
    NoPrefix(t, base);
    assert "" + t == t;
    AllDigitsRead("", t, base, base);
    if base == 16 {
      AllDigitsRead("0x", t, 0, 16);
      AllDigitsRead("0x", t, 16, 16);
    } else if base == 8 {
      AllDigitsRead("0", t, 0, 8);
    } else if base == 10 && num > 0 {
      NoLeadingZero(num, base);
      FirstDigit(Numeral(num, base), t);
      AllDigitsRead("", t, 0, 10);
    }
  }

  lemma {:induction false} NoLeadingZero(num: nat, base: nat)
    requires 2 <= base <= 16 && num > 0
    ensures Numeral(num, base)[0] != '0'
    decreases num
  {
    if num >= base {
      NumeralStep(num, base);
      NoLeadingZero(num / base, base);
    } else {
      DigitRoundTrip(num);
      DigitRoundTrip(0);
    }
  }

  lemma FirstDigit(n: string, t: string)
    requires Lettered(n, t) && n != "" && n[0] != '0'
    ensures t[0] != '0'
  {
    SameDigit(n[0], t[0]);
    DigitMeans(n[0], 0);
    DigitMeans('0', 0);
  }
}
