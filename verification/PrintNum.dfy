/** Number formatting: print_num and the integer conversions of vprintfmt (lib/print.c). */
module PrintNum {

  const WORD: nat := 0x1_0000_0000   // unsigned long has 32 bits

  // ------------------------------------------------------------------ numerals

  function Digit(d: nat, upcase: bool): char
    requires d < 16
  {
    if d <= 9 then ('0' as int + d) as char
    else if upcase then ('A' as int + d - 10) as char
    else ('a' as int + d - 10) as char
  }

  // The value of a digit, in either case; 16 for other characters.
  function DigitValue(c: char): (v: nat)
    ensures v <= 16
  {
    if '0' <= c <= '9' then c as int - '0' as int
    else if 'a' <= c <= 'f' then c as int - 'a' as int + 10
    else if 'A' <= c <= 'F' then c as int - 'A' as int + 10
    else 16
  }

  predicate Base(b: nat) { 2 <= b <= 16 }

  // The numeral of u, most significant digit first.
  function Numeral(u: nat, base: nat, upcase: bool): (s: string)
    requires Base(base)
    ensures |s| >= 1
    decreases u
  {
    if u < base then [Digit(u, upcase)]
    else DivSmaller(u, base); Numeral(u / base, base, upcase) + [Digit(u % base, upcase)]
  }

  lemma DivSmaller(u: nat, base: nat)
    requires Base(base) && u > 0
    ensures u / base < u
  {
  }

  function Value(s: string, base: nat): nat {
    if s == "" then 0 else Value(s[..|s| - 1], base) * base + DigitValue(s[|s| - 1])
  }

  ghost predicate IsNumeral(s: string, base: nat) {
    s != "" && forall i :: 0 <= i < |s| ==> DigitValue(s[i]) < base
  }

  lemma ValueSnoc(s: string, c: char, base: nat)
    ensures Value(s + [c], base) == Value(s, base) * base + DigitValue(c)
  {
    assert (s + [c])[..|s|] == s;
  }

  lemma {:induction false} NumeralValue(u: nat, base: nat, upcase: bool)
    requires Base(base)
    ensures Value(Numeral(u, base, upcase), base) == u
    decreases u
  {
    hide Digit, DigitValue, Value;
    var d := Digit(u % base, upcase);
    DivMod(u, base);
    DigitRead(u % base, upcase);
    if u < base {
      ValueOne(Digit(u, upcase), base);
    } else {
      DivSmaller(u, base);
      NumeralValue(u / base, base, upcase);
      ValueSnoc(Numeral(u / base, base, upcase), d, base);
    }
  }

  lemma ValueOne(c: char, base: nat)
    ensures Value([c], base) == DigitValue(c)
  {
    assert [c][..0] == "";
    assert Value("", base) * base == 0;
  }

  lemma {:induction false} NumeralDigits(u: nat, base: nat, upcase: bool)
    requires Base(base)
    ensures IsNumeral(Numeral(u, base, upcase), base)
    decreases u
  {
    hide Digit, DigitValue;
    DivMod(u, base);
    DigitRead(u % base, upcase);
    if u < base {
      DigitRead(u, upcase);
    } else {
      DivSmaller(u, base);
      NumeralDigits(u / base, base, upcase);
    }
  }

  lemma DigitRead(d: nat, upcase: bool)
    requires d < 16
    ensures DigitValue(Digit(d, upcase)) == d
  {
  }

  lemma DivMod(u: nat, base: nat)
    requires Base(base)
    ensures u / base * base + u % base == u && u % base < base
  {
  }

  function Pow2(k: nat): nat { if k == 0 then 1 else 2 * Pow2(k - 1) }

  // A number below 2^k has at most k digits in any base.
  lemma {:induction false} NumeralLength(u: nat, base: nat, upcase: bool, k: nat)
    requires Base(base) && k >= 1 && u < Pow2(k)
    ensures |Numeral(u, base, upcase)| <= k
    decreases k
  {
    if u >= base {
      DivSmaller(u, base);
      HalfPow(u, base, k);
      NumeralLength(u / base, base, upcase, k - 1);
    }
  }

  lemma HalfPow(u: nat, base: nat, k: nat)
    requires Base(base) && k >= 1 && base <= u < Pow2(k)
    ensures k >= 2 && u / base < Pow2(k - 1)
  {
    DivMod(u, base);
    QuotientZero(u, base);
    TwiceAtMost(u / base, base);
  }

  lemma TwiceAtMost(q: nat, base: nat)
    requires Base(base)
    ensures 2 * q <= q * base
  {
    assert q * base == 2 * q + q * (base - 2);
  }

  lemma NumeralFits(u: nat, base: nat, upcase: bool)
    requires Base(base) && u < WORD
    ensures |Numeral(u, base, upcase)| <= 32
  {
    assert Pow2(8) == 256 && Pow2(16) == Pow2(8) * 256 by { PowAdd(8, 8); }
    assert Pow2(32) == WORD by { PowAdd(16, 16); }
    NumeralLength(u, base, upcase, 32);
  }

  lemma {:induction false} PowAdd(a: nat, b: nat)
    ensures Pow2(a + b) == Pow2(a) * Pow2(b)
  {
    if b > 0 {
      PowAdd(a, b - 1);
    }
  }

  // ------------------------------------------------------------------ the format

  function Repeat(c: char, n: nat): (s: string)
    ensures |s| == n && forall i :: 0 <= i < n ==> s[i] == c
  {
    seq(n, i => c)
  }

  function Sign(neg: bool): string { if neg then "-" else "" }

  function Monus(a: nat, b: nat): nat { if a >= b then a - b else 0 }

  datatype Spec = Spec(u: nat, base: nat, neg: bool, width: nat, ladjust: bool, padc: char, upcase: bool)

  function Body(p: Spec): string
    requires Base(p.base)
  {
    Numeral(p.u, p.base, p.upcase)
  }

  // Blanks behind when left adjusted; zeros go between the sign and the digits.
  function Formatted(p: Spec): string
    requires Base(p.base)
  {
    var fill := Monus(p.width, |Sign(p.neg)| + |Body(p)|);
    if p.ladjust then Sign(p.neg) + Body(p) + Repeat(' ', fill)
    else if p.neg && p.padc == '0' then Sign(p.neg) + Repeat('0', fill) + Body(p)
    else Repeat(p.padc, fill) + Sign(p.neg) + Body(p)
  }

  // ------------------------------------------------------------------ reading the output back

  function DropBlanks(s: string): string {
    if s != "" && s[0] == ' ' then DropBlanks(s[1..]) else s
  }

  function DropTrailing(s: string): string {
    if s != "" && s[|s| - 1] == ' ' then DropTrailing(s[..|s| - 1]) else s
  }

  datatype Parsed = Parsed(neg: bool, value: nat) | Bad

  // Blanks around, an optional sign, and digits.
  ghost function Parse(s: string, base: nat): Parsed {
    var t := DropTrailing(DropBlanks(s));
    var neg := t != "" && t[0] == '-';
    var digits := if neg then t[1..] else t;
    if IsNumeral(digits, base) then Parsed(neg, Value(digits, base)) else Bad
  }

  lemma {:induction false} DropFront(n: nat, t: string)
    requires t != "" && t[0] != ' '
    ensures DropBlanks(Repeat(' ', n) + t) == t
  {
    if n > 0 {
      var s := Repeat(' ', n) + t;
      assert s[1..] == Repeat(' ', n - 1) + t;
      DropFront(n - 1, t);
    } else {
      assert Repeat(' ', 0) + t == t;
    }
  }

  lemma {:induction false} DropBack(t: string, n: nat)
    requires t != "" && t[|t| - 1] != ' '
    ensures DropTrailing(t + Repeat(' ', n)) == t
  {
    if n > 0 {
      var s := t + Repeat(' ', n);
      assert s[..|s| - 1] == t + Repeat(' ', n - 1);
      DropBack(t, n - 1);
    } else {
      assert t + Repeat(' ', 0) == t;
    }
  }

  lemma {:induction false} LeadingZeros(n: nat, s: string, base: nat)
    requires IsNumeral(s, base) && base >= 1
    ensures IsNumeral(Repeat('0', n) + s, base) && Value(Repeat('0', n) + s, base) == Value(s, base)
    decreases |s|
  {
    var t := Repeat('0', n) + s;
    assert t[..|t| - 1] == Repeat('0', n) + s[..|s| - 1];
    if |s| == 1 {
      assert s[..0] == "" && Repeat('0', n) + "" == Repeat('0', n);
      ZerosValue(n, base);
    } else {
      LeadingZeros(n, s[..|s| - 1], base);
    }
  }

  lemma {:induction false} ZerosValue(n: nat, base: nat)
    ensures Value(Repeat('0', n), base) == 0
  {
    if n > 0 {
      assert Repeat('0', n)[..n - 1] == Repeat('0', n - 1);
      ZerosValue(n - 1, base);
    }
  }

  // A sign and a numeral, with blanks around.
  lemma ParseSigned(before: nat, neg: bool, digits: string, after: nat, base: nat)
    requires IsNumeral(digits, base) && base <= 16
    ensures Parse(Repeat(' ', before) + (Sign(neg) + digits) + Repeat(' ', after), base) == Parsed(neg, Value(digits, base))
  {
    var t := Sign(neg) + digits;
    var s := Repeat(' ', before) + t + Repeat(' ', after);
    assert t[0] != ' ' && t[|t| - 1] == digits[|digits| - 1] != ' ';
    var u := t + Repeat(' ', after);
    assert s == Repeat(' ', before) + u && u[0] == t[0];
    DropFront(before, u);
    DropBack(t, after);
    if neg {
      assert t[1..] == digits;
    } else {
      assert t == digits;
    }
  }

  /** The width is honoured. */
  lemma FormattedLength(p: Spec)
    requires Base(p.base)
    ensures var n := |Body(p)| + (if p.neg then 1 else 0); |Formatted(p)| == if p.width > n then p.width else n
  {
  }

  // The digits are in the case asked for, and none is wasted.
  ghost predicate DigitsOk(s: string, base: nat, upcase: bool) {
    && IsNumeral(s, base) && (|s| > 1 ==> s[0] != '0')
    && forall i :: 0 <= i < |s| ==> if upcase then !('a' <= s[i] <= 'f') else !('A' <= s[i] <= 'F')
  }

  lemma {:induction false} NumeralOk(u: nat, base: nat, upcase: bool)
    requires Base(base)
    ensures DigitsOk(Numeral(u, base, upcase), base, upcase)
    ensures u > 0 ==> Numeral(u, base, upcase)[0] != '0'
    decreases u
  {
    NumeralDigits(u, base, upcase);
    hide IsNumeral;
    if u >= base {
      DivMod(u, base);
      DivSmaller(u, base);
      QuotientZero(u, base);
      NumeralOk(u / base, base, upcase);
    }
  }

  /**
   * Where the parts stand: left adjusted, the sign and the digits come first and blanks fill up; else
   * the digits come last, with the sign before them and blanks before that, or the sign first and
   * zeros in between.
   */
  ghost predicate Placed(s: string, sign: string, digits: string, ladjust: bool, padc: char) {
    var n := |sign| + |digits|;
    && |s| >= n
    && if ladjust then s[..n] == sign + digits && forall i :: n <= i < |s| ==> s[i] == ' '
       else if padc == '0' then
         s[..|sign|] == sign && s[|s| - |digits|..] == digits && forall i :: |sign| <= i < |s| - |digits| ==> s[i] == '0'
       else s[|s| - n..] == sign + digits && forall i :: 0 <= i < |s| - n ==> s[i] == padc
  }

  lemma Placement(p: Spec)
    requires Base(p.base)
    ensures Placed(Formatted(p), if p.neg then "-" else "", Body(p), p.ladjust, p.padc)
  {
    hide Body, Placed;
    PlacedParts(Sign(p.neg), Body(p), Monus(p.width, |Sign(p.neg)| + |Body(p)|), p.padc);
  }

  // The digits of the output.
  lemma BodyExact(p: Spec)
    requires Base(p.base)
    ensures DigitsOk(Body(p), p.base, p.upcase) && Value(Body(p), p.base) == p.u
  {
    hide DigitsOk, Value, Numeral;
    NumeralOk(p.u, p.base, p.upcase);
    NumeralValue(p.u, p.base, p.upcase);
  }

  lemma PlacedParts(sign: string, digits: string, fill: nat, padc: char)
    ensures Placed(sign + digits + Repeat(' ', fill), sign, digits, true, padc)
    ensures padc == '0' ==> Placed(sign + Repeat('0', fill) + digits, sign, digits, false, padc)
    ensures padc != '0' || sign == "" ==> Placed(Repeat(padc, fill) + sign + digits, sign, digits, false, padc)
  {
    var a, b, c := sign + digits + Repeat(' ', fill), sign + Repeat('0', fill) + digits, Repeat(padc, fill) + sign + digits;
    var n := |sign| + |digits|;
    assert a[..n] == sign + digits;
    assert b[..|sign|] == sign && b[|b| - |digits|..] == digits;
    assert c[|c| - n..] == sign + digits && c[|c| - |digits|..] == digits;
  }

  // The padding as blanks before, zeros between, and blanks behind.
  function Before(p: Spec, fill: nat): nat { if p.ladjust || p.padc == '0' then 0 else fill }

  function Zeros(p: Spec, fill: nat): nat { if !p.ladjust && p.padc == '0' then fill else 0 }

  function After(p: Spec, fill: nat): nat { if p.ladjust then fill else 0 }

  lemma FormattedAs(p: Spec, fill: nat, body: string)
    requires Base(p.base) && (p.padc == ' ' || p.padc == '0')
    requires body == Body(p) && fill == Monus(p.width, |Sign(p.neg)| + |body|)
    ensures Formatted(p) ==
      Repeat(' ', Before(p, fill)) + (Sign(p.neg) + (Repeat('0', Zeros(p, fill)) + body)) + Repeat(' ', After(p, fill))
  {
    hide Body;
  }

  /** Parsing the output after removing padding gives back the value and the sign. */
  lemma FormattedParses(p: Spec)
    requires Base(p.base) && (p.padc == ' ' || p.padc == '0')
    ensures Parse(Formatted(p), p.base) == Parsed(p.neg, p.u)
  {
    var fill, body := Monus(p.width, |Sign(p.neg)| + |Body(p)|), Body(p);
    NumeralValue(p.u, p.base, p.upcase);
    NumeralDigits(p.u, p.base, p.upcase);
    FormattedAs(p, fill, body);
    hide Parse, IsNumeral, Value, Numeral, Formatted, Repeat, Sign;
    LeadingZeros(Zeros(p, fill), body, p.base);
    ParseSigned(Before(p, fill), p.neg, Repeat('0', Zeros(p, fill)) + body, After(p, fill), p.base);
  }

  // ------------------------------------------------------------------ print_num

  function Reversed(s: string): (r: string)
    ensures |r| == |s| && forall i :: 0 <= i < |s| ==> r[i] == s[|s| - 1 - i]
  {
    if s == "" then "" else Reversed(s[1..]) + [s[0]]
  }

  lemma QuotientZero(v: nat, base: nat)
    requires Base(base)
    ensures 0 <= v / base && (v / base == 0 <==> v < base)
  {
    DivMod(v, base);
    if v / base == 0 {
      assert v == v % base;
    }
  }

  // What one turn of the digit loop takes off the numeral.
  lemma DigitStep(v: nat, base: nat, upcase: bool)
    requires Base(base)
    ensures 0 <= v % base < 16 && 0 <= v / base && (v > 0 ==> v / base < v)
    ensures Numeral(v, base, upcase) == (if v / base == 0 then "" else Numeral(v / base, base, upcase)) + [Digit(v % base, upcase)]
  {
    DivMod(v, base);
    QuotientZero(v, base);
    if v > 0 {
      DivSmaller(v, base);
    }
    hide Digit;
  }

  // tmp = u % base; u /= base
  method NextDigit(v: nat, base: nat, upcase: bool) returns (c: char, q: nat)
    requires Base(base)
    ensures q == 0 || q < v
    ensures Numeral(v, base, upcase) == (if q == 0 then "" else Numeral(q, base, upcase)) + [c]
  {
    DigitStep(v, base, upcase);
    c := Digit(v % base, upcase);
    q := v / base;
  }

  // The digits from the least significant one on; the buffer is never overrun.
  method PutDigits(buf: array<char>, u: nat, base: nat, upcase: bool) returns (n: nat)
    requires Base(base) && u < WORD && buf.Length >= 32
    modifies buf
    ensures n == |Numeral(u, base, upcase)| <= 32 && buf[..n] == Reversed(Numeral(u, base, upcase))
  {
    NumeralFits(u, base, upcase);
    ghost var all := Numeral(u, base, upcase);
    hide Numeral, Digit;
    var v: nat := u;
    var more := true;
    ghost var left := all;             // the part that is still to be put
    n := 0;
    while more
      invariant |left| + n == |all| <= 32 && all[..|left|] == left
      invariant left == if more then Numeral(v, base, upcase) else ""
      invariant forall i :: 0 <= i < n ==> buf[i] == all[|all| - 1 - i]
      decreases more, v
    {
      var c, q := NextDigit(v, base, upcase);
      assert left[|left| - 1] == all[|left| - 1] == c;
      buf[n] := c;
      n := n + 1;
      left := left[..|left| - 1];
      v := q;
      more := v != 0;
    }
    assert forall i :: 0 <= i < n ==> buf[..n][i] == Reversed(all)[i];
  }

  method Pad(buf: array<char>, from: nat, to: nat, c: char)
    requires from <= to <= buf.Length
    modifies buf
    ensures buf[..to] == old(buf[..from]) + Repeat(c, to - from)
  {
    var i := from;
    while i < to
      invariant from <= i <= to && buf[..from] == old(buf[..from])
      invariant forall k :: from <= k < i ==> buf[k] == c
    {
      buf[i] := c;
      i := i + 1;
    }
    assert forall k :: 0 <= k < from ==> buf[..to][k] == buf[..from][k];
  }

  // The reversal loop, on the first m characters.
  method ReverseFirst(buf: array<char>, m: nat, length: nat)
    requires 1 <= m <= length <= buf.Length
    modifies buf
    ensures buf[..length] == Reversed(old(buf[..m])) + old(buf[m..length])
  {
    var begin, end := 0, m - 1;
    while end > begin
      invariant 0 <= begin <= end + 2 && begin + end == m - 1
      invariant forall k :: 0 <= k < begin || end < k < m ==> buf[k] == old(buf[m - 1 - k])
      invariant forall k :: begin <= k <= end || m <= k < buf.Length ==> buf[k] == old(buf[k])
    {
      buf[begin], buf[end] := buf[end], buf[begin];
      begin := begin + 1;
      end := end - 1;
    }
    ghost var was := old(buf[..]);
    assert was[..m] == old(buf[..m]) && was[m..length] == old(buf[m..length]);
    forall k | 0 <= k < length ensures buf[k] == (Reversed(was[..m]) + was[m..length])[k] {
      if k < m && begin <= k <= end {
        assert k == m - 1 - k;
      }
    }
  }

  function Largest(a: nat, b: nat): nat { if a >= b then a else b }

  // The buffer before it is reversed: digits from the right, then the sign, then padding; a sign
  // before zeros goes to the very end.
  function Draft(p: Spec): string
    requires Base(p.base)
  {
    var n := |Sign(p.neg)| + |Body(p)|;
    var fill := Monus(p.width, n);
    if p.neg && !p.ladjust && p.padc == '0' then Reversed(Body(p)) + Repeat('0', fill) + "-"
    else Reversed(Body(p)) + Sign(p.neg) + Repeat(if p.ladjust then ' ' else p.padc, fill)
  }

  lemma DraftReverses(p: Spec)
    requires Base(p.base)
    ensures var d := Draft(p); var n := |Sign(p.neg)| + |Body(p)|;
      && |d| == Largest(p.width, n)
      && Formatted(p) == (if p.ladjust then Reversed(d[..n]) + d[n..] else Reversed(d))
  {
    hide Body, Numeral;
    var d, n := Draft(p), |Sign(p.neg)| + |Body(p)|;
    if p.ladjust {
      assert d[..n] == Reversed(Body(p)) + Sign(p.neg);
      assert Reversed(d[..n]) == Sign(p.neg) + Body(p);
    } else {
      assert Reversed(d) == Formatted(p);
    }
  }

  // Digits and sign, least significant digit first.
  method PutNumber(buf: array<char>, p: Spec) returns (n: nat)
    requires Base(p.base) && p.u < WORD && buf.Length >= 70
    modifies buf
    ensures n == |Sign(p.neg)| + |Body(p)| <= 33 && buf[..n] == Reversed(Body(p)) + Sign(p.neg)
  {
    n := PutDigits(buf, p.u, p.base, p.upcase);
    hide Numeral;
    if p.neg {
      buf[n] := '-';
      n := n + 1;
    }
  }

  method PutPadding(buf: array<char>, p: Spec, n: nat, length: nat)
    requires Base(p.base) && 1 <= n == |Sign(p.neg)| + |Body(p)| && length == Largest(p.width, n) <= buf.Length
    requires buf[..n] == Reversed(Body(p)) + Sign(p.neg)
    modifies buf
    ensures buf[..length] == Draft(p)
  {
    hide Body;
    var padc := if p.ladjust then ' ' else p.padc;
    if p.neg && !p.ladjust && padc == '0' {
      assert buf[..n - 1] == buf[..n][..n - 1] == Reversed(Body(p));
      Pad(buf, n - 1, length - 1, padc);
      ghost var q := buf[..length - 1];
      buf[length - 1] := '-';
      assert buf[..length] == q + "-";
    } else {
      Pad(buf, n, length, padc);
    }
  }

  // print_num: what is handed to the output callback.
  method PrintNum(p: Spec) returns (out: string)
    requires Base(p.base) && p.u < WORD
    ensures out == Formatted(p)
  {
    DraftReverses(p);
    hide Formatted, Draft, Body, Numeral, Reversed;
    var buf := new char[p.width + 70];
    var n := PutNumber(buf, p);
    var length := if p.width < n then n else p.width;
    PutPadding(buf, p, n, length);
    var m := if p.ladjust then n else length;
    assert buf[..m] == buf[..length][..m] && buf[m..length] == buf[..length][m..];
    assert Draft(p)[..length] == Draft(p) && Draft(p)[length..] == "";
    ReverseFirst(buf, m, length);
    out := buf[..length];
  }

  // ------------------------------------------------------------------ the conversions

  type Int32 = x: int | -0x8000_0000 <= x < 0x8000_0000

  function Abs(x: int): nat { if x < 0 then -x else x }

  function Unsigned(x: Int32): nat { if x < 0 then x + WORD else x }

  // %d and %D: 0 - num wraps for the least number, whose bits are then its absolute value.
  method PrintDecimal(x: Int32, width: nat, ladjust: bool, padc: char) returns (out: string)
    ensures padc == ' ' || padc == '0' ==> Parse(out, 10) == Parsed(x < 0, Abs(x))
    ensures Placed(out, if x < 0 then "-" else "", Numeral(Abs(x), 10, false), ladjust, padc)
    ensures var n := |Numeral(Abs(x), 10, false)| + (if x < 0 then 1 else 0); |out| == if width > n then width else n
  {
    var neg := x < 0;
    var u := if neg then (WORD - Unsigned(x)) % WORD else Unsigned(x);
    AbsWraps(x);
    var p := Spec(u, 10, neg, width, ladjust, padc, false);
    out := PrintNum(p);
    hide Placed, Numeral, Parse, Formatted, Unsigned;
    FormattedFacts(p);
  }

  lemma AbsWraps(x: Int32)
    ensures (if x < 0 then (WORD - Unsigned(x)) % WORD else Unsigned(x)) == Abs(x)
  {
  }

  // What the output says, where its parts stand, and how long it is.
  lemma FormattedFacts(p: Spec)
    requires Base(p.base)
    ensures p.padc == ' ' || p.padc == '0' ==> Parse(Formatted(p), p.base) == Parsed(p.neg, p.u)
    ensures Placed(Formatted(p), if p.neg then "-" else "", Numeral(p.u, p.base, p.upcase), p.ladjust, p.padc)
    ensures var n := |Numeral(p.u, p.base, p.upcase)| + (if p.neg then 1 else 0); |Formatted(p)| == if p.width > n then p.width else n
  {
    hide Placed, Numeral, Parse, Formatted;
    FormattedLength(p);
    Placement(p);
    if p.padc == ' ' || p.padc == '0' {
      FormattedParses(p);
    }
  }

  // %b, %o, %u, %x and %X: the bits as an unsigned number.
  method PrintUnsigned(x: Int32, base: nat, width: nat, ladjust: bool, padc: char, upcase: bool) returns (out: string)
    requires base == 2 || base == 8 || base == 10 || base == 16
    ensures padc == ' ' || padc == '0' ==> Parse(out, base) == Parsed(false, Unsigned(x))
    ensures Placed(out, "", Numeral(Unsigned(x), base, upcase), ladjust, padc)
    ensures var n := |Numeral(Unsigned(x), base, upcase)|; |out| == if width > n then width else n
  {
    var p := Spec(Unsigned(x), base, false, width, ladjust, padc, upcase);
    out := PrintNum(p);
    hide Placed, Numeral, Parse, Formatted, Unsigned;
    FormattedFacts(p);
  }
}
