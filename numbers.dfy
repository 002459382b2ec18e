/**
 * .NET's 32-bit `int`: the range, unchecked wrap-around, the decimal text that
 * `Int32.ToString()` produces and the text `Int32.TryParse` accepts.
 */
module Numbers {
  import opened Wrappers

  const MinInt32: int := -0x8000_0000
  const MaxInt32: int := 0x7FFF_FFFF

  type Int32 = x: int | -0x8000_0000 <= x <= 0x7FFF_FFFF

  /** The value an unchecked 32-bit addition or multiplication leaves behind. */
  function Wrap32(x: int): (r: Int32)
    ensures MinInt32 <= x <= MaxInt32 ==> r == x
  {
    (x + 0x8000_0000) % 0x1_0000_0000 - 0x8000_0000
  }

  /** Wrapping an intermediate sum changes nothing: unchecked additions compose. */
  lemma Wrap32Add(a: int, b: int)
    ensures Wrap32(Wrap32(a) + b) == Wrap32(a + b)
  {
    var q := (a + 0x8000_0000) / 0x1_0000_0000;
    assert Wrap32(a) == a - 0x1_0000_0000 * q;
    ModShift(a + b + 0x8000_0000, q);
  }

  lemma ModShift(x: int, q: int)
    ensures (x - 0x1_0000_0000 * q) % 0x1_0000_0000 == x % 0x1_0000_0000
  {
  }

  /**
   * C#'s unchecked `a + b` (and `a += b`) on two ints: the sum, moved back
   * into range by 2^32 when it leaves it.
   */
  function Add32(a: Int32, b: Int32): (r: Int32)
    ensures MinInt32 <= a + b <= MaxInt32 ==> r == a + b
    ensures a + b > MaxInt32 ==> r < a && r < b
  {
    if a + b > MaxInt32 then a + b - 0x1_0000_0000
    else if a + b < MinInt32 then a + b + 0x1_0000_0000
    else a + b
  }

  /** An unchecked addition is the wrap of the exact sum. */
  lemma Add32IsWrap(a: Int32, b: Int32)
    ensures Add32(a, b) == Wrap32(a + b)
  {
    if a + b > MaxInt32 {
      ModShift(a + b + 0x8000_0000, 1);
    } else if a + b < MinInt32 {
      ModShift(a + b + 0x8000_0000, -1);
    }
  }

  /** Adding the same value twice, unchecked, wraps the exact sum `x + 2 * b`. */
  lemma Add32Twice(x: Int32, b: Int32)
    ensures Add32(Add32(x, b), b) == Wrap32(x + 2 * b)
  {
    Add32IsWrap(x, b);
    Add32IsWrap(Add32(x, b), b);
    Wrap32Add(x + b, b);
    assert x + b + b == x + 2 * b;
  }

  predicate IsDigit(c: char) {
    '0' <= c <= '9'
  }

  predicate AllDigits(s: string) {
    forall i :: 0 <= i < |s| ==> IsDigit(s[i])
  }

  function DigitChar(d: int): (c: char)
    requires 0 <= d < 10
    ensures IsDigit(c)
  {
    ('0' as int + d) as char
  }

  function DigitValue(c: char): (d: int)
    requires IsDigit(c)
    ensures 0 <= d < 10
  {
    c as int - '0' as int
  }

  /** Decimal digits of `n`, most significant first, without leading zeros. */
  function NatToString(n: nat): (s: string)
    ensures |s| > 0 && AllDigits(s)
    ensures s[0] == '0' ==> n == 0
    decreases n
  {
    if n < 10 then [DigitChar(n)] else NatToString(n / 10) + [DigitChar(n % 10)]
  }

  /** The number a non-empty run of decimal digits denotes. */
  function ValueOf(s: string): nat
    requires AllDigits(s)
  {
    if s == [] then 0 else ValueOf(s[..|s| - 1]) * 10 + DigitValue(s[|s| - 1])
  }

  /** `Int32.ToString()` under the invariant culture: an optional minus sign and the digits. */
  function IntToString(n: int): string {
    if n < 0 then "-" + NatToString(-n) else NatToString(n)
  }

  /** The white space `NumberStyles.Integer` skips around a number. */
  predicate IsNumberWhite(c: char) {
    c == ' ' || '\t' <= c <= '\r'
  }

  function SkipLeadingNumberWhite(s: string): (r: string)
    ensures |r| <= |s|
  {
    if s != [] && IsNumberWhite(s[0]) then SkipLeadingNumberWhite(s[1..]) else s
  }

  function SkipTrailingNumberWhite(s: string): (r: string)
    ensures |r| <= |s|
  {
    if s != [] && IsNumberWhite(s[|s| - 1]) then SkipTrailingNumberWhite(s[..|s| - 1]) else s
  }

  /**
   * `Int32.TryParse(s, out v)`: white space around, an optional sign, at least
   * one digit and nothing else, and a value inside the 32-bit range.
   */
  function ParseInt32(s: string): Option<Int32> {
    var t := SkipTrailingNumberWhite(SkipLeadingNumberWhite(s));
    var negative := |t| > 0 && t[0] == '-';
    var digits := if |t| > 0 && (t[0] == '-' || t[0] == '+') then t[1..] else t;
    if digits == [] || !AllDigits(digits) then None
    else
      var v: int := if negative then -(ValueOf(digits) as int) else ValueOf(digits);
      if MinInt32 <= v <= MaxInt32 then Some(v) else None
  }

  /** `int.TryParse` on a nullable string: a null string never parses. */
  function ParseAnswer(s: Option<string>): Option<Int32> {
    if s.None? then None else ParseInt32(s.value)
  }

  lemma {:induction false} ValueOfNatToString(n: nat)
    ensures ValueOf(NatToString(n)) == n
    decreases n
  {
    if n >= 10 {
      var s := NatToString(n);
      assert s[..|s| - 1] == NatToString(n / 10);
      ValueOfNatToString(n / 10);
    }
  }

  lemma NoWhiteInDigits(s: string)
    requires AllDigits(s)
    ensures SkipLeadingNumberWhite(s) == s && SkipTrailingNumberWhite(s) == s
  {
  }

  /** Whatever `ToString` prints, `TryParse` reads back as the same number. */
  lemma ParseIntToString(n: Int32)
    ensures ParseInt32(IntToString(n)) == Some(n)
  {
    var m: nat := if n < 0 then -(n as int) else n as int;
    var d := NatToString(m);
    ValueOfNatToString(m);
    if n < 0 {
      var s := "-" + d;
      assert s[1..] == d;
      assert SkipLeadingNumberWhite(s) == s;
      assert SkipTrailingNumberWhite(s) == s by {
        assert s[|s| - 1] == d[|d| - 1];
      }
    } else {
      NoWhiteInDigits(d);
    }
  }

  /** The text of an int has no letters, so case folding leaves it alone. */
  lemma IntToStringHasNoLetters(n: int)
    ensures forall i :: 0 <= i < |IntToString(n)| ==> !('A' <= IntToString(n)[i] <= 'Z') && !('a' <= IntToString(n)[i] <= 'z')
  {
    var m: nat := if n < 0 then -n else n;
    var d := NatToString(m);
    if n < 0 {
      assert forall i :: 1 <= i < |IntToString(n)| ==> IntToString(n)[i] == d[i - 1];
    }
  }

  /** Every pin `Random.Next(10000, 99999)` can draw prints as five digits. */
  lemma {:induction false} FiveDigitText(n: int)
    requires 10000 <= n < 99999
    ensures |IntToString(n)| == 5 && AllDigits(IntToString(n)) && IntToString(n)[0] != '0'
  {
    assert NatToString(n) == NatToString(n / 10) + [DigitChar(n % 10)];
    assert NatToString(n / 10) == NatToString(n / 100) + [DigitChar(n / 10 % 10)];
    assert NatToString(n / 100) == NatToString(n / 1000) + [DigitChar(n / 100 % 10)];
    assert NatToString(n / 1000) == NatToString(n / 10000) + [DigitChar(n / 1000 % 10)];
    assert NatToString(n / 10000) == [DigitChar(n / 10000)];
  }
}
