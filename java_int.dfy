/** Java's 32-bit `int`: two's-complement wrap-around, `Integer.toString` and
    `Integer.parseInt` (decimal digits only; see README). */
module JavaInt {
  import opened Wrappers

  const MIN: int := -0x8000_0000
  const MAX: int := 0x7fff_ffff

  newtype int32 = x: int | -0x8000_0000 <= x < 0x8000_0000

  /** The int32 that Java's arithmetic yields for the mathematical value `x`. */
  function Wrap(x: int): (r: int32)
    ensures MIN <= x <= MAX ==> r as int == x
    ensures (r as int - x) % 0x1_0000_0000 == 0
  {
    (((x + 0x8000_0000) % 0x1_0000_0000) - 0x8000_0000) as int32
  }

  /** Java's `a + b` on ints. */
  function Add(a: int32, b: int32): (r: int32)
    ensures MIN <= a as int + b as int <= MAX ==> r as int == a as int + b as int
    ensures a as int + b as int > MAX ==> r as int == a as int + b as int - 0x1_0000_0000
    ensures a as int + b as int < MIN ==> r as int == a as int + b as int + 0x1_0000_0000
  {
    Wrap(a as int + b as int)
  }

  predicate IsDigit(c: char) {
    '0' <= c <= '9'
  }

  function DigitChar(d: nat): (c: char)
    requires d < 10
    ensures IsDigit(c) && c as int - '0' as int == d
  {
    ('0' as int + d) as char
  }

  /** Decimal digits of `n`, most significant first, with no leading zero. */
  function NatToString(n: nat): (s: string)
    ensures |s| > 0
    ensures forall i :: 0 <= i < |s| ==> IsDigit(s[i])
    ensures n != 0 ==> s[0] != '0'
    decreases n
  {
    if n < 10 then [DigitChar(n)] else NatToString(n / 10) + [DigitChar(n % 10)]
  }

  /** `Integer.toString(x)` (also used for list indices): `-` then the digits of |x|. */
  function ToString(x: int): string {
    if x < 0 then "-" + NatToString(-x) else NatToString(x)
  }

  predicate AllDigits(s: string) {
    forall i :: 0 <= i < |s| ==> IsDigit(s[i])
  }

  /** The value of a run of decimal digits. */
  function DigitsValue(s: string): nat
    requires AllDigits(s)
  {
    if |s| == 0 then 0 else DigitsValue(s[..|s| - 1]) * 10 + (s[|s| - 1] as int - '0' as int)
  }

  /** `Integer.parseInt(s)`: an optional `+` or `-`, at least one digit, and a value in range;
      `None` where Java throws `NumberFormatException`. */
  function ParseInt(s: string): (r: Option<int32>)
    ensures r.Some? ==> |s| > 0
  {
    if |s| == 0 then None
    else
      var negative := s[0] == '-';
      var digits := if s[0] == '-' || s[0] == '+' then s[1..] else s;
      if |digits| == 0 || !AllDigits(digits) then None
      else
        var magnitude: int := DigitsValue(digits);
        var v := if negative then -magnitude else magnitude;
        if MIN <= v <= MAX then Some(v as int32) else None
  }

  lemma {:induction false} DigitsOfNat(n: nat)
    ensures AllDigits(NatToString(n)) && DigitsValue(NatToString(n)) == n
    decreases n
  {
    var s := NatToString(n);
    if n >= 10 {
      DigitsOfNat(n / 10);
      assert s[..|s| - 1] == NatToString(n / 10);
    }
  }

  /** `Integer.parseInt(Integer.toString(x)) == x` for every int. */
  lemma ParseToString(x: int32)
    ensures ParseInt(ToString(x as int)) == Some(x)
  {
    var s := ToString(x as int);
    if x < 0 {
      DigitsOfNat(-(x as int));
      assert s[1..] == NatToString(-(x as int));
    } else {
      DigitsOfNat(x as int);
    }
  }

  /** The decimal form of an int never starts with a sign other than `-`, so it is never `+...`,
      and it is never empty. */
  lemma ToStringShape(x: int)
    ensures |ToString(x)| > 0
    ensures ToString(x)[0] == '-' || IsDigit(ToString(x)[0])
  {
  }

  /** Different ints print differently. */
  lemma ToStringInjective(x: int, y: int)
    requires ToString(x) == ToString(y)
    ensures x == y
  {
    var s := ToString(x);
    if x < 0 {
      DigitsOfNat(-x);
      assert s[1..] == NatToString(-x);
    } else {
      DigitsOfNat(x);
    }
    if y < 0 {
      DigitsOfNat(-y);
      assert s[1..] == NatToString(-y);
    } else {
      DigitsOfNat(y);
    }
  }
}
