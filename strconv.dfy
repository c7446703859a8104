/**
 * Go's strconv.Atoi and strconv.Itoa for the 64-bit `int` of the daemons'
 * platforms: decimal text with an optional sign, refused when it is not a
 * number or does not fit in 64 bits.
 */
module Strconv {
  import opened Wrappers

  const MaxInt := 0x7FFF_FFFF_FFFF_FFFF
  const MinInt := -0x8000_0000_0000_0000

  /** A 64-bit signed integer. */
  predicate IsInt64(n: int)
  {
    MinInt <= n <= MaxInt
  }

  /** Two's-complement wrap-around of a mathematical integer into 64 bits. */
  function Wrap64(x: int): (r: int)
    ensures IsInt64(r)
    ensures (r - x) % 0x1_0000_0000_0000_0000 == 0
    ensures IsInt64(x) ==> r == x
  {
    (x - MinInt) % 0x1_0000_0000_0000_0000 + MinInt
  }

  predicate IsDigit(c: char)
  {
    '0' <= c <= '9'
  }

  /** A non-empty run of decimal digits, what `\d+` matches. */
  predicate IsDigits(s: string)
  {
    |s| > 0 && forall k :: 0 <= k < |s| ==> IsDigit(s[k])
  }

  /** The value of a run of decimal digits. */
  function DigitsValue(s: string): (v: nat)
    requires forall k :: 0 <= k < |s| ==> IsDigit(s[k])
  {
    if |s| == 0 then 0
    else
      assert IsDigit(s[|s| - 1]);
      DigitsValue(s[..|s| - 1]) * 10 + (s[|s| - 1] as int - '0' as int)
  }

  /** The decimal digits of `n`, most significant first, with no leading zero. */
  function Digits(n: nat): (s: string)
    ensures IsDigits(s)
  {
    if n < 10 then [(n + '0' as int) as char]
    else Digits(n / 10) + [(n % 10 + '0' as int) as char]
  }

  /** strconv.Itoa: the decimal text of `n`, with '-' in front when it is negative. */
  function Itoa(n: int): (s: string)
    ensures n >= 0 ==> IsDigits(s)
    ensures n < 0 ==> |s| >= 2 && s[0] == '-' && IsDigits(s[1..])
  {
    if n < 0 then "-" + Digits(-n) else Digits(n)
  }

  /** strconv.Atoi: the number written in `s`, or None for text that is not a 64-bit decimal number. */
  function Atoi(s: string): (r: Option<int>)
    ensures r.Some? ==> IsInt64(r.value)
  {
    var signed := |s| > 0 && (s[0] == '+' || s[0] == '-');
    var digits := if signed then s[1..] else s;
    if !IsDigits(digits) then None
    else
      var v: int := if signed && s[0] == '-' then -(DigitsValue(digits) as int) else DigitsValue(digits);
      if IsInt64(v) then Some(v) else None
  }

  /** Reading back the digits of `n` gives `n`. */
  lemma {:induction false} DigitsValueOfDigits(n: nat)
    ensures DigitsValue(Digits(n)) == n
  {
    var s := Digits(n);
    if n >= 10 {
      DigitsValueOfDigits(n / 10);
      assert s[..|s| - 1] == Digits(n / 10);
    }
  }

  /** Atoi reads back what Itoa writes, for every 64-bit integer. */
  lemma AtoiItoa(n: int)
    requires IsInt64(n)
    ensures Atoi(Itoa(n)) == Some(n)
  {
    var s := Itoa(n);
    if n < 0 {
      DigitsValueOfDigits(-n);
      assert s[1..] == Digits(-n);
    } else {
      DigitsValueOfDigits(n);
    }
  }

  /** A digit run is accepted exactly when its value fits in 64 bits, and then read as that value. */
  lemma AtoiOfDigits(s: string)
    requires IsDigits(s)
    ensures Atoi(s).Some? <==> DigitsValue(s) <= MaxInt
    ensures Atoi(s).Some? ==> Atoi(s).value == DigitsValue(s)
  {
    assert s[0] != '+' && s[0] != '-';
  }
}
