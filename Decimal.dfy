/**
 * Decimal text for integers: Kotlin's `Int.toString()` (used in string
 * templates such as "ServiceCheckWorker_${service.id}") and
 * `String.toIntOrNull()` (used to read a port number).
 */
module Decimal {
  import opened Wrappers

  const MinInt: int := -0x8000_0000
  const MaxInt: int := 0x7fff_ffff

  /** Kotlin's `Int`: a 32-bit signed integer. */
  predicate IsInt32(n: int) {
    MinInt <= n <= MaxInt
  }

  predicate IsDigit(c: char) {
    '0' <= c <= '9'
  }

  predicate AllDigits(s: string) {
    forall i :: 0 <= i < |s| ==> IsDigit(s[i])
  }

  function DigitChar(d: nat): (c: char)
    requires d < 10
    ensures IsDigit(c) && c as int - '0' as int == d
  {
    ('0' as int + d) as char
  }

  /** The value of a run of decimal digits, most significant first. */
  function DigitsValue(s: string): nat
    requires AllDigits(s)
  {
    if |s| == 0 then 0
    else 10 * DigitsValue(s[..|s| - 1]) + (s[|s| - 1] as int - '0' as int)
  }

  /** The shortest decimal digits of `n` (no leading zero except for 0 itself). */
  function ShowNat(n: nat): (r: string)
    ensures |r| >= 1 && AllDigits(r)
    ensures r[0] != '0' || n == 0
  {
    if n < 10 then [DigitChar(n)] else ShowNat(n / 10) + [DigitChar(n % 10)]
  }

  /** `n.toString()`: a leading '-' for negative numbers, then the digits. */
  function Show(n: int): (r: string)
    ensures |r| >= 1
    ensures n >= 0 ==> AllDigits(r)
    ensures n < 0 ==> r[0] == '-' && AllDigits(r[1..])
  {
    if n < 0 then "-" + ShowNat(-n) else ShowNat(n)
  }

  /**
   * The grammar `String.toIntOrNull()` accepts, without its range check: an
   * optional '+' or '-' followed by at least one digit.
   */
  function ParseInteger(s: string): (r: Option<int>)
    ensures r.Some? ==> |s| >= 1
  {
    if |s| == 0 then None
    else if s[0] == '-' || s[0] == '+' then
      if |s| == 1 || !AllDigits(s[1..]) then None
      else
        var v: int := DigitsValue(s[1..]);
        if s[0] == '-' then Some(-v) else Some(v)
    else if AllDigits(s) then Some(DigitsValue(s))
    else None
  }

  /** Kotlin's `String.toIntOrNull()`: null unless the text is an `Int` in range. */
  function ToIntOrNull(s: string): (r: Option<int>)
    ensures r.Some? ==> IsInt32(r.value) && ParseInteger(s) == r
    ensures r.None? ==> ParseInteger(s).None? || !IsInt32(ParseInteger(s).value)
  {
    match ParseInteger(s)
    case Some(v) => if IsInt32(v) then Some(v) else None
    case None => None
  }

  /** A character other than a digit after the first position makes the text no `Int`. */
  lemma NotAnInteger(s: string, k: nat)
    requires 0 < k < |s| && !IsDigit(s[k])
    ensures ToIntOrNull(s) == None
  {
    assert s[1..][k - 1] == s[k];
  }

  lemma {:induction false} ShowNatValue(n: nat)
    ensures DigitsValue(ShowNat(n)) == n
  {
    if n >= 10 {
      var r := ShowNat(n);
      assert r[..|r| - 1] == ShowNat(n / 10);
      ShowNatValue(n / 10);
    }
  }

  /** Reading back the text of an integer gives the integer. */
  lemma ParseShow(n: int)
    ensures ParseInteger(Show(n)) == Some(n)
  {
    var t := Show(n);
    if n < 0 {
      var m := ShowNat(-n);
      assert t == "-" + m && t[1..] == m;
      ShowNatValue(-n);
      assert ParseInteger(t) == Some(n);
    } else {
      var m := ShowNat(n);
      assert t == m && m[0] != '-';
      ShowNatValue(n);
      assert ParseInteger(t) == Some(DigitsValue(m));
    }
  }

  /** `toIntOrNull` inverts `toString` on every `Int`. */
  lemma ToIntOrNullShow(n: int)
    requires IsInt32(n)
    ensures ToIntOrNull(Show(n)) == Some(n)
  {
    ParseShow(n);
  }

  /** Distinct integers have distinct decimal texts. */
  lemma ShowInjective(a: int, b: int)
    ensures Show(a) == Show(b) ==> a == b
  {
    ParseShow(a);
    ParseShow(b);
  }
}
