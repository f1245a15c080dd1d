/** Decimal integers as the Go standard library reads and writes them:
    `strconv.Atoi` for base-10 text and the `%d` verb of `fmt`. */
module Decimal {
  import opened Wrappers
  import opened Bytes

  const PLUS_SIGN: byte := 43
  const MINUS_SIGN: byte := 45

  predicate IsDigit(b: byte)
  {
    48 <= b <= 57
  }

  predicate AllDigits(s: Bytes)
  {
    forall i :: 0 <= i < |s| ==> IsDigit(s[i])
  }

  function DigitByte(d: nat): (b: byte)
    requires d < 10
    ensures IsDigit(b)
  {
    (48 + d) as byte
  }

  /** Value of a run of decimal digits, most significant first. */
  function DigitsValue(s: Bytes): nat
    requires AllDigits(s)
  {
    if s == [] then 0 else DigitsValue(s[..|s| - 1]) * 10 + (s[|s| - 1] as int - 48)
  }

  /** `%d` of a natural number: its shortest decimal representation. */
  function FormatNat(n: nat): (r: Bytes)
    ensures |r| > 0 && AllDigits(r)
    ensures |r| > 1 ==> r[0] != 48
  {
    if n < 10 then [DigitByte(n)] else FormatNat(n / 10) + [DigitByte(n % 10)]
  }

  /** `%d` of a signed integer. */
  function FormatInt(i: int): (r: Bytes)
    ensures LF !in r && CR !in r
  {
    if i < 0 then [MINUS_SIGN] + FormatNat(-i) else FormatNat(i)
  }

  /** `strconv.Atoi` in base 10: an optional `+` or `-`, then one or more
      digits and nothing else; anything else is a syntax error (None). */
  function Atoi(s: Bytes): (r: Option<int>)
    ensures r.Some? ==> s != [] && (IsDigit(s[0]) || |s| > 1)
    ensures r.Some? && r.value < 0 ==> s[0] == MINUS_SIGN
  {
    var signed := |s| > 0 && (s[0] == PLUS_SIGN || s[0] == MINUS_SIGN);
    var digits := if signed then s[1..] else s;
    if digits == [] || !AllDigits(digits) then None
    else
      var magnitude: int := DigitsValue(digits);
      Some(if signed && s[0] == MINUS_SIGN then -magnitude else magnitude)
  }

  lemma {:induction false} DigitsValueOfFormatNat(n: nat)
    ensures DigitsValue(FormatNat(n)) == n
  {
    if n >= 10 {
      var r := FormatNat(n);
      DigitsValueOfFormatNat(n / 10);
      assert r[..|r| - 1] == FormatNat(n / 10);
    }
  }

  /** Reading back what `%d` wrote gives the original integer. */
  lemma AtoiFormatInt(i: int)
    ensures Atoi(FormatInt(i)) == Some(i)
  {
    if i < 0 {
      DigitsValueOfFormatNat(-i);
      assert FormatInt(i)[1..] == FormatNat(-i);
    } else {
      DigitsValueOfFormatNat(i);
    }
  }

  /** Atoi also accepts an explicit plus sign. */
  lemma AtoiPlusSign(n: nat)
    ensures Atoi([PLUS_SIGN] + FormatNat(n)) == Some(n)
  {
    DigitsValueOfFormatNat(n);
    assert ([PLUS_SIGN] + FormatNat(n))[1..] == FormatNat(n);
  }

  /** Atoi succeeds exactly on the well-formed lines. */
  lemma AtoiSomeIff(s: Bytes)
    ensures Atoi(s).Some? <==>
      (AllDigits(s) && s != []) ||
      (|s| > 1 && (s[0] == PLUS_SIGN || s[0] == MINUS_SIGN) && AllDigits(s[1..]))
  {
    if |s| > 0 && (s[0] == PLUS_SIGN || s[0] == MINUS_SIGN) {
      assert !IsDigit(s[0]);
    }
  }
}
