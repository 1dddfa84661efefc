/**
 * The request encoding `hex(block_number)`: a block height is sent to the
 * node as `0x` followed by its lowercase hexadecimal digits without leading
 * zeros, `0x0` for zero (the QUANTITY encoding of the Ethereum JSON-RPC API).
 * `ParseQuantity` is the canonical QUANTITY decoder, the inverse of `Hex`.
 */
module Quantity {
  import opened Wrappers

  /** Lowercase hexadecimal digits only; `A`..`F` are not digits here. */
  predicate IsHexDigit(c: char)
  {
    '0' <= c <= '9' || 'a' <= c <= 'f'
  }

  function DigitValue(c: char): (d: nat)
    requires IsHexDigit(c)
    ensures d < 16
  {
    if c <= '9' then c as int - '0' as int else c as int - 'a' as int + 10
  }

  /** The digit for a value below sixteen, and the value it stands for is that value. */
  function DigitChar(d: nat): (c: char)
    requires d < 16
    ensures IsHexDigit(c) && DigitValue(c) == d
    ensures c == '0' <==> d == 0
  {
    if d < 10 then (d + '0' as int) as char else (d - 10 + 'a' as int) as char
  }

  predicate AllHexDigits(s: string)
  {
    forall i :: 0 <= i < |s| ==> IsHexDigit(s[i])
  }

  /** A nonempty digit string with no leading zero (the single digit `0` aside). */
  predicate IsCanonical(digits: string)
  {
    |digits| >= 1 && AllHexDigits(digits) && (digits[0] == '0' ==> |digits| == 1)
  }

  /** The lowercase hexadecimal digits of `n`, most significant first. */
  function Digits(n: nat): (digits: string)
    decreases n
  {
    if n < 16 then [DigitChar(n)] else Digits(n / 16) + [DigitChar(n % 16)]
  }

  /** `hex(n)` for a block height `n`. */
  function Hex(n: nat): (request: string)
  {
    "0x" + Digits(n)
  }

  /** The digits are lowercase hexadecimal, with no leading zero unless `n` is zero. */
  lemma {:induction false} DigitsCanonical(n: nat)
    ensures IsCanonical(Digits(n))
    ensures Digits(n) == "0" <==> n == 0
    decreases n
  {
    if n >= 16 {
      DigitsCanonical(n / 16);
      assert Digits(n)[0] == Digits(n / 16)[0];
    }
  }

  /** `hex(n)` is `0x` followed by canonical lowercase digits, and is `0x0` exactly for zero. */
  lemma HexShape(n: nat)
    ensures |Hex(n)| >= 3 && Hex(n)[..2] == "0x" && IsCanonical(Hex(n)[2..])
    ensures Hex(n) == "0x0" <==> n == 0
  {
    DigitsCanonical(n);
    assert Hex(n)[2..] == Digits(n);
    if Hex(n) == "0x0" {
      assert Digits(n) == Hex(n)[2..];
    }
  }

  /** The number a string of hexadecimal digits denotes, most significant digit first. */
  function ValueOf(digits: string): (n: nat)
    requires AllHexDigits(digits)
    decreases |digits|
  {
    if digits == [] then 0
    else ValueOf(digits[..|digits| - 1]) * 16 + DigitValue(digits[|digits| - 1])
  }

  /**
   * The canonical QUANTITY decoder, the inverse of `Hex`: only the canonical
   * form is accepted, and what is accepted is exactly what `Hex` produces for
   * the number read.
   */
  function ParseQuantity(s: string): (r: Option<nat>)
    ensures r.Some? ==> Hex(r.value) == s
  {
    if |s| >= 3 && s[..2] == "0x" && IsCanonical(s[2..]) then
      DigitsOfValue(s[2..]);
      assert s == s[..2] + s[2..];
      Some(ValueOf(s[2..]))
    else
      None
  }

  /** A string the parser refuses is not the encoding of any height. */
  lemma ParseRefusesOnlyNonEncodings(s: string)
    requires ParseQuantity(s) == None
    ensures forall n: nat :: Hex(n) != s
  {
    forall n: nat ensures Hex(n) != s {
      HexShape(n);
    }
  }

  /** Every digit string `Digits` produces reads back as the number it encodes. */
  lemma {:induction false} ValueOfDigits(n: nat)
    ensures AllHexDigits(Digits(n)) && ValueOf(Digits(n)) == n
    decreases n
  {
    DigitsCanonical(n);
    if n >= 16 {
      ValueOfDigits(n / 16);
      var s := Digits(n);
      assert s[..|s| - 1] == Digits(n / 16);
    }
  }

  /** A digit string of value zero starts with `0`. */
  lemma {:induction false} ZeroValueHasZeroLead(digits: string)
    requires AllHexDigits(digits) && |digits| >= 1 && ValueOf(digits) == 0
    ensures digits[0] == '0'
    decreases |digits|
  {
    if |digits| == 1 {
      assert DigitValue(digits[0]) == 0;
      assert DigitChar(0) == '0';
    } else {
      var init := digits[..|digits| - 1];
      ZeroValueHasZeroLead(init);
      assert init[0] == digits[0];
    }
  }

  /** Every canonical digit string is what `Digits` produces for its value. */
  lemma {:induction false} DigitsOfValue(digits: string)
    requires IsCanonical(digits)
    ensures Digits(ValueOf(digits)) == digits
    decreases |digits|
  {
    var last := digits[|digits| - 1];
    if |digits| == 1 {
      assert DigitChar(DigitValue(last)) == last by {
        CharOfValue(last);
      }
    } else {
      var init := digits[..|digits| - 1];
      assert init[0] == digits[0];
      assert IsCanonical(init);
      DigitsOfValue(init);
      if ValueOf(init) == 0 {
        ZeroValueHasZeroLead(init);
        assert false;
      }
      var v := ValueOf(digits);
      assert v / 16 == ValueOf(init) && v % 16 == DigitValue(last);
      CharOfValue(last);
      assert digits == init + [last];
    }
  }

  lemma CharOfValue(c: char)
    requires IsHexDigit(c)
    ensures DigitChar(DigitValue(c)) == c
  {
  }

  /** Round trip: the node reads back exactly the height that was sent. */
  lemma HexRoundTrip(n: nat)
    ensures ParseQuantity(Hex(n)) == Some(n)
  {
    HexShape(n);
    ValueOfDigits(n);
    assert Hex(n)[2..] == Digits(n);
  }

  /** Distinct heights are sent as distinct requests. */
  lemma HexInjective(m: nat, n: nat)
    requires Hex(m) == Hex(n)
    ensures m == n
  {
    HexRoundTrip(m);
    HexRoundTrip(n);
  }

  function Pow16(k: nat): (p: nat)
    ensures p >= 1
  {
    if k == 0 then 1 else 16 * Pow16(k - 1)
  }

  /** Minimal length: a positive `n` takes exactly as many digits as its magnitude requires. */
  lemma {:induction false} DigitsLength(n: nat)
    requires n > 0
    ensures Pow16(|Digits(n)| - 1) <= n < Pow16(|Digits(n)|)
    decreases n
  {
    if n >= 16 {
      DigitsLength(n / 16);
    }
  }

  /** Uppercase digits, a missing prefix and leading zeros are not the canonical form. */
  lemma NonCanonicalRefused()
    ensures ParseQuantity("0xA") == None
    ensures ParseQuantity("0x01") == None
    ensures ParseQuantity("0x") == None
    ensures ParseQuantity("10") == None
  {
    assert !IsHexDigit("0xA"[2..][0]);
    assert "0x01"[2..][0] == '0';
  }
}
