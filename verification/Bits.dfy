/** Powers of two and sixteen, and the 64-bit words of the host language as numbers. */
module Bits {
  /** Words are numbers below this one. */
  const WORD: nat := 0x1_0000_0000_0000_0000

  function Power2(bits: nat): (p: nat)
    ensures p > 0
  {
    if bits == 0 then 1 else 2 * Power2(bits - 1)
  }

  function Power16(digits: nat): nat {
    if digits == 0 then 1 else 16 * Power16(digits - 1)
  }

  lemma {:induction false} PowersMultiply(a: nat, b: nat)
    ensures Power2(a + b) == Power2(a) * Power2(b)
  {
    if b == 0 {
    } else {
      PowersMultiply(a, b - 1);
    }
  }

  lemma {:induction false} HexDigitsAreFourBits(digits: nat)
    ensures Power2(4 * digits) == Power16(digits)
  {
    if digits == 0 {
    } else {
      HexDigitsAreFourBits(digits - 1);
      var rest := 4 * (digits - 1);
      assert Power2(rest + 4) == 2 * Power2(rest + 3) == 4 * Power2(rest + 2) == 8 * Power2(rest + 1);
    }
  }

  lemma TwelveDigits()
    ensures Power16(3) == 0x1000 && Power16(12) == 0x1_0000_0000_0000
  {
  }

  lemma SixteenDigits()
    ensures Power16(16) == WORD
  {
    TwelveDigits();
  }

  lemma SixtyFourBits()
    ensures Power2(64) == WORD
  {
    SixteenDigits();
    HexDigitsAreFourBits(16);
  }
}
