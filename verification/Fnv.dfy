/** The FNV-1a digest used to pseudonymise values (crates/statguardian-stream/src/sanitize.rs). */
module Fnv {
  import opened Sequences
  import opened Bits

  const OFFSET_BASIS: nat := 0xcbf2_9ce4_8422_2325
  const PRIME: nat := 0x0000_0100_0000_01b3

  /** Bitwise exclusive or of the lowest `bits` bits. */
  function Xor(a: nat, b: nat, bits: nat): nat {
    if bits == 0 then 0 else 2 * Xor(a / 2, b / 2, bits - 1) + (a + b) % 2
  }

  /** One byte: exclusive or, then a multiplication by the FNV prime that wraps around at 64 bits. */
  function Step(hash: nat, b: Byte): nat { (Xor(hash, b as nat, 64) * PRIME) % WORD }

  /** Continuing a digest from `hash` over `bytes`. */
  function Digest(hash: nat, bytes: seq<Byte>): nat {
    if bytes == [] then hash else Step(Digest(hash, bytes[..|bytes| - 1]), bytes[|bytes| - 1])
  }

  method Fnv1a64(bytes: seq<Byte>) returns (hash: nat)
    ensures hash == Digest(OFFSET_BASIS, bytes)
  {
    hash := OFFSET_BASIS;
    for i := 0 to |bytes|
      invariant hash == Digest(OFFSET_BASIS, bytes[..i])
    {
      assert bytes[..i + 1][..i] == bytes[..i];
      hash := Step(hash, bytes[i]);
    }
    assert bytes[..|bytes|] == bytes;
  }

  /** The prime is odd, so multiplying by it can be undone modulo 2 to the 64. */
  lemma TimesPrimeInjective(m: nat, n: nat)
    requires m < WORD && n < WORD && (m * PRIME) % WORD == (n * PRIME) % WORD
    ensures m == n
  {
    var inverse := 0xce96_5057_aff6_957b;
    var turns := 0xce_9650_590f;
    assert PRIME * inverse == turns * WORD + 1;
    var j, k := (m * PRIME) / WORD, (n * PRIME) / WORD;
    assert (m - n) * PRIME == (j - k) * WORD;
    assert m - n == ((j - k) * inverse - (m - n) * turns) * WORD by {
      assert (m - n) * PRIME * inverse == (j - k) * WORD * inverse;
    }
    OnlyZero(m - n, (j - k) * inverse - (m - n) * turns);
  }

  lemma OnlyZero(d: int, factor: int)
    requires d == factor * WORD && d < WORD && -d < WORD
    ensures d == 0
  {
  }

  lemma {:induction false} XorTwice(a: nat, b: nat, bits: nat)
    requires a < Power2(bits)
    ensures Xor(a, b, bits) < Power2(bits) && Xor(Xor(a, b, bits), b, bits) == a
  {
    if bits == 0 {
    } else {
      XorTwice(a / 2, b / 2, bits - 1);
      HalfAndBit(Xor(a / 2, b / 2, bits - 1), a, b);
    }
  }

  /** The `k`-th binary digit, from the lowest. */
  function Bit(n: nat, k: nat): nat { if k == 0 then n % 2 else Bit(n / 2, k - 1) }

  /** Each bit of the exclusive or says whether the bits differ. */
  lemma {:induction false} XorBit(a: nat, b: nat, bits: nat, k: nat)
    requires k < bits
    ensures Bit(Xor(a, b, bits), k) == if Bit(a, k) == Bit(b, k) then 0 else 1
  {
    XorHalves(a, b, bits);
    if k > 0 {
      XorBit(a / 2, b / 2, bits - 1, k - 1);
    }
  }

  lemma XorHalves(a: nat, b: nat, bits: nat)
    requires bits > 0
    ensures Xor(a, b, bits) / 2 == Xor(a / 2, b / 2, bits - 1)
    ensures Xor(a, b, bits) % 2 == if a % 2 == b % 2 then 0 else 1
  {
    HalfAndBit(Xor(a / 2, b / 2, bits - 1), a, b);
  }

  lemma HalfAndBit(half: nat, a: nat, b: nat)
    ensures (2 * half + (a + b) % 2) / 2 == half
    ensures (2 * half + (a + b) % 2 + b) % 2 == a % 2
  {
  }

  lemma {:induction false} XorCommutes(a: nat, b: nat, bits: nat)
    ensures Xor(a, b, bits) == Xor(b, a, bits)
  {
    if bits == 0 {
    } else {
      XorCommutes(a / 2, b / 2, bits - 1);
    }
  }

  /** Each step is injective in the running hash ... */
  lemma StepInjectiveInHash(h: nat, g: nat, b: Byte)
    requires h < WORD && g < WORD && Step(h, b) == Step(g, b)
    ensures h == g
  {
    SixtyFourBits();
    XorTwice(h, b as nat, 64);
    XorTwice(g, b as nat, 64);
    TimesPrimeInjective(Xor(h, b as nat, 64), Xor(g, b as nat, 64));
  }

  /** ... and in the byte. */
  lemma StepInjectiveInByte(h: nat, b: Byte, c: Byte)
    requires h < WORD && Step(h, b) == Step(h, c)
    ensures b == c
  {
    var m, n := b as nat, c as nat;
    SixtyFourBits();
    XorCommutes(h, m, 64);
    XorCommutes(h, n, 64);
    XorTwice(m, h, 64);
    XorTwice(n, h, 64);
    TimesPrimeInjective(Xor(m, h, 64), Xor(n, h, 64));
  }

  lemma {:induction false} DigestAppend(hash: nat, a: seq<Byte>, b: seq<Byte>)
    ensures Digest(hash, a + b) == Digest(Digest(hash, a), b)
  {
    if b == [] {
      assert a + b == a;
    } else {
      assert (a + b)[..|a + b| - 1] == a + b[..|b| - 1];
      DigestAppend(hash, a, b[..|b| - 1]);
    }
  }

  /** Different hashes never meet again over the same bytes. */
  lemma {:induction false} DigestInjectiveInHash(h: nat, g: nat, bytes: seq<Byte>)
    requires h < WORD && g < WORD
    ensures Digest(h, bytes) == Digest(g, bytes) <==> h == g
  {
    if bytes == [] {
    } else {
      var init, last := bytes[..|bytes| - 1], bytes[|bytes| - 1];
      DigestInjectiveInHash(h, g, init);
      if Digest(h, bytes) == Digest(g, bytes) {
        DigestInRange(h, init);
        DigestInRange(g, init);
        StepInjectiveInHash(Digest(h, init), Digest(g, init), last);
      }
    }
  }

  /** A common ending can be stripped without changing whether two digests collide. */
  lemma CommonEndingIsIrrelevant(a: seq<Byte>, b: seq<Byte>, ending: seq<Byte>)
    ensures Digest(OFFSET_BASIS, a + ending) == Digest(OFFSET_BASIS, b + ending) <==>
            Digest(OFFSET_BASIS, a) == Digest(OFFSET_BASIS, b)
  {
    DigestAppend(OFFSET_BASIS, a, ending);
    DigestAppend(OFFSET_BASIS, b, ending);
    DigestInRange(OFFSET_BASIS, a);
    DigestInRange(OFFSET_BASIS, b);
    DigestInjectiveInHash(Digest(OFFSET_BASIS, a), Digest(OFFSET_BASIS, b), ending);
  }

  /** Two byte strings of equal length that differ in exactly one position have different digests. */
  lemma OneDifferenceShows(a: seq<Byte>, b: seq<Byte>, i: nat)
    requires |a| == |b| && i < |a|
    requires a[..i] == b[..i] && a[i] != b[i] && a[i + 1..] == b[i + 1..]
    ensures Digest(OFFSET_BASIS, a) != Digest(OFFSET_BASIS, b)
  {
    var start := Digest(OFFSET_BASIS, a[..i]);
    var a1, b1 := a[..i] + [a[i]], b[..i] + [b[i]];
    assert a == a1 + a[i + 1..] && b == b1 + b[i + 1..];
    CommonEndingIsIrrelevant(a1, b1, a[i + 1..]);
    assert a1[..i] == a[..i] && b1[..i] == b[..i];
    if Step(start, a[i]) == Step(start, b[i]) {
      DigestInRange(OFFSET_BASIS, a[..i]);
      StepInjectiveInByte(start, a[i], b[i]);
    }
  }

  // ---- The printed digest ----

  function HexDigit(n: nat): char
    requires n < 16
  {
    "0123456789abcdef"[n]
  }

  /** The last `digits` hexadecimal digits of `n`, most significant first. */
  function Hex(n: nat, digits: nat): string {
    if digits == 0 then "" else Hex(n / 16, digits - 1) + [HexDigit(n % 16)]
  }

  lemma HexDigitInjective(a: nat, b: nat)
    requires a < 16 && b < 16 && HexDigit(a) == HexDigit(b)
    ensures a == b
  {
  }

  predicate IsHexDigit(c: char) { c in "0123456789abcdef" }

  /** The number that hexadecimal digits stand for. */
  function HexValue(digits: string): int {
    if digits == "" then 0
    else
      var c := digits[|digits| - 1];
      16 * HexValue(digits[..|digits| - 1]) + (if '0' <= c <= '9' then c as int - 48 else c as int - 87)
  }

  /** The printed digits stand for the number. */
  lemma {:induction false} HexReads(n: nat, digits: nat)
    requires n < Power16(digits)
    ensures HexValue(Hex(n, digits)) == n
  {
    if digits == 0 {
    } else {
      HexReads(n / 16, digits - 1);
      var all := Hex(n / 16, digits - 1) + [HexDigit(n % 16)];
      assert all[..|all| - 1] == Hex(n / 16, digits - 1);
    }
  }

  /** A digest starts at the offset basis that FNV-1a prescribes for 64 bits, and is printed in hexadecimal. */
  lemma DigestReads(bytes: seq<Byte>)
    ensures Digest(OFFSET_BASIS, []) == 14695981039346656037
    ensures |DigestText(bytes)| == 16 && HexValue(DigestText(bytes)) == Digest(OFFSET_BASIS, bytes)
  {
    SixteenDigits();
    DigestInRange(OFFSET_BASIS, bytes);
    HexIsHexadecimal(Digest(OFFSET_BASIS, bytes), 16);
    HexReads(Digest(OFFSET_BASIS, bytes), 16);
  }

  /** Printed digests have the wanted length and only hexadecimal digits. */
  lemma {:induction false} HexIsHexadecimal(n: nat, digits: nat)
    ensures |Hex(n, digits)| == digits && forall c :: c in Hex(n, digits) ==> IsHexDigit(c)
  {
    if digits == 0 {
    } else {
      HexIsHexadecimal(n / 16, digits - 1);
    }
  }

  lemma {:induction false} HexInjective(a: nat, b: nat, digits: nat)
    requires a < Power16(digits) && b < Power16(digits) && Hex(a, digits) == Hex(b, digits)
    ensures a == b
  {
    if digits == 0 {
    } else {
      var x, y := Hex(a / 16, digits - 1), Hex(b / 16, digits - 1);
      assert (x + [HexDigit(a % 16)])[..|x + [HexDigit(a % 16)]| - 1] == x;
      assert (y + [HexDigit(b % 16)])[..|y + [HexDigit(b % 16)]| - 1] == y;
      assert Hex(a, digits)[|Hex(a, digits)| - 1] == HexDigit(a % 16);
      HexInjective(a / 16, b / 16, digits - 1);
      HexDigitInjective(a % 16, b % 16);
    }
  }

  /** The digest as printed: sixteen hexadecimal digits. */
  function DigestText(bytes: seq<Byte>): string { Hex(Digest(OFFSET_BASIS, bytes), 16) }

  /** Different digests print differently, so hashed values are equal only when their digests are. */
  lemma DigestTextsCollideWithDigests(a: seq<Byte>, b: seq<Byte>)
    ensures DigestText(a) == DigestText(b) <==> Digest(OFFSET_BASIS, a) == Digest(OFFSET_BASIS, b)
  {
    if DigestText(a) == DigestText(b) {
      SixteenDigits();
      DigestInRange(OFFSET_BASIS, a);
      DigestInRange(OFFSET_BASIS, b);
      HexInjective(Digest(OFFSET_BASIS, a), Digest(OFFSET_BASIS, b), 16);
    }
  }

  lemma DigestInRange(hash: nat, bytes: seq<Byte>)
    requires hash < WORD
    ensures Digest(hash, bytes) < WORD
  {
  }
}
