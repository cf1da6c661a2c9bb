/** The registers of the HyperLogLog sketch (crates/statguardian-stats/src/hll.rs). */
module Hll {
  import opened Bits

  const REGISTERS: nat := 16384

  /** A hash is a 64-bit word: its top 14 bits choose a register, the other 50 give the rank. */
  type Hash = h: nat | h < WORD

  function Index(hash: Hash): (i: nat)
    ensures i < REGISTERS
  {
    hash / 0x4_0000_0000_0000
  }

  /** The hash shifted left by 14 bits; what is shifted out is lost. */
  function Remaining(hash: Hash): Hash { (hash * 0x4000) % WORD }

  /** Leading zeros of a number of the given width. */
  function LeadingZeros(x: nat, bits: nat): (n: nat)
    ensures n <= bits
  {
    if bits == 0 || x >= Power2(bits - 1) then 0 else 1 + LeadingZeros(x, bits - 1)
  }

  function Rank(hash: Hash): nat { LeadingZeros(Remaining(hash), 64) + 1 }

  function Max(a: nat, b: nat): nat { if a >= b then a else b }

  /** The registers after one more hash. */
  function Raised(registers: seq<nat>, hash: Hash): seq<nat>
    requires |registers| == REGISTERS
  {
    registers[Index(hash) := Max(registers[Index(hash)], Rank(hash))]
  }

  class HyperLogLog {
    const registers: array<nat>

    ghost predicate Valid() { registers.Length == REGISTERS }

    constructor ()
      ensures Valid() && fresh(registers) && registers[..] == Empty()
    {
      registers := new nat[REGISTERS](_ => 0);
    }

    method Add(hash: Hash)
      requires Valid()
      modifies registers
      ensures registers[..] == Raised(old(registers[..]), hash)
    {
      var index := Index(hash);
      var rank := LeadingZeros(Remaining(hash), 64) + 1;
      registers[index] := if registers[index] >= rank then registers[index] else rank;
    }
  }

  function Empty(): seq<nat> { seq(REGISTERS, _ => 0) }

  function RegistersOf(hashes: seq<Hash>): (r: seq<nat>)
    ensures |r| == REGISTERS
  {
    if hashes == [] then Empty() else Raised(RegistersOf(hashes[..|hashes| - 1]), hashes[|hashes| - 1])
  }

  // ---- Each register is the largest rank of its hashes ----

  /** `m` is the largest rank among the hashes that choose register `i`, or 0 when none does. */
  ghost predicate IsLargestRank(hashes: seq<Hash>, i: nat, m: nat) {
    && (forall h :: h in hashes && Index(h) == i ==> Rank(h) <= m)
    && (m == 0 || exists h :: h in hashes && Index(h) == i && Rank(h) == m)
  }

  lemma {:induction false} RegistersAreLargestRanks(hashes: seq<Hash>, i: nat)
    requires i < REGISTERS
    ensures IsLargestRank(hashes, i, RegistersOf(hashes)[i])
  {
    if hashes == [] {
    } else {
      var init, last := hashes[..|hashes| - 1], hashes[|hashes| - 1];
      RegistersAreLargestRanks(init, i);
      assert hashes == init + [last];
      var m := RegistersOf(init)[i];
      if m != 0 {
        var h :| h in init && Index(h) == i && Rank(h) == m;
        assert h in hashes;
      }
    }
  }

  lemma LargestRankIsUnique(a: seq<Hash>, b: seq<Hash>, i: nat, m: nat, n: nat)
    requires forall h :: h in a <==> h in b
    requires IsLargestRank(a, i, m) && IsLargestRank(b, i, n)
    ensures m == n
  {
  }

  /** The sketch depends only on the set of hashes: order and repetition do not matter. */
  lemma OnlyTheSetMatters(a: seq<Hash>, b: seq<Hash>)
    requires forall h :: h in a <==> h in b
    ensures RegistersOf(a) == RegistersOf(b)
  {
    forall i: nat | i < REGISTERS ensures RegistersOf(a)[i] == RegistersOf(b)[i] {
      RegistersAreLargestRanks(a, i);
      RegistersAreLargestRanks(b, i);
      LargestRankIsUnique(a, b, i, RegistersOf(a)[i], RegistersOf(b)[i]);
    }
  }

  /** Adding a known hash changes nothing. */
  lemma KnownHashChangesNothing(hashes: seq<Hash>, hash: Hash)
    requires hash in hashes
    ensures Raised(RegistersOf(hashes), hash) == RegistersOf(hashes)
  {
  }

  /** The sketch of two inputs together is the register-wise maximum of their sketches. */
  lemma {:induction false} UnionIsMaximum(a: seq<Hash>, b: seq<Hash>, i: nat)
    requires i < REGISTERS
    ensures RegistersOf(a + b)[i] == Max(RegistersOf(a)[i], RegistersOf(b)[i])
  {
    if b == [] {
      assert a + b == a;
    } else {
      var init := b[..|b| - 1];
      assert (a + b)[..|a + b| - 1] == a + init;
      UnionIsMaximum(a, init, i);
    }
  }

  // ---- Which ranks there are ----

  function Tail(hash: Hash): nat { hash % 0x4_0000_0000_0000 }

  /** The index is what stands before the lower 50 bits of the hash. */
  lemma HashSplits(hash: Hash)
    ensures hash == Index(hash) * Power2(50) + Tail(hash) && Tail(hash) < Power2(50)
  {
    FiftyBits();
  }

  lemma RemainingIsShiftedTail(hash: Hash)
    ensures Remaining(hash) == Tail(hash) * 0x4000 && Tail(hash) < Power2(50)
  {
    FiftyBits();
    var k := hash / 0x4_0000_0000_0000;
    assert hash * 0x4000 == k * WORD + Tail(hash) * 0x4000;
    MultiplesDrop(k, Tail(hash) * 0x4000);
  }

  lemma {:induction false} MultiplesDrop(k: nat, rest: nat)
    requires rest < WORD
    ensures (k * WORD + rest) % WORD == rest
  {
    if k == 0 {
    } else {
      MultiplesDrop(k - 1, rest);
      assert k * WORD + rest == ((k - 1) * WORD + rest) + WORD;
    }
  }

  lemma FiftyBits()
    ensures Power2(50) == 0x4_0000_0000_0000 && Power2(14) == 0x4000
  {
    HexDigitsAreFourBits(12);
    HexDigitsAreFourBits(3);
    TwelveDigits();
    assert Power2(50) == 2 * Power2(49) == 4 * Power2(48);
    assert Power2(14) == 2 * Power2(13) == 4 * Power2(12);
  }

  lemma {:induction false} ShiftKeepsLeadingZeros(x: nat, bits: nat, shift: nat)
    requires 0 < x < Power2(bits)
    ensures LeadingZeros(x * Power2(shift), bits + shift) == LeadingZeros(x, bits)
  {
    var half := Power2(bits - 1);
    PowersMultiply(bits - 1, shift);
    ProductKeepsOrder(x, half, Power2(shift));
    if x < half {
      ShiftKeepsLeadingZeros(x, bits - 1, shift);
    }
  }

  lemma ProductKeepsOrder(x: nat, y: nat, m: nat)
    requires m > 0
    ensures x * m >= y * m <==> x >= y
  {
  }

  lemma {:induction false} ZeroIsAllZeros(bits: nat)
    ensures LeadingZeros(0, bits) == bits
  {
    if bits == 0 {
    } else {
      ZeroIsAllZeros(bits - 1);
    }
  }

  lemma {:induction false} ZerosBoundTheNumber(x: nat, bits: nat)
    requires 0 < x < Power2(bits)
    ensures LeadingZeros(x, bits) < bits
    ensures Power2(bits - 1 - LeadingZeros(x, bits)) <= x < Power2(bits - LeadingZeros(x, bits))
  {
    if x >= Power2(bits - 1) {
    } else {
      ZerosBoundTheNumber(x, bits - 1);
    }
  }

  /** The rank is 65 when the lower 50 bits are zero; otherwise it is 1 to 50 and locates their highest bit. */
  lemma RankMeaning(hash: Hash)
    ensures Tail(hash) == 0 ==> Rank(hash) == 65
    ensures Tail(hash) > 0 ==> 1 <= Rank(hash) <= 50 && Power2(50 - Rank(hash)) <= Tail(hash) < Power2(51 - Rank(hash))
  {
    RankOfZeroTail(hash);
    if Tail(hash) > 0 {
      RankIsZerosOfTail(hash);
      ZerosLocate(Tail(hash), 50, Rank(hash));
    }
  }

  lemma ZerosLocate(x: nat, bits: nat, rank: nat)
    requires 0 < x < Power2(bits) && rank == LeadingZeros(x, bits) + 1
    ensures 1 <= rank <= bits && Power2(bits - rank) <= x < Power2(bits + 1 - rank)
  {
    ZerosBoundTheNumber(x, bits);
  }

  lemma RankOfZeroTail(hash: Hash)
    ensures Tail(hash) == 0 ==> Rank(hash) == 65
  {
    RemainingIsShiftedTail(hash);
    ZeroIsAllZeros(64);
  }

  lemma RankIsZerosOfTail(hash: Hash)
    requires Tail(hash) > 0
    ensures Tail(hash) < Power2(50) && Rank(hash) == LeadingZeros(Tail(hash), 50) + 1
  {
    RemainingIsShiftedTail(hash);
    FiftyBits();
    ShiftKeepsLeadingZeros(Tail(hash), 50, 14);
  }

  /** Every register is 0, between 1 and 50, or exactly 65. */
  lemma RegisterValues(hashes: seq<Hash>, i: nat)
    requires i < REGISTERS
    ensures RegistersOf(hashes)[i] <= 50 || RegistersOf(hashes)[i] == 65
    ensures RegistersOf(hashes)[i] == 65 <==> exists h :: h in hashes && Index(h) == i && Tail(h) == 0
    ensures RegistersOf(hashes)[i] == 0 <==> forall h :: h in hashes ==> Index(h) != i
  {
    RegistersAreLargestRanks(hashes, i);
    forall h | h in hashes ensures if Tail(h) == 0 then Rank(h) == 65 else 1 <= Rank(h) <= 50 {
      RankMeaning(h);
    }
  }
}
