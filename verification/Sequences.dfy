/** Small vocabulary shared by the model: bytes, optional values, results and flattening. */
module Sequences {
  newtype Byte = b: int | 0 <= b < 256

  datatype Option<+T> = None | Some(value: T)

  datatype Result<+T, +E> = Ok(value: T) | Err(error: E)

  function Flatten<T>(parts: seq<seq<T>>): seq<T> {
    if parts == [] then [] else parts[0] + Flatten(parts[1..])
  }

  lemma Regroup<T>(a: seq<T>, b: seq<T>, c: seq<T>)
    ensures (a + b) + c == a + (b + c)
  {
  }

  lemma {:induction false} FlattenAppend<T>(a: seq<seq<T>>, b: seq<seq<T>>)
    ensures Flatten(a + b) == Flatten(a) + Flatten(b)
  {
    if a == [] {
      assert a + b == b;
    } else {
      assert (a + b)[1..] == a[1..] + b;
      FlattenAppend(a[1..], b);
    }
  }

  /** The positions of the elements that pass a test. */
  ghost function Positions<T>(s: seq<T>, test: T -> bool): set<nat> { set k: nat | k < |s| && test(s[k]) }

  lemma PositionsOfMore<T>(s: seq<T>, x: T, test: T -> bool)
    ensures |Positions(s + [x], test)| == |Positions(s, test)| + (if test(x) then 1 else 0)
  {
    var all := s + [x];
    assert forall k: nat :: k < |s| ==> all[k] == s[k];
    assert Positions(all, test) == Positions(s, test) + (if test(x) then {|s|} else {});
  }

  /** A number in decimal digits. */
  function Decimal(n: nat): string {
    if n < 10 then [('0' as int + n) as char] else Decimal(n / 10) + [('0' as int + n % 10) as char]
  }

  /** The number that decimal digits stand for. */
  function NumberOf(digits: string): int {
    if digits == "" then 0 else 10 * NumberOf(digits[..|digits| - 1]) + (digits[|digits| - 1] as int - 48)
  }

  /** A number is written in digits, without leading zeros, and they stand for it. */
  lemma {:induction false} DecimalReads(n: nat)
    ensures Decimal(n) != "" && forall c :: c in Decimal(n) ==> '0' <= c <= '9'
    ensures NumberOf(Decimal(n)) == n && (n >= 10 ==> Decimal(n)[0] != '0')
  {
    if n < 10 {
      assert Decimal(n)[..0] == "";
    } else {
      var init, last := Decimal(n / 10), ('0' as int + n % 10) as char;
      DecimalReads(n / 10);
      assert Decimal(n) == init + [last] && Decimal(n)[..|init|] == init;
      assert n / 10 < 10 ==> init == [('0' as int + n / 10) as char];
    }
  }
}
