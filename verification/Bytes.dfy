/** Bytes, powers of two and the big-endian value of a byte string. */
module Bytes {

  datatype Option<+T> = None | Some(value: T)

  type Byte = b: int | 0 <= b < 256

  type U64 = n: int | 0 <= n < 0x1_0000_0000_0000_0000

  const U64_MAX := 0xFFFF_FFFF_FFFF_FFFF

  function Pow2(n: nat): (p: nat)
    ensures p >= 1
  {
    if n == 0 then 1 else 2 * Pow2(n - 1)
  }

  lemma ProductMonotone(a: int, b: int, c: nat)
    requires a <= b
    ensures a * c <= b * c
  {
  }

  lemma {:induction false} Pow2Add(a: nat, b: nat)
    ensures Pow2(a + b) == Pow2(a) * Pow2(b)
  {
    if a == 0 {
    } else {
      Pow2Add(a - 1, b);
      assert Pow2(a + b) == 2 * Pow2(a - 1 + b);
      assert 2 * (Pow2(a - 1) * Pow2(b)) == (2 * Pow2(a - 1)) * Pow2(b);
    }
  }

  lemma {:induction false} Pow2Monotone(a: nat, b: nat)
    requires a <= b
    ensures Pow2(a) <= Pow2(b)
  {
    if a == b {
    } else {
      Pow2Monotone(a, b - 1);
    }
  }

  /** The big-endian value, most significant byte first. */
  function Value(bytes: seq<Byte>): nat {
    if bytes == [] then 0 else 256 * Value(bytes[..|bytes| - 1]) + bytes[|bytes| - 1]
  }

  lemma Pow2Step8(n: nat)
    ensures Pow2(n + 8) == 256 * Pow2(n)
  {
    assert Pow2(8) == 256;
    Pow2Add(8, n);
  }

  /** The value as seen from the most significant byte. */
  lemma {:induction false} ValueFromHead(bytes: seq<Byte>)
    requires bytes != []
    ensures Value(bytes) == bytes[0] * Pow2(8 * (|bytes| - 1)) + Value(bytes[1..])
  {
    var n := |bytes|;
    if n == 1 {
      assert bytes[..0] == [] && bytes[1..] == [];
    } else {
      var front, rest := bytes[..n - 1], bytes[1..];
      ValueFromHead(front);
      assert front[1..] == rest[..n - 2];
      Pow2Step8(8 * (n - 2));
      ScaleBy256(bytes[0], Pow2(8 * (n - 2)), Pow2(8 * (n - 1)));
    }
  }

  lemma ScaleBy256(b: int, p: int, q: int)
    requires q == 256 * p
    ensures 256 * (b * p) == b * q
  {
  }

  /** `n` bytes encode exactly the numbers below 256^n. */
  lemma {:induction false} ValueBound(bytes: seq<Byte>)
    ensures Value(bytes) < Pow2(8 * |bytes|)
  {
    if bytes == [] {
    } else {
      ValueBound(bytes[..|bytes| - 1]);
      Pow2Step8(8 * (|bytes| - 1));
    }
  }

  /** Byte strings of one length are determined by their value. */
  lemma {:induction false} ValueInjective(a: seq<Byte>, b: seq<Byte>)
    requires |a| == |b| && Value(a) == Value(b)
    ensures a == b
  {
    if a == [] {
    } else {
      var n := |a| - 1;
      ValueInjective(a[..n], b[..n]);
      assert a == a[..n] + [a[n]] && b == b[..n] + [b[n]];
    }
  }
}
