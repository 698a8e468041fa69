/** The proof-of-work predicate: leading zero bits of a digest against a difficulty. */
module ProofOfWork {
  import opened Bytes

  /** A SHA-256 digest. */
  type Digest = d: seq<Byte> | |d| == 32 witness seq(32, _ => 0)

  predicate AllZero(bytes: seq<Byte>) {
    forall i :: 0 <= i < |bytes| ==> bytes[i] == 0
  }

  /** Leading zero bits of a non-zero byte: how often it can be doubled before its top bit is set. */
  function ByteZeros(b: Byte): (z: nat)
    requires b != 0
    ensures z <= 7
    ensures Pow2(7 - z) <= b < Pow2(8 - z)
    decreases 256 - b
  {
    assert Pow2(0) == 1 && Pow2(1) == 2 && Pow2(7) == 128 && Pow2(8) == 256;
    if b >= 128 then 0 else
      var z := ByteZeros(2 * b);
      assert z != 7;
      assert Pow2(7 - z) == 2 * Pow2(6 - z) && Pow2(8 - z) == 2 * Pow2(7 - z);
      1 + z
  }

  /** Leading zero bits of a byte string, counted in unbounded integers. */
  function LeadingZeros(bytes: seq<Byte>): (z: nat)
    ensures z <= 8 * |bytes|
    ensures z == 8 * |bytes| <==> AllZero(bytes)
  {
    if bytes == [] then 0
    else if bytes[0] == 0 then
      assert AllZero(bytes) <==> AllZero(bytes[1..]) by {
        assert forall i :: 0 < i < |bytes| ==> bytes[i] == bytes[1..][i - 1];
      }
      8 + LeadingZeros(bytes[1..])
    else ByteZeros(bytes[0])
  }

  /** Having at least `d` leading zero bits is being below 2^(8n - d). */
  lemma {:induction false} LeadingZerosIsThreshold(bytes: seq<Byte>, d: nat)
    requires d <= 8 * |bytes|
    ensures LeadingZeros(bytes) >= d <==> Value(bytes) < Pow2(8 * |bytes| - d)
  {
    if bytes == [] {
    } else if bytes[0] != 0 {
      NonZeroHead(bytes, d);
    } else {
      ZeroHead(bytes);
      hide Value, Pow2, LeadingZeros;
      if d >= 8 {
        LeadingZerosIsThreshold(bytes[1..], d - 8);
        assert 8 * |bytes[1..]| - (d - 8) == 8 * |bytes| - d;
      } else {
        Pow2Monotone(8 * |bytes[1..]|, 8 * |bytes| - d);
      }
    }
  }

  lemma ZeroHead(bytes: seq<Byte>)
    requires bytes != [] && bytes[0] == 0
    ensures LeadingZeros(bytes) == 8 + LeadingZeros(bytes[1..])
    ensures Value(bytes) == Value(bytes[1..]) < Pow2(8 * |bytes[1..]|)
  {
    ValueFromHead(bytes);
    ValueBound(bytes[1..]);
    hide Value, Pow2;
  }

  lemma NonZeroHead(bytes: seq<Byte>, d: nat)
    requires bytes != [] && bytes[0] != 0 && d <= 8 * |bytes|
    ensures LeadingZeros(bytes) >= d <==> Value(bytes) < Pow2(8 * |bytes| - d)
  {
    ValueFromHead(bytes);
    ValueBound(bytes[1..]);
    hide Value, Pow2;
    HeadThreshold(bytes[0], Value(bytes[1..]), 8 * |bytes[1..]|, d);
  }

  /** A non-zero leading byte alone decides the comparison with a power of two. */
  lemma HeadThreshold(b: Byte, low: nat, r: nat, d: nat)
    requires b != 0 && low < Pow2(r) && d <= r + 8
    ensures ByteZeros(b) >= d <==> b * Pow2(r) + low < Pow2(r + 8 - d)
  {
    hide ByteZeros, Pow2;
    if d <= ByteZeros(b) {
      HeadBelow(b, low, r, d);
    } else {
      HeadAbove(b, low, r, d);
    }
  }

  lemma HeadBelow(b: Byte, low: nat, r: nat, d: nat)
    requires b != 0 && d <= ByteZeros(b) && low < Pow2(r)
    ensures b * Pow2(r) + low < Pow2(r + 8 - d)
  {
    hide ByteZeros, Pow2;
    Pow2Monotone(8 - ByteZeros(b), 8 - d);
    Pow2Add(8 - d, r);
    ProductMonotone(b + 1, Pow2(8 - d), Pow2(r));
    assert (b + 1) * Pow2(r) == b * Pow2(r) + Pow2(r);
  }

  lemma HeadAbove(b: Byte, low: nat, r: nat, d: nat)
    requires b != 0 && ByteZeros(b) < d <= r + 8
    ensures b * Pow2(r) + low >= Pow2(r + 8 - d)
  {
    hide ByteZeros, Pow2;
    var e := 7 - ByteZeros(b);
    Pow2Monotone(r + 8 - d, e + r);
    Pow2Add(e, r);
    ProductMonotone(Pow2(e), b, Pow2(r));
  }

  /** Addition of two `u8` values as the release profile does it. */
  function WrappingAdd(a: Byte, b: Byte): (c: Byte)
    ensures c == if a + b < 256 then a + b else a + b - 256
  {
    (a + b) % 256
  }

  /** Reduction to a `u8`. */
  function Wrap(n: nat): Byte { n % 256 }

  lemma WrapAdd(a: nat, b: Byte)
    ensures WrappingAdd(Wrap(a), b) == Wrap(a + b)
  {
  }

  /** The server's count. The accumulator is a `u8`, which wraps in the release profile. */
  method CountLeadingZeros(data: seq<Byte>) returns (count: Byte)
    ensures count == Wrap(LeadingZeros(data))
  {
    hide Wrap, WrappingAdd, ByteZeros;
    count := 0;
    var i := 0;
    assert Wrap(0) == 0 by { WrapZero(); }
    while i < |data|
      invariant 0 <= i <= |data|
      invariant count == Wrap(8 * i)
      invariant LeadingZeros(data) == 8 * i + LeadingZeros(data[i..])
    {
      assert data[i..][1..] == data[i + 1..];
      if data[i] == 0 {
        WrapAdd(8 * i, 8);
        count := WrappingAdd(count, 8);
      } else {
        WrapAdd(8 * i, ByteZeros(data[i]));
        count := WrappingAdd(count, ByteZeros(data[i]));
        break;
      }
      i := i + 1;
    }
  }

  lemma WrapZero()
    ensures Wrap(0) == 0
  {
  }

  lemma WrapDigestCount(n: nat)
    requires n <= 256
    ensures Wrap(n) == if n == 256 then 0 else n
  {
  }

  /** What the server compares with the difficulty. */
  function ServerCount(digest: Digest): (count: Byte)
    ensures !AllZero(digest) ==> count == LeadingZeros(digest)
    ensures AllZero(digest) ==> count == 0
  {
    WrapDigestCount(LeadingZeros(digest));
    Wrap(LeadingZeros(digest))
  }

  predicate ServerAccepts(digest: Digest, difficulty: Byte) {
    ServerCount(digest) >= difficulty
  }

  /** Below the target 2^(256 - difficulty): what a proof of work of that difficulty means. */
  ghost predicate MeetsTarget(digest: Digest, difficulty: Byte) {
    Value(digest) < Pow2(256 - difficulty)
  }

  /** The server accepts exactly the digests below the target, save the all-zero one. */
  lemma ServerAcceptsIffBelowTarget(digest: Digest, difficulty: Byte)
    ensures ServerAccepts(digest, difficulty)
       <==> MeetsTarget(digest, difficulty) && (AllZero(digest) ==> difficulty == 0)
  {
    LeadingZerosIsThreshold(digest, difficulty);
    hide LeadingZeros, Value, Pow2, Wrap, AllZero;
  }
}
