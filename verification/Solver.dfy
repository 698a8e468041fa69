/** The browser solver: hexadecimal strings, its own leading-zero count and the candidate search. */
module Solver {
  import opened Bytes
  import opened ProofOfWork

  // ---------- hexadecimal ----------

  predicate IsHexDigit(c: char) {
    '0' <= c <= '9' || 'a' <= c <= 'f' || 'A' <= c <= 'F'
  }

  predicate IsHex(s: string) {
    forall i :: 0 <= i < |s| ==> IsHexDigit(s[i])
  }

  function DigitValue(c: char): (d: int)
    requires IsHexDigit(c)
    ensures 0 <= d < 16
  {
    if c <= '9' then c as int - '0' as int
    else if c <= 'F' then c as int - 'A' as int + 10
    else c as int - 'a' as int + 10
  }

  function DigitChar(d: int): (c: char)
    requires 0 <= d < 16
    ensures IsHexDigit(c) && DigitValue(c) == d
  {
    if d < 10 then '0' + d as char else 'a' + (d - 10) as char
  }

  /** Chunks of one or two characters, each parsed in base 16. */
  function DecodeHex(s: string): (bytes: seq<Byte>)
    requires IsHex(s)
    ensures |bytes| == (|s| + 1) / 2
  {
    if s == "" then []
    else if |s| == 1 then [DigitValue(s[0])]
    else [16 * DigitValue(s[0]) + DigitValue(s[1])] + DecodeHex(s[2..])
  }

  /** Two lower-case digits a byte. */
  function EncodeHex(bytes: seq<Byte>): (s: string)
    ensures IsHex(s) && |s| == 2 * |bytes|
  {
    if bytes == [] then ""
    else [DigitChar(bytes[0] / 16), DigitChar(bytes[0] % 16)] + EncodeHex(bytes[1..])
  }

  lemma {:induction false} HexRoundTrip(bytes: seq<Byte>)
    ensures DecodeHex(EncodeHex(bytes)) == bytes
  {
    if bytes == [] {
    } else {
      HexRoundTrip(bytes[1..]);
      assert EncodeHex(bytes)[2..] == EncodeHex(bytes[1..]);
    }
  }

  /** The digits, in either case. */
  lemma Digits(d: nat)
    requires d < 16
    ensures DigitChar(d) == "0123456789abcdef"[d]
    ensures var (lower, upper) := ("0123456789abcdef"[d], "0123456789ABCDEF"[d]);
      IsHexDigit(lower) && DigitValue(lower) == d && IsHexDigit(upper) && DigitValue(upper) == d
  {
  }

  /** The number that a string of digits denotes in base 16. */
  function HexNumber(s: string): nat
    requires IsHex(s)
  {
    if s == "" then 0 else 16 * HexNumber(s[..|s| - 1]) + DigitValue(s[|s| - 1])
  }

  lemma HexNumberLast(s: string)
    requires IsHex(s) && s != ""
    ensures HexNumber(s) == 16 * HexNumber(s[..|s| - 1]) + DigitValue(s[|s| - 1])
  {
  }

  /** One chunk is one byte, the number its digits denote. */
  lemma DecodeChunk(t: string)
    requires IsHex(t) && 1 <= |t| <= 2
    ensures DecodeHex(t) == [HexNumber(t)]
  {
    HexNumberLast(t);
    if |t| == 2 { HexNumberLast(t[..1]); }
    assert DecodeHex("") == [] && HexNumber("") == 0;
    hide HexNumber;
    assert t[..|t| - 1][..0] == "" && (|t| == 2 ==> t[2..] == "");
  }

  lemma DecodeFirst(s: string)
    requires IsHex(s) && |s| >= 2
    ensures DecodeHex(s) == [16 * DigitValue(s[0]) + DigitValue(s[1])] + DecodeHex(s[2..])
  {
  }

  /** The last chunk of a string is decoded into the last byte. */
  lemma {:induction false} DecodeLast(s: string, t: string)
    requires IsHex(s) && IsHex(t) && |s| % 2 == 0 && 1 <= |t| <= 2
    ensures DecodeHex(s + t) == DecodeHex(s) + [HexNumber(t)]
  {
    DecodeChunk(t);
    assert DecodeHex("") == [];
    hide DecodeHex, HexNumber, DigitValue, IsHexDigit;
    if s == "" {
      assert s + t == t;
    } else {
      assert (s + t)[2..] == s[2..] + t;
      DecodeFirst(s);
      DecodeFirst(s + t);
      DecodeLast(s[2..], t);
    }
  }

  /** Whole pairs of digits are read as one number, the most significant digit first. */
  lemma {:induction false} DecodedValue(s: string)
    requires IsHex(s) && |s| % 2 == 0
    ensures Value(DecodeHex(s)) == HexNumber(s)
  {
    if s == "" {
    } else {
      var n := |s| - 2;
      var front, t := s[..n], s[n..];
      DecodedValue(front);
      assert HexNumber("") == 0;
      hide DecodeHex, HexNumber, DigitValue, IsHexDigit;
      assert s == front + t && s[..n + 1][..n] == front && t[..1][..0] == "";
      DecodeLast(front, t);
      ValueOfLast(DecodeHex(front), HexNumber(t));
      HexNumberLast(s);
      HexNumberLast(s[..n + 1]);
      HexNumberLast(t);
      HexNumberLast(t[..1]);
    }
  }

  lemma ValueOfLast(bytes: seq<Byte>, b: Byte)
    ensures Value(bytes + [b]) == 256 * Value(bytes) + b
  {
    assert (bytes + [b])[..|bytes|] == bytes;
  }

  /** And the encoding denotes the value of the bytes. */
  lemma EncodedValue(bytes: seq<Byte>)
    ensures HexNumber(EncodeHex(bytes)) == Value(bytes)
  {
    HexRoundTrip(bytes);
    DecodedValue(EncodeHex(bytes));
  }

  // ---------- the leading-zero count ----------

  /** A number in base 2 without padding. */
  function ToBinary(b: nat): (s: string)
    ensures s != ""
  {
    (if b < 2 then "" else ToBinary(b / 2)) + (if b % 2 == 1 then "1" else "0")
  }

  function PadStart(s: string, width: nat): string {
    if |s| >= width then s else seq(width - |s|, _ => '0') + s
  }

  /** The first position of a character, or -1. */
  function IndexOf(s: string, c: char): (i: int)
    ensures i == -1 ==> c !in s
    ensures i != -1 ==> 0 <= i < |s| && s[i] == c
    ensures forall j :: 0 <= j < i ==> s[j] != c
  {
    if s == "" then -1
    else if s[0] == c then 0
    else
      var i := IndexOf(s[1..], c);
      if i == -1 then -1 else i + 1
  }

  lemma {:induction false} BinaryLength(b: nat)
    requires b >= 1
    ensures var s := ToBinary(b); s[0] == '1' && Pow2(|s| - 1) <= b < Pow2(|s|)
  {
    assert Pow2(0) == 1 && Pow2(1) == 2;
    if b == 1 {
    } else {
      BinaryLength(b / 2);
    }
  }

  /** Position of the first one in the padded binary digits is the byte's number of leading zeros. */
  lemma PaddedIndexIsByteZeros(b: Byte)
    requires b != 0
    ensures IndexOf(PadStart(ToBinary(b), 8), '1') == ByteZeros(b)
  {
    BinaryLengthIsComplement(b);
    var digits := ToBinary(b);
    BinaryLength(b);
    FirstAfterPadding(digits, 8);
  }

  lemma BinaryLengthIsComplement(b: Byte)
    requires b != 0
    ensures |ToBinary(b)| == 8 - ByteZeros(b)
  {
    BinaryLength(b);
    hide Pow2, ToBinary, ByteZeros;
    BitLengthUnique(b, |ToBinary(b)|, 8 - ByteZeros(b));
  }

  lemma BitLengthUnique(b: nat, m: nat, n: nat)
    requires m > 0 && Pow2(m - 1) <= b < Pow2(m)
    requires n > 0 && Pow2(n - 1) <= b < Pow2(n)
    ensures m == n
  {
    hide Pow2;
    if m < n { Pow2Monotone(m, n - 1); }
    if n < m { Pow2Monotone(n, m - 1); }
  }

  lemma FirstAfterPadding(digits: string, width: nat)
    requires 0 < |digits| <= width && digits[0] == '1'
    ensures IndexOf(PadStart(digits, width), '1') == width - |digits|
  {
    var padded, z := PadStart(digits, width), width - |digits|;
    var i := IndexOf(padded, '1');
    assert padded[z] == '1';
  }

  /** The solver's count, over unbounded numbers. */
  method CountLeadingZeros(data: seq<Byte>) returns (count: nat)
    ensures count == LeadingZeros(data)
  {
    count := 0;
    var i := 0;
    while i < |data|
      invariant 0 <= i <= |data|
      invariant LeadingZeros(data) == count + LeadingZeros(data[i..])
    {
      assert data[i..][1..] == data[i + 1..];
      if data[i] == 0 {
        count := count + 8;
      } else {
        PaddedIndexIsByteZeros(data[i]);
        count := count + IndexOf(PadStart(ToBinary(data[i]), 8), '1');
        break;
      }
      i := i + 1;
    }
  }

  // ---------- the search ----------

  /** An 8-byte candidate the solver stops at. */
  predicate Solves(hash: seq<Byte> -> Digest, salt: seq<Byte>, nonce: seq<Byte>, difficulty: Byte,
                   candidate: seq<Byte>) {
    |candidate| == 8 && LeadingZeros(hash(salt + nonce + candidate)) >= difficulty
  }

  /** The carry loop as a function: the next byte string of the same length, wrapping to zeros. */
  function Successor(bytes: seq<Byte>): (next: seq<Byte>)
    ensures |next| == |bytes|
  {
    if bytes == [] then []
    else
      var front, last := bytes[..|bytes| - 1], bytes[|bytes| - 1];
      if last < 255 then front + [last + 1] else Successor(front) + [0]
  }

  /** The carry loop adds one, modulo 256^n. */
  lemma {:induction false} SuccessorAddsOne(bytes: seq<Byte>)
    ensures Value(Successor(bytes)) == if Value(bytes) + 1 == Pow2(8 * |bytes|) then 0 else Value(bytes) + 1
  {
    if bytes == [] {
    } else {
      var n := |bytes| - 1;
      var front := bytes[..n];
      ValueBound(front);
      Pow2Step8(8 * n);
      if bytes[n] < 255 {
        ValueAppend(front, bytes[n] + 1);
      } else {
        SuccessorAddsOne(front);
        ValueAppend(Successor(front), 0);
      }
    }
  }

  lemma ValueAppend(front: seq<Byte>, last: Byte)
    ensures Value(front + [last]) == 256 * Value(front) + last
  {
    assert (front + [last])[..|front|] == front;
  }

  /** What the carry loop leaves behind when it stops at position `i`, or runs off the front (`i == -1`). */
  ghost predicate Carried(before: seq<Byte>, after: seq<Byte>, i: int) {
    && |before| == |after| && -1 <= i < |before|
    && (forall j :: 0 <= j < i ==> after[j] == before[j])
    && (forall j :: i < j < |before| ==> before[j] == 255 && after[j] == 0)
    && (i >= 0 ==> before[i] < 255 && after[i] == before[i] + 1)
  }

  lemma {:induction false} CarriedIsSuccessor(before: seq<Byte>, after: seq<Byte>, i: int)
    requires Carried(before, after, i)
    ensures after == Successor(before)
  {
    if before == [] {
    } else {
      var n := |before| - 1;
      if i < n { CarriedIsSuccessor(before[..n], after[..n], i); }
      assert after == after[..n] + [after[n]];
      assert i == n ==> after[..n] == before[..n];
    }
  }

  /** Adds one to the big-endian number in the array, in place. */
  method Increment(solution: array<Byte>)
    modifies solution
    ensures solution[..] == Successor(old(solution[..]))
  {
    hide Successor;
    ghost var before := solution[..];
    var i := solution.Length - 1;
    while i >= 0
      invariant -1 <= i < solution.Length
      invariant forall j :: 0 <= j <= i ==> solution[j] == before[j]
      invariant forall j :: i < j < solution.Length ==> before[j] == 255 && solution[j] == 0
    {
      if solution[i] < 0xFF {
        solution[i] := solution[i] + 1;
        break;
      } else {
        solution[i] := 0;
      }
      i := i - 1;
    }
    assert Carried(before, solution[..], i);
    CarriedIsSuccessor(before, solution[..], i);
  }

  /** The candidate tried in round `n`. */
  function Candidate(n: nat): (c: seq<Byte>)
    ensures |c| == 8
  {
    if n == 0 then [0, 0, 0, 0, 0, 0, 0, 0] else Successor(Candidate(n - 1))
  }

  const TWO_64 := 0x1_0000_0000_0000_0000

  lemma EightBytesHold64Bits(c: seq<Byte>)
    requires |c| == 8
    ensures Pow2(8 * |c|) == TWO_64 && Value(c) < TWO_64
  {
    ValueBound(c);
    Pow2Of64(8 * |c|);
  }

  lemma Pow2Of64(n: nat)
    requires n == 64
    ensures Pow2(n) == TWO_64
  {
    var e, q, h := n / 8, n / 4, n / 2;
    assert Pow2(8) == 256;
    Pow2Add(e, e);
    assert Pow2(q) == 0x1_0000;
    Pow2Add(q, q);
    assert Pow2(h) == 0x1_0000_0000;
    Pow2Add(h, h);
  }

  lemma NextCandidate(n: nat)
    ensures Candidate(n + 1) == Successor(Candidate(n))
  {
  }

  lemma CountMod(n: nat)
    ensures (n + 1) % TWO_64 == if n % TWO_64 + 1 == TWO_64 then 0 else n % TWO_64 + 1
  {
  }

  lemma {:induction false} CandidateValue(n: nat)
    ensures Value(Candidate(n)) == n % TWO_64
  {
    if n == 0 {
      ValueOfZeros(Candidate(0));
    } else {
      NextCandidate(n - 1);
      CountMod(n - 1);
      hide Successor, Value, Pow2, Candidate;
      CandidateValue(n - 1);
      EightBytesHold64Bits(Candidate(n - 1));
      SuccessorAddsOne(Candidate(n - 1));
    }
  }

  lemma {:induction false} ValueOfZeros(zeros: seq<Byte>)
    requires AllZero(zeros)
    ensures Value(zeros) == 0
  {
    if zeros == [] {
    } else {
      ValueOfZeros(zeros[..|zeros| - 1]);
    }
  }

  /** The rounds visit every 8-byte string, in numerical order, once every 2^64 rounds. */
  lemma EveryStringIsACandidate(candidate: seq<Byte>, laps: nat)
    requires |candidate| == 8
    ensures Value(candidate) < TWO_64
    ensures Candidate(Value(candidate) + laps * TWO_64) == candidate
  {
    hide Value, Candidate;
    EightBytesHold64Bits(candidate);
    CandidateValue(Value(candidate) + laps * TWO_64);
    ValueInjective(Candidate(Value(candidate) + laps * TWO_64), candidate);
  }

  /** Some 8-byte string solves the challenge exactly when some round does; so without one the search never ends. */
  lemma SearchEndsIffSolvable(hash: seq<Byte> -> Digest, salt: seq<Byte>, nonce: seq<Byte>, difficulty: Byte)
    ensures (exists c: seq<Byte> :: Solves(hash, salt, nonce, difficulty, c))
       <==> (exists n: nat :: Solves(hash, salt, nonce, difficulty, Candidate(n)))
  {
    if c: seq<Byte> :| Solves(hash, salt, nonce, difficulty, c) {
      EveryStringIsACandidate(c, 0);
      assert Solves(hash, salt, nonce, difficulty, Candidate(Value(c)));
    } else {
      forall n: nat ensures !Solves(hash, salt, nonce, difficulty, Candidate(n)) {
        assert |Candidate(n)| == 8;
      }
    }
  }

  /** Least in numerical order among the 8-byte strings that solve the challenge. */
  ghost predicate LeastSolution(hash: seq<Byte> -> Digest, salt: seq<Byte>, nonce: seq<Byte>, difficulty: Byte,
                                c: seq<Byte>) {
    && Solves(hash, salt, nonce, difficulty, c)
    && forall d: seq<Byte> :: Solves(hash, salt, nonce, difficulty, d) ==> Value(c) <= Value(d)
  }

  /** No solution has a value below `round`: what the first `round` rounds have shown. */
  ghost predicate NoneBelow(hash: seq<Byte> -> Digest, salt: seq<Byte>, nonce: seq<Byte>, difficulty: Byte,
                            round: nat) {
    forall d: seq<Byte> :: Solves(hash, salt, nonce, difficulty, d) ==> round <= Value(d)
  }

  /** A round that fails rules out one more value; one that succeeds has found the least solution. */
  lemma RoundDecides(hash: seq<Byte> -> Digest, salt: seq<Byte>, nonce: seq<Byte>, difficulty: Byte, round: nat)
    requires round < TWO_64
    requires NoneBelow(hash, salt, nonce, difficulty, round)
    ensures !Solves(hash, salt, nonce, difficulty, Candidate(round)) ==>
      NoneBelow(hash, salt, nonce, difficulty, round + 1)
    ensures Solves(hash, salt, nonce, difficulty, Candidate(round)) ==>
      LeastSolution(hash, salt, nonce, difficulty, Candidate(round))
  {
    CandidateValue(round);
    if !Solves(hash, salt, nonce, difficulty, Candidate(round)) {
      forall d: seq<Byte> | Solves(hash, salt, nonce, difficulty, d) ensures round + 1 <= Value(d) {
        if Value(d) == round { ValueInjective(d, Candidate(round)); }
      }
    }
  }

  /**
   * The search. The loop has no exit but a solution, so it is called on solvable challenges;
   * it then stops within 2^64 rounds.
   */
  method FindSolution(hash: seq<Byte> -> Digest, salt: seq<Byte>, nonceHex: string, difficulty: Byte)
    returns (solutionHex: string)
    requires IsHex(nonceHex) && nonceHex != ""
    requires exists c: seq<Byte> :: Solves(hash, salt, DecodeHex(nonceHex), difficulty, c)
    ensures IsHex(solutionHex) && |solutionHex| == 16
    ensures LeastSolution(hash, salt, DecodeHex(nonceHex), difficulty, DecodeHex(solutionHex))
  {
    hide LeastSolution, LeadingZeros, DecodeHex, Value;
    var nonce := DecodeHex(nonceHex);
    ghost var known: seq<Byte> :| Solves(hash, salt, nonce, difficulty, known);
    EightBytesHold64Bits(known);
    var solution := new Byte[8](_ => 0);
    ghost var round, candidate := 0, Candidate(0);
    while true
      invariant solution.Length == 8 && solution[..] == candidate
      invariant candidate == Candidate(round)
      invariant NoneBelow(hash, salt, nonce, difficulty, round)
      decreases TWO_64 - round
    {
      assert round <= Value(known);
      RoundDecides(hash, salt, nonce, difficulty, round);
      var digest := hash(salt + nonce + solution[..]);
      var zeros := CountLeadingZeros(digest);
      if zeros >= difficulty {
        HexRoundTrip(solution[..]);
        return EncodeHex(solution[..]);
      }
      Increment(solution);
      NextCandidate(round);
      round, candidate := round + 1, Successor(candidate);
    }
  }

  /** With the server's salt, what the solver accepts the server accepts too, save an all-zero digest. */
  lemma SolverAgreesWithServer(hash: seq<Byte> -> Digest, salt: seq<Byte>, nonce: seq<Byte>, difficulty: Byte,
                               candidate: seq<Byte>)
    requires |candidate| == 8
    ensures var digest := hash(salt + nonce + candidate);
      (Solves(hash, salt, nonce, difficulty, candidate) <==> ServerAccepts(digest, difficulty))
      <==> (AllZero(digest) ==> difficulty == 0)
  {
  }
}
