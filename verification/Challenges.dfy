/** Challenges, the shared map that holds them, and a claim that runs without interference. */
module Challenges {
  import opened Bytes
  import opened ProofOfWork

  datatype Chain = L1 | L2

  type Ip = n: int | 0 <= n < 0x1_0000_0000

  datatype Key = Key(ip: Ip, chain: Chain)

  /** Nanoseconds since the eviction queue was created. */
  type Instant = nat

  type Nonce = n: seq<Byte> | |n| == 16 witness seq(16, _ => 0)
  type Solution = s: seq<Byte> | |s| == 8 witness seq(8, _ => 0)

  datatype Challenge = Challenge(nonce: Nonce, claimed: bool, expiresAt: Instant, difficulty: Byte)

  /**
   * What the map holds for a key. `install` is history: it numbers the successful installs of the run and is
   * never compared by the code, whose equality is that of `challenge`.
   */
  datatype Slot = Slot(challenge: Challenge, install: nat)

  /** What a deployment fixes: the hash, its salt, and how long challenges live. */
  datatype Server = Server(hash: seq<Byte> -> Digest, salt: seq<Byte>, l1Duration: nat, l2Duration: nat)

  function Duration(server: Server, chain: Chain): nat {
    if chain.L1? then server.l1Duration else server.l2Duration
  }

  function DigestOf(server: Server, challenge: Challenge, solution: Solution): Digest {
    server.hash(server.salt + challenge.nonce + solution)
  }

  /** A digest proves work of a difficulty: below 2^(256 - difficulty), and not all zero unless the difficulty is. */
  ghost predicate ProvesWork(digest: Digest, difficulty: Byte) {
    Value(digest) < Pow2(256 - difficulty) && (AllZero(digest) ==> difficulty == 0)
  }

  datatype CheckResult = Accepted | NonceNotFound | BadProofOfWork | AlreadyClaimed

  function Verdict(server: Server, challenge: Challenge, solution: Solution): CheckResult {
    if ServerAccepts(DigestOf(server, challenge, solution), challenge.difficulty) then Accepted else BadProofOfWork
  }

  /** The compare in compare-and-swap: absence, or equality of challenges. */
  predicate CasMatches(slots: map<Key, Slot>, key: Key, expected: Option<Challenge>) {
    match expected
    case None => key !in slots
    case Some(challenge) => key in slots && slots[key].challenge == challenge
  }

  function MarkClaimed(slots: map<Key, Slot>, key: Key): map<Key, Slot>
    requires key in slots
  {
    slots[key := slots[key].(challenge := slots[key].challenge.(claimed := true))]
  }

  /** A claim as one indivisible step: the answer and the map afterwards. */
  function AtomicCheck(server: Server, slots: map<Key, Slot>, key: Key, solution: Solution)
    : (CheckResult, map<Key, Slot>)
  {
    if key !in slots then (NonceNotFound, slots)
    else if slots[key].challenge.claimed then (AlreadyClaimed, slots)
    else (Verdict(server, slots[key].challenge, solution), MarkClaimed(slots, key))
  }

  /** The concurrent map, every operation of which is one linearization point. */
  class ChallengeSet {
    var slots: map<Key, Slot>
    var installs: nat

    constructor ()
      ensures slots == map[] && installs == 0
    {
      slots, installs := map[], 0;
    }

    method Get(key: Key) returns (r: Option<Challenge>)
      ensures r == if key in slots then Some(slots[key].challenge) else None
    {
      r := if key in slots then Some(slots[key].challenge) else None;
    }

    method Cas(key: Key, expected: Option<Challenge>, replacement: Challenge) returns (ok: bool)
      modifies this
      ensures ok == CasMatches(old(slots), key, expected)
      ensures !ok ==> slots == old(slots) && installs == old(installs)
      ensures ok && expected.None? ==>
        slots == old(slots)[key := Slot(replacement, old(installs))] && installs == old(installs) + 1
      ensures ok && expected.Some? ==>
        slots == old(slots)[key := Slot(replacement, old(slots)[key].install)] && installs == old(installs)
    {
      ok := CasMatches(slots, key, expected);
      if ok {
        if expected.None? {
          slots, installs := slots[key := Slot(replacement, installs)], installs + 1;
        } else {
          slots := slots[key := Slot(replacement, slots[key].install)];
        }
      }
    }

    method Remove(key: Key)
      modifies this
      ensures slots == old(slots) - {key} && installs == old(installs)
    {
      slots := slots - {key};
    }

    /** Read, mark by compare-and-swap, then hash: without interference it is the atomic claim. */
    method CheckSolution(server: Server, key: Key, solution: Solution) returns (r: CheckResult)
      modifies this
      ensures (r, slots) == AtomicCheck(server, old(slots), key, solution)
      ensures r == NonceNotFound <==> key !in old(slots)
      ensures r == AlreadyClaimed <==> key in old(slots) && old(slots)[key].challenge.claimed
      ensures key in old(slots) && !old(slots)[key].challenge.claimed ==>
        && slots == old(slots)[key := old(slots)[key].(challenge := old(slots)[key].challenge.(claimed := true))]
        && (r == Accepted <==>
              ProvesWork(server.hash(server.salt + old(slots)[key].challenge.nonce + solution),
                         old(slots)[key].challenge.difficulty))
      ensures r == NonceNotFound || r == AlreadyClaimed ==> slots == old(slots)
      ensures installs == old(installs)
    {
      var found := Get(key);
      if found.None? {
        return NonceNotFound;
      }
      var oldChallenge := found.value;
      if oldChallenge.claimed {
        return AlreadyClaimed;
      }
      var replacement := oldChallenge.(claimed := true);
      var ok := Cas(key, Some(oldChallenge), replacement);
      if !ok {
        return AlreadyClaimed;
      }
      var digest := server.hash(server.salt + oldChallenge.nonce + solution);
      var zeros := CountLeadingZeros(digest);
      ServerAcceptsIffBelowTarget(digest, oldChallenge.difficulty);
      if zeros >= oldChallenge.difficulty {
        r := Accepted;
      } else {
        r := BadProofOfWork;
      }
    }
  }
}
