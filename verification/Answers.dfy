/** What a check answers, in terms of the hash alone; what is recorded of it; and that a found solution is accepted. */
module Answers {
  import opened Bytes
  import opened ProofOfWork
  import opened Challenges
  import opened PowSystem
  import opened PowInvariants
  import S = Solver

  /**
   * The atomic claim: no nonce exactly for an absent key, already claimed exactly for a claimed one; for an unclaimed
   * one accepted exactly when the hash of salt, nonce and solution is below 2^(256 - difficulty), and not all zero
   * unless the difficulty is. Only an unclaimed challenge is marked, whatever the proof of work, and nothing else
   * changes.
   */
  lemma AtomicAnswer(server: Server, slots: map<Key, Slot>, key: Key, solution: Solution)
    ensures var (answer, after) := AtomicCheck(server, slots, key, solution);
      && (answer == NonceNotFound <==> key !in slots)
      && (answer == AlreadyClaimed <==> key in slots && slots[key].challenge.claimed)
      && (answer == NonceNotFound || answer == AlreadyClaimed ==> after == slots)
      && (key in slots && !slots[key].challenge.claimed ==>
            && var ch := slots[key].challenge;
            && var digest := server.hash(server.salt + ch.nonce + solution);
            && (answer == Accepted <==>
                  Value(digest) < Pow2(256 - ch.difficulty) && (AllZero(digest) ==> ch.difficulty == 0))
            && after.Keys == slots.Keys && after[key] == Slot(ch.(claimed := true), slots[key].install)
            && forall k :: k in slots && k != key ==> after[k] == slots[k])
  {
    if key in slots {
      var ch := slots[key].challenge;
      ServerAcceptsIffBelowTarget(server.hash(server.salt + ch.nonce + solution), ch.difficulty);
    }
    hide ServerAccepts, Value, Pow2, AllZero;
  }

  /** The read of a check answers for an absent key and for a claimed challenge, and for no other. */
  lemma ReadAnswer(server: Server, s: State, l: Step)
    requires Enabled(s, l) && l.BeginCheck?
    ensures Answer(server, s, l) == Some(NonceNotFound) <==> l.key !in s.slots
    ensures Answer(server, s, l) == Some(AlreadyClaimed) <==> l.key in s.slots && s.slots[l.key].challenge.claimed
    ensures Answer(server, s, l) in {None, Some(NonceNotFound), Some(AlreadyClaimed)}
  {
  }

  /** The compare-and-swap answers already claimed unless the key holds a challenge equal to the one that was read. */
  lemma ClaimAnswer(server: Server, s: State, l: Step)
    requires Enabled(s, l) && l.ClaimCas?
    ensures var call := s.calls[l.call];
      var same := call.key in s.slots && s.slots[call.key].challenge == call.slot.challenge;
      Answer(server, s, l) == if same then None else Some(AlreadyClaimed)
  {
  }

  /** The hash of a check answers for the challenge that was installed under the number it claimed. */
  lemma HashAnswer(server: Server, run: seq<Step>, l: Step)
    requires Exec(server, run).Some? && Enabled(Exec(server, run).value, l) && l.CheckHash?
    ensures var s := Exec(server, run).value; var call := s.calls[l.call];
      && call.slot.install < |s.installed|
      && var ch := s.installed[call.slot.install];
      && var digest := server.hash(server.salt + ch.nonce + call.solution);
      && Answer(server, s, l) in {Some(Accepted), Some(BadProofOfWork)}
      && (Answer(server, s, l) == Some(Accepted) <==>
            Value(digest) < Pow2(256 - ch.difficulty) && (AllZero(digest) ==> ch.difficulty == 0))
  {
    var s := Exec(server, run).value;
    var call := s.calls[l.call];
    InvOverRuns(server, run);
    assert CopyOk(s, call);
    hide Exec, Inv;
    var ch := call.slot.challenge;
    ServerAcceptsIffBelowTarget(server.hash(server.salt + ch.nonce + call.solution), ch.difficulty);
    hide ServerAccepts, Value, Pow2, AllZero;
  }

  /** No other step of the system answers a check. */
  lemma OnlyChecksAnswer(server: Server, s: State, l: Step)
    ensures Answer(server, s, l).Some? ==> l.BeginCheck? || l.ClaimCas? || l.CheckHash?
  {
  }

  /** A claim is recorded as solved exactly when its check is answered Accepted, once, under its own install. */
  lemma SolvedIsAccepted(server: Server, s: State, l: Step)
    requires Enabled(s, l)
    ensures var t, accepted := Apply(server, s, l), Answer(server, s, l) == Some(Accepted);
      && (accepted ==> l.CheckHash?)
      && t.solved == s.solved +
         if accepted then [Solved(s.calls[l.call].key, s.calls[l.call].slot.install, s.calls[l.call].solution)] else []
  {
    hide ServerAccepts;
  }

  /**
   * End to end: what the browser's search returns for the nonce of an unclaimed challenge, with the server's hash and
   * salt, is accepted, unless it hashes to all zeros at a difficulty above 0.
   */
  lemma SolverIsAccepted(server: Server, slots: map<Key, Slot>, key: Key, solutionHex: string)
    requires key in slots && !slots[key].challenge.claimed && S.IsHex(solutionHex) && |solutionHex| == 16
    requires var ch, found := slots[key].challenge, S.DecodeHex(solutionHex);
      S.LeastSolution(server.hash, server.salt, S.DecodeHex(S.EncodeHex(ch.nonce)), ch.difficulty, found)
    ensures var ch, solution := slots[key].challenge, S.DecodeHex(solutionHex);
      && |solution| == 8
      && (AtomicCheck(server, slots, key, solution).0 == Accepted <==>
            (AllZero(server.hash(server.salt + ch.nonce + solution)) ==> ch.difficulty == 0))
  {
    var ch, solution := slots[key].challenge, S.DecodeHex(solutionHex);
    S.HexRoundTrip(ch.nonce);
    var digest := server.hash(server.salt + ch.nonce + solution);
    assert S.Solves(server.hash, server.salt, ch.nonce, ch.difficulty, solution);
    LeadingZerosIsThreshold(digest, ch.difficulty);
    AtomicAnswer(server, slots, key, solution);
    hide AtomicCheck, Value, Pow2, AllZero, S.DecodeHex, S.EncodeHex;
  }
}
