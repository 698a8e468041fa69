/**
 * Every interleaving is explained by a sequential history: the calls and the evictions taken one at a time, in the
 * order of their effects, leave the same map and give the same answers.
 */
module Linearization {
  import opened Bytes
  import opened ProofOfWork
  import opened Challenges
  import opened PowSystem
  import opened PowInvariants

  /**
   * An operation, and what it answered. A refusal is a check whose compare-and-swap failed; `install` is the one it had
   * found unclaimed.
   */
  datatype Op =
    | Get(key: Key, candidate: Challenge, returned: Challenge)
    | Check(key: Key, solution: Solution, answer: CheckResult)
    | Refusal(key: Key, solution: Solution, install: nat)
    | Expiry(key: Key, at: Instant)

  /** `at` is the index in the run of the step that has the effect; an eviction belongs to no call. */
  datatype Effect = Effect(at: nat, caller: Option<CallId>, op: Op)

  /** The sequential faucet: a map, and the number of installs so far. */
  datatype Spec = Spec(slots: map<Key, Slot>, installs: nat)

  /** One sequential operation, or nothing when it could not have given its answer. */
  function SpecStep(server: Server, sp: Spec, op: Op): Option<Spec> {
    match op
    case Get(key, candidate, returned) =>
      if key in sp.slots then (if returned == sp.slots[key].challenge then Some(sp) else None)
      else if returned == candidate && !candidate.claimed
      then Some(Spec(sp.slots[key := Slot(candidate, sp.installs)], sp.installs + 1))
      else None
    case Check(key, solution, answer) =>
      var (expected, slots) := AtomicCheck(server, sp.slots, key, solution);
      if answer == expected then Some(sp.(slots := slots)) else None
    case Refusal(key, _, install) =>
      if key in sp.slots && sp.slots[key].install == install && !sp.slots[key].challenge.claimed then None else Some(sp)
    case Expiry(key, at) =>
      if key in sp.slots && at >= sp.slots[key].challenge.expiresAt then Some(sp.(slots := sp.slots - {key})) else None
  }

  /** What a sequential get returns, and a sequential check answers, is determined by the map. */
  lemma OneAnswer(server: Server, sp: Spec, key: Key, made: Challenge, r1: Challenge, r2: Challenge,
                  solution: Solution, a1: CheckResult, a2: CheckResult)
    ensures var (get1, get2) := (Get(key, made, r1), Get(key, made, r2));
      SpecStep(server, sp, get1).Some? && SpecStep(server, sp, get2).Some? ==> r1 == r2
    ensures var (check1, check2) := (Check(key, solution, a1), Check(key, solution, a2));
      SpecStep(server, sp, check1).Some? && SpecStep(server, sp, check2).Some? ==> a1 == a2
  {
  }

  function Replay(server: Server, effects: seq<Effect>): Option<Spec> {
    if effects == [] then Some(Spec(map[], 0))
    else
      match Replay(server, effects[..|effects| - 1])
      case None => None
      case Some(sp) => SpecStep(server, sp, effects[|effects| - 1].op)
  }

  /** The answer a verifying call will give, as if it had been given at its CAS. */
  function Outcome(server: Server, s: State, l: Step): Option<CheckResult> {
    if l.ClaimCas? && l.call in s.calls && s.calls[l.call].Reading? && ClaimSucceeds(s, l.call)
    then Some(Verdict(server, s.calls[l.call].slot.challenge, s.calls[l.call].solution))
    else Answer(server, s, l)
  }

  /** The step of a check at which it takes effect: the answering read, or the CAS. */
  predicate TakesEffect(server: Server, s: State, l: Step) {
    (l.BeginCheck? && Answer(server, s, l).Some?) || l.ClaimCas?
  }

  /** The operation a step amounts to: a get and a removal at the map operation, a check where it takes effect. */
  function OpOf(server: Server, s: State, l: Step): Option<Op> {
    match l
    case InstallCas(c) =>
      if c in s.calls && s.calls[c].Candidate? then
        var Candidate(key, candidate) := s.calls[c];
        Some(Get(key, candidate, if key in s.slots then s.slots[key].challenge else candidate))
      else None
    case BeginCheck(c, key, solution) =>
      if TakesEffect(server, s, l) then Some(Check(key, solution, Outcome(server, s, l).value)) else None
    case ClaimCas(c) =>
      if c in s.calls && s.calls[c].Reading? then
        var Reading(key, slot, solution, _) := s.calls[c];
        Some(if ClaimSucceeds(s, c) then Check(key, solution, Outcome(server, s, l).value)
             else Refusal(key, solution, slot.install))
      else None
    case Remove =>
      if s.evictor.Evicting? && s.evictor.toExpire != [] then Some(Expiry(s.evictor.toExpire[0].key, s.clock)) else None
    case _ => None
  }

  function CallerOf(l: Step): Option<CallId> {
    if l.InstallCas? || l.BeginCheck? || l.ClaimCas? then Some(l.call) else None
  }

  function EffectOf(server: Server, s: State, l: Step, at: nat): seq<Effect> {
    match OpOf(server, s, l)
    case None => []
    case Some(op) => [Effect(at, CallerOf(l), op)]
  }

  ghost function Effects(server: Server, run: seq<Step>): seq<Effect> {
    if run == [] then []
    else
      var n := |run| - 1;
      Effects(server, run[..n]) + match Exec(server, run[..n])
                                  case None => []
                                  case Some(s) => EffectOf(server, s, run[n], n)
  }

  // ---------- the map ----------

  function SpecOf(s: State): Spec { Spec(s.slots, |s.installed|) }

  /** A step without an effect leaves the map alone; one with an effect does what the sequential operation does. */
  lemma StepIsExplained(server: Server, s: State, l: Step)
    requires Inv(server, s) && Enabled(s, l)
    ensures var t, op := Apply(server, s, l), OpOf(server, s, l);
      if op.None? then SpecOf(t) == SpecOf(s) else SpecStep(server, SpecOf(s), op.value) == Some(SpecOf(t))
  {
    UnpackInv(server, s);
    hide Inv, TokenInv, PassInv, LogInv, ChallengeInv, ReadInv, SolveInv, ServerAccepts;
    if l.InstallCas? {
      InstallIsExplained(server, s, l);
    } else if l.ClaimCas? {
      ClaimIsExplained(server, s, l);
    } else if l.Remove? {
      RemoveIsExplained(server, s, l);
    } else if !l.BeginCheck? {
      hide Apply, Enabled;
      MapUntouched(server, s, l);
    }
  }

  lemma InstallIsExplained(server: Server, s: State, l: Step)
    requires ChallengeInv(s) && Enabled(s, l) && l.InstallCas?
    ensures var t, op := Apply(server, s, l), OpOf(server, s, l);
      op.Some? && SpecStep(server, SpecOf(s), op.value) == Some(SpecOf(t))
  {
    CopiesAreUnclaimed(s, l.call);
    hide ChallengeInv, AtomicCheck;
  }

  lemma RemoveIsExplained(server: Server, s: State, l: Step)
    requires TokenInv(s) && PassInv(s) && Enabled(s, l) && l.Remove?
    ensures var t, op := Apply(server, s, l), OpOf(server, s, l);
      op.Some? && SpecStep(server, SpecOf(s), op.value) == Some(SpecOf(t))
  {
    PoppedIsLive(s, 0);
    FirstHasExpired(s);
    hide TokenInv, PassInv, AtomicCheck;
  }

  lemma FirstHasExpired(s: State)
    requires PassInv(s) && s.evictor.Evicting? && s.evictor.toExpire != []
    ensures s.evictor.toExpire[0].expiresAt <= s.clock
  {
    assert s.evictor.toExpire[0] in s.evictor.toExpire;
  }

  /** A claim is the atomic one; a failed one finds the install it had read gone, replaced or claimed. */
  lemma ClaimIsExplained(server: Server, s: State, l: Step)
    requires ChallengeInv(s) && Enabled(s, l) && l.ClaimCas?
    ensures var t, op := Apply(server, s, l), OpOf(server, s, l);
      op.Some? && SpecStep(server, SpecOf(s), op.value) == Some(SpecOf(t))
  {
    var call := s.calls[l.call];
    CopiesAreUnclaimed(s, l.call);
    assert CopyOk(s, call);
    if call.key in s.slots {
      assert Original(s, s.slots[call.key].install, s.slots[call.key].challenge.(claimed := false));
    }
    hide ChallengeInv, ServerAccepts;
  }

  lemma EffectsOfExtended(server: Server, run: seq<Step>, l: Step)
    requires Exec(server, run).Some?
    ensures Effects(server, run + [l]) == Effects(server, run) + EffectOf(server, Exec(server, run).value, l, |run|)
  {
    assert (run + [l])[..|run|] == run;
  }

  /** The whole run: its effects, replayed one at a time, are all possible and end in the run's own map. */
  lemma {:induction false} RunIsExplained(server: Server, run: seq<Step>)
    requires Exec(server, run).Some?
    ensures Replay(server, Effects(server, run)) == Some(SpecOf(Exec(server, run).value))
  {
    if run == [] {
    } else {
      var front, l := run[..|run| - 1], run[|run| - 1];
      var s := Exec(server, front).value;
      RunIsExplained(server, front);
      InvOverRuns(server, front);
      StepIsExplained(server, s, l);
      hide Inv, Apply, Enabled, OpOf, SpecStep;
      var effects := Effects(server, front);
      assert Effects(server, run) == effects + EffectOf(server, s, l, |front|);
      assert (effects + EffectOf(server, s, l, |front|))[..|effects|] == effects;
      assert OpOf(server, s, l).None? ==> effects + EffectOf(server, s, l, |front|) == effects;
    }
  }
}
