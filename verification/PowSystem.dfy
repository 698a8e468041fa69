/**
 * Any number of get and check calls interleaved with the background eviction task, one shared access a step.
 * Nothing but the heap's lock orders them: while the task holds it, no entry can be pushed.
 */
module PowSystem {
  import opened Bytes
  import opened Challenges
  import opened EvictionQueue
  import opened History

  type CallId = nat

  /** Where a call in flight stands. */
  datatype Call =
    | Candidate(key: Key, challenge: Challenge)                       // get: clock read, CAS next
    | Installed(entry: EvictionEntry)                                 // get: CAS succeeded, push next
    | Pushed(entry: EvictionEntry)                                    // get: pushed, load of the wakeup next
    | Sending(entry: EvictionEntry)                                   // get: loaded, send next
    | Reading(key: Key, slot: Slot, solution: Solution, readAt: nat)  // check: read unclaimed, CAS next
    | Verifying(key: Key, slot: Slot, solution: Solution)             // check: CAS succeeded, hash next

  /** Where the background task stands. */
  datatype Evictor =
    | Waiting                                                                      // in select
    | Rescheduled                                                                  // message taken, store next
    | Evicting(now: Instant, toExpire: seq<EvictionEntry>, next: Option<Instant>)  // popped, lock held, removing
    | Returned                                                                     // lock released, store next

  /** A claim whose hash check passed. */
  datatype Solved = Solved(key: Key, install: nat, solution: Solution)

  /** `installed`, `log` and `solved` are history; an install's number is its index in `installed`. */
  datatype State = State(
    clock: Instant,
    slots: map<Key, Slot>,
    heap: multiset<EvictionEntry>,
    calls: map<CallId, Call>,
    evictor: Evictor,
    nextWakeup: Instant,
    published: nat,
    channel: seq<Instant>,
    installed: seq<Challenge>,
    log: Log,
    solved: seq<Solved>)

  function Init(): State {
    State(0, map[], multiset{}, map[], Waiting, FAR, U64_MAX, [], [], [], [])
  }

  datatype Step =
    | Tick(to: Instant)
    | BeginGet(call: CallId, key: Key, nonce: Nonce, difficulty: Byte)
    | InstallCas(call: CallId)
    | Push(call: CallId)
    | Load(call: CallId)
    | Send(call: CallId)
    | BeginCheck(call: CallId, key: Key, solution: Solution)
    | ClaimCas(call: CallId)
    | CheckHash(call: CallId)
    | BeginEviction(toExpire: seq<EvictionEntry>, rest: multiset<EvictionEntry>, next: Option<Instant>)
    | Remove
    | Return
    | Receive
    | Publish

  ghost predicate Enabled(s: State, l: Step) {
    match l
    case Tick(to) => to >= s.clock
    case BeginGet(c, _, _, _) => c !in s.calls
    case InstallCas(c) => c in s.calls && s.calls[c].Candidate?
    case Push(c) => c in s.calls && s.calls[c].Installed? && !s.evictor.Evicting?
    case Load(c) => c in s.calls && s.calls[c].Pushed?
    case Send(c) => c in s.calls && s.calls[c].Sending?
    case BeginCheck(c, _, _) => c !in s.calls
    case ClaimCas(c) => c in s.calls && s.calls[c].Reading?
    case CheckHash(c) => c in s.calls && s.calls[c].Verifying?
    case BeginEviction(toExpire, rest, next) =>
      s.evictor.Waiting? && s.clock >= s.nextWakeup && IsSplit(s.heap, s.clock, toExpire, rest, next)
    case Remove => s.evictor.Evicting? && s.evictor.toExpire != []
    case Return => s.evictor.Evicting? && s.evictor.toExpire == []
    case Receive => s.evictor.Waiting? && s.channel != []
    case Publish => s.evictor.Rescheduled? || s.evictor.Returned?
  }

  /** The compare-and-swap of a get: on an absent key. */
  function DoInstall(s: State, c: CallId): State
    requires c in s.calls && s.calls[c].Candidate?
  {
    var Candidate(key, challenge) := s.calls[c];
    if CasMatches(s.slots, key, None) then
      var id := |s.installed|;
      s.(slots := s.slots[key := Slot(challenge, id)],
         calls := s.calls[c := Installed(EvictionEntry(key, challenge.expiresAt, id))],
         installed := s.installed + [challenge],
         log := s.log + [Install(key, id, s.clock, challenge.expiresAt)])
    else s.(calls := s.calls - {c})
  }

  function DoLoad(s: State, c: CallId): State
    requires c in s.calls && s.calls[c].Pushed?
  {
    if Millis(s.calls[c].entry.expiresAt) < s.published then s.(calls := s.calls[c := Sending(s.calls[c].entry)])
    else s.(calls := s.calls - {c})
  }

  /** The read of a check, which answers at once unless it finds an unclaimed challenge. */
  function DoRead(s: State, c: CallId, key: Key, solution: Solution): State {
    if key in s.slots && !s.slots[key].challenge.claimed
    then s.(calls := s.calls[c := Reading(key, s.slots[key], solution, |s.log|)])
    else s
  }

  predicate ClaimSucceeds(s: State, c: CallId)
    requires c in s.calls && s.calls[c].Reading?
  {
    CasMatches(s.slots, s.calls[c].key, Some(s.calls[c].slot.challenge))
  }

  /** The compare-and-swap of a check. The call goes on with the challenge it read. */
  function DoClaim(s: State, c: CallId): State
    requires c in s.calls && s.calls[c].Reading?
  {
    var Reading(key, slot, solution, _) := s.calls[c];
    if ClaimSucceeds(s, c) then
      var id := s.slots[key].install;
      s.(slots := s.slots[key := Slot(slot.challenge.(claimed := true), id)],
         calls := s.calls[c := Verifying(key, Slot(slot.challenge, id), solution)],
         log := s.log + [Claim(key, id, s.clock, c)])
    else s.(calls := s.calls - {c})
  }

  function DoHash(server: Server, s: State, c: CallId): State
    requires c in s.calls && s.calls[c].Verifying?
  {
    var Verifying(key, slot, solution) := s.calls[c];
    var t := s.(calls := s.calls - {c});
    if Verdict(server, slot.challenge, solution).Accepted?
    then t.(solved := s.solved + [Solved(key, slot.install, solution)])
    else t
  }

  /** The unconditional removal of the next popped entry's key. */
  function DoRemove(s: State): State
    requires s.evictor.Evicting? && s.evictor.toExpire != []
  {
    var e := s.evictor.toExpire[0];
    var t := s.(evictor := s.evictor.(toExpire := s.evictor.toExpire[1..]));
    if e.key in s.slots
    then t.(slots := s.slots - {e.key}, log := s.log + [Evict(e.key, s.slots[e.key].install, s.clock)])
    else t
  }

  function DoReceive(s: State): State
    requires s.channel != []
  {
    var t := s.(channel := s.channel[1..]);
    if s.channel[0] < s.nextWakeup then t.(nextWakeup := s.channel[0], evictor := Rescheduled) else t
  }

  ghost function Apply(server: Server, s: State, l: Step): State
    requires Enabled(s, l)
  {
    match l
    case Tick(to) => s.(clock := to)
    case BeginGet(c, key, nonce, difficulty) =>
      var challenge := Challenge(nonce, false, s.clock + Duration(server, key.chain), difficulty);
      s.(calls := s.calls[c := Candidate(key, challenge)])
    case InstallCas(c) => DoInstall(s, c)
    case Push(c) => s.(heap := s.heap + multiset{s.calls[c].entry}, calls := s.calls[c := Pushed(s.calls[c].entry)])
    case Load(c) => DoLoad(s, c)
    case Send(c) => s.(channel := s.channel + [s.calls[c].entry.expiresAt], calls := s.calls - {c})
    case BeginCheck(c, key, solution) => DoRead(s, c, key, solution)
    case ClaimCas(c) => DoClaim(s, c)
    case CheckHash(c) => DoHash(server, s, c)
    case BeginEviction(toExpire, rest, next) => s.(heap := rest, evictor := Evicting(s.clock, toExpire, next))
    case Remove => DoRemove(s)
    case Return => s.(nextWakeup := Wakeup(s.evictor.next), evictor := Returned)
    case Receive => DoReceive(s)
    case Publish => s.(published := Millis(s.nextWakeup), evictor := Waiting)
  }

  /** What a check call answers in a step, if the step answers. */
  function Answer(server: Server, s: State, l: Step): Option<CheckResult> {
    match l
    case BeginCheck(c, key, _) =>
      if key !in s.slots then Some(NonceNotFound)
      else if s.slots[key].challenge.claimed then Some(AlreadyClaimed)
      else None
    case ClaimCas(c) =>
      if c in s.calls && s.calls[c].Reading? && !ClaimSucceeds(s, c) then Some(AlreadyClaimed) else None
    case CheckHash(c) =>
      if c in s.calls && s.calls[c].Verifying?
      then Some(Verdict(server, s.calls[c].slot.challenge, s.calls[c].solution))
      else None
    case _ => None
  }

  /**
   * What a get returns in a step, if it returns: the challenge that was in its way, or the one it installed, which
   * `installed` has under its number.
   */
  function GetReply(s: State, l: Step): Option<Challenge> {
    match l
    case InstallCas(c) =>
      if c in s.calls && s.calls[c].Candidate? && s.calls[c].key in s.slots
      then Some(s.slots[s.calls[c].key].challenge)
      else None
    case Load(c) =>
      if c in s.calls && s.calls[c].Pushed? && Millis(s.calls[c].entry.expiresAt) >= s.published
      then OwnChallenge(s, s.calls[c].entry)
      else None
    case Send(c) => if c in s.calls && s.calls[c].Sending? then OwnChallenge(s, s.calls[c].entry) else None
    case _ => None
  }

  function OwnChallenge(s: State, e: EvictionEntry): Option<Challenge> {
    if e.install < |s.installed| then Some(s.installed[e.install]) else None
  }

  /** The state after a run, or nothing when some step was not enabled. */
  ghost function Exec(server: Server, run: seq<Step>): Option<State> {
    if run == [] then Some(Init())
    else
      match Exec(server, run[..|run| - 1])
      case None => None
      case Some(s) => if Enabled(s, run[|run| - 1]) then Some(Apply(server, s, run[|run| - 1])) else None
  }

  lemma Extend(server: Server, run: seq<Step>, l: Step)
    requires Exec(server, run).Some? && Enabled(Exec(server, run).value, l)
    ensures Exec(server, run + [l]) == Some(Apply(server, Exec(server, run).value, l))
  {
    hide Apply, Enabled;
    assert (run + [l])[..|run|] == run;
  }
}
