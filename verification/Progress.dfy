/** What can happen next: no call or task is ever stuck but for the heap's lock, and every call ends. */
module Progress {
  import opened Bytes
  import opened Challenges
  import opened EvictionQueue
  import opened PowSystem
  import opened PowInvariants
  import F = Faucet

  /** The one step a call in flight takes next. */
  function NextStep(call: Call, c: CallId): Step {
    match call
    case Candidate(_, _) => InstallCas(c)
    case Installed(_) => Push(c)
    case Pushed(_) => Load(c)
    case Sending(_) => Send(c)
    case Reading(_, _, _, _) => ClaimCas(c)
    case Verifying(_, _, _) => CheckHash(c)
  }

  /**
   * A call in flight can take that step and no other, and only a push ever waits: for the task to release the lock. A
   * name that is free can begin any get and any check.
   */
  lemma CallsGoOn(s: State, c: CallId, l: Step)
    requires TakenBy(l, c)
    ensures c in s.calls ==>
      (Enabled(s, l) <==> l == NextStep(s.calls[c], c) && !(s.calls[c].Installed? && s.evictor.Evicting?))
    ensures c !in s.calls ==> (Enabled(s, l) <==> l.BeginGet? || l.BeginCheck?)
  {
  }

  /** How many steps of its own a call has still to take at most. */
  function StepsLeft(call: Call): nat {
    match call
    case Candidate(_, _) => 4
    case Installed(_) => 3
    case Pushed(_) => 2
    case Sending(_) => 1
    case Reading(_, _, _, _) => 2
    case Verifying(_, _, _) => 1
  }

  /** Every step a call takes brings it nearer its end. */
  lemma CallsEnd(server: Server, s: State, c: CallId)
    requires c in s.calls && Enabled(s, NextStep(s.calls[c], c))
    ensures var t := Apply(server, s, NextStep(s.calls[c], c));
      c in t.calls ==> StepsLeft(t.calls[c]) < StepsLeft(s.calls[c])
  {
  }

  /**
   * The task: while it waits it can take a message if there is one and begin a pass if its wakeup has come, whatever
   * the heap holds; in a pass it can remove what is popped, and then return; and what it has to store it can store.
   */
  lemma TaskGoesOn(s: State)
    ensures s.evictor.Waiting? ==>
      && (Enabled(s, Receive) <==> s.channel != [])
      && ((exists popped, rest, next :: Enabled(s, BeginEviction(popped, rest, next))) <==> s.clock >= s.nextWakeup)
    ensures s.evictor.Evicting? ==>
      (Enabled(s, Remove) <==> s.evictor.toExpire != []) && (Enabled(s, Return) <==> s.evictor.toExpire == [])
    ensures s.evictor.Returned? || s.evictor.Rescheduled? <==> Enabled(s, Publish)
  {
    hide IsSplit;
    if s.clock >= s.nextWakeup && s.evictor.Waiting? {
      var popped, rest, next := SplitExists(s.heap, s.clock);
      assert Enabled(s, BeginEviction(popped, rest, next));
    }
  }

  /** Until a total overflows, a faucet's handlers, channel and timer can go on, and so can its challenge system. */
  lemma FaucetGoesOn(setup: F.Setup, s: F.State, id: nat, address: seq<Byte>, built: bool, l: Step)
    requires !s.batcher.aborted
    ensures id in s.handlers <==> F.Enabled(setup, s, F.Step.Reject(id))
    ensures id in s.handlers <==> F.Enabled(setup, s, F.Step.Queue(id, address))
    ensures F.Enabled(setup, s, F.Step.Receive) <==> s.channel != []
    ensures F.Enabled(setup, s, F.Step.Tick(built))
    ensures !l.BeginGet? ==> (F.Enabled(setup, s, F.Step.Pow(l)) <==> Enabled(s.pow, l))
  {
  }
}
