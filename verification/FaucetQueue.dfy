/**
 * The batcher inside the faucet: what reaches it is what the claim handlers queued, in order, and what it drains when.
 */
module FaucetQueue {
  import opened Faucet
  import P = PowSystem
  import B = Batcher

  /** The payouts drained into batches so far, oldest first. */
  function PaidOut(s: State): seq<B.Payout> { B.Drained(s.batcher.batches) }

  lemma PaidIsAccepted(setup: Setup, s: State)
    requires AccountInv(setup, s)
    ensures s.batcher.accepted == PaidOut(s) + s.batcher.queue
  {
    hide Ids, L1Ids, B.Drained;
  }

  // ---------- the batcher as a run of its own ----------

  /** The payouts the handlers have queued, one a step, each to the step's address. */
  function Queued(setup: Setup, run: seq<Step>): seq<B.Payout> {
    if run == [] then []
    else
      var l := run[|run| - 1];
      Queued(setup, run[..|run| - 1]) + if l.Queue? then [B.Payout(l.address, setup.l1.perClaim, l.install)] else []
  }

  function EventOf(s: State, l: Step): seq<B.Event> {
    if l.Receive? && s.channel != [] then [B.Arrival(s.channel[0])]
    else if l.Tick? then [B.Tick(l.built)]
    else []
  }

  /** What the batcher is given: the head of the channel at every receive, and every tick. */
  ghost function Events(setup: Setup, run: seq<Step>): seq<B.Event> {
    if run == [] then []
    else
      var front := run[..|run| - 1];
      Events(setup, front) + match Exec(setup, front)
                             case None => []
                             case Some(s) => EventOf(s, run[|run| - 1])
  }

  /** What a step does to the batcher and the channel. */
  lemma StepInside(setup: Setup, s: State, l: Step)
    requires Enabled(setup, s, l)
    ensures var t, events := Apply(setup, s, l), EventOf(s, l);
      && t.batcher == B.Exec(setup.batcher, s.batcher, events)
      && B.Arrivals(events) + t.channel == s.channel +
         (if l.Queue? then [B.Payout(l.address, setup.l1.perClaim, l.install)] else [])
      && B.Ticks(events) == (if l.Tick? then 1 else 0)
      && |B.Arrivals(events)| == (if l.Receive? then 1 else 0)
  {
    hide P.Apply, P.Enabled, Offered, B.Step;
    var events := EventOf(s, l);
    if events != [] { assert events[1..] == []; }
  }

  /** The batcher inside the faucet runs on exactly those events, and receives exactly what was queued, in order. */
  lemma {:induction false} BatcherInside(setup: Setup, run: seq<Step>)
    requires Exec(setup, run).Some?
    ensures var s := Exec(setup, run).value;
      && s.batcher == B.Exec(setup.batcher, B.Init(), Events(setup, run))
      && B.Arrivals(Events(setup, run)) + s.channel == Queued(setup, run)
  {
    if run == [] {
    } else {
      var front, l := run[..|run| - 1], run[|run| - 1];
      var s := Exec(setup, front).value;
      BatcherInside(setup, front);
      StepInside(setup, s, l);
      hide Apply, Enabled, B.Exec, EventOf, B.Arrivals;
      B.ExecAppend(setup.batcher, B.Init(), Events(setup, front), EventOf(s, l));
      B.ArrivalsAppend(Events(setup, front), EventOf(s, l));
      hide B.Init, Exec, Events, Queued;
      Passes(B.Arrivals(Events(setup, front)), s.channel, B.Arrivals(EventOf(s, l)), Apply(setup, s, l).channel,
        if l.Queue? then [B.Payout(l.address, setup.l1.perClaim, l.install)] else []);
    }
  }

  /** What went out of a channel and what is still in it, after `out` has left and `more` has come in. */
  lemma Passes(gone: seq<B.Payout>, channel: seq<B.Payout>, out: seq<B.Payout>, left: seq<B.Payout>,
               more: seq<B.Payout>)
    requires out + left == channel + more
    ensures gone + out + left == gone + channel + more
  {
    B.Regroup(gone, out, left);
    B.Regroup(gone, channel, more);
  }

  // ---------- addresses ----------

  lemma {:induction false} QueuedByStep(setup: Setup, run: seq<Step>, p: B.Payout) returns (n: nat)
    requires p in Queued(setup, run)
    ensures n < |run| && run[n] == Step.Queue(p.install, p.address) && p.amount == setup.l1.perClaim
  {
    var front, l := run[..|run| - 1], run[|run| - 1];
    if p in Queued(setup, front) {
      n := QueuedByStep(setup, front, p);
    } else {
      n := |run| - 1;
    }
  }

  /** A payout in the channel, accepted or dropped. */
  predicate InSystem(s: State, p: B.Payout) {
    p in s.channel || p in s.batcher.accepted || p in s.batcher.dropped
  }

  lemma SystemGrows(setup: Setup, s: State, l: Step, p: B.Payout)
    requires Enabled(setup, s, l) && InSystem(Apply(setup, s, l), p)
    ensures InSystem(s, p) || (l.Queue? && p == B.Payout(l.address, setup.l1.perClaim, l.install))
  {
    if l.Receive? { B.ArrivalIsTakenOrDropped(setup.batcher, s.batcher, s.channel[0]); }
    if l.Tick? { B.TickSeesNothing(setup.batcher, s.batcher, l.built); }
    hide P.Apply, P.Enabled, Offered, B.Step;
  }

  lemma {:induction false} SystemIsQueued(setup: Setup, run: seq<Step>, p: B.Payout)
    requires Exec(setup, run).Some? && InSystem(Exec(setup, run).value, p)
    ensures p in Queued(setup, run)
  {
    if run == [] {
    } else {
      var front, l := run[..|run| - 1], run[|run| - 1];
      SystemGrows(setup, Exec(setup, front).value, l, p);
      hide Apply, Enabled, InSystem;
      if InSystem(Exec(setup, front).value, p) { SystemIsQueued(setup, front, p); }
    }
  }

  /** Every payout in the channel, accepted, dropped or drained was queued by a step of its own install and address. */
  lemma PayoutWasQueued(setup: Setup, run: seq<Step>, p: B.Payout) returns (n: nat)
    requires Exec(setup, run).Some? && InSystem(Exec(setup, run).value, p)
    ensures n < |run| && run[n] == Step.Queue(p.install, p.address) && p.amount == setup.l1.perClaim
  {
    SystemIsQueued(setup, run, p);
    n := QueuedByStep(setup, run, p);
  }

  /** An install whose payout has been queued is in a place past its handler. */
  lemma {:induction false} QueuedIsPlaced(setup: Setup, run: seq<Step>, n: nat)
    requires Exec(setup, run).Some? && n < |run| && run[n].Queue?
    ensures var s := Exec(setup, run).value;
      run[n].install in Ids(s.channel) + Ids(s.batcher.accepted) + Ids(s.batcher.dropped)
  {
    var front, l := run[..|run| - 1], run[|run| - 1];
    var s := Exec(setup, front).value;
    if n < |front| { QueuedIsPlaced(setup, front, n); }
    PlacedStays(setup, s, l, run[n].install);
  }

  lemma PlacedStays(setup: Setup, s: State, l: Step, id: nat)
    requires Enabled(setup, s, l)
    requires id in Ids(s.channel) + Ids(s.batcher.accepted) + Ids(s.batcher.dropped) || (l.Queue? && l.install == id)
    ensures var t := Apply(setup, s, l); id in Ids(t.channel) + Ids(t.batcher.accepted) + Ids(t.batcher.dropped)
  {
    if l.Receive? {
      B.ArrivalIsTakenOrDropped(setup.batcher, s.batcher, s.channel[0]);
      IdsMove(s.channel, s.batcher.accepted);
      IdsMove(s.channel, s.batcher.dropped);
    }
    if l.Tick? { B.TickSeesNothing(setup.batcher, s.batcher, l.built); }
    if l.Queue? {
      var p := B.Payout(l.address, setup.l1.perClaim, l.install);
      IdsAppend(s.channel, [p]);
      IdsOne(p);
    }
    hide P.Apply, P.Enabled, Offered, B.Step, Ids;
  }

  /** No install is queued twice. */
  lemma OneQueueStep(setup: Setup, run: seq<Step>, m: nat, n: nat)
    requires Exec(setup, run).Some? && m < n < |run| && run[m].Queue? && run[n].Queue?
    ensures run[m].install != run[n].install
  {
    var before := run[..n];
    PrefixRuns(setup, run, n);
    PrefixRuns(setup, run, n + 1);
    assert run[..n + 1][..n] == before;
    var s, id := Exec(setup, before).value, run[n].install;
    assert Enabled(setup, s, run[n]);
    assert id in s.handlers;
    AccountOverRuns(setup, before);
    PowInside(setup, before);
    SolvedAreDistinct(setup.server, PowRun(before));
    hide Exec, P.Exec, Enabled, Ids, L1Ids, Payable, Distinct, PowRun;
    L1IdsAre(s.pow.solved, id);
    if run[m].install == id {
      QueuedIsPlaced(setup, before, m);
      TwicePlaced(s, id);
    }
  }

  lemma TwicePlaced(s: State, id: nat)
    requires id in s.handlers && id in Ids(s.channel) + Ids(s.batcher.accepted) + Ids(s.batcher.dropped)
    ensures Places(s)[id] >= 2
  {
    hide Ids;
  }

  lemma {:induction false} PrefixRuns(setup: Setup, run: seq<Step>, n: nat)
    requires n <= |run| && Exec(setup, run).Some?
    ensures Exec(setup, run[..n]).Some?
  {
    if n == |run| {
      assert run[..n] == run;
    } else {
      hide Apply, Enabled;
      PrefixRuns(setup, run[..|run| - 1], n);
      assert run[..|run| - 1][..n] == run[..n];
    }
  }

  // ---------- from the channel to a batch ----------

  function Ticks(run: seq<Step>): nat {
    if run == [] then 0 else Ticks(run[..|run| - 1]) + if run[|run| - 1].Tick? then 1 else 0
  }

  function Receives(run: seq<Step>): nat {
    if run == [] then 0 else Receives(run[..|run| - 1]) + if run[|run| - 1].Receive? then 1 else 0
  }

  /** What the batcher is given over the rest of a run. */
  lemma {:induction false} RestOfEvents(setup: Setup, run: seq<Step>, more: seq<Step>) returns (rest: seq<B.Event>)
    requires Exec(setup, run + more).Some?
    ensures Exec(setup, run).Some?
    ensures Events(setup, run + more) == Events(setup, run) + rest && Queued(setup, run) <= Queued(setup, run + more)
    ensures B.Ticks(rest) == Ticks(more) && |B.Arrivals(rest)| == Receives(more)
    ensures Exec(setup, run + more).value.batcher == B.Exec(setup.batcher, Exec(setup, run).value.batcher, rest)
  {
    if more == [] {
      assert run + more == run;
      rest := [];
    } else {
      var n := |more| - 1;
      var l := more[n];
      assert run + more == run + more[..n] + [l];
      LastEvents(setup, run + more[..n], l);
      TicksAndReceives(more);
      hide *;
      var before := RestOfEvents(setup, run, more[..n]);
      var s, last := Exec(setup, run + more[..n]).value, EventOf(Exec(setup, run + more[..n]).value, l);
      StepInside(setup, s, l);
      rest := before + last;
      B.ExecAppend(setup.batcher, Exec(setup, run).value.batcher, before, last);
      B.ArrivalsAppend(before, last);
      B.TicksAppend(before, last);
      Regroup(Events(setup, run), before, last);
    }
  }

  lemma Regroup(a: seq<B.Event>, b: seq<B.Event>, c: seq<B.Event>)
    ensures a + b + c == a + (b + c)
  {
  }

  lemma TicksAndReceives(run: seq<Step>)
    requires run != []
    ensures var front, l := run[..|run| - 1], run[|run| - 1];
      && Ticks(run) == Ticks(front) + (if l.Tick? then 1 else 0)
      && Receives(run) == Receives(front) + if l.Receive? then 1 else 0
  {
  }

  /** What the last step of a run adds. */
  lemma LastEvents(setup: Setup, run: seq<Step>, l: Step)
    requires Exec(setup, run + [l]).Some?
    ensures Exec(setup, run).Some? && Enabled(setup, Exec(setup, run).value, l)
    ensures Exec(setup, run + [l]).value == Apply(setup, Exec(setup, run).value, l)
    ensures Events(setup, run + [l]) == Events(setup, run) + EventOf(Exec(setup, run).value, l)
    ensures Queued(setup, run) <= Queued(setup, run + [l])
  {
    assert (run + [l])[..|run|] == run;
    hide Apply, Enabled, EventOf;
  }

  /**
   * The channel is a queue: the payout at place i is received by the (i + 1)-th receive from now and moves up by one
   * place with every receive before.
   */
  lemma ReceivedInOrder(setup: Setup, run: seq<Step>, more: seq<Step>, i: nat)
    requires Exec(setup, run + more).Some? && Exec(setup, run).Some? && i < |Exec(setup, run).value.channel|
    ensures var s, t, r := Exec(setup, run).value, Exec(setup, run + more).value, Receives(more);
      && (r <= i ==> i - r < |t.channel| && t.channel[i - r] == s.channel[i])
      && (r > i ==>
            var was, now := B.Arrivals(Events(setup, run)), B.Arrivals(Events(setup, run + more));
            |was| + i < |now| && now[|was| + i] == s.channel[i])
  {
    hide *;
    var rest := RestOfEvents(setup, run, more);
    BatcherInside(setup, run);
    BatcherInside(setup, run + more);
    B.ArrivalsAppend(Events(setup, run), rest);
    var was, now := B.Arrivals(Events(setup, run)), B.Arrivals(Events(setup, run + more));
    var s, t := Exec(setup, run).value, Exec(setup, run + more).value;
    AtPlace(was, s.channel, now, t.channel, i);
  }

  /** A place in a channel, once more has left it and more has come in. */
  lemma AtPlace(was: seq<B.Payout>, channel: seq<B.Payout>, now: seq<B.Payout>, left: seq<B.Payout>, i: nat)
    requires was + channel <= now + left && |was| <= |now| && i < |channel|
    ensures var r := |now| - |was|;
      && (r <= i ==> i - r < |left| && left[i - r] == channel[i])
      && (r > i ==> now[|was| + i] == channel[i])
  {
    assert (was + channel)[|was| + i] == channel[i];
    assert (now + left)[|was| + i] == channel[i];
  }

  /** A receive takes the head of the channel: into the queue while there is room, and out of the system otherwise. */
  lemma ReceiveTakesHead(setup: Setup, s: State)
    requires Enabled(setup, s, Receive)
    ensures var t, p := Apply(setup, s, Receive), s.channel[0];
      && t.channel == s.channel[1..] && t.batcher.batches == s.batcher.batches
      && (|s.batcher.queue| < setup.batcher.maxInFlight ==>
            t.batcher.queue == s.batcher.queue + [p] && t.batcher.dropped == s.batcher.dropped)
      && (|s.batcher.queue| >= setup.batcher.maxInFlight ==>
            t.batcher.queue == s.batcher.queue && t.batcher.dropped == s.batcher.dropped + [p])
  {
  }

  /** What was accepted is still accepted, in its order, and is drained from the front. */
  ghost predicate Advanced(s: State, t: State) {
    && s.batcher.accepted <= t.batcher.accepted
    && s.batcher.accepted == PaidOut(s) + s.batcher.queue && t.batcher.accepted == PaidOut(t) + t.batcher.queue
  }

  lemma AcceptedStays(setup: Setup, run: seq<Step>, more: seq<Step>)
    requires Exec(setup, run + more).Some? && Exec(setup, run).Some?
    ensures Advanced(Exec(setup, run).value, Exec(setup, run + more).value)
  {
    var rest := RestOfEvents(setup, run, more);
    AccountOverRuns(setup, run);
    AccountOverRuns(setup, run + more);
    PaidIsAccepted(setup, Exec(setup, run).value);
    PaidIsAccepted(setup, Exec(setup, run + more).value);
    IsConserved(setup, Exec(setup, run).value);
    hide Exec, AccountInv, PaidOut, B.Conserved;
    B.FifoConservation(setup.batcher, Exec(setup, run).value.batcher, rest);
  }

  lemma IsConserved(setup: Setup, s: State)
    requires AccountInv(setup, s)
    ensures B.Conserved(setup.batcher, s.batcher)
  {
    hide Places, L1Ids, B.Conserved;
  }

  /**
   * A queued payout is paid on time: the one at position p is among the drained ones exactly when more further ticks of
   * the run have passed than its round, p / max_per_tx, and then it is the p-th drained from now.
   */
  lemma PaidOnTime(setup: Setup, run: seq<Step>, more: seq<Step>, p: nat)
    requires setup.batcher.maxPerTx > 0 && Exec(setup, run).Some? && p < |Exec(setup, run).value.batcher.queue|
    requires Exec(setup, run + more).Some? && !Exec(setup, run + more).value.batcher.aborted
    ensures var s, t := Exec(setup, run).value, Exec(setup, run + more).value;
      && (|PaidOut(t)| > |PaidOut(s)| + p <==> Ticks(more) > B.Round(setup.batcher, p))
      && (|PaidOut(t)| > |PaidOut(s)| + p ==> PaidOut(t)[|PaidOut(s)| + p] == s.batcher.queue[p])
  {
    PaidByTicks(setup, run, more, p);
    PaidInPlace(setup, run, more, p);
    hide *;
  }

  lemma PaidInPlace(setup: Setup, run: seq<Step>, more: seq<Step>, p: nat)
    requires Exec(setup, run).Some? && p < |Exec(setup, run).value.batcher.queue| && Exec(setup, run + more).Some?
    ensures var s, t := Exec(setup, run).value, Exec(setup, run + more).value;
      |PaidOut(t)| > |PaidOut(s)| + p ==> PaidOut(t)[|PaidOut(s)| + p] == s.batcher.queue[p]
  {
    hide *;
    AcceptedStays(setup, run, more);
    SamePlace(Exec(setup, run).value, Exec(setup, run + more).value, p);
  }

  lemma PaidByTicks(setup: Setup, run: seq<Step>, more: seq<Step>, p: nat)
    requires setup.batcher.maxPerTx > 0 && Exec(setup, run).Some? && p < |Exec(setup, run).value.batcher.queue|
    requires Exec(setup, run + more).Some? && !Exec(setup, run + more).value.batcher.aborted
    ensures var s, t := Exec(setup, run).value, Exec(setup, run + more).value;
      |PaidOut(t)| > |PaidOut(s)| + p <==> Ticks(more) > B.Round(setup.batcher, p)
  {
    var s, t := Exec(setup, run).value, Exec(setup, run + more).value;
    var rest := RestOfEvents(setup, run, more);
    B.DrainedByTicks(setup.batcher, s.batcher, rest, p);
    hide Exec, Events, Queued, Ticks, Receives, B.Exec, B.Drained, B.Ticks, B.Arrivals, B.Round;
  }

  lemma SamePlace(s: State, t: State, p: nat)
    requires Advanced(s, t) && p < |s.batcher.queue|
    ensures |PaidOut(t)| > |PaidOut(s)| + p ==> PaidOut(t)[|PaidOut(s)| + p] == s.batcher.queue[p]
  {
    hide PaidOut;
    assert s.batcher.accepted[|PaidOut(s)| + p] == s.batcher.queue[p];
  }

  /**
   * From the channel to a batch: the payout at place i is taken by the receive that i others precede; if there is room
   * then, it is paid on exactly the (q / max_per_tx + 1)-th tick after, q being the length of the queue it joins, which
   * comes within the ticks that drain a full queue.
   */
  lemma PayoutArrives(setup: Setup, run: seq<Step>, a: seq<Step>, b: seq<Step>, i: nat)
    requires setup.batcher.maxPerTx > 0 && Exec(setup, run).Some? && i < |Exec(setup, run).value.channel|
    requires Receives(a) == i && Exec(setup, run + a).Some? && Exec(setup, run + a + [Step.Receive]).Some?
    requires |Exec(setup, run + a).value.batcher.queue| < setup.batcher.maxInFlight
    requires Exec(setup, run + a + [Step.Receive] + b).Some?
    requires !Exec(setup, run + a + [Step.Receive] + b).value.batcher.aborted
    ensures var s, u := Exec(setup, run).value, Exec(setup, run + a).value;
      var t := Exec(setup, run + a + [Step.Receive] + b).value;
      var place := |PaidOut(u)| + |u.batcher.queue|;
      && (|PaidOut(t)| > place <==> Ticks(b) > B.Round(setup.batcher, |u.batcher.queue|))
      && (|PaidOut(t)| > place ==> PaidOut(t)[place] == s.channel[i])
      && (Ticks(b) >= B.Rounds(setup.batcher) ==> |PaidOut(t)| > place)
  {
    hide *;
    var u, run' := Exec(setup, run + a).value, run + a + [Step.Receive];
    var t := Exec(setup, run').value;
    ReceivedInOrder(setup, run, a, i);
    ReceivedHead(setup, run + a);
    var q := |u.batcher.queue|;
    B.RoundIsBelow(setup.batcher, q);
    PaidOnTime(setup, run', b, q);
  }

  lemma ReceivedHead(setup: Setup, run: seq<Step>)
    requires Exec(setup, run).Some? && Exec(setup, run + [Step.Receive]).Some?
    requires |Exec(setup, run).value.batcher.queue| < setup.batcher.maxInFlight
    ensures var s, t := Exec(setup, run).value, Exec(setup, run + [Step.Receive]).value;
      && PaidOut(t) == PaidOut(s) && s.channel != [] && t.batcher.queue == s.batcher.queue + [s.channel[0]]
  {
    assert (run + [Step.Receive])[..|run|] == run;
    var s := Exec(setup, run).value;
    hide Apply;
    ReceiveTakesHead(setup, s);
  }
}
