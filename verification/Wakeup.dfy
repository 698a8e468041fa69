/**
 * No lost wakeup, to the millisecond: when every entry in the heap is covered by the time the background task will
 * wake, and the one schedule in which an entry is not.
 */
module Wakeup {
  import opened Bytes
  import opened Challenges
  import opened EQ = EvictionQueue
  import opened PowSystem
  import opened PowInvariants

  /** When the task will next run a pass, once the pass it may be in has been accounted for. */
  function Target(s: State): Instant {
    if s.evictor.Evicting? then EQ.Wakeup(s.evictor.next) else s.nextWakeup
  }

  ghost predicate HasMessage(s: State, t: Instant) {
    exists i :: 0 <= i < |s.channel| && s.channel[i] <= t
  }

  ghost predicate HasAdder(s: State, e: EvictionEntry) {
    exists c :: c in s.calls && (s.calls[c] == Pushed(e) || s.calls[c] == Sending(e))
  }

  /** The task wakes no later than the entry's millisecond, or will be told, or the adder is still on its way. */
  ghost predicate Covered(s: State, e: EvictionEntry) {
    Millis(Target(s)) <= Millis(e.expiresAt) || HasMessage(s, e.expiresAt) || HasAdder(s, e)
  }

  ghost predicate AllCovered(s: State) {
    forall e :: e in s.heap ==> Covered(s, e)
  }

  /**
   * A client loads the published wakeup after the pass has released the lock and before the new wakeup is stored,
   * finds it soon enough, and sends nothing, although the wakeup about to be stored is later.
   */
  ghost predicate StaleLoad(s: State, l: Step, e: EvictionEntry) {
    && l.Load? && l.call in s.calls && s.calls[l.call] == Pushed(e)
    && s.evictor.Returned?
    && s.published <= Millis(e.expiresAt) < Millis(s.nextWakeup)
    && !HasMessage(s, e.expiresAt)
  }

  // ---------- what the argument rests on ----------

  /** From here on the cast of milliseconds to `u64` would wrap: more than 584 million years. */
  const HORIZON: nat := 0x1_0000_0000_0000_0000 * 1_000_000

  function Limit(server: Server, s: State): nat {
    s.clock + (if server.l1Duration > server.l2Duration then server.l1Duration else server.l2Duration)
  }

  ghost predicate InHorizon(server: Server, s: State) {
    Limit(server, s) < HORIZON
  }

  lemma MillisMonotone(a: Instant, b: Instant)
    requires a <= b < HORIZON
    ensures Millis(a) <= Millis(b)
  {
    assert a / 1_000_000 <= b / 1_000_000 < 0x1_0000_0000_0000_0000;
  }

  predicate HasEntry(call: Call) { call.Installed? || call.Pushed? || call.Sending? }

  ghost predicate CallBounded(call: Call, limit: nat) {
    && (call.Candidate? ==> call.challenge.expiresAt <= limit)
    && (HasEntry(call) ==> call.entry.expiresAt <= limit)
  }

  /** No expiry lies further ahead than the longest challenge duration. */
  ghost predicate BoundInv(server: Server, s: State) {
    var limit := Limit(server, s);
    && (forall e :: e in s.heap ==> e.expiresAt <= limit)
    && (forall i :: 0 <= i < |s.channel| ==> s.channel[i] <= limit)
    && (forall c :: c in s.calls ==> CallBounded(s.calls[c], limit))
    && WakeupBounded(server, s)
  }

  /** The published wakeup is never before the task's own, except between the end of a pass and the store. */
  ghost predicate PublishedInv(s: State) {
    s.evictor.Waiting? || s.evictor.Rescheduled? ==> Millis(s.nextWakeup) <= s.published
  }

  ghost predicate AddersApart(s: State, c: CallId, d: CallId) {
    c in s.calls && d in s.calls && c != d && HasEntry(s.calls[c]) && HasEntry(s.calls[d]) ==>
      s.calls[c].entry.install != s.calls[d].entry.install
  }

  /** No two calls carry the entry of one install. */
  ghost predicate AdderInv(s: State) {
    forall c, d :: AddersApart(s, c, d)
  }

  ghost predicate WakeInv(server: Server, s: State) {
    Inv(server, s) && BoundInv(server, s) && AdderInv(s) && (InHorizon(server, s) ==> PublishedInv(s))
  }

  lemma OwnCallBounded(server: Server, s: State, l: Step, c: CallId)
    requires (c in s.calls ==> CallBounded(s.calls[c], Limit(server, s))) && Enabled(s, l) && TakenBy(l, c)
    ensures var t := Apply(server, s, l); c in t.calls ==> CallBounded(t.calls[c], Limit(server, t))
  {
  }

  lemma LimitGrows(server: Server, s: State, l: Step)
    requires Enabled(s, l)
    ensures Limit(server, s) <= Limit(server, Apply(server, s, l))
  {
  }

  lemma CallStaysBounded(server: Server, s: State, l: Step, c: CallId)
    requires BoundInv(server, s) && Enabled(s, l)
    ensures var t := Apply(server, s, l); c in t.calls ==> CallBounded(t.calls[c], Limit(server, t))
  {
    hide Apply, Enabled, Limit, WakeupBounded;
    if TakenBy(l, c) {
      OwnCallBounded(server, s, l, c);
    } else {
      OthersUntouched(server, s, l, c);
      LimitGrows(server, s, l);
    }
  }

  lemma HeapStaysBounded(server: Server, s: State, l: Step, e: EvictionEntry)
    requires BoundInv(server, s) && Enabled(s, l)
    ensures var t := Apply(server, s, l); e in t.heap ==> e.expiresAt <= Limit(server, t)
  {
    if l.Push? { assert CallBounded(s.calls[l.call], Limit(server, s)); }
    if l.BeginEviction? && e in l.rest { assert e in s.heap; }
  }

  lemma ChannelStaysBounded(server: Server, s: State, l: Step, i: nat)
    requires BoundInv(server, s) && Enabled(s, l)
    ensures var t := Apply(server, s, l); i < |t.channel| ==> t.channel[i] <= Limit(server, t)
  {
    if l.Send? { assert CallBounded(s.calls[l.call], Limit(server, s)); }
  }

  ghost predicate WakeupBounded(server: Server, s: State) {
    && (s.nextWakeup <= Limit(server, s) || s.nextWakeup == FAR)
    && (s.evictor.Evicting? && s.evictor.next.Some? ==> s.evictor.next.value <= Limit(server, s))
  }

  /** Where the next wakeup, and the one a pass has found, come from. */
  lemma WakeupComesFrom(server: Server, s: State, l: Step)
    requires Enabled(s, l) && !l.BeginEviction?
    ensures var t := Apply(server, s, l);
      && (t.nextWakeup == s.nextWakeup
          || (s.channel != [] && t.nextWakeup == s.channel[0])
          || (s.evictor.Evicting? && t.nextWakeup == EQ.Wakeup(s.evictor.next)))
      && (t.evictor.Evicting? ==> s.evictor.Evicting? && t.evictor.next == s.evictor.next)
  {
  }

  lemma WakeupStaysBounded(server: Server, s: State, l: Step)
    requires BoundInv(server, s) && Enabled(s, l)
    ensures WakeupBounded(server, Apply(server, s, l))
  {
    LimitGrows(server, s, l);
    if l.BeginEviction? {
      forall e | e in l.rest ensures e in s.heap {}
    } else {
      WakeupComesFrom(server, s, l);
      hide Apply, Enabled;
    }
    hide Limit, CallBounded;
  }

  lemma BoundStep(server: Server, s: State, l: Step)
    requires BoundInv(server, s) && Enabled(s, l)
    ensures BoundInv(server, Apply(server, s, l))
  {
    hide Apply, Enabled, CallBounded, Limit;
    var t := Apply(server, s, l);
    forall c | c in t.calls ensures CallBounded(t.calls[c], Limit(server, t)) { CallStaysBounded(server, s, l, c); }
    forall e | e in t.heap ensures e.expiresAt <= Limit(server, t) { HeapStaysBounded(server, s, l, e); }
    forall i: nat | i < |t.channel| ensures t.channel[i] <= Limit(server, t) { ChannelStaysBounded(server, s, l, i); }
    WakeupStaysBounded(server, s, l);
  }

  /** An entry in a call's hands was there before the step, or is that of a new install. */
  lemma EntriesComeFrom(server: Server, s: State, l: Step, c: CallId)
    requires Enabled(s, l)
    ensures var t := Apply(server, s, l);
      c in t.calls && HasEntry(t.calls[c]) ==>
        || (c in s.calls && HasEntry(s.calls[c]) && t.calls[c].entry == s.calls[c].entry)
        || (l == InstallCas(c) && t.calls[c].entry.install == |s.installed|)
  {
    if !TakenBy(l, c) {
      hide Apply, Enabled;
      OthersUntouched(server, s, l, c);
    }
  }

  lemma AdderStep(server: Server, s: State, l: Step)
    requires AdderInv(s) && ChallengeInv(s) && Enabled(s, l)
    ensures AdderInv(Apply(server, s, l))
  {
    hide Apply, Enabled;
    var t := Apply(server, s, l);
    forall c, d ensures AddersApart(t, c, d) {
      EntriesComeFrom(server, s, l, c);
      EntriesComeFrom(server, s, l, d);
      assert AddersApart(s, c, d);
      if c in s.calls { assert CopyOk(s, s.calls[c]); }
      if d in s.calls { assert CopyOk(s, s.calls[d]); }
    }
  }

  lemma PublishedStep(server: Server, s: State, l: Step)
    requires BoundInv(server, s) && Enabled(s, l) && InHorizon(server, s) && PublishedInv(s)
    ensures PublishedInv(Apply(server, s, l))
  {
    if l.Receive? && s.channel[0] < s.nextWakeup {
      MillisMonotone(s.channel[0], s.nextWakeup);
    }
  }

  lemma WakeStep(server: Server, s: State, l: Step)
    requires WakeInv(server, s) && Enabled(s, l)
    ensures WakeInv(server, Apply(server, s, l))
    ensures InHorizon(server, Apply(server, s, l)) ==> InHorizon(server, s)
  {
    var t := Apply(server, s, l);
    HorizonShrinks(server, s, l);
    hide *;
    InvStep(server, s, l) by { UnpackWake(server, s); }
    BoundStep(server, s, l) by { UnpackWake(server, s); }
    AdderStep(server, s, l) by { UnpackWake(server, s); UnpackInv(server, s); }
    if InHorizon(server, t) {
      PublishedStep(server, s, l) by { UnpackWake(server, s); }
    }
    PackWake(server, t);
  }

  lemma HorizonShrinks(server: Server, s: State, l: Step)
    requires Enabled(s, l)
    ensures InHorizon(server, Apply(server, s, l)) ==> InHorizon(server, s)
  {
  }

  lemma UnpackWake(server: Server, s: State)
    requires WakeInv(server, s)
    ensures Inv(server, s) && BoundInv(server, s) && AdderInv(s) && (InHorizon(server, s) ==> PublishedInv(s))
  {
    hide Inv, BoundInv, AdderInv, InHorizon, PublishedInv;
  }

  lemma PackWake(server: Server, s: State)
    requires Inv(server, s) && BoundInv(server, s) && AdderInv(s) && (InHorizon(server, s) ==> PublishedInv(s))
    ensures WakeInv(server, s)
  {
    hide Inv, BoundInv, AdderInv, InHorizon, PublishedInv;
  }

  lemma {:induction false} WakeOverRuns(server: Server, run: seq<Step>)
    requires Exec(server, run).Some?
    ensures WakeInv(server, Exec(server, run).value)
  {
    if run == [] {
      InitInv(server);
      assert Millis(FAR) <= U64_MAX;
    } else {
      hide WakeInv, Enabled, Apply;
      WakeOverRuns(server, run[..|run| - 1]);
      WakeStep(server, Exec(server, run[..|run| - 1]).value, run[|run| - 1]);
    }
  }

  // ---------- one step ----------

  /** A load that sends nothing: the entry stays covered exactly when the load is not stale. */
  lemma CoverLoad(server: Server, s: State, l: Step, e: EvictionEntry)
    requires l.Load? && Enabled(s, l) && s.calls[l.call] == Pushed(e) && e in s.heap
    requires PassInv(s) && BoundInv(server, s) && InHorizon(server, s) && PublishedInv(s) && AdderInv(s)
    ensures Covered(Apply(server, s, l), e) <==> !StaleLoad(s, l, e)
  {
    var t := Apply(server, s, l);
    if Millis(e.expiresAt) < s.published {
      assert t.calls[l.call] == Sending(e);
    } else {
      if s.evictor.Evicting? { MillisMonotone(Target(s), e.expiresAt); }
      forall c | c in t.calls ensures t.calls[c] != Pushed(e) && t.calls[c] != Sending(e) {
        assert AddersApart(s, c, l.call);
      }
    }
  }

  /** Receiving a message keeps what it, or the wakeup it replaces, covered. */
  lemma CoverReceive(server: Server, s: State, e: EvictionEntry)
    requires Enabled(s, Receive) && e in s.heap && Covered(s, e)
    requires BoundInv(server, s) && InHorizon(server, s)
    ensures Covered(Apply(server, s, Receive), e)
  {
    var t, m := Apply(server, s, Receive), s.channel[0];
    if m <= e.expiresAt {
      MillisMonotone(Target(t), e.expiresAt);
    } else {
      if m < s.nextWakeup { MillisMonotone(m, s.nextWakeup); }
      if HasMessage(s, e.expiresAt) {
        var i :| 0 <= i < |s.channel| && s.channel[i] <= e.expiresAt;
        assert t.channel[i - 1] == s.channel[i];
      }
      if HasAdder(s, e) {
        var c :| c in s.calls && (s.calls[c] == Pushed(e) || s.calls[c] == Sending(e));
        assert t.calls[c] == s.calls[c];
      }
    }
  }

  /** Steps that only change calls which carry neither a pushed nor a sending entry, or nothing that covers. */
  lemma CoverOther(server: Server, s: State, l: Step, e: EvictionEntry)
    requires Enabled(s, l) && !l.Load? && !l.Receive? && !l.BeginEviction? && !l.Return?
    requires e in s.heap && Covered(s, e)
    ensures Covered(Apply(server, s, l), e)
  {
    var t := Apply(server, s, l);
    if HasMessage(s, e.expiresAt) {
      var i :| 0 <= i < |s.channel| && s.channel[i] <= e.expiresAt;
      assert t.channel[i] == s.channel[i];
    }
    if HasAdder(s, e) {
      var c :| c in s.calls && (s.calls[c] == Pushed(e) || s.calls[c] == Sending(e));
      if l.Send? && l.call == c {
        assert t.channel[|s.channel|] <= e.expiresAt;
      } else {
        assert t.calls[c] == s.calls[c];
      }
    }
  }

  lemma CoverLoadOther(server: Server, s: State, l: Step, e: EvictionEntry)
    requires l.Load? && Enabled(s, l) && s.calls[l.call] != Pushed(e)
    requires e in s.heap && Covered(s, e)
    ensures Covered(Apply(server, s, l), e)
  {
    var t := Apply(server, s, l);
    if HasAdder(s, e) {
      var c :| c in s.calls && (s.calls[c] == Pushed(e) || s.calls[c] == Sending(e));
      assert t.calls[c] == s.calls[c];
    }
    if HasMessage(s, e.expiresAt) { assert t.channel == s.channel; }
  }

  /** One step, one entry: it is covered afterwards exactly when the step is not a stale load for it. */
  lemma CoverStep(server: Server, s: State, l: Step, e: EvictionEntry)
    requires WakeInv(server, s) && InHorizon(server, s) && Enabled(s, l)
    requires e in Apply(server, s, l).heap && (e in s.heap ==> Covered(s, e))
    ensures Covered(Apply(server, s, l), e) <==> !(StaleLoad(s, l, e) && e in s.heap)
  {
    UnpackWake(server, s);
    UnpackInv(server, s);
    hide TokenInv, LogInv, ChallengeInv, ReadInv, SolveInv, Covered, StaleLoad;
    if l.Load? && s.calls[l.call] == Pushed(e) {
      CoverLoad(server, s, l, e);
    } else {
      NotStale(s, l, e);
      CoverNotLoad(server, s, l, e);
    }
  }

  lemma CoverNotLoad(server: Server, s: State, l: Step, e: EvictionEntry)
    requires BoundInv(server, s) && InHorizon(server, s) && Enabled(s, l)
    requires e in Apply(server, s, l).heap && (e in s.heap ==> Covered(s, e))
    requires l.Load? ==> s.calls[l.call] != Pushed(e)
    ensures Covered(Apply(server, s, l), e)
  {
    hide Covered, BoundInv, InHorizon;
    match l {
      case Load(_) => CoverLoadOther(server, s, l, e);
      case Receive => CoverReceive(server, s, e);
      case BeginEviction(_, _, _) => CoverSplit(server, s, l, e);
      case Return => CoverReturn(server, s, e);
      case Push(_) => if e in s.heap { CoverOther(server, s, l, e); } else { CoverPush(server, s, l, e); }
      case _ => CoverOther(server, s, l, e);
    }
  }

  lemma NotStale(s: State, l: Step, e: EvictionEntry)
    requires Enabled(s, l) && (l.Load? ==> s.calls[l.call] != Pushed(e))
    ensures !StaleLoad(s, l, e)
  {
  }

  lemma CoverSplit(server: Server, s: State, l: Step, e: EvictionEntry)
    requires l.BeginEviction? && Enabled(s, l) && e in l.rest && BoundInv(server, s) && InHorizon(server, s)
    ensures Covered(Apply(server, s, l), e)
  {
    assert e in s.heap;
    MillisMonotone(EQ.Wakeup(l.next), e.expiresAt);
  }

  lemma CoverReturn(server: Server, s: State, e: EvictionEntry)
    requires Enabled(s, Return) && e in s.heap && Covered(s, e)
    ensures Covered(Apply(server, s, Return), e)
  {
    var t := Apply(server, s, Return);
    if HasMessage(s, e.expiresAt) { assert t.channel == s.channel; }
    if HasAdder(s, e) {
      var c :| c in s.calls && (s.calls[c] == Pushed(e) || s.calls[c] == Sending(e));
      assert t.calls[c] == s.calls[c];
    }
  }

  lemma CoverPush(server: Server, s: State, l: Step, e: EvictionEntry)
    requires l.Push? && Enabled(s, l) && e !in s.heap && e in Apply(server, s, l).heap
    ensures Covered(Apply(server, s, l), e)
  {
    assert Apply(server, s, l).calls[l.call] == Pushed(e);
  }

  // ---------- whole runs ----------

  ghost predicate IsStale(s: State, l: Step) {
    exists e :: e in s.heap && StaleLoad(s, l, e)
  }

  /** All entries covered: then they stay so, exactly when the step is not a stale load. */
  lemma AllCoverStep(server: Server, s: State, l: Step)
    requires WakeInv(server, s) && InHorizon(server, s) && Enabled(s, l) && AllCovered(s)
    ensures AllCovered(Apply(server, s, l)) <==> !IsStale(s, l)
  {
    hide WakeInv, Covered, StaleLoad, InHorizon;
    var t := Apply(server, s, l);
    forall e | e in t.heap ensures Covered(t, e) <==> !(StaleLoad(s, l, e) && e in s.heap) {
      CoverStep(server, s, l, e);
    }
    if e :| e in s.heap && StaleLoad(s, l, e) {
      assert e in t.heap by { LoadKeepsHeap(server, s, l, e); }
    }
  }

  lemma LoadKeepsHeap(server: Server, s: State, l: Step, e: EvictionEntry)
    requires Enabled(s, l) && StaleLoad(s, l, e)
    ensures Apply(server, s, l).heap == s.heap
  {
  }

  /** After every prefix of the run all entries in the heap are covered. */
  ghost predicate CoveredThroughout(server: Server, run: seq<Step>) {
    forall n :: 0 <= n <= |run| ==> Exec(server, run[..n]).Some? && AllCovered(Exec(server, run[..n]).value)
  }

  /** Step n is not a stale load. */
  ghost predicate NotStaleAt(server: Server, run: seq<Step>, n: nat)
    requires n < |run|
  {
    Exec(server, run[..n]).Some? && !IsStale(Exec(server, run[..n]).value, run[n])
  }

  /** No step of the run is a stale load. */
  ghost predicate NoStaleLoad(server: Server, run: seq<Step>) {
    forall n :: 0 <= n < |run| ==> NotStaleAt(server, run, n)
  }

  /** A wakeup is never lost over a run if and only if no client loads the published wakeup in the stale window. */
  lemma {:induction false} NoLostWakeup(server: Server, run: seq<Step>)
    requires Exec(server, run).Some? && InHorizon(server, Exec(server, run).value)
    ensures CoveredThroughout(server, run) <==> NoStaleLoad(server, run)
  {
    if run == [] {
      assert run[..0] == [];
    } else {
      var m := |run| - 1;
      var front := run[..m];
      var s, l := Exec(server, front).value, run[m];
      WakeOverRuns(server, front);
      HorizonShrinks(server, s, l);
      NoLostWakeup(server, front);
      assert run[..|run|] == run;
      hide WakeInv, InHorizon, AllCovered, IsStale, Apply, Enabled;
      CoveredPrefix(server, run);
      StalePrefix(server, run);
      if AllCovered(s) { AllCoverStep(server, s, l); }
    }
  }

  lemma CoveredPrefix(server: Server, run: seq<Step>)
    requires run != [] && Exec(server, run).Some?
    ensures CoveredThroughout(server, run) <==>
      CoveredThroughout(server, run[..|run| - 1]) && AllCovered(Exec(server, run).value)
    ensures CoveredThroughout(server, run[..|run| - 1]) ==> AllCovered(Exec(server, run[..|run| - 1]).value)
  {
    hide AllCovered, Enabled, Apply;
    var front := run[..|run| - 1];
    assert run[..|run|] == run && front[..|front|] == front;
    assert forall n :: 0 <= n <= |front| ==> front[..n] == run[..n];
    if CoveredThroughout(server, front) && AllCovered(Exec(server, run).value) {
      forall n | 0 <= n <= |run| ensures Exec(server, run[..n]).Some? && AllCovered(Exec(server, run[..n]).value) {
        if n <= |front| { assert front[..n] == run[..n]; }
      }
    }
  }

  lemma SameStaleness(server: Server, run: seq<Step>, n: nat)
    requires n + 1 < |run|
    ensures NotStaleAt(server, run[..|run| - 1], n) <==> NotStaleAt(server, run, n)
  {
    hide Exec, IsStale;
    assert run[..|run| - 1][..n] == run[..n];
  }

  lemma StalePrefix(server: Server, run: seq<Step>)
    requires run != [] && Exec(server, run).Some?
    ensures NoStaleLoad(server, run) <==>
      NoStaleLoad(server, run[..|run| - 1]) && !IsStale(Exec(server, run[..|run| - 1]).value, run[|run| - 1])
  {
    var front, last := run[..|run| - 1], |run| - 1;
    LastStaleness(server, run);
    hide Exec, IsStale, NotStaleAt;
    if NoStaleLoad(server, run) {
      forall n | 0 <= n < |front| ensures NotStaleAt(server, front, n) { SameStaleness(server, run, n); }
      assert NotStaleAt(server, run, last);
    }
    if NoStaleLoad(server, front) && NotStaleAt(server, run, last) {
      forall n | 0 <= n < |run| ensures NotStaleAt(server, run, n) {
        if n < last { SameStaleness(server, run, n); }
      }
    }
  }

  lemma LastStaleness(server: Server, run: seq<Step>)
    requires run != [] && Exec(server, run).Some?
    ensures NotStaleAt(server, run, |run| - 1) <==> !IsStale(Exec(server, run[..|run| - 1]).value, run[|run| - 1])
  {
    hide IsStale, Enabled, Apply;
  }

  /** The end of a pass and the store that follows it taken as one step. */
  ghost predicate StoresAtOnce(run: seq<Step>) {
    forall i :: 0 <= i < |run| - 1 && run[i].Return? ==> run[i + 1].Publish?
  }

  lemma OnlyReturnReturns(server: Server, s: State, l: Step)
    requires Enabled(s, l) && Apply(server, s, l).evictor.Returned?
    ensures l.Return? || (s.evictor.Returned? && !l.Publish?)
  {
  }

  lemma {:induction false} ReturnedAfterReturn(server: Server, run: seq<Step>)
    requires Exec(server, run).Some? && Exec(server, run).value.evictor.Returned? && StoresAtOnce(run)
    ensures run != [] && run[|run| - 1].Return?
  {
    if run == [] {
    } else {
      var front, l := run[..|run| - 1], run[|run| - 1];
      OnlyReturnReturns(server, Exec(server, front).value, l);
      hide Apply, Enabled;
      if !l.Return? {
        assert forall i :: 0 <= i < |front| ==> front[i] == run[i];
        ReturnedAfterReturn(server, front);
      }
    }
  }

  /** Between the end of a pass and the store no load is enabled, so none is stale. */
  lemma NoneStaleWhenAtomic(server: Server, run: seq<Step>, n: nat)
    requires n < |run| && Exec(server, run[..n]).Some? && StoresAtOnce(run)
    ensures !IsStale(Exec(server, run[..n]).value, run[n])
  {
    var before := run[..n];
    assert forall i :: 0 <= i < n ==> before[i] == run[i];
    hide Exec, StaleLoad;
    var s := Exec(server, before).value;
    assert IsStale(s, run[n]) ==> run[n].Load? && s.evictor.Returned? by { StaleIsLoad(s, run[n]); }
    if s.evictor.Returned? { ReturnedAfterReturn(server, before); }
  }

  lemma StaleIsLoad(s: State, l: Step)
    ensures IsStale(s, l) ==> l.Load? && s.evictor.Returned?
  {
  }

  /** With the store atomic with the end of the pass, no wakeup is ever lost. */
  lemma AtomicStoreLosesNothing(server: Server, run: seq<Step>)
    requires Exec(server, run).Some? && InHorizon(server, Exec(server, run).value) && StoresAtOnce(run)
    ensures CoveredThroughout(server, run)
  {
    hide Exec, StoresAtOnce, IsStale, CoveredThroughout;
    forall n | 0 <= n < |run| ensures NotStaleAt(server, run, n) {
      PrefixRuns(server, run, n);
      NoneStaleWhenAtomic(server, run, n);
    }
    NoLostWakeup(server, run);
  }

  lemma {:induction false} PrefixRuns(server: Server, run: seq<Step>, n: nat)
    requires n <= |run| && Exec(server, run).Some?
    ensures Exec(server, run[..n]).Some?
  {
    if n == |run| {
      assert run[..n] == run;
    } else {
      PrefixRuns(server, run[..|run| - 1], n);
      assert run[..|run| - 1][..n] == run[..n];
    }
  }

  // ---------- from coverage to eviction ----------

  /** With nothing on its way to wake it, a waiting task that covers an entry wakes by the end of its millisecond. */
  lemma CoveredIsDue(server: Server, s: State, e: EvictionEntry)
    requires BoundInv(server, s) && InHorizon(server, s)
    requires s.evictor.Waiting? && s.channel == [] && !HasAdder(s, e) && e in s.heap && Covered(s, e)
    ensures s.nextWakeup < e.expiresAt + 1_000_000
  {
    hide AddersApart, CallBounded;
    assert e.expiresAt < HORIZON && s.nextWakeup < HORIZON;
    MillisBelow(s.nextWakeup, e.expiresAt);
  }

  lemma MillisBelow(a: Instant, b: Instant)
    requires a < HORIZON && b < HORIZON && Millis(a) <= Millis(b)
    ensures a < b + 1_000_000
  {
    assert a / 1_000_000 <= b / 1_000_000;
  }

  /**
   * A covered entry is evicted: once the clock is a millisecond past its expiry, the waiting task can begin a pass, and
   * every pass it can begin pops the entry.
   */
  lemma CoveredIsEvicted(server: Server, run: seq<Step>, e: EvictionEntry)
    returns (popped: seq<EvictionEntry>, rest: multiset<EvictionEntry>, next: Option<Instant>)
    requires Exec(server, run).Some? && InHorizon(server, Exec(server, run).value)
    requires var s := Exec(server, run).value;
      && s.evictor.Waiting? && s.channel == [] && !HasAdder(s, e) && e in s.heap && Covered(s, e)
      && s.clock >= e.expiresAt + 1_000_000
    ensures Enabled(Exec(server, run).value, BeginEviction(popped, rest, next))
    ensures forall l: Step :: l.BeginEviction? && Enabled(Exec(server, run).value, l) ==> e in l.toExpire
  {
    var s := Exec(server, run).value;
    WakeOverRuns(server, run);
    UnpackWake(server, s);
    CoveredIsDue(server, s, e);
    popped, rest, next := EQ.SplitExists(s.heap, s.clock);
    hide Exec, Inv, BoundInv, AdderInv, Covered, HasAdder;
    forall l: Step | l.BeginEviction? && Enabled(s, l) ensures e in l.toExpire {
      assert e in multiset(l.toExpire) + l.rest;
    }
  }
}
