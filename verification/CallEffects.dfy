/**
 * Every call takes effect exactly once, between its first step and its last, and is given what its effect says; and
 * what a refused check means.
 */
module CallEffects {
  import opened Bytes
  import opened Challenges
  import opened EvictionQueue
  import opened History
  import opened PowSystem
  import opened PowInvariants
  import opened Linearization

  predicate Begins(l: Step, c: CallId) {
    (l.BeginGet? || l.BeginCheck?) && l.call == c
  }

  /** The step at `b` is the last one of the run that begins a call `c`. */
  ghost predicate Started(run: seq<Step>, b: nat, c: CallId) {
    b < |run| && Begins(run[b], c) && forall i :: b < i < |run| ==> !Begins(run[i], c)
  }

  /** The operations of call `c` whose effects lie at step `b` or later, in order. */
  function OpsSince(effects: seq<Effect>, c: CallId, b: nat): seq<Op> {
    if effects == [] then []
    else
      var e := effects[|effects| - 1];
      OpsSince(effects[..|effects| - 1], c, b) + if e.caller == Some(c) && e.at >= b then [e.op] else []
  }

  lemma OpsAppend(effects: seq<Effect>, e: Effect, c: CallId, b: nat)
    ensures OpsSince(effects + [e], c, b)
         == OpsSince(effects, c, b) + if e.caller == Some(c) && e.at >= b then [e.op] else []
  {
    assert (effects + [e])[..|effects|] == effects;
  }

  /** Every effect lies at a step of the run, taken by the call it belongs to. */
  lemma {:induction false} EffectsAreOwnSteps(server: Server, run: seq<Step>, e: Effect)
    requires e in Effects(server, run)
    ensures e.at < |run| && (e.caller.Some? ==> TakenBy(run[e.at], e.caller.value))
  {
    var n := |run| - 1;
    if e !in Effects(server, run[..n]) {
      assert e.at == n;
    } else {
      EffectsAreOwnSteps(server, run[..n], e);
    }
  }

  lemma {:induction false} NothingYet(effects: seq<Effect>, c: CallId, b: nat)
    requires forall e :: e in effects ==> e.at < b
    ensures OpsSince(effects, c, b) == []
  {
    if effects == [] {
    } else {
      assert effects[|effects| - 1] in effects;
      NothingYet(effects[..|effects| - 1], c, b);
    }
  }

  /** The challenge a get makes when it begins, in the state it begins in. */
  function Made(server: Server, s0: State, begin: Step): Challenge
    requires begin.BeginGet?
  {
    Challenge(begin.nonce, false, s0.clock + Duration(server, begin.key.chain), begin.difficulty)
  }

  /** A get has installed the challenge it made. */
  ghost predicate HasInstalled(server: Server, s0: State, begin: Step, s: State, e: EvictionEntry, ops: seq<Op>) {
    && begin.BeginGet?
    && var made := Made(server, s0, begin);
    ops == [Get(begin.key, made, made)] && OwnChallenge(s, e) == Some(made)
  }

  predicate IsCheckOf(begin: Step, key: Key, solution: Solution) {
    begin.BeginCheck? && begin.key == key && begin.solution == solution
  }

  /** The key held this, unclaimed. */
  predicate FoundUnclaimed(s0: State, key: Key, slot: Slot) {
    key in s0.slots && s0.slots[key] == slot && !slot.challenge.claimed
  }

  /** A call in flight: the step that began it, in the state `s0`, and the operations it has had since. */
  ghost predicate Story(server: Server, s0: State, begin: Step, s: State, call: Call, ops: seq<Op>) {
    match call
    case Candidate(key, ch) => begin.BeginGet? && key == begin.key && ch == Made(server, s0, begin) && ops == []
    case Installed(e) => HasInstalled(server, s0, begin, s, e, ops)
    case Pushed(e) => HasInstalled(server, s0, begin, s, e, ops)
    case Sending(e) => HasInstalled(server, s0, begin, s, e, ops)
    case Reading(key, slot, solution, readAt) =>
      IsCheckOf(begin, key, solution) && FoundUnclaimed(s0, key, slot) && readAt == |s0.log| && ops == []
    case Verifying(key, slot, solution) =>
      IsCheckOf(begin, key, solution) && ops == [Check(key, solution, Verdict(server, slot.challenge, solution))]
  }

  /** What a step of call `c` adds to the operations of `c`, and to those of any other call. */
  function OwnOps(server: Server, s: State, l: Step, c: CallId): seq<Op> {
    match OpOf(server, s, l)
    case None => []
    case Some(op) => if CallerOf(l) == Some(c) then [op] else []
  }

  lemma OpsAfter(server: Server, run: seq<Step>, l: Step, c: CallId, b: nat)
    requires Exec(server, run).Some? && b <= |run|
    ensures OpsSince(Effects(server, run + [l]), c, b) ==
      OpsSince(Effects(server, run), c, b) + OwnOps(server, Exec(server, run).value, l, c)
    ensures !TakenBy(l, c) ==> OwnOps(server, Exec(server, run).value, l, c) == []
    ensures OpsSince(Effects(server, run), c, |run|) == []
  {
    var s, effects := Exec(server, run).value, Effects(server, run);
    EffectsOfExtended(server, run, l);
    forall e | e in effects ensures e.at < |run| { EffectsAreOwnSteps(server, run, e); }
    NothingYet(effects, c, |run|);
    hide OpOf, Exec, Effects, OpsSince;
    match OpOf(server, s, l) {
      case None => assert effects + [] == effects;
      case Some(op) => OpsAppend(effects, Effect(|run|, CallerOf(l), op), c, b);
    }
  }

  /** What is known of a call before a step of it: nothing when the step begins it, otherwise its story. */
  ghost predicate StorySoFar(server: Server, s0: State, begin: Step, s: State, l: Step, c: CallId, ops: seq<Op>) {
    if Begins(l, c) then begin == l && s0 == s && ops == []
    else c in s.calls && Story(server, s0, begin, s, s.calls[c], ops)
  }

  lemma GetBegins(server: Server, s0: State, begin: Step, s: State, l: Step, c: CallId, ops: seq<Op>)
    requires Enabled(s, l) && TakenBy(l, c) && l.BeginGet? && StorySoFar(server, s0, begin, s, l, c, ops)
    ensures var t := Apply(server, s, l);
      c in t.calls && Story(server, s0, begin, t, t.calls[c], ops + OwnOps(server, s, l, c))
  {
    hide Verdict;
  }

  lemma GetInstalls(server: Server, s0: State, begin: Step, s: State, l: Step, c: CallId, ops: seq<Op>)
    requires Enabled(s, l) && TakenBy(l, c) && l.InstallCas? && c in Apply(server, s, l).calls
    requires StorySoFar(server, s0, begin, s, l, c, ops)
    ensures var t := Apply(server, s, l); Story(server, s0, begin, t, t.calls[c], ops + OwnOps(server, s, l, c))
  {
    hide Verdict;
    assert s.calls[c].key !in s.slots;
  }

  lemma GetPushesOrLoads(server: Server, s0: State, begin: Step, s: State, l: Step, c: CallId, ops: seq<Op>)
    requires Enabled(s, l) && TakenBy(l, c) && (l.Push? || l.Load?) && c in Apply(server, s, l).calls
    requires StorySoFar(server, s0, begin, s, l, c, ops)
    ensures var t := Apply(server, s, l); Story(server, s0, begin, t, t.calls[c], ops + OwnOps(server, s, l, c))
  {
    hide Verdict, Made;
  }

  lemma GetStepsOnly(server: Server, s: State, l: Step, c: CallId)
    requires Enabled(s, l) && TakenBy(l, c) && c in Apply(server, s, l).calls
    ensures l.BeginGet? || l.InstallCas? || l.Push? || l.Load? || l.BeginCheck? || l.ClaimCas?
  {
  }

  lemma CheckGoesOn(server: Server, s0: State, begin: Step, s: State, l: Step, c: CallId, ops: seq<Op>)
    requires Enabled(s, l) && TakenBy(l, c) && c in Apply(server, s, l).calls && (l.BeginCheck? || l.ClaimCas?)
    requires StorySoFar(server, s0, begin, s, l, c, ops)
    ensures var t := Apply(server, s, l); Story(server, s0, begin, t, t.calls[c], ops + OwnOps(server, s, l, c))
  {
    hide Verdict;
  }

  /** A step of a call that goes on, on the call's story. */
  lemma StoryGoesOn(server: Server, s0: State, begin: Step, s: State, l: Step, c: CallId, ops: seq<Op>)
    requires Enabled(s, l) && TakenBy(l, c) && c in Apply(server, s, l).calls
    requires StorySoFar(server, s0, begin, s, l, c, ops)
    ensures var t := Apply(server, s, l); Story(server, s0, begin, t, t.calls[c], ops + OwnOps(server, s, l, c))
  {
    hide *;
    GetStepsOnly(server, s, l, c);
    if l.BeginGet? {
      GetBegins(server, s0, begin, s, l, c, ops);
    } else if l.InstallCas? {
      GetInstalls(server, s0, begin, s, l, c, ops);
    } else if l.Push? || l.Load? {
      GetPushesOrLoads(server, s0, begin, s, l, c, ops);
    } else {
      CheckGoesOn(server, s0, begin, s, l, c, ops);
    }
  }

  /** A step of another call leaves the story as it is. */
  lemma StoryStays(server: Server, s0: State, begin: Step, s: State, t: State, call: Call, ops: seq<Op>)
    requires Story(server, s0, begin, s, call, ops) && s.installed <= t.installed
    ensures Story(server, s0, begin, t, call, ops + [])
  {
    hide Verdict, Made;
    assert ops + [] == ops;
  }

  lemma SoFar(server: Server, s0: State, begin: Step, s: State, l: Step, c: CallId, ops: seq<Op>)
    requires if Begins(l, c) then begin == l && s0 == s && ops == []
             else c in s.calls && Story(server, s0, begin, s, s.calls[c], ops)
    ensures StorySoFar(server, s0, begin, s, l, c, ops)
  {
  }

  lemma StartedExtends(run: seq<Step>, l: Step, b: nat, c: CallId)
    ensures Begins(l, c) ==> Started(run + [l], |run|, c)
    ensures !Begins(l, c) && Started(run, b, c) ==> Started(run + [l], b, c) && (run + [l])[b] == run[b]
  {
    hide Begins;
    assert forall i :: 0 <= i < |run| ==> (run + [l])[i] == run[i];
  }

  /** The state in which step `b` of a run is taken. */
  ghost function Before(server: Server, run: seq<Step>, b: nat): State {
    if b <= |run| && Exec(server, run[..b]).Some? then Exec(server, run[..b]).value else Init()
  }

  lemma BeforeInFront(server: Server, run: seq<Step>, l: Step, b: nat)
    requires Exec(server, run).Some? && b <= |run|
    ensures Before(server, run + [l], b) == Before(server, run, b)
    ensures Before(server, run, |run|) == Exec(server, run).value
  {
    hide Exec;
    assert (run + [l])[..b] == run[..b] && run[..|run|] == run;
  }

  /** Every call in flight has begun at some step, and has had since then the operations that its state tells. */
  lemma {:induction false} CallsHaveStories(server: Server, run: seq<Step>, c: CallId) returns (b: nat)
    requires Exec(server, run).Some? && c in Exec(server, run).value.calls
    ensures Started(run, b, c)
    ensures var s := Exec(server, run).value;
      Story(server, Before(server, run, b), run[b], s, s.calls[c], OpsSince(Effects(server, run), c, b))
  {
    var front, l := run[..|run| - 1], run[|run| - 1];
    var s := Exec(server, front).value;
    var t := Apply(server, s, l);
    assert run == front + [l];
    BeginsMeansFree(server, s, l, c);
    hide Apply, Enabled, Effects, Story, OwnOps, Started, Begins, Before;
    if Begins(l, c) {
      b := |front|;
    } else {
      if !TakenBy(l, c) { OthersUntouched(server, s, l, c); }
      b := CallsHaveStories(server, front, c);
    }
    StartedExtends(front, l, b, c);
    StartedIsInside(run, b, c);
    BeforeInFront(server, front, l, b);
    OpsAfter(server, front, l, c, b);
    var s0, begin, ops := Before(server, run, b), run[b], OpsSince(Effects(server, front), c, b);
    if TakenBy(l, c) {
      SoFar(server, s0, begin, s, l, c, ops);
      StoryGoesOn(server, s0, begin, s, l, c, ops);
    } else {
      HistoryGrows(server, s, l);
      StoryStays(server, s0, begin, s, t, s.calls[c], ops);
    }
  }

  lemma BeginsMeansFree(server: Server, s: State, l: Step, c: CallId)
    requires Enabled(s, l)
    ensures Begins(l, c) ==> TakenBy(l, c) && c !in s.calls
    ensures TakenBy(l, c) && !Begins(l, c) ==> c in s.calls
  {
  }

  /**
   * The operation has the call's arguments and gives what the call is given: for a get the challenge it made and the
   * one it returns; for a check its answer, where a refusal says already claimed of an install that was unclaimed when
   * the call began.
   */
  ghost predicate Explains(server: Server, s0: State, begin: Step, op: Op, answer: Option<CheckResult>,
                           reply: Option<Challenge>) {
    match begin
    case BeginGet(_, key, _, _) => reply.Some? && op == Get(key, Made(server, s0, begin), reply.value)
    case BeginCheck(_, key, solution) =>
      && answer.Some?
      && (op == Check(key, solution, answer.value)
          || (answer.value.AlreadyClaimed? && key in s0.slots && FoundUnclaimed(s0, key, s0.slots[key])
              && op == Refusal(key, solution, s0.slots[key].install)))
    case _ => false
  }

  /** The last step of a call, on the call's story. */
  lemma StoryEnds(server: Server, s0: State, begin: Step, s: State, l: Step, c: CallId, ops: seq<Op>)
    requires Enabled(s, l) && TakenBy(l, c) && c !in Apply(server, s, l).calls
    requires StorySoFar(server, s0, begin, s, l, c, ops)
    ensures var all := ops + OwnOps(server, s, l, c);
      |all| == 1 && Explains(server, s0, begin, all[0], Answer(server, s, l), GetReply(s, l))
  {
    hide Verdict;
    if l.InstallCas? || l.Load? || l.Send? { GetEnds(server, s0, begin, s, l, c, ops); }
  }

  lemma GetEnds(server: Server, s0: State, begin: Step, s: State, l: Step, c: CallId, ops: seq<Op>)
    requires Enabled(s, l) && TakenBy(l, c) && c !in Apply(server, s, l).calls && (l.InstallCas? || l.Load? || l.Send?)
    requires StorySoFar(server, s0, begin, s, l, c, ops)
    ensures var all := ops + OwnOps(server, s, l, c);
      |all| == 1 && Explains(server, s0, begin, all[0], Answer(server, s, l), GetReply(s, l))
  {
    hide Verdict, Made;
  }

  /**
   * Whenever a call ends, exactly one effect of it lies between the step that began it and the step that ends it, with
   * the call's own key and arguments, and with what it returns.
   */
  lemma OneEffectPerCall(server: Server, run: seq<Step>, l: Step, c: CallId) returns (b: nat, op: Op)
    requires Exec(server, run).Some? && Enabled(Exec(server, run).value, l)
    requires TakenBy(l, c) && c !in Apply(server, Exec(server, run).value, l).calls
    ensures Started(run + [l], b, c) && OpsSince(Effects(server, run + [l]), c, b) == [op]
    ensures var s := Exec(server, run).value;
      Explains(server, Before(server, run, b), (run + [l])[b], op, Answer(server, s, l), GetReply(s, l))
  {
    hide *;
    var s, begin := Exec(server, run).value, l;
    BeginsMeansFree(server, s, l, c);
    if Begins(l, c) {
      b := |run|;
    } else {
      b := CallsHaveStories(server, run, c);
      StartedIsInside(run, b, c);
      begin := run[b];
    }
    StartedExtends(run, l, b, c);
    BeforeInFront(server, run, l, b);
    OpsAfter(server, run, l, c, b);
    var s0, ops := Before(server, run, b), OpsSince(Effects(server, run), c, b);
    SoFar(server, s0, begin, s, l, c, ops);
    StoryEnds(server, s0, begin, s, l, c, ops);
    var all := ops + OwnOps(server, s, l, c);
    assert all == [all[0]];
    op := all[0];
  }

  lemma StartedIsInside(run: seq<Step>, b: nat, c: CallId)
    ensures Started(run, b, c) ==> b < |run|
  {
  }

  lemma AnswerEndsTheCall(server: Server, s: State, l: Step)
    requires Enabled(s, l) && (Answer(server, s, l).Some? || GetReply(s, l).Some?)
    ensures TakenBy(l, l.call) && l.call !in Apply(server, s, l).calls
  {
  }

  /**
   * What a check is told, at its read, its compare-and-swap or its hash, and what a get returns, is given by the one
   * effect that the call has had since it began, with its own key and arguments.
   */
  lemma AnswersAreExplained(server: Server, run: seq<Step>, l: Step) returns (b: nat, op: Op)
    requires Exec(server, run).Some? && Enabled(Exec(server, run).value, l)
    requires Answer(server, Exec(server, run).value, l).Some? || GetReply(Exec(server, run).value, l).Some?
    ensures Started(run + [l], b, l.call) && OpsSince(Effects(server, run + [l]), l.call, b) == [op]
    ensures var s := Exec(server, run).value;
      Explains(server, Before(server, run, b), (run + [l])[b], op, Answer(server, s, l), GetReply(s, l))
  {
    AnswerEndsTheCall(server, Exec(server, run).value, l);
    hide *;
    b, op := OneEffectPerCall(server, run, l, l.call);
  }

  // ---------- what a refusal means ----------

  /** At this moment of the run an atomic check would have answered already claimed. */
  ghost predicate WouldSayClaimed(server: Server, run: seq<Step>, n: nat, key: Key, solution: Solution) {
    && n <= |run| && Exec(server, run[..n]).Some?
    && AtomicCheck(server, Exec(server, run[..n]).value.slots, key, solution).0 == AlreadyClaimed
  }

  lemma {:induction false} LogsGrow(server: Server, run: seq<Step>, n: nat)
    requires Exec(server, run).Some? && n <= |run|
    ensures Exec(server, run[..n]).Some? && Exec(server, run[..n]).value.log <= Exec(server, run).value.log
  {
    if n == |run| {
      assert run[..n] == run;
    } else {
      var front := run[..|run| - 1];
      assert front[..n] == run[..n];
      HistoryGrows(server, Exec(server, front).value, run[|run| - 1]);
      hide Apply, Enabled;
      LogsGrow(server, front, n);
    }
  }

  lemma ClaimLeavesMark(server: Server, s: State, l: Step, i: nat)
    requires Enabled(s, l)
    ensures var t := Apply(server, s, l);
      |s.log| <= i < |t.log| && t.log[i].Claim? ==>
        |t.log| == i + 1 && t.log[i].key in t.slots && t.slots[t.log[i].key].challenge.claimed
  {
  }

  /** Every claim in the log was made at some step, which left its key claimed. */
  lemma {:induction false} ClaimMoment(server: Server, run: seq<Step>, i: nat, solution: Solution) returns (n: nat)
    requires Exec(server, run).Some? && i < |Exec(server, run).value.log| && Exec(server, run).value.log[i].Claim?
    ensures n <= |run| && Exec(server, run[..n]).Some? && |Exec(server, run[..n]).value.log| == i + 1
    ensures WouldSayClaimed(server, run, n, Exec(server, run).value.log[i].key, solution)
  {
    var m := |run| - 1;
    var front := run[..m];
    var s := Exec(server, front).value;
    HistoryGrows(server, s, run[m]);
    ClaimLeavesMark(server, s, run[m], i);
    hide Apply, Enabled;
    if i < |s.log| {
      n := ClaimMoment(server, front, i, solution);
      assert front[..n] == run[..n];
    } else {
      n := |run|;
      assert run[..n] == run;
    }
  }

  /** A key held claimed now, and not when a reader found it unclaimed, has been claimed since. */
  lemma ClaimedNow(server: Server, run: seq<Step>, n: nat, c: CallId)
    requires Exec(server, run).Some? && c in Exec(server, run).value.calls && Exec(server, run).value.calls[c].Reading?
    requires n <= |run| && Exec(server, run[..n]).Some?
    requires var s, sn := Exec(server, run).value, Exec(server, run[..n]).value;
      s.calls[c].readAt <= |sn.log| && s.calls[c].key in sn.slots && sn.slots[s.calls[c].key].challenge.claimed
    ensures var s := Exec(server, run).value; ClaimedSince(s.log, s.calls[c].key, s.calls[c].readAt)
  {
    InvOverRuns(server, run);
    InvOverRuns(server, run[..n]);
    LogsGrow(server, run, n);
    var s, sn := Exec(server, run).value, Exec(server, run[..n]).value;
    var call := s.calls[c];
    assert ReaderOk(s.log, c, call);
    assert Agrees(LifeAfter(sn.log, call.key), sn.slots, call.key);
    hide Exec, Inv;
    assert sn.log[..call.readAt] == s.log[..call.readAt];
    ClaimedInBetween(sn.log, call.readAt, call.key);
    var i :| call.readAt <= i < |sn.log| && sn.log[i].Claim? && sn.log[i].key == call.key;
    assert s.log[i] == sn.log[i];
  }

  /** Where a reading call began, and what its log was then. */
  lemma ReadingBegan(server: Server, run: seq<Step>, c: CallId) returns (b: nat)
    requires Exec(server, run).Some? && c in Exec(server, run).value.calls && Exec(server, run).value.calls[c].Reading?
    ensures Started(run, b, c) && b < |run| && Exec(server, run[..b]).Some?
    ensures var call := Exec(server, run).value.calls[c];
      IsCheckOf(run[b], call.key, call.solution) && |Exec(server, run[..b]).value.log| == call.readAt
  {
    b := CallsHaveStories(server, run, c);
    StartedIsInside(run, b, c);
    LogsGrow(server, run, b);
    hide Exec, Effects, Started, OpsSince;
  }

  /** A moment with a longer log is a later one. */
  lemma NotBefore(server: Server, run: seq<Step>, b: nat, n: nat)
    requires b <= |run| && n <= |run| && Exec(server, run[..b]).Some? && Exec(server, run[..n]).Some?
    requires |Exec(server, run[..n]).value.log| > |Exec(server, run[..b]).value.log|
    ensures b < n
  {
    hide Exec;
    assert n <= b ==> run[..b][..n] == run[..n];
    if n <= b { LogsGrow(server, run[..b], n); }
  }

  /** Two moments of a run: the later log extends the earlier one. */
  lemma LogsInOrder(server: Server, run: seq<Step>, b: nat, n: nat)
    requires b <= n <= |run| && Exec(server, run[..n]).Some?
    ensures Exec(server, run[..b]).Some? && Exec(server, run[..b]).value.log <= Exec(server, run[..n]).value.log
  {
    hide Exec;
    LogsGrow(server, run[..n], b);
    assert run[..n][..b] == run[..b];
  }

  lemma SaysClaimed(server: Server, run: seq<Step>, n: nat, key: Key, solution: Solution)
    requires WouldSayClaimed(server, run, n, key, solution)
    ensures var s := Exec(server, run[..n]).value; key in s.slots && s.slots[key].challenge.claimed
  {
    hide Exec, DigestOf;
  }

  /** At a moment since it began an atomic check would have said already claimed: then the key has been claimed. */
  lemma SaidMeansClaimed(server: Server, run: seq<Step>, c: CallId, b: nat, n: nat)
    requires Exec(server, run).Some? && c in Exec(server, run).value.calls && Exec(server, run).value.calls[c].Reading?
    requires var call := Exec(server, run).value.calls[c];
      && b < n <= |run| && Exec(server, run[..b]).Some? && |Exec(server, run[..b]).value.log| == call.readAt
      && WouldSayClaimed(server, run, n, call.key, call.solution)
    ensures var s := Exec(server, run).value; ClaimedSince(s.log, s.calls[c].key, s.calls[c].readAt)
  {
    var call := Exec(server, run).value.calls[c];
    SaysClaimed(server, run, n, call.key, call.solution);
    LogsGrow(server, run, n);
    LogsInOrder(server, run, b, n);
    hide *;
    ClaimedNow(server, run, n, c);
  }

  /** The key has been claimed since: then there is such a moment. */
  lemma ClaimedMeansSaid(server: Server, run: seq<Step>, c: CallId, b: nat) returns (n: nat)
    requires Exec(server, run).Some? && c in Exec(server, run).value.calls && Exec(server, run).value.calls[c].Reading?
    requires var s := Exec(server, run).value; var call := s.calls[c];
      && b <= |run| && Exec(server, run[..b]).Some? && |Exec(server, run[..b]).value.log| == call.readAt
      && ClaimedSince(s.log, call.key, call.readAt)
    ensures var call := Exec(server, run).value.calls[c];
      b < n <= |run| && WouldSayClaimed(server, run, n, call.key, call.solution)
  {
    var s := Exec(server, run).value;
    var call := s.calls[c];
    var i :| call.readAt <= i < |s.log| && s.log[i].Claim? && s.log[i].key == call.key;
    hide *;
    n := ClaimMoment(server, run, i, call.solution);
    NotBefore(server, run, b, n);
  }

  /**
   * A check whose compare-and-swap fails is told already claimed. At some moment since it began an atomic check would
   * have said so if and only if the key has been claimed since its read; otherwise what it read was evicted.
   */
  lemma RefusalIsAtomicIff(server: Server, run: seq<Step>, c: CallId) returns (b: nat)
    requires Exec(server, run).Some? && Enabled(Exec(server, run).value, ClaimCas(c))
    requires !ClaimSucceeds(Exec(server, run).value, c)
    ensures Started(run, b, c)
    ensures var s := Exec(server, run).value; var call := s.calls[c];
      && IsCheckOf(run[b], call.key, call.solution)
      && ((exists n :: b < n <= |run| && WouldSayClaimed(server, run, n, call.key, call.solution))
          <==> ClaimedSince(s.log, call.key, call.readAt))
  {
    var s := Exec(server, run).value;
    var call := s.calls[c];
    hide *;
    b := ReadingBegan(server, run, c);
    if n :| b < n <= |run| && WouldSayClaimed(server, run, n, call.key, call.solution) {
      SaidMeansClaimed(server, run, c, b, n);
    }
    if ClaimedSince(s.log, call.key, call.readAt) {
      var n := ClaimedMeansSaid(server, run, c, b);
    }
  }
}
