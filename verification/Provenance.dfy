/** Where the map's challenges and the log's events come from: the steps of the run, their clocks, and the settings. */
module Provenance {
  import opened Challenges
  import opened History
  import opened PowSystem
  import opened PowInvariants
  import opened PowTheorems
  import opened Linearization
  import opened CallEffects

  /** Step `n` began a get on the key that made this challenge: it expires its chain's own setting after that clock. */
  ghost predicate MadeAt(server: Server, run: seq<Step>, n: nat, k: Key, ch: Challenge) {
    && n < |run| && run[n].BeginGet? && run[n].key == k && Exec(server, run[..n]).Some?
    && ch.nonce == run[n].nonce && ch.difficulty == run[n].difficulty
    && (k.chain == L1 ==> ch.expiresAt == Exec(server, run[..n]).value.clock + server.l1Duration)
    && (k.chain == L2 ==> ch.expiresAt == Exec(server, run[..n]).value.clock + server.l2Duration)
  }

  lemma MadeAtExtends(server: Server, run: seq<Step>, l: Step, n: nat, k: Key, ch: Challenge)
    requires MadeAt(server, run, n, k, ch)
    ensures MadeAt(server, run + [l], n, k, ch) && MadeAt(server, run + [l], n, k, ch.(claimed := true))
  {
    hide Exec;
    assert (run + [l])[..n] == run[..n];
  }

  lemma CandidateIsMade(server: Server, run: seq<Step>, c: CallId) returns (n: nat)
    requires Exec(server, run).Some? && c in Exec(server, run).value.calls
    requires Exec(server, run).value.calls[c].Candidate?
    ensures var call := Exec(server, run).value.calls[c]; MadeAt(server, run, n, call.key, call.challenge)
  {
    n := CallsHaveStories(server, run, c);
    StartedIsInside(run, n, c);
    LogsGrow(server, run, n);
    hide Exec, Effects, OpsSince, Started;
  }

  /** A key newly mapped holds what the get that installed it had made. */
  lemma NewIsCandidate(server: Server, s: State, l: Step, k: Key)
    requires Enabled(s, l) && k !in s.slots && k in Apply(server, s, l).slots
    ensures l.InstallCas? && s.calls[l.call].Candidate? && s.calls[l.call].key == k
    ensures Apply(server, s, l).slots[k].challenge == s.calls[l.call].challenge
  {
  }

  /** Every mapped challenge was made by a get of the run: its nonce, difficulty and expiry are that step's. */
  lemma {:induction false} MappedIsMade(server: Server, run: seq<Step>, k: Key) returns (n: nat)
    requires Exec(server, run).Some? && k in Exec(server, run).value.slots
    ensures MadeAt(server, run, n, k, Exec(server, run).value.slots[k].challenge)
  {
    var front, l := run[..|run| - 1], run[|run| - 1];
    var s := Exec(server, front).value;
    assert run == front + [l];
    InvOverRuns(server, front);
    hide Inv, MadeAt, Apply, Enabled;
    if k in s.slots {
      NoEarlyEviction(server, s, l, k);
      n := MappedIsMade(server, front, k);
      MadeAtExtends(server, front, l, n, k, s.slots[k].challenge);
    } else {
      NewIsCandidate(server, s, l, k);
      n := CandidateIsMade(server, front, l.call);
      MadeAtExtends(server, front, l, n, k, s.calls[l.call].challenge);
    }
  }

  // ---------- the log ----------

  /** The event that a change of one key of the map is logged as, at the time `at`. */
  ghost predicate Records(before: map<Key, Slot>, after: map<Key, Slot>, l: Step, e: Event, at: Instant) {
    && e.at == at
    && match e
       case Install(k, id, _, expiresAt) =>
         && l.InstallCas? && k !in before
         && k in after && after[k].install == id && after[k].challenge.expiresAt == expiresAt
       case Claim(k, id, _, call) =>
         l.ClaimCas? && call == l.call && k in before && !before[k].challenge.claimed && before[k].install == id
         && k in after && after[k].challenge.claimed && after[k].install == id
       case Evict(k, id, _) => l.Remove? && k in before && before[k].install == id && k !in after
  }

  /** Every change of the map is logged by one event, at the time of the clock, and nothing else is logged. */
  lemma LogIsStamped(server: Server, s: State, l: Step)
    requires ChallengeInv(s) && Enabled(s, l)
    ensures var t := Apply(server, s, l);
      if t.slots == s.slots then t.log == s.log
      else |t.log| == |s.log| + 1 && s.log <= t.log && Records(s.slots, t.slots, l, t.log[|s.log|], s.clock)
  {
    if l.InstallCas? || l.ClaimCas? {
      CopiesAreUnclaimed(s, l.call);
    } else if !l.Remove? {
      hide Apply, Enabled;
      MapUntouched(server, s, l);
    }
    hide ChallengeInv;
  }

  lemma {:induction false} ClocksGrow(server: Server, run: seq<Step>, n: nat)
    requires Exec(server, run).Some? && n <= |run|
    ensures Exec(server, run[..n]).Some? && Exec(server, run[..n]).value.clock <= Exec(server, run).value.clock
  {
    if n == |run| {
      assert run[..n] == run;
    } else {
      var front := run[..|run| - 1];
      assert front[..n] == run[..n];
      ClockAdvances(server, Exec(server, front).value, run[|run| - 1]);
      hide Apply, Enabled;
      ClocksGrow(server, front, n);
    }
  }

  /** Step `n` began a get on the key, and this expiry is its chain's own setting after that clock reading, `read`. */
  ghost predicate ReadAt(server: Server, run: seq<Step>, n: nat, k: Key, expiresAt: Instant, read: Instant) {
    && n < |run| && run[n].BeginGet? && run[n].key == k
    && Exec(server, run[..n]).Some? && Exec(server, run[..n]).value.clock == read
    && expiresAt == read + if k.chain == L1 then server.l1Duration else server.l2Duration
  }

  /**
   * Every install in the log expires its chain's own setting after a clock reading of the run, taken no later than the
   * install: `at + setting <= expiresAt + delay` means that the install came at most `delay` after the reading.
   */
  lemma {:induction false} InstallIsMade(server: Server, run: seq<Step>, i: nat) returns (n: nat, read: Instant)
    requires Exec(server, run).Some? && i < |Exec(server, run).value.log| && Exec(server, run).value.log[i].Install?
    ensures var e := Exec(server, run).value.log[i]; ReadAt(server, run, n, e.key, e.expiresAt, read) && read <= e.at
  {
    var front, l := run[..|run| - 1], run[|run| - 1];
    var s := Exec(server, front).value;
    assert run == front + [l];
    InvOverRuns(server, front);
    UnpackInv(server, s);
    LogIsStamped(server, s, l);
    HistoryGrows(server, s, l);
    hide Inv, TokenInv, PassInv, LogInv, ChallengeInv, ReadInv, SolveInv, Apply, Enabled;
    if i < |s.log| {
      n, read := InstallIsMade(server, front, i);
      ReadAtExtends(server, front, l, n, s.log[i].key, s.log[i].expiresAt, read);
    } else {
      var e := Exec(server, run).value.log[i];
      n := MappedIsMade(server, run, e.key);
      NewInstallRead(server, front, l, n, e);
      read := Exec(server, run[..n]).value.clock;
    }
  }

  lemma ReadAtExtends(server: Server, run: seq<Step>, l: Step, n: nat, k: Key, expiresAt: Instant, read: Instant)
    requires ReadAt(server, run, n, k, expiresAt, read)
    ensures ReadAt(server, run + [l], n, k, expiresAt, read)
  {
    hide Exec;
    assert (run + [l])[..n] == run[..n];
  }

  lemma NewInstallRead(server: Server, front: seq<Step>, l: Step, n: nat, e: Event)
    requires Exec(server, front).Some? && e.Install? && e.at == Exec(server, front).value.clock
    requires n <= |front|
    requires exists ch: Challenge :: MadeAt(server, front + [l], n, e.key, ch) && ch.expiresAt == e.expiresAt
    ensures var run := front + [l];
      && Exec(server, run[..n]).Some?
      && ReadAt(server, run, n, e.key, e.expiresAt, Exec(server, run[..n]).value.clock)
      && Exec(server, run[..n]).value.clock <= e.at
  {
    var run := front + [l];
    assert run[..n] == front[..n];
    ClocksGrow(server, front, n);
    hide Exec;
  }
}
