/** What the invariants mean for a faucet: theorems over every interleaving and every run. */
module PowTheorems {
  import opened Challenges
  import opened EvictionQueue
  import opened History
  import opened PowSystem
  import opened PowInvariants

  // ---------- eviction ----------

  ghost function EntryOf(s: State, k: Key): EvictionEntry
    requires k in s.slots
  {
    EvictionEntry(k, s.slots[k].challenge.expiresAt, s.slots[k].install)
  }

  /**
   * For every key of every reachable state there is exactly one eviction entry while the key is mapped, carrying the
   * mapped challenge's expiry, and none otherwise.
   */
  lemma OneTokenPerKey(server: Server, run: seq<Step>, k: Key)
    requires Exec(server, run).Some?
    ensures var s := Exec(server, run).value;
      && (k in s.slots ==> Tokens(s, EntryOf(s, k)) == 1)
      && forall e: EvictionEntry :: e.key == k && Tokens(s, e) > 0 ==> k in s.slots && e == EntryOf(s, k)
  {
    InvOverRuns(server, run);
    var s := Exec(server, run).value;
    if k in s.slots { assert Live(s, EntryOf(s, k)); }
  }

  /** The unconditional removal hits the install its entry was pushed for, and no key is removed twice in a pass. */
  lemma RemovalHitsItsOwnInstall(server: Server, run: seq<Step>)
    requires Exec(server, run).Some? && Enabled(Exec(server, run).value, Remove)
    ensures var s := Exec(server, run).value; var e := s.evictor.toExpire[0];
      && e.key in s.slots && e == EntryOf(s, e.key)
      && (forall f :: f in s.evictor.toExpire[1..] ==> f.key != e.key)
      && e.expiresAt <= s.clock && Apply(server, s, Remove).slots == s.slots - {e.key}
  {
    InvOverRuns(server, run);
    var s := Exec(server, run).value;
    PoppedIsLive(s, 0);
    assert s.evictor.toExpire[0] in s.evictor.toExpire;
    forall f | f in s.evictor.toExpire[1..] ensures f.key != s.evictor.toExpire[0].key {
      var j :| 0 <= j < |s.evictor.toExpire[1..]| && s.evictor.toExpire[1..][j] == f;
      assert s.evictor.toExpire[j + 1] == f;
    }
  }

  /**
   * A key leaves the map only once the clock has reached the expiry of the challenge it holds; a key that stays keeps
   * its install, and a claimed mark stays.
   */
  lemma NoEarlyEviction(server: Server, s: State, l: Step, k: Key)
    requires Inv(server, s) && Enabled(s, l) && k in s.slots
    ensures var t := Apply(server, s, l);
      && (k !in t.slots ==> s.clock >= s.slots[k].challenge.expiresAt)
      && (k in t.slots ==>
            && t.slots[k].install == s.slots[k].install
            && t.slots[k].challenge in {s.slots[k].challenge, s.slots[k].challenge.(claimed := true)})
  {
    if l.Remove? {
      PoppedIsLive(s, 0);
      assert s.evictor.toExpire[0] in s.evictor.toExpire;
    } else if !l.InstallCas? && !l.ClaimCas? {
      hide Apply, Enabled, Inv;
      MapUntouched(server, s, l);
    }
    hide Inv;
  }

  /** Whatever is interleaved, an installed challenge stays until it expires; if claimed it blocks its key that long. */
  lemma {:induction false} StaysUntilExpiry(server: Server, run: seq<Step>, n: nat, k: Key)
    requires n <= |run| && Exec(server, run).Some? && Exec(server, run[..n]).Some?
    requires k in Exec(server, run[..n]).value.slots
    requires Exec(server, run).value.clock < Exec(server, run[..n]).value.slots[k].challenge.expiresAt
    ensures var before, after := Exec(server, run[..n]).value, Exec(server, run).value;
      && k in after.slots && after.slots[k].install == before.slots[k].install
      && (before.slots[k].challenge.claimed ==> after.slots[k].challenge == before.slots[k].challenge)
      && after.slots[k].challenge.expiresAt == before.slots[k].challenge.expiresAt
  {
    if n == |run| {
      assert run[..n] == run;
    } else {
      var front := run[..|run| - 1];
      var s, l := Exec(server, front).value, run[|run| - 1];
      assert front[..n] == run[..n];
      InvOverRuns(server, front);
      hide Inv, Apply, Enabled;
      ClockAdvances(server, s, l);
      hide Exec;
      StaysUntilExpiry(server, front, n, k);
      NoEarlyEviction(server, s, l, k);
    }
  }

  lemma ClockAdvances(server: Server, s: State, l: Step)
    requires Enabled(s, l)
    ensures Apply(server, s, l).clock >= s.clock
  {
  }

  /** When a pass ends, every mapped key expires later than the pass began, unless its entry has yet to be pushed. */
  lemma PassIsComplete(server: Server, run: seq<Step>, k: Key)
    requires Exec(server, run).Some? && Enabled(Exec(server, run).value, Return)
    requires k in Exec(server, run).value.slots
    ensures var s := Exec(server, run).value;
      || s.slots[k].challenge.expiresAt > s.evictor.now
      || exists c :: c in s.calls && s.calls[c] == Installed(EntryOf(s, k))
  {
    InvOverRuns(server, run);
    var s := Exec(server, run).value;
    var e := EntryOf(s, k);
    assert Live(s, e);
    assert Tokens(s, e) == 1;
    if e !in s.heap {
      assert |Holders(s.calls, e)| == 1;
      var c :| c in Holders(s.calls, e);
    }
  }

  // ---------- claims ----------

  /** Over a run each install is claimed at most once, and a key is never claimed more often than installed. */
  lemma AtMostOneSuccessPerInstall(server: Server, run: seq<Step>, k: Key, i: nat, j: nat)
    requires Exec(server, run).Some?
    ensures var log := Exec(server, run).value.log;
      && Claims(log, k) <= Installs(log, k)
      && (i < j < |log| && log[i].Claim? && log[j].Claim? ==> log[i].install != log[j].install)
  {
    LogIsWellFormed(server, run);
    var log := Exec(server, run).value.log;
    ClaimsNeverExceedInstalls(log, k);
    if i < j < |log| && log[i].Claim? && log[j].Claim? { OneClaimPerInstall(log, i, j); }
  }

  /** Installs of a key that come at most `delay` after the clock reading from which their expiry is `life` ahead. */
  ghost predicate PromptInstalls(log: Log, k: Key, life: nat, delay: nat) {
    forall i :: 0 <= i < |log| && log[i].Install? && log[i].key == k ==> log[i].at + life <= log[i].expiresAt + delay
  }

  lemma LogIsWellFormed(server: Server, run: seq<Step>)
    requires Exec(server, run).Some?
    ensures var s := Exec(server, run).value; WellFormed(s.log) && TimeOf(s.log) <= s.clock
  {
    hide Exec, WellFormed, TimeOf, TokenInv, PassInv, ChallengeInv, ReadInv, SolveInv, Agrees;
    InvOverRuns(server, run);
  }

  /** n claims on a key within a window W of a run: (n - 2)(D - delay) <= W, for the setting D of the key's chain. */
  lemma ClaimRate(server: Server, run: seq<Step>, k: Key, life: nat, delay: nat, from: nat, upto: nat, window: nat)
    requires Exec(server, run).Some? && delay <= life
    requires life == if k.chain == L1 then server.l1Duration else server.l2Duration
    requires PromptInstalls(Exec(server, run).value.log, k, life, delay)
    requires var log := Exec(server, run).value.log; from < upto <= |log| && log[upto - 1].at - log[from].at <= window
    ensures var log := Exec(server, run).value.log;
      FitsWindow(ClaimsFrom(log[..upto], k, from), life - delay, window)
  {
    hide *;
    LogIsWellFormed(server, run);
    var log := Exec(server, run).value.log;
    PrefixWellFormed(log, upto);
    PromptIsLongLived(log, k, life, delay, upto);
    RateBound(log[..upto], k, from, life - delay, window);
  }

  lemma PromptIsLongLived(log: Log, k: Key, life: nat, delay: nat, upto: nat)
    requires PromptInstalls(log, k, life, delay) && delay <= life && upto <= |log|
    ensures LongLived(log[..upto], k, life - delay)
  {
  }

  /** At most T / (D - delay) + 1 claims on a key succeed by time T. */
  lemma ClaimsByTime(server: Server, run: seq<Step>, k: Key, life: nat, delay: nat)
    requires Exec(server, run).Some? && delay < life
    requires life == if k.chain == L1 then server.l1Duration else server.l2Duration
    requires PromptInstalls(Exec(server, run).value.log, k, life, delay)
    ensures var s := Exec(server, run).value; Claims(s.log, k) <= s.clock / (life - delay) + 1
  {
    hide *;
    LogIsWellFormed(server, run);
    var s, d := Exec(server, run).value, life - delay;
    assert s.log[..|s.log|] == s.log;
    PromptIsLongLived(s.log, k, life, delay, |s.log|);
    AtMostOnePerLife(s.log, k, d);
    DivisionMonotone(TimeOf(s.log), s.clock, d);
  }

  lemma DivisionMonotone(a: nat, b: nat, d: nat)
    requires a <= b && d > 0
    ensures a / d <= b / d
  {
    DivisionBound(a / d, d, b);
  }

  lemma {:induction false} PrefixWellFormed(log: Log, n: nat)
    requires WellFormed(log) && n <= |log|
    ensures WellFormed(log[..n])
  {
    if n < |log| {
      PrefixWellFormed(log[..|log| - 1], n);
      assert log[..|log| - 1][..n] == log[..n];
    } else {
      assert log[..n] == log;
    }
  }

  // ---------- compare-and-swap of a check ----------

  /** A failed CAS: since the read the log holds an eviction, or another call's claim, of the install that was read. */
  lemma FailureMeansEnded(server: Server, run: seq<Step>, c: CallId) returns (i: nat)
    requires Exec(server, run).Some? && Enabled(Exec(server, run).value, ClaimCas(c))
    requires !ClaimSucceeds(Exec(server, run).value, c)
    ensures var s := Exec(server, run).value; var call := s.calls[c];
      && call.readAt <= i < |s.log|
      && s.log[i].key == call.key && s.log[i].install == call.slot.install
      && (s.log[i].Evict? || (s.log[i].Claim? && s.log[i].call != c))
  {
    InvOverRuns(server, run);
    var s := Exec(server, run).value;
    var call := s.calls[c];
    assert ReaderOk(s.log, c, call) && CopyOk(s, call);
    assert Agrees(LifeAfter(s.log, call.key), s.slots, call.key);
    if call.key in s.slots {
      assert Original(s, s.slots[call.key].install, s.slots[call.key].challenge.(claimed := false));
    }
    i := EndedInBetween(s.log, call.readAt, call.key);
  }

  ghost predicate FreshNonces(s: State) {
    forall i, j :: 0 <= i < j < |s.installed| ==> s.installed[i].nonce != s.installed[j].nonce
  }

  ghost predicate SameInstallUnclaimed(s: State, c: CallId)
    requires c in s.calls && s.calls[c].Reading?
  {
    var call := s.calls[c];
    call.key in s.slots && s.slots[call.key].install == call.slot.install && !s.slots[call.key].challenge.claimed
  }

  /** The key now holds, unclaimed, an install other than the one read but equal to it as a challenge. */
  ghost predicate Twin(s: State, c: CallId)
    requires c in s.calls && s.calls[c].Reading?
  {
    var call := s.calls[c];
    && call.key in s.slots && s.slots[call.key].install != call.slot.install && !s.slots[call.key].challenge.claimed
    && s.slots[call.key].install < |s.installed| && s.installed[s.slots[call.key].install] == call.slot.challenge
  }

  /**
   * The CAS succeeds on the install that was read, still there and unclaimed, or on a twin of it, and on nothing else;
   * so success means the same install exactly when there is no twin.
   */
  lemma SuccessMeansSameOrTwin(server: Server, run: seq<Step>, c: CallId)
    requires Exec(server, run).Some? && Enabled(Exec(server, run).value, ClaimCas(c))
    ensures var s := Exec(server, run).value;
      && (ClaimSucceeds(s, c) <==> SameInstallUnclaimed(s, c) || Twin(s, c))
      && ((ClaimSucceeds(s, c) <==> SameInstallUnclaimed(s, c)) <==> !Twin(s, c))
  {
    InvOverRuns(server, run);
    var s := Exec(server, run).value;
    var call := s.calls[c];
    assert CopyOk(s, call);
    if call.key in s.slots {
      assert Original(s, s.slots[call.key].install, s.slots[call.key].challenge.(claimed := false));
    }
  }

  /** No two installs of the run are equal as challenges; fresh nonces are one way to have that. */
  ghost predicate DistinctChallenges(s: State) {
    forall i, j :: 0 <= i < j < |s.installed| ==> s.installed[i] != s.installed[j]
  }

  lemma FreshNoncesSuffice(s: State)
    requires FreshNonces(s)
    ensures DistinctChallenges(s)
  {
    assert forall i, j :: 0 <= i < j < |s.installed| ==> s.installed[i].nonce != s.installed[j].nonce;
  }

  /** Distinct challenges, and so fresh nonces, leave no twins. */
  lemma SuccessMeansSameInstall(server: Server, run: seq<Step>, c: CallId)
    requires Exec(server, run).Some? && Enabled(Exec(server, run).value, ClaimCas(c))
    requires FreshNonces(Exec(server, run).value) || DistinctChallenges(Exec(server, run).value)
    ensures var s := Exec(server, run).value; ClaimSucceeds(s, c) <==> SameInstallUnclaimed(s, c)
  {
    var s := Exec(server, run).value;
    SuccessMeansSameOrTwin(server, run, c);
    InvOverRuns(server, run);
    assert CopyOk(s, s.calls[c]);
    hide Inv, FreshNonces;
    if FreshNonces(s) { FreshNoncesSuffice(s); }
  }
}
