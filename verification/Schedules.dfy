/** Concrete runs: a lost wakeup, an install taken for its twin, and two claims at one instant. */
module Schedules {
  import opened Bytes
  import opened Challenges
  import opened EvictionQueue
  import opened History
  import opened PowSystem
  import opened PowTheorems
  import opened Wakeup

  /** A run goes on by one step. */
  lemma Go(server: Server, run: seq<Step>, s: State, l: Step, t: State)
    requires Exec(server, run) == Some(s) && Enabled(s, l) && Apply(server, s, l) == t
    ensures Exec(server, run + [l]) == Some(t)
  {
    hide Apply, Enabled;
    Extend(server, run, l);
  }

  // ---------- the first get, up to its push ----------

  function First(server: Server, k: Key, nonce: Nonce): Challenge {
    Challenge(nonce, false, Duration(server, k.chain), 0)
  }

  function FirstEntry(server: Server, k: Key): EvictionEntry {
    EvictionEntry(k, Duration(server, k.chain), 0)
  }

  /** One challenge, installed at time 0 by call 0, whose entry has been pushed. */
  function OnePushed(server: Server, k: Key, nonce: Nonce): State {
    var ch, e := First(server, k, nonce), FirstEntry(server, k);
    State(0, map[k := Slot(ch, 0)], multiset{e}, map[0 := Pushed(e)], Waiting, FAR, U64_MAX, [], [ch],
          [Install(k, 0, 0, ch.expiresAt)], [])
  }

  lemma FirstPush(server: Server, k: Key, nonce: Nonce) returns (run: seq<Step>)
    ensures Exec(server, run) == Some(OnePushed(server, k, nonce))
  {
    var ch, e, t := First(server, k, nonce), FirstEntry(server, k), OnePushed(server, k, nonce);
    var s1 := Init().(calls := map[0 := Candidate(k, ch)]);
    var s2 := t.(heap := multiset{}, calls := map[0 := Installed(e)]);
    Go(server, [], Init(), BeginGet(0, k, nonce, 0), s1);
    Go(server, [] + [BeginGet(0, k, nonce, 0)], s1, InstallCas(0), s2);
    Go(server, [] + [BeginGet(0, k, nonce, 0)] + [InstallCas(0)], s2, Push(0), t);
    run := [] + [BeginGet(0, k, nonce, 0)] + [InstallCas(0)] + [Push(0)];
  }

  // ---------- an install taken for its twin ----------

  /** A second get has read the clock at the same instant and drawn the same nonce; a check has read the install. */
  function TwoReaders(server: Server, k: Key, nonce: Nonce, solution: Solution): State {
    var ch, s := First(server, k, nonce), OnePushed(server, k, nonce);
    s.(clock := FAR + ch.expiresAt,
       calls := s.calls[1 := Candidate(k, ch)][2 := Reading(k, Slot(ch, 0), solution, 1)])
  }

  lemma UntilTwoReaders(server: Server, k: Key, nonce: Nonce, solution: Solution) returns (run: seq<Step>)
    ensures Exec(server, run) == Some(TwoReaders(server, k, nonce, solution))
  {
    var ch, s, t := First(server, k, nonce), OnePushed(server, k, nonce), TwoReaders(server, k, nonce, solution);
    var before := FirstPush(server, k, nonce);
    var l1, l2, l3 := BeginGet(1, k, nonce, 0), BeginCheck(2, k, solution), Tick(t.clock);
    Go(server, before, s, l1, s.(calls := s.calls[1 := Candidate(k, ch)]));
    Go(server, before + [l1], s.(calls := s.calls[1 := Candidate(k, ch)]), l2, t.(clock := 0));
    Go(server, before + [l1] + [l2], t.(clock := 0), l3, t);
    run := before + [l1] + [l2] + [l3];
  }

  /** The pass over the one entry, up to the removal of its key. */
  lemma PassOverOne(server: Server, run: seq<Step>, s: State, e: EvictionEntry) returns (more: seq<Step>)
    requires Exec(server, run) == Some(s) && s.heap == multiset{e} && s.evictor == Waiting && e.key in s.slots
    requires e.expiresAt <= s.clock && s.nextWakeup <= s.clock
    ensures Exec(server, more) == Some(s.(
      heap := multiset{}, evictor := Evicting(s.clock, [], None), slots := s.slots - {e.key},
      log := s.log + [Evict(e.key, s.slots[e.key].install, s.clock)]))
  {
    var l := BeginEviction([e], multiset{}, None);
    assert multiset{e} == multiset([e]) + multiset{};
    var t := s.(heap := multiset{}, evictor := Evicting(s.clock, [e], None));
    Go(server, run, s, l, t);
    RemoveOne(server, run + [l], t, e);
    more := run + [l] + [Remove];
  }

  lemma RemoveOne(server: Server, run: seq<Step>, t: State, e: EvictionEntry)
    requires Exec(server, run) == Some(t) && t.evictor == Evicting(t.clock, [e], None) && e.key in t.slots
    ensures Exec(server, run + [Remove]) == Some(t.(evictor := Evicting(t.clock, [], None), slots := t.slots - {e.key},
      log := t.log + [Evict(e.key, t.slots[e.key].install, t.clock)]))
  {
    hide Exec;
    assert [e][1..] == [];
    Go(server, run, t, Remove, t.(evictor := Evicting(t.clock, [], None), slots := t.slots - {e.key},
      log := t.log + [Evict(e.key, t.slots[e.key].install, t.clock)]));
  }

  /**
   * A run in which the CAS marks an install other than the one read: two gets that read the clock at one instant and
   * draw one nonce, one installed and evicted, the other installed after it.
   */
  lemma EqualInstallsAreConfused(server: Server, k: Key, nonce: Nonce, solution: Solution) returns (run: seq<Step>)
    ensures Exec(server, run).Some? && Enabled(Exec(server, run).value, ClaimCas(2))
    ensures var s := Exec(server, run).value; Twin(s, 2) && ClaimSucceeds(s, 2) && !SameInstallUnclaimed(s, 2)
  {
    var s, e := TwoReaders(server, k, nonce, solution), FirstEntry(server, k);
    var before := UntilTwoReaders(server, k, nonce, solution);
    var gone := PassOverOne(server, before, s, e);
    hide Exec;
    var t := Exec(server, gone).value;
    Go(server, gone, t, InstallCas(1), Apply(server, t, InstallCas(1)));
    run := gone + [InstallCas(1)];
  }

  // ---------- a check refused without a claim ----------

  /**
   * A run in which a check is told already claimed although nothing was ever claimed: what it read was evicted before
   * its CAS.
   */
  lemma RefusedAfterEviction(server: Server, k: Key, nonce: Nonce, solution: Solution) returns (run: seq<Step>)
    ensures Exec(server, run).Some? && Enabled(Exec(server, run).value, ClaimCas(2))
    ensures var s := Exec(server, run).value;
      && !ClaimSucceeds(s, 2) && Answer(server, s, ClaimCas(2)) == Some(AlreadyClaimed)
      && forall i :: 0 <= i < |s.log| ==> !s.log[i].Claim?
  {
    var s, e := TwoReaders(server, k, nonce, solution), FirstEntry(server, k);
    var before := UntilTwoReaders(server, k, nonce, solution);
    run := PassOverOne(server, before, s, e);
    hide Exec;
  }

  // ---------- two claims at one instant ----------

  /** A claim of an unclaimed challenge, up to its compare-and-swap. */
  lemma ClaimNow(server: Server, run: seq<Step>, s: State, c: CallId, k: Key, solution: Solution)
    returns (more: seq<Step>)
    requires Exec(server, run) == Some(s) && c !in s.calls && k in s.slots && !s.slots[k].challenge.claimed
    ensures Exec(server, more) == Some(s.(
      slots := MarkClaimed(s.slots, k), calls := s.calls[c := Verifying(k, s.slots[k], solution)],
      log := s.log + [Claim(k, s.slots[k].install, s.clock, c)]))
  {
    var l := BeginCheck(c, k, solution);
    var t := s.(calls := s.calls[c := Reading(k, s.slots[k], solution, |s.log|)]);
    var u := s.(slots := MarkClaimed(s.slots, k), calls := s.calls[c := Verifying(k, s.slots[k], solution)],
      log := s.log + [Claim(k, s.slots[k].install, s.clock, c)]);
    Go(server, run, s, l, t);
    assert t.calls[c := Verifying(k, s.slots[k], solution)] == u.calls;
    Go(server, run + [l], t, ClaimCas(c), u);
    more := run + [l] + [ClaimCas(c)];
  }

  /** A get of an absent key, up to its compare-and-swap. */
  lemma InstallNow(server: Server, run: seq<Step>, s: State, c: CallId, k: Key, nonce: Nonce) returns (more: seq<Step>)
    requires Exec(server, run) == Some(s) && c !in s.calls && k !in s.slots
    ensures Exec(server, more).Some?
    ensures var t, expiry := Exec(server, more).value, s.clock + Duration(server, k.chain);
      && t.slots == s.slots[k := Slot(Challenge(nonce, false, expiry, 0), |s.installed|)] && t.clock == s.clock
      && t.log == s.log + [Install(k, |s.installed|, s.clock, expiry)] && t.calls.Keys == s.calls.Keys + {c}
  {
    var l := BeginGet(c, k, nonce, 0);
    var t := Apply(server, s, l);
    Go(server, run, s, l, t);
    Go(server, run + [l], t, InstallCas(c), Apply(server, t, InstallCas(c)));
    more := run + [l] + [InstallCas(c)];
  }

  /** The first challenge, claimed and evicted when it has long expired. */
  lemma ClaimedAndGone(server: Server, k: Key, nonce: Nonce, solution: Solution) returns (run: seq<Step>)
    ensures Exec(server, run).Some?
    ensures var s, d := Exec(server, run).value, Duration(server, k.chain); var late := FAR + d;
      && s.slots == map[] && s.clock == late && s.calls.Keys == {0, 1} && |s.installed| == 1
      && s.log == [Install(k, 0, 0, d), Claim(k, 0, late, 1), Evict(k, 0, late)]
  {
    hide Exec;
    var s, late := OnePushed(server, k, nonce), FAR + Duration(server, k.chain);
    run := FirstPush(server, k, nonce);
    Go(server, run, s, Tick(late), s.(clock := late));
    run := ClaimNow(server, run + [Tick(late)], s.(clock := late), 1, k, solution);
    var t := Exec(server, run).value;
    run := PassOverOne(server, run, t, FirstEntry(server, k));
  }

  /** Two claims on a key at one instant with no delay anywhere: the 2 in the rate bound cannot be lowered. */
  lemma TwoClaimsAtOnce(server: Server, k: Key, nonce: Nonce, solution: Solution) returns (run: seq<Step>)
    ensures Exec(server, run).Some?
    ensures var log := Exec(server, run).value.log;
      && PromptInstalls(log, k, if k.chain == L1 then server.l1Duration else server.l2Duration, 0)
      && |log| == 5 && log[1].at == log[4].at && ClaimsFrom(log, k, 1) == 2
  {
    run := ClaimedAndGone(server, k, nonce, solution);
    hide Exec, Apply, Enabled;
    run := InstallNow(server, run, Exec(server, run).value, 2, k, nonce);
    run := ClaimNow(server, run, Exec(server, run).value, 3, k, solution);
    CountTwo(Exec(server, run).value.log, k);
  }

  lemma CountTwo(log: Log, k: Key)
    requires |log| == 5 && log[1].Claim? && log[2].Evict? && log[3].Install? && log[4].Claim?
    requires forall i :: 0 <= i < 5 ==> log[i].key == k
    ensures ClaimsFrom(log, k, 1) == 2
  {
    assert log[..4][..3] == log[..3] && log[..3][..2] == log[..2] && log[..2][..1] == log[..1];
    assert ClaimsFrom(log[..1], k, 1) == 0 && ClaimsFrom(log[..2], k, 1) == 1;
    assert ClaimsFrom(log[..3], k, 1) == 1 && ClaimsFrom(log[..4], k, 1) == 1;
  }

  // ---------- a lost wakeup ----------

  lemma FarIsFar(d: Instant)
    requires 2 * d + 1_000_000 <= FAR
    ensures d < FAR && Millis(d) <= Millis(d + d) < Millis(FAR) <= U64_MAX
  {
    MillisMonotone(d, d + d);
    assert (d + d) / 1_000_000 < FAR / 1_000_000;
    assert FAR / 1_000_000 < 0x1_0000_0000_0000_0000;
  }

  /** The first client has sent its expiry and the background task has rescheduled and published it. */
  lemma Scheduled(server: Server, k: Key, nonce: Nonce) returns (run: seq<Step>)
    requires Duration(server, k.chain) < FAR && Millis(Duration(server, k.chain)) < U64_MAX
    ensures var d := Duration(server, k.chain);
      Exec(server, run) == Some(OnePushed(server, k, nonce).(calls := map[], nextWakeup := d, published := Millis(d)))
  {
    var s, d, e := OnePushed(server, k, nonce), Duration(server, k.chain), FirstEntry(server, k);
    var first := FirstPush(server, k, nonce);
    run := Sent(server, first, s, e);
    hide Exec, Millis;
    var t := s.(calls := map[], channel := [d]);
    var u := s.(calls := map[], nextWakeup := d, evictor := Rescheduled);
    Go(server, run, t, Receive, u);
    Go(server, run + [Receive], u, Publish, u.(published := Millis(d), evictor := Waiting));
    run := run + [Receive] + [Publish];
  }

  lemma Sent(server: Server, run: seq<Step>, s: State, e: EvictionEntry) returns (more: seq<Step>)
    requires Exec(server, run) == Some(s) && s.calls == map[0 := Pushed(e)] && s.channel == []
    requires Millis(e.expiresAt) < s.published
    ensures Exec(server, more) == Some(s.(calls := map[], channel := [e.expiresAt]))
  {
    hide Millis;
    var t := s.(calls := map[0 := Sending(e)]);
    assert s.calls[0 := Sending(e)] == t.calls && t.calls - {0} == map[];
    Go(server, run, s, Load(0), t);
    Go(server, run + [Load(0)], t, Send(0), s.(calls := map[], channel := [e.expiresAt]));
    more := run + [Load(0)] + [Send(0)];
  }

  /** The challenge expires; the pass over it has just released the lock. */
  lemma UntilReturned(server: Server, k: Key, nonce: Nonce) returns (run: seq<Step>)
    requires Duration(server, k.chain) < FAR && Millis(Duration(server, k.chain)) < U64_MAX
    ensures Exec(server, run).Some?
    ensures var s, d := Exec(server, run).value, Duration(server, k.chain);
      && s.evictor == Returned && s.calls == map[] && s.heap == multiset{} && s.slots == map[] && s.channel == []
      && s.clock == d && s.published == Millis(d) && s.nextWakeup == FAR && |s.installed| == 1
  {
    var d := Duration(server, k.chain);
    run := Scheduled(server, k, nonce);
    hide Exec, Millis;
    var s := Exec(server, run).value;
    Go(server, run, s, Tick(d), s.(clock := d));
    run := PassOverOne(server, run + [Tick(d)], s.(clock := d), FirstEntry(server, k));
    var t := Exec(server, run).value;
    Go(server, run, t, Return, t.(nextWakeup := FAR, evictor := Returned));
    run := run + [Return];
  }

  /** A second client gets a challenge for the key and pushes its entry while the store is still to come. */
  lemma SecondPushed(server: Server, run: seq<Step>, s: State, k: Key, nonce: Nonce) returns (more: seq<Step>)
    requires Exec(server, run) == Some(s) && s.evictor == Returned && s.calls == map[] && s.heap == multiset{}
    requires s.slots == map[] && |s.installed| == 1
    ensures Exec(server, more).Some?
    ensures var t, e := Exec(server, more).value, EvictionEntry(k, s.clock + Duration(server, k.chain), 1);
      && t.evictor == Returned && t.calls == map[0 := Pushed(e)] && t.heap == multiset{e} && t.channel == s.channel
      && t.published == s.published && t.nextWakeup == s.nextWakeup
  {
    hide Millis;
    var l := BeginGet(0, k, nonce, 0);
    var s1 := Apply(server, s, l);
    var s2 := Apply(server, s1, InstallCas(0));
    Go(server, run, s, l, s1);
    Go(server, run + [l], s1, InstallCas(0), s2);
    Go(server, run + [l] + [InstallCas(0)], s2, Push(0), Apply(server, s2, Push(0)));
    more := run + [l] + [InstallCas(0)] + [Push(0)];
  }

  /** An entry that waits for the resting wakeup 10000 years away, with no message and no call in flight. */
  ghost predicate Stranded(s: State, e: EvictionEntry) {
    && s.evictor == Waiting && e in s.heap && !Covered(s, e)
    && s.calls == map[] && s.channel == [] && s.nextWakeup == FAR
  }

  lemma StaleLoadStrands(server: Server, s: State, e: EvictionEntry)
    requires s.evictor == Returned && s.calls == map[0 := Pushed(e)] && s.heap == multiset{e} && s.channel == []
    requires s.nextWakeup == FAR && s.published <= Millis(e.expiresAt) < Millis(FAR)
    ensures Enabled(s, Load(0))
    ensures var t := Apply(server, s, Load(0)); Enabled(t, Publish) && Stranded(Apply(server, t, Publish), e)
  {
    hide Millis;
    var t := Apply(server, s, Load(0));
    assert t.calls == map[];
  }

  /**
   * A lost wakeup, for any challenge duration of less than 5000 years: a second client loads
   * the old published wakeup between the end of the pass and the store, and its entry is stranded.
   */
  lemma LostWakeup(server: Server, k: Key, nonce: Nonce) returns (run: seq<Step>, e: EvictionEntry)
    requires 2 * Duration(server, k.chain) + 1_000_000 <= FAR
    ensures Exec(server, run).Some? && Stranded(Exec(server, run).value, e)
    ensures e.key == k && e.expiresAt == 2 * Duration(server, k.chain)
  {
    hide *;
    var d := Duration(server, k.chain);
    e := EvictionEntry(k, d + d, 1);
    FarIsFar(d);
    run := UntilReturned(server, k, nonce);
    run := SecondPushed(server, run, Exec(server, run).value, k, nonce);
    StaleLoadStrands(server, Exec(server, run).value, e);
    Extend(server, run, Load(0));
    Extend(server, run + [Load(0)], Publish);
    run := run + [Load(0)] + [Publish];
  }
}
