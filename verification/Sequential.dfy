/** What the steps of one operation come to when nothing runs in between: the contracts of the classes' methods. */
module Sequential {
  import opened Bytes
  import opened Challenges
  import opened EvictionQueue
  import opened History
  import opened PowSystem

  /** The state after some steps from `s`, or nothing when one is not enabled. */
  ghost function After(server: Server, s: State, steps: seq<Step>): Option<State>
    decreases |steps|
  {
    if steps == [] then Some(s)
    else if Enabled(s, steps[0]) then After(server, Apply(server, s, steps[0]), steps[1..])
    else None
  }

  lemma OneStep(server: Server, s: State, l: Step, rest: seq<Step>)
    requires Enabled(s, l)
    ensures After(server, s, [l] + rest) == After(server, Apply(server, s, l), rest)
  {
    hide Apply, Enabled;
    assert ([l] + rest)[1..] == rest;
  }

  // ---------- get ----------

  /** A get of a mapped key changes nothing. */
  lemma GetOfPresent(server: Server, s: State, c: CallId, key: Key, nonce: Nonce, difficulty: Byte)
    requires c !in s.calls && key in s.slots
    ensures After(server, s, [BeginGet(c, key, nonce, difficulty)] + ([InstallCas(c)] + [])) == Some(s)
  {
    var l := BeginGet(c, key, nonce, difficulty);
    var t := Apply(server, s, l);
    OneStep(server, s, l, [InstallCas(c)] + []);
    OneStep(server, t, InstallCas(c), []);
    assert Apply(server, t, InstallCas(c)) == s;
  }

  /** The state after a get that installs: one new challenge, one new entry, and a message if the wakeup is later. */
  function AfterGet(server: Server, s: State, key: Key, nonce: Nonce, difficulty: Byte): State {
    var challenge := Challenge(nonce, false, s.clock + Duration(server, key.chain), difficulty);
    var id := |s.installed|;
    s.(slots := s.slots[key := Slot(challenge, id)],
       heap := s.heap + multiset{EvictionEntry(key, challenge.expiresAt, id)},
       channel := if Millis(challenge.expiresAt) < s.published then s.channel + [challenge.expiresAt] else s.channel,
       installed := s.installed + [challenge],
       log := s.log + [Install(key, id, s.clock, challenge.expiresAt)])
  }

  /** The last two steps of a get: the load, and the send if there is one. */
  function Announce(s: State, c: CallId, t: Instant): seq<Step> {
    [Load(c)] + if Millis(t) < s.published then [Send(c)] + [] else []
  }

  lemma AnnounceAlone(server: Server, s: State, c: CallId, calls: map<CallId, Call>, e: EvictionEntry)
    requires c !in calls && s.calls == calls[c := Pushed(e)]
    ensures After(server, s, Announce(s, c, e.expiresAt)) ==
      Some(s.(calls := calls,
              channel := if Millis(e.expiresAt) < s.published then s.channel + [e.expiresAt] else s.channel))
  {
    var t := Apply(server, s, Load(c));
    if Millis(e.expiresAt) < s.published {
      OneStep(server, s, Load(c), [Send(c)] + []);
      OneStep(server, t, Send(c), []);
      assert t.calls - {c} == calls;
    } else {
      OneStep(server, s, Load(c), []);
      assert s.calls - {c} == calls;
    }
  }

  /** The first two steps of a get of an absent key. */
  lemma InstallAlone(server: Server, s: State, c: CallId, key: Key, nonce: Nonce, difficulty: Byte)
    requires c !in s.calls && key !in s.slots
    ensures var s1 := Apply(server, s, BeginGet(c, key, nonce, difficulty));
      && Enabled(s1, InstallCas(c))
      && var t := AfterGet(server, s, key, nonce, difficulty);
      var e := EvictionEntry(key, s.clock + Duration(server, key.chain), |s.installed|);
      Apply(server, s1, InstallCas(c))
        == t.(calls := s.calls[c := Call.Installed(e)], heap := s.heap, channel := s.channel)
  {
    hide Millis;
    var s1 := Apply(server, s, BeginGet(c, key, nonce, difficulty));
    assert s1.calls[c := Call.Installed(EvictionEntry(key, s.clock + Duration(server, key.chain), |s.installed|))]
        == s.calls[c := Call.Installed(EvictionEntry(key, s.clock + Duration(server, key.chain), |s.installed|))];
  }

  /** The first three. */
  lemma InstallAndPush(server: Server, s: State, c: CallId, key: Key, nonce: Nonce, difficulty: Byte)
    requires c !in s.calls && key !in s.slots && !s.evictor.Evicting?
    ensures var s1 := Apply(server, s, BeginGet(c, key, nonce, difficulty));
      && Enabled(s1, InstallCas(c))
      && var s2 := Apply(server, s1, InstallCas(c));
      && Enabled(s2, Push(c))
      && var e := EvictionEntry(key, s.clock + Duration(server, key.chain), |s.installed|);
      Apply(server, s2, Push(c)) ==
        AfterGet(server, s, key, nonce, difficulty).(calls := s.calls[c := Pushed(e)], channel := s.channel)
  {
    InstallAlone(server, s, c, key, nonce, difficulty);
    var s2 := Apply(server, Apply(server, s, BeginGet(c, key, nonce, difficulty)), InstallCas(c));
    var e := EvictionEntry(key, s.clock + Duration(server, key.chain), |s.installed|);
    hide DoInstall, Millis;
    PushAlone(server, s2, c, e);
    hide Apply;
    assert s2.calls[c := Pushed(e)] == s.calls[c := Pushed(e)];
  }

  lemma PushAlone(server: Server, s: State, c: CallId, e: EvictionEntry)
    requires c in s.calls && s.calls[c] == Call.Installed(e) && !s.evictor.Evicting?
    ensures Enabled(s, Push(c))
    ensures Apply(server, s, Push(c)) == s.(heap := s.heap + multiset{e}, calls := s.calls[c := Pushed(e)])
  {
  }

  /** A get of an absent key, run alone. */
  lemma GetOfAbsent(server: Server, s: State, c: CallId, key: Key, nonce: Nonce, difficulty: Byte)
    requires c !in s.calls && key !in s.slots && !s.evictor.Evicting?
    ensures var expiry := s.clock + Duration(server, key.chain);
      After(server, s, [BeginGet(c, key, nonce, difficulty)] + ([InstallCas(c)] + ([Push(c)] + Announce(s, c, expiry))))
      == Some(AfterGet(server, s, key, nonce, difficulty))
  {
    var expiry := s.clock + Duration(server, key.chain);
    var l, last := BeginGet(c, key, nonce, difficulty), Announce(s, c, expiry);
    InstallAndPush(server, s, c, key, nonce, difficulty);
    hide Apply, After, Millis, Announce;
    var s1 := Apply(server, s, l);
    var s2 := Apply(server, s1, InstallCas(c));
    OneStep(server, s, l, [InstallCas(c)] + ([Push(c)] + last));
    OneStep(server, s1, InstallCas(c), [Push(c)] + last);
    OneStep(server, s2, Push(c), last);
    AnnounceAlone(server, Apply(server, s2, Push(c)), c, s.calls, EvictionEntry(key, expiry, |s.installed|));
  }

  // ---------- a pass ----------

  function Removes(n: nat): seq<Step> {
    if n == 0 then [] else [Remove] + Removes(n - 1)
  }

  lemma RemoveAlone(server: Server, s: State)
    requires s.evictor.Evicting? && s.evictor.toExpire != []
    ensures var t := Apply(server, s, Remove);
      t == s.(slots := s.slots - {s.evictor.toExpire[0].key},
              evictor := s.evictor.(toExpire := s.evictor.toExpire[1..]), log := t.log)
  {
    var key := s.evictor.toExpire[0].key;
    if key !in s.slots { assert s.slots - {key} == s.slots; }
  }

  /** Removing one key, then all the others. */
  lemma RemovedAfter(server: Server, s: State, t: State)
    requires s.evictor.Evicting? && s.evictor.toExpire != []
    requires IsRemoved(Apply(server, s, Remove), t)
    ensures IsRemoved(s, t)
  {
    RemoveAlone(server, s);
    hide Apply;
    var es := s.evictor.toExpire;
    assert Keys(es) == Keys(es[1..]) + {es[0].key} by { assert es == [es[0]] + es[1..]; }
    assert s.slots - {es[0].key} - Keys(es[1..]) == s.slots - Keys(es);
  }

  lemma {:induction false} RemovesAlone(server: Server, s: State, rest: seq<Step>)
    requires s.evictor.Evicting?
    ensures exists t: State ::
      IsRemoved(s, t) && After(server, s, Removes(|s.evictor.toExpire|) + rest) == After(server, t, rest)
    decreases if s.evictor.Evicting? then |s.evictor.toExpire| else 0
  {
    var es := s.evictor.toExpire;
    if es == [] {
      assert Removes(0) + rest == rest;
      assert IsRemoved(s, s);
    } else {
      var s1, tail := Apply(server, s, Remove), Removes(|es| - 1) + rest;
      assert Removes(|es|) + rest == [Remove] + tail;
      OneStep(server, s, Remove, tail);
      RemoveAlone(server, s);
      hide Apply, After, Removes, IsRemoved;
      RemovesAlone(server, s1, rest);
      var t :| IsRemoved(s1, t) && After(server, s1, tail) == After(server, t, rest);
      RemovedAfter(server, s, t);
    }
  }

  /** All the popped keys removed, and nothing else changed but the log. */
  ghost predicate IsRemoved(s: State, t: State)
    requires s.evictor.Evicting?
  {
    t == s.(slots := s.slots - Keys(s.evictor.toExpire), evictor := s.evictor.(toExpire := []), log := t.log)
  }

  /** The popped keys are gone, the rest is in the heap, the next wakeup is stored; nothing else changed but the log. */
  ghost predicate IsPassed(s: State, t: State, popped: seq<EvictionEntry>, rest: multiset<EvictionEntry>,
                           next: Option<Instant>) {
    t == s.(slots := s.slots - Keys(popped), heap := rest, nextWakeup := Wakeup(next),
            published := Millis(Wakeup(next)), log := t.log)
  }

  /** A pass of the background task, run alone: what is popped leaves the map, and the next wakeup is stored. */
  lemma PassAlone(server: Server, s: State, popped: seq<EvictionEntry>, rest: multiset<EvictionEntry>,
                  next: Option<Instant>)
    requires Enabled(s, BeginEviction(popped, rest, next))
    ensures exists t: State ::
      && After(server, s, [BeginEviction(popped, rest, next)] + (Removes(|popped|) + ([Return] + ([Publish] + []))))
         == Some(t)
      && IsPassed(s, t, popped, rest, next)
  {
    var l, last := BeginEviction(popped, rest, next), [Return] + ([Publish] + []);
    var s1 := Apply(server, s, l);
    assert s1 == s.(heap := rest, evictor := Evicting(s.clock, popped, next));
    OneStep(server, s, l, Removes(|popped|) + last);
    RemovesAlone(server, s1, last);
    hide Apply, Enabled, After, Removes, IsRemoved;
    var s2 :| IsRemoved(s1, s2) && After(server, s1, Removes(|popped|) + last) == After(server, s2, last);
    var t := ReturnAndPublish(server, s, s2, popped, rest, next);
  }

  /** The last two steps of a pass. */
  lemma ReturnAndPublish(server: Server, s: State, s2: State, popped: seq<EvictionEntry>, rest: multiset<EvictionEntry>,
                         next: Option<Instant>) returns (t: State)
    requires s.evictor == Waiting && IsRemoved(s.(heap := rest, evictor := Evicting(s.clock, popped, next)), s2)
    ensures After(server, s2, [Return] + ([Publish] + [])) == Some(t) && IsPassed(s, t, popped, rest, next)
  {
    var s3 := Apply(server, s2, Return);
    OneStep(server, s2, Return, [Publish] + []);
    OneStep(server, s3, Publish, []);
    t := Apply(server, s3, Publish);
    hide Millis, Keys;
  }

  /** A message, received with nothing in between: an earlier wakeup is set and published, any other only taken. */
  lemma MessageAlone(server: Server, s: State)
    requires s.evictor.Waiting? && s.channel != []
    ensures var t := s.(channel := s.channel[1..]);
      if s.channel[0] < s.nextWakeup then
        After(server, s, [Receive] + ([Publish] + []))
          == Some(t.(nextWakeup := s.channel[0], published := Millis(s.channel[0])))
      else After(server, s, [Receive] + []) == Some(t)
  {
    var s1 := Apply(server, s, Receive);
    if s.channel[0] < s.nextWakeup {
      OneStep(server, s, Receive, [Publish] + []);
      OneStep(server, s1, Publish, []);
    } else {
      OneStep(server, s, Receive, []);
    }
    hide Millis;
  }

  // ---------- check_solution ----------

  /** A check of an absent key or of a claimed challenge is over with its read, and changes nothing. */
  lemma RefusedAlone(server: Server, s: State, c: CallId, key: Key, solution: Solution)
    requires c !in s.calls && (key !in s.slots || s.slots[key].challenge.claimed)
    ensures After(server, s, [BeginCheck(c, key, solution)] + []) == Some(s)
    ensures Answer(server, s, BeginCheck(c, key, solution)) == Some(AtomicCheck(server, s.slots, key, solution).0)
  {
    OneStep(server, s, BeginCheck(c, key, solution), []);
  }

  /** A check of an unclaimed challenge, run alone, leaves the map as the atomic claim does and gives its answer. */
  lemma CheckAlone(server: Server, s: State, c: CallId, key: Key, solution: Solution)
    requires c !in s.calls && key in s.slots && !s.slots[key].challenge.claimed
    ensures var s2 := After(server, s, [BeginCheck(c, key, solution)] + ([ClaimCas(c)] + []));
      && s2.Some? && Enabled(s2.value, CheckHash(c))
      && (Answer(server, s2.value, CheckHash(c)).value, Apply(server, s2.value, CheckHash(c)).slots)
         == AtomicCheck(server, s.slots, key, solution)
      && Apply(server, s2.value, CheckHash(c)).calls == s.calls
  {
    var l := BeginCheck(c, key, solution);
    var s1 := Apply(server, s, l);
    OneStep(server, s, l, [ClaimCas(c)] + []);
    OneStep(server, s1, ClaimCas(c), []);
    var s2 := Apply(server, s1, ClaimCas(c));
    assert Apply(server, s2, CheckHash(c)).calls == s.calls;
  }
}
