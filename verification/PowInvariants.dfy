/** What every interleaving keeps. */
module PowInvariants {
  import opened ProofOfWork
  import opened Challenges
  import opened EvictionQueue
  import opened History
  import opened PowSystem

  // ---------- what a step leaves alone ----------

  /** The step is taken by call `c`. */
  predicate TakenBy(l: Step, c: CallId) {
    match l
    case BeginGet(d, _, _, _) => d == c
    case InstallCas(d) => d == c
    case Push(d) => d == c
    case Load(d) => d == c
    case Send(d) => d == c
    case BeginCheck(d, _, _) => d == c
    case ClaimCas(d) => d == c
    case CheckHash(d) => d == c
    case _ => false
  }

  /** A step leaves the calls that do not take it as they were. */
  lemma OthersUntouched(server: Server, s: State, l: Step, c: CallId)
    requires Enabled(s, l) && !TakenBy(l, c)
    ensures var t := Apply(server, s, l);
      (c in t.calls <==> c in s.calls) && (c in t.calls ==> t.calls[c] == s.calls[c])
  {
  }

  /** The history only grows. */
  lemma HistoryGrows(server: Server, s: State, l: Step)
    requires Enabled(s, l)
    ensures var t := Apply(server, s, l); s.installed <= t.installed && s.log <= t.log && s.solved <= t.solved
  {
  }

  // ---------- eviction tokens ----------

  /** Calls that have installed a challenge and not yet pushed its entry. */
  ghost function Holders(calls: map<CallId, Call>, e: EvictionEntry): set<CallId> {
    set c | c in calls && calls[c] == Installed(e)
  }

  function ToExpire(evictor: Evictor): seq<EvictionEntry> {
    if evictor.Evicting? then evictor.toExpire else []
  }

  /** Every place an eviction entry can be: in the heap, about to be pushed, or popped and not yet removed. */
  ghost function Tokens(s: State, e: EvictionEntry): nat {
    s.heap[e] + |Holders(s.calls, e)| + multiset(ToExpire(s.evictor))[e]
  }

  /** The entry of the install its key now holds. */
  ghost predicate Live(s: State, e: EvictionEntry) {
    e.key in s.slots && s.slots[e.key].install == e.install && s.slots[e.key].challenge.expiresAt == e.expiresAt
  }

  /** The entries in existence are exactly the entries of the installs the map holds, once each. */
  ghost predicate TokenInv(s: State) {
    forall e: EvictionEntry :: Tokens(s, e) == if Live(s, e) then 1 else 0
  }

  lemma HoldersAfter(calls: map<CallId, Call>, c: CallId, call: Call, e: EvictionEntry)
    ensures Holders(calls[c := call], e)
         == if call == Installed(e) then Holders(calls, e) + {c} else Holders(calls, e) - {c}
    ensures Holders(calls - {c}, e) == Holders(calls, e) - {c}
    ensures c in Holders(calls, e) <==> c in calls && calls[c] == Installed(e)
  {
  }

  /** Steps that neither move a token nor touch the map. */
  lemma TokensUnmoved(s: State, t: State, c: CallId)
    requires TokenInv(s)
    requires t.slots == s.slots && t.heap == s.heap && ToExpire(t.evictor) == ToExpire(s.evictor)
    requires
      || t.calls == s.calls || t.calls == s.calls - {c}
      || (c in t.calls && t.calls == s.calls[c := t.calls[c]] && !t.calls[c].Installed?)
    requires c in s.calls ==> !s.calls[c].Installed?
    ensures TokenInv(t)
  {
    forall e: EvictionEntry ensures Tokens(t, e) == Tokens(s, e) && Live(t, e) == Live(s, e) {
      if c in t.calls { HoldersAfter(s.calls, c, t.calls[c], e); }
      HoldersAfter(s.calls, c, Pushed(e), e);
    }
  }

  lemma TokensInstall(s: State, c: CallId)
    requires TokenInv(s) && c in s.calls && s.calls[c].Candidate?
    ensures TokenInv(DoInstall(s, c))
  {
    var t := DoInstall(s, c);
    var Candidate(key, challenge) := s.calls[c];
    if key in s.slots {
      TokensUnmoved(s, t, c);
    } else {
      var mine := EvictionEntry(key, challenge.expiresAt, |s.installed|);
      forall e: EvictionEntry ensures Tokens(t, e) == if Live(t, e) then 1 else 0 {
        HoldersAfter(s.calls, c, Installed(mine), e);
        assert Tokens(s, e) == if Live(s, e) then 1 else 0;
      }
    }
  }

  lemma TokensPush(server: Server, s: State, c: CallId)
    requires TokenInv(s) && Enabled(s, Push(c))
    ensures TokenInv(Apply(server, s, Push(c)))
  {
    var t := Apply(server, s, Push(c));
    var mine := s.calls[c].entry;
    forall e: EvictionEntry ensures Tokens(t, e) == if Live(t, e) then 1 else 0 {
      HoldersAfter(s.calls, c, Pushed(mine), e);
      assert Tokens(s, e) == if Live(s, e) then 1 else 0;
    }
  }

  lemma TokensClaim(s: State, c: CallId)
    requires TokenInv(s) && c in s.calls && s.calls[c].Reading?
    ensures TokenInv(DoClaim(s, c))
  {
    var t := DoClaim(s, c);
    if ClaimSucceeds(s, c) {
      forall e: EvictionEntry ensures Tokens(t, e) == if Live(t, e) then 1 else 0 {
        HoldersAfter(s.calls, c, t.calls[c], e);
        assert Tokens(s, e) == if Live(s, e) then 1 else 0;
      }
    } else {
      TokensUnmoved(s, t, c);
    }
  }

  lemma TokensSplit(server: Server, s: State, l: Step)
    requires TokenInv(s) && l.BeginEviction? && Enabled(s, l)
    ensures TokenInv(Apply(server, s, l))
  {
    var t := Apply(server, s, l);
    forall e: EvictionEntry ensures Tokens(t, e) == if Live(t, e) then 1 else 0 {
      assert Tokens(s, e) == if Live(s, e) then 1 else 0;
      assert s.heap[e] == multiset(l.toExpire)[e] + l.rest[e];
    }
  }

  /** A popped entry is the entry of the install its key still holds. */
  lemma PoppedIsLive(s: State, i: nat)
    requires TokenInv(s) && s.evictor.Evicting? && i < |s.evictor.toExpire|
    ensures Live(s, s.evictor.toExpire[i])
    ensures forall j :: 0 <= j < |s.evictor.toExpire| && j != i ==>
      s.evictor.toExpire[j].key != s.evictor.toExpire[i].key
  {
    var es := s.evictor.toExpire;
    forall j | 0 <= j < |es| ensures Live(s, es[j]) {
      assert es[j] in multiset(es);
      assert Tokens(s, es[j]) >= 1;
    }
    forall j | 0 <= j < |es| && j != i ensures es[j].key != es[i].key {
      var a, b := es[i], es[j];
      TwiceInMultiset(es, i, j);
      assert Tokens(s, a) < 2;
      assert a.key == b.key ==> a == b;
    }
  }

  lemma TwiceInMultiset(es: seq<EvictionEntry>, i: nat, j: nat)
    requires i < |es| && j < |es| && i != j
    ensures es[i] == es[j] ==> multiset(es)[es[i]] >= 2
  {
    var a, b := if i < j then i else j, if i < j then j else i;
    var front, x := es[..b], es[b];
    assert es == front + [x] + es[b + 1..];
    assert front[a] == es[a] && front[a] in multiset(front);
  }

  lemma TokensRemove(s: State)
    requires TokenInv(s) && s.evictor.Evicting? && s.evictor.toExpire != []
    ensures TokenInv(DoRemove(s))
  {
    var t, es := DoRemove(s), s.evictor.toExpire;
    PoppedIsLive(s, 0);
    assert es == [es[0]] + es[1..];
    forall e: EvictionEntry ensures Tokens(t, e) == if Live(t, e) then 1 else 0 {
      assert Tokens(s, e) == if Live(s, e) then 1 else 0;
      assert multiset(es)[e] == multiset([es[0]])[e] + multiset(es[1..])[e];
    }
  }

  lemma TokensSame(s: State, t: State)
    requires TokenInv(s) && t.slots == s.slots && t.heap == s.heap && t.calls == s.calls
    requires ToExpire(t.evictor) == ToExpire(s.evictor)
    ensures TokenInv(t)
  {
    forall e: EvictionEntry ensures Tokens(t, e) == Tokens(s, e) && Live(t, e) == Live(s, e) {}
  }

  /** The steps of calls that neither install, push nor claim. */
  lemma QuietCall(server: Server, s: State, l: Step, c: CallId)
    requires Enabled(s, l) && TakenBy(l, c) && !l.InstallCas? && !l.Push? && !l.ClaimCas?
    ensures var t := Apply(server, s, l);
      && t.slots == s.slots && t.heap == s.heap && t.evictor == s.evictor
      && (c in s.calls ==> !s.calls[c].Installed?)
      && (t.calls == s.calls || t.calls == s.calls - {c}
          || (c in t.calls && t.calls == s.calls[c := t.calls[c]] && !t.calls[c].Installed?))
  {
  }

  /** The clock, and the steps of the background task that neither pop nor remove. */
  lemma QuietTask(server: Server, s: State, l: Step)
    requires Enabled(s, l) && (l.Tick? || l.Return? || l.Receive? || l.Publish?)
    ensures var t := Apply(server, s, l);
      t.slots == s.slots && t.heap == s.heap && t.calls == s.calls && ToExpire(t.evictor) == ToExpire(s.evictor)
  {
  }

  lemma TokenStep(server: Server, s: State, l: Step)
    requires TokenInv(s) && Enabled(s, l)
    ensures TokenInv(Apply(server, s, l))
  {
    hide TokenInv, DoInstall, DoLoad, DoRead, DoClaim, DoHash, DoRemove, DoReceive;
    if l.InstallCas? {
      TokensInstall(s, l.call);
    } else if l.Push? {
      TokensPush(server, s, l.call);
    } else if l.ClaimCas? {
      TokensClaim(s, l.call);
    } else if l.BeginEviction? {
      TokensSplit(server, s, l);
    } else if l.Remove? {
      TokensRemove(s);
    } else if l.Tick? || l.Return? || l.Receive? || l.Publish? {
      QuietTask(server, s, l);
      hide Apply;
      TokensSame(s, Apply(server, s, l));
    } else {
      QuietCall(server, s, l, l.call);
      hide Apply;
      TokensUnmoved(s, Apply(server, s, l), l.call);
    }
  }

  // ---------- the pass of the background task ----------

  /** While it removes: what was popped had expired, what is left in the heap had not, and `next` is its least. */
  ghost predicate PassInv(s: State) {
    s.evictor.Evicting? ==>
      && s.evictor.now <= s.clock
      && (forall e :: e in s.evictor.toExpire ==> e.expiresAt <= s.evictor.now)
      && (forall e :: e in s.heap ==> e.expiresAt > s.evictor.now)
      && IsLeast(s.heap, s.evictor.next)
  }

  /** While a pass runs, nothing but a removal touches it, and the heap stands still. */
  lemma PassUntouched(server: Server, s: State, l: Step)
    requires Enabled(s, l) && !l.BeginEviction? && !l.Remove?
    ensures var t := Apply(server, s, l);
      t.evictor.Evicting? ==> t.evictor == s.evictor && t.heap == s.heap && t.clock >= s.clock
  {
  }

  lemma PassStep(server: Server, s: State, l: Step)
    requires PassInv(s) && Enabled(s, l)
    ensures PassInv(Apply(server, s, l))
  {
    if !l.BeginEviction? && !l.Remove? {
      PassUntouched(server, s, l);
      hide Apply, Enabled;
    }
    hide IsLeast;
  }

  // ---------- the log ----------

  /** The life of a key according to the log is what the map holds for it. */
  ghost predicate Agrees(life: Life, slots: map<Key, Slot>, k: Key) {
    if k in slots then
      && life.Present? && life.install == slots[k].install
      && life.expiresAt == slots[k].challenge.expiresAt && life.claimed == slots[k].challenge.claimed
    else life.Absent?
  }

  ghost predicate LogInv(s: State) {
    && WellFormed(s.log) && TimeOf(s.log) <= s.clock
    && InstallCount(s.log) == |s.installed|
    && forall k :: Agrees(LifeAfter(s.log, k), s.slots, k)
  }

  lemma LogInstall(s: State, c: CallId)
    requires LogInv(s) && c in s.calls && s.calls[c].Candidate? && !s.calls[c].challenge.claimed
    ensures LogInv(DoInstall(s, c))
  {
    var t := DoInstall(s, c);
    var Candidate(key, challenge) := s.calls[c];
    if key !in s.slots {
      assert Agrees(LifeAfter(s.log, key), s.slots, key);
      var e := Install(key, |s.installed|, s.clock, challenge.expiresAt);
      Extended(s.log, e, key);
      forall k ensures Agrees(LifeAfter(t.log, k), t.slots, k) {
        Extended(s.log, e, k);
        assert Agrees(LifeAfter(s.log, k), s.slots, k);
      }
    }
  }

  lemma LogClaim(s: State, c: CallId)
    requires LogInv(s) && c in s.calls && s.calls[c].Reading? && !s.calls[c].slot.challenge.claimed
    ensures LogInv(DoClaim(s, c))
  {
    var t := DoClaim(s, c);
    var key := s.calls[c].key;
    if ClaimSucceeds(s, c) {
      assert Agrees(LifeAfter(s.log, key), s.slots, key);
      var e := Claim(key, s.slots[key].install, s.clock, c);
      Extended(s.log, e, key);
      forall k ensures Agrees(LifeAfter(t.log, k), t.slots, k) {
        Extended(s.log, e, k);
        assert Agrees(LifeAfter(s.log, k), s.slots, k);
      }
    }
  }

  lemma LogRemove(s: State)
    requires TokenInv(s) && PassInv(s) && LogInv(s) && s.evictor.Evicting? && s.evictor.toExpire != []
    ensures LogInv(DoRemove(s))
  {
    var t, key := DoRemove(s), s.evictor.toExpire[0].key;
    PoppedIsLive(s, 0);
    assert s.evictor.toExpire[0] in s.evictor.toExpire;
    assert Agrees(LifeAfter(s.log, key), s.slots, key);
    var e := Evict(key, s.slots[key].install, s.clock);
    Extended(s.log, e, key);
    forall k ensures Agrees(LifeAfter(t.log, k), t.slots, k) {
      Extended(s.log, e, k);
      assert Agrees(LifeAfter(s.log, k), s.slots, k);
    }
  }

  lemma LogSame(s: State, t: State)
    requires LogInv(s) && t.log == s.log && t.slots == s.slots && t.installed == s.installed && t.clock >= s.clock
    ensures LogInv(t)
  {
  }

  /** Only three steps touch the map or the log. */
  lemma MapUntouched(server: Server, s: State, l: Step)
    requires Enabled(s, l) && !l.InstallCas? && !l.ClaimCas? && !l.Remove?
    ensures var t := Apply(server, s, l);
      t.slots == s.slots && t.log == s.log && t.installed == s.installed && t.clock >= s.clock
  {
  }

  lemma LogStep(server: Server, s: State, l: Step)
    requires TokenInv(s) && PassInv(s) && LogInv(s) && ChallengeInv(s) && Enabled(s, l)
    ensures LogInv(Apply(server, s, l))
  {
    hide TokenInv, PassInv, LogInv, ChallengeInv, DoInstall, DoLoad, DoRead, DoClaim, DoHash, DoRemove, DoReceive;
    if l.InstallCas? {
      CopiesAreUnclaimed(s, l.call);
      LogInstall(s, l.call);
    } else if l.ClaimCas? {
      CopiesAreUnclaimed(s, l.call);
      LogClaim(s, l.call);
    } else if l.Remove? {
      LogRemove(s);
    } else {
      hide Apply, Enabled;
      MapUntouched(server, s, l);
      LogSame(s, Apply(server, s, l));
    }
  }

  lemma CopiesAreUnclaimed(s: State, c: CallId)
    requires ChallengeInv(s) && c in s.calls
    ensures s.calls[c].Candidate? ==> !s.calls[c].challenge.claimed
    ensures s.calls[c].Reading? ==> !s.calls[c].slot.challenge.claimed
  {
    assert CopyOk(s, s.calls[c]);
  }

  // ---------- challenges in the map and in the hands of calls ----------

  /** Every copy of a challenge is the one installed under its number, up to the claimed mark. */
  ghost predicate ChallengeInv(s: State) {
    && (forall i :: 0 <= i < |s.installed| ==> !s.installed[i].claimed)
    && (forall k :: k in s.slots ==> Original(s, s.slots[k].install, s.slots[k].challenge.(claimed := false)))
    && (forall c :: c in s.calls ==> CopyOk(s, s.calls[c]))
  }

  ghost predicate Original(s: State, id: nat, challenge: Challenge) {
    id < |s.installed| && s.installed[id] == challenge
  }

  ghost predicate CopyOk(s: State, call: Call) {
    match call
    case Candidate(_, challenge) => !challenge.claimed
    case Installed(e) => e.install < |s.installed|
    case Pushed(e) => e.install < |s.installed|
    case Sending(e) => e.install < |s.installed|
    case Reading(_, slot, _, _) => Original(s, slot.install, slot.challenge)
    case Verifying(_, slot, _) => Original(s, slot.install, slot.challenge)
  }

  lemma SlotsStayOriginal(server: Server, s: State, l: Step, k: Key)
    requires ChallengeInv(s) && Enabled(s, l)
    ensures var t := Apply(server, s, l);
      k in t.slots ==> Original(t, t.slots[k].install, t.slots[k].challenge.(claimed := false))
  {
    if k in s.slots { assert Original(s, s.slots[k].install, s.slots[k].challenge.(claimed := false)); }
    if l.InstallCas? || l.ClaimCas? {
      CopiesAreUnclaimed(s, l.call);
    } else if !l.Remove? {
      hide Apply, Enabled;
      MapUntouched(server, s, l);
    }
    hide ChallengeInv;
  }

  lemma CopyStays(s: State, t: State, call: Call)
    requires CopyOk(s, call) && s.installed <= t.installed
    ensures CopyOk(t, call)
  {
  }

  /** The copy a call holds after its own step. */
  lemma OwnCopyOk(server: Server, s: State, l: Step, c: CallId)
    requires ChallengeInv(s) && Enabled(s, l) && TakenBy(l, c)
    ensures var t := Apply(server, s, l); c in t.calls ==> CopyOk(t, t.calls[c])
  {
    if c in s.calls { assert CopyOk(s, s.calls[c]); }
    if l.ClaimCas? && ClaimSucceeds(s, c) {
      var k := s.calls[c].key;
      assert Original(s, s.slots[k].install, s.slots[k].challenge.(claimed := false));
    }
    if l.BeginCheck? && l.key in s.slots {
      assert Original(s, s.slots[l.key].install, s.slots[l.key].challenge.(claimed := false));
    }
    hide ChallengeInv;
  }

  lemma CopiesStayOriginal(server: Server, s: State, l: Step, c: CallId)
    requires ChallengeInv(s) && Enabled(s, l)
    ensures var t := Apply(server, s, l); c in t.calls ==> CopyOk(t, t.calls[c])
  {
    hide Apply, Enabled, CopyOk;
    if TakenBy(l, c) {
      OwnCopyOk(server, s, l, c);
    } else {
      OthersUntouched(server, s, l, c);
      HistoryGrows(server, s, l);
      if c in s.calls { CopyStays(s, Apply(server, s, l), s.calls[c]); }
    }
  }

  lemma ChallengeStep(server: Server, s: State, l: Step)
    requires ChallengeInv(s) && Enabled(s, l)
    ensures ChallengeInv(Apply(server, s, l))
  {
    var t := Apply(server, s, l);
    forall i | 0 <= i < |t.installed| ensures !t.installed[i].claimed {
      if l.InstallCas? { CopiesAreUnclaimed(s, l.call); }
    }
    forall c | c in t.calls ensures CopyOk(t, t.calls[c]) { CopiesStayOriginal(server, s, l, c); }
    forall k | k in t.slots ensures Original(t, t.slots[k].install, t.slots[k].challenge.(claimed := false)) {
      SlotsStayOriginal(server, s, l, k);
    }
  }

  // ---------- readers ----------

  ghost predicate PresentUnclaimed(life: Life, id: nat) {
    life.Present? && life.install == id && !life.claimed
  }

  /** A check between its read and its CAS: it read what was present and unclaimed, and has claimed nothing since. */
  ghost predicate ReaderOk(log: Log, c: CallId, call: Call) {
    call.Reading? ==>
      && call.readAt <= |log|
      && PresentUnclaimed(LifeAfter(log[..call.readAt], call.key), call.slot.install)
      && forall j :: call.readAt <= j < |log| && log[j].Claim? ==> log[j].call != c
  }

  ghost predicate ReadInv(s: State) {
    forall c :: c in s.calls ==> ReaderOk(s.log, c, s.calls[c])
  }

  lemma ReaderStays(log: Log, more: Log, c: CallId, call: Call)
    requires ReaderOk(log, c, call) && log <= more
    requires forall j :: |log| <= j < |more| && more[j].Claim? ==> more[j].call != c
    ensures ReaderOk(more, c, call)
  {
    if call.Reading? { assert more[..call.readAt] == log[..call.readAt]; }
  }

  /** A call that has just read, or has just stopped reading. */
  lemma OwnReaderOk(server: Server, s: State, l: Step, c: CallId)
    requires LogInv(s) && Enabled(s, l) && TakenBy(l, c)
    ensures var t := Apply(server, s, l); c in t.calls ==> ReaderOk(t.log, c, t.calls[c])
  {
    if l.BeginCheck? {
      assert s.log[..|s.log|] == s.log;
      assert Agrees(LifeAfter(s.log, l.key), s.slots, l.key);
    }
    hide LogInv, Agrees;
  }

  /** A claim is logged under the call that made it. */
  lemma OthersDoNotClaim(server: Server, s: State, l: Step, c: CallId)
    requires Enabled(s, l) && !TakenBy(l, c)
    ensures var t := Apply(server, s, l);
      && s.log <= t.log
      && forall j :: |s.log| <= j < |t.log| && t.log[j].Claim? ==> t.log[j].call != c
  {
  }

  lemma ReadStep(server: Server, s: State, l: Step)
    requires ReadInv(s) && LogInv(s) && Enabled(s, l)
    ensures ReadInv(Apply(server, s, l))
  {
    hide Apply, Enabled, ReaderOk, LogInv;
    var t := Apply(server, s, l);
    forall c | c in t.calls ensures ReaderOk(t.log, c, t.calls[c]) {
      if TakenBy(l, c) {
        OwnReaderOk(server, s, l, c);
      } else {
        OthersUntouched(server, s, l, c);
        OthersDoNotClaim(server, s, l, c);
        ReaderStays(s.log, t.log, c, s.calls[c]);
      }
    }
  }

  // ---------- verified claims ----------

  ghost predicate HasClaim(log: Log, key: Key, id: nat) {
    exists j :: 0 <= j < |log| && log[j].Claim? && log[j].key == key && log[j].install == id
  }

  /** The proof of work of a solved claim, against the challenge installed under its number. */
  ghost predicate WorkIsProved(server: Server, s: State, v: Solved) {
    && v.install < |s.installed|
    && ServerAccepts(DigestOf(server, s.installed[v.install], v.solution), s.installed[v.install].difficulty)
  }

  ghost predicate SolvedOk(server: Server, s: State, v: Solved) {
    HasClaim(s.log, v.key, v.install) && WorkIsProved(server, s, v)
  }

  ghost predicate VerifierOk(s: State, c: CallId) {
    c in s.calls && s.calls[c].Verifying? ==>
      && HasClaim(s.log, s.calls[c].key, s.calls[c].slot.install)
      && (forall i :: 0 <= i < |s.solved| ==> s.solved[i].install != s.calls[c].slot.install)
  }

  ghost predicate VerifiersApart(s: State, c: CallId, d: CallId) {
    c in s.calls && d in s.calls && c != d && s.calls[c].Verifying? && s.calls[d].Verifying? ==>
      s.calls[c].slot.install != s.calls[d].slot.install
  }

  /** Each claimed install is verified by at most one call and solved at most once. */
  ghost predicate SolveInv(server: Server, s: State) {
    && (forall i :: 0 <= i < |s.solved| ==> SolvedOk(server, s, s.solved[i]))
    && (forall i, j :: 0 <= i < j < |s.solved| ==> s.solved[i].install != s.solved[j].install)
    && (forall c :: VerifierOk(s, c))
    && (forall c, d :: VerifiersApart(s, c, d))
  }

  lemma HasClaimStays(log: Log, more: Log, key: Key, id: nat)
    requires HasClaim(log, key, id) && log <= more
    ensures HasClaim(more, key, id)
  {
    var j :| 0 <= j < |log| && log[j].Claim? && log[j].key == key && log[j].install == id;
    assert more[j] == log[j];
  }

  lemma SolvedStays(server: Server, s: State, l: Step, v: Solved)
    requires Enabled(s, l) && SolvedOk(server, s, v)
    ensures SolvedOk(server, Apply(server, s, l), v)
  {
    var t := Apply(server, s, l);
    HasClaimStays(s.log, t.log, v.key, v.install);
  }

  /** The install a successful claim marks has never been claimed. */
  lemma ClaimIsFirst(s: State, c: CallId, key: Key, id: nat)
    requires LogInv(s) && ChallengeInv(s) && c in s.calls && s.calls[c].Reading? && ClaimSucceeds(s, c)
    requires HasClaim(s.log, key, id)
    ensures id != s.slots[s.calls[c].key].install
  {
    var k := s.calls[c].key;
    assert CopyOk(s, s.calls[c]);
    assert Agrees(LifeAfter(s.log, k), s.slots, k);
    PresentIds(s.log, k);
    ClaimedIdsAre(s.log, id);
  }

  lemma SolveClaim(server: Server, s: State, c: CallId)
    requires SolveInv(server, s) && LogInv(s) && ChallengeInv(s) && Enabled(s, ClaimCas(c)) && ClaimSucceeds(s, c)
    ensures SolveInv(server, Apply(server, s, ClaimCas(c)))
  {
    var t := Apply(server, s, ClaimCas(c));
    assert t.log[|s.log|] == Claim(s.calls[c].key, s.slots[s.calls[c].key].install, s.clock, c);
    forall i | 0 <= i < |t.solved|
      ensures SolvedOk(server, t, t.solved[i]) && t.solved[i].install != t.calls[c].slot.install
    {
      assert SolvedOk(server, s, s.solved[i]);
      SolvedStays(server, s, ClaimCas(c), s.solved[i]);
      ClaimIsFirst(s, c, s.solved[i].key, s.solved[i].install);
    }
    forall d | d in t.calls && d != c && t.calls[d].Verifying?
      ensures HasClaim(t.log, t.calls[d].key, t.calls[d].slot.install)
      ensures t.calls[d].slot.install != t.calls[c].slot.install
    {
      assert VerifierOk(s, d);
      HasClaimStays(s.log, t.log, s.calls[d].key, s.calls[d].slot.install);
      ClaimIsFirst(s, c, s.calls[d].key, s.calls[d].slot.install);
    }
    assert HasClaim(t.log, t.calls[c].key, t.calls[c].slot.install);
    forall d ensures VerifierOk(t, d) { assert VerifierOk(s, d); }
    forall d, e ensures VerifiersApart(t, d, e) { assert VerifiersApart(s, d, e); }
  }

  lemma SolveHash(server: Server, s: State, c: CallId)
    requires SolveInv(server, s) && ChallengeInv(s) && Enabled(s, CheckHash(c))
    ensures SolveInv(server, Apply(server, s, CheckHash(c)))
  {
    hide ServerAccepts, DigestOf, HasClaim;
    var t := Apply(server, s, CheckHash(c));
    assert VerifierOk(s, c) && CopyOk(s, s.calls[c]);
    forall i | 0 <= i < |t.solved| ensures SolvedOk(server, t, t.solved[i]) {
      if i < |s.solved| { assert SolvedOk(server, s, s.solved[i]); }
    }
    forall d ensures VerifierOk(t, d) { assert VerifierOk(s, d) && VerifiersApart(s, c, d); }
    forall d, e ensures VerifiersApart(t, d, e) { assert VerifiersApart(s, d, e); }
  }

  /** Steps that neither claim nor verify add no solved claim and no verifying call. */
  lemma SolvedUntouched(server: Server, s: State, l: Step)
    requires Enabled(s, l) && !l.CheckHash? && (l.ClaimCas? ==> !ClaimSucceeds(s, l.call))
    ensures var t := Apply(server, s, l);
      && s.log <= t.log && t.solved == s.solved && s.installed <= t.installed
      && forall d :: d in t.calls && t.calls[d].Verifying? ==> d in s.calls && s.calls[d] == t.calls[d]
  {
  }

  lemma SolveOther(server: Server, s: State, l: Step)
    requires SolveInv(server, s) && Enabled(s, l) && !l.CheckHash? && (l.ClaimCas? ==> !ClaimSucceeds(s, l.call))
    ensures SolveInv(server, Apply(server, s, l))
  {
    var t := Apply(server, s, l);
    SolvedUntouched(server, s, l);
    hide Apply, Enabled, HasClaim, WorkIsProved;
    forall i | 0 <= i < |t.solved| ensures SolvedOk(server, t, t.solved[i]) {
      assert SolvedOk(server, s, s.solved[i]);
      SolvedStays(server, s, l, s.solved[i]);
    }
    forall d ensures VerifierOk(t, d) {
      assert VerifierOk(s, d);
      if d in t.calls && t.calls[d].Verifying? { HasClaimStays(s.log, t.log, t.calls[d].key, t.calls[d].slot.install); }
    }
    forall d, e ensures VerifiersApart(t, d, e) { assert VerifiersApart(s, d, e); }
  }

  lemma SolveStep(server: Server, s: State, l: Step)
    requires SolveInv(server, s) && LogInv(s) && ChallengeInv(s) && Enabled(s, l)
    ensures SolveInv(server, Apply(server, s, l))
  {
    if l.CheckHash? {
      SolveHash(server, s, l.call);
    } else if l.ClaimCas? && ClaimSucceeds(s, l.call) {
      SolveClaim(server, s, l.call);
    } else {
      SolveOther(server, s, l);
    }
  }

  // ---------- over whole runs ----------

  ghost predicate Inv(server: Server, s: State) {
    TokenInv(s) && PassInv(s) && LogInv(s) && ChallengeInv(s) && ReadInv(s) && SolveInv(server, s)
  }

  lemma InitInv(server: Server)
    ensures Inv(server, Init())
  {
    var s := Init();
    forall e: EvictionEntry ensures Tokens(s, e) == 0 { assert Holders(s.calls, e) == {}; }
    assert forall k :: LifeAfter(s.log, k) == Absent;
  }

  lemma InvStep(server: Server, s: State, l: Step)
    requires Inv(server, s) && Enabled(s, l)
    ensures Inv(server, Apply(server, s, l))
  {
    hide *;
    UnpackInv(server, s);
    TokenStep(server, s, l);
    PassStep(server, s, l);
    LogStep(server, s, l);
    ChallengeStep(server, s, l);
    ReadStep(server, s, l);
    SolveStep(server, s, l);
    PackInv(server, Apply(server, s, l));
  }

  lemma UnpackInv(server: Server, s: State)
    requires Inv(server, s)
    ensures TokenInv(s) && PassInv(s) && LogInv(s) && ChallengeInv(s) && ReadInv(s) && SolveInv(server, s)
  {
    hide TokenInv, PassInv, LogInv, ChallengeInv, ReadInv, SolveInv;
  }

  lemma PackInv(server: Server, s: State)
    requires TokenInv(s) && PassInv(s) && LogInv(s) && ChallengeInv(s) && ReadInv(s) && SolveInv(server, s)
    ensures Inv(server, s)
  {
    hide TokenInv, PassInv, LogInv, ChallengeInv, ReadInv, SolveInv;
  }

  /** Every state any interleaving reaches keeps the invariants. */
  lemma {:induction false} InvOverRuns(server: Server, run: seq<Step>)
    requires Exec(server, run).Some?
    ensures Inv(server, Exec(server, run).value)
  {
    if run == [] {
      InitInv(server);
    } else {
      hide Inv, Enabled, Apply;
      InvOverRuns(server, run[..|run| - 1]);
      InvStep(server, Exec(server, run[..|run| - 1]).value, run[|run| - 1]);
    }
  }
}
