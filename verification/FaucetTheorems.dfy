/** What a faucet's payouts owe to its claims: each one is earned, addressed as asked, and paid once and on time. */
module FaucetTheorems {
  import opened Bytes
  import opened ProofOfWork
  import opened Challenges
  import opened History
  import opened PowInvariants
  import opened PowTheorems
  import opened Faucet
  import opened FaucetQueue
  import P = PowSystem
  import B = Batcher

  /** The log holds a claim of the install on the key, and no second claim of that install on any key. */
  ghost predicate ClaimedOnce(log: Log, key: Key, id: nat) {
    && HasClaim(log, key, id)
    && forall i, j :: 0 <= i < j < |log| && log[i].Claim? && log[j].Claim? ==> log[i].install != log[j].install
  }

  /** The digest of a solved claim is below the target of the challenge installed under its number. */
  ghost predicate ProvesTarget(server: Server, s: P.State, v: P.Solved)
    requires v.install < |s.installed|
  {
    var ch := s.installed[v.install];
    Value(server.hash(server.salt + ch.nonce + v.solution)) < Pow2(256 - ch.difficulty)
  }

  /** `v` is the solved L1 claim that the payout pays: claimed once, for the configured amount, with its work proved. */
  ghost predicate EarnedBy(setup: Setup, s: State, p: B.Payout, v: P.Solved) {
    && v in s.pow.solved && v.key.chain.L1? && v.install == p.install && p.amount == setup.l1.perClaim
    && ClaimedOnce(s.pow.log, v.key, v.install)
    && v.install < |s.pow.installed|
    && ProvesTarget(setup.server, s.pow, v)
  }

  lemma SolvedProves(server: Server, s: P.State, v: P.Solved)
    requires SolvedOk(server, s, v)
    ensures HasClaim(s.log, v.key, v.install) && v.install < |s.installed| && ProvesTarget(server, s, v)
  {
    hide HasClaim, ServerAccepts, Value, Pow2;
    ServerAcceptsIffBelowTarget(server.hash(server.salt + s.installed[v.install].nonce + v.solution),
      s.installed[v.install].difficulty);
  }

  lemma SolvedIsEarned(setup: Setup, run: seq<Step>, n: nat)
    requires Exec(setup, run).Some? && n < |Exec(setup, run).value.pow.solved|
    ensures var s := Exec(setup, run).value; var v := s.pow.solved[n];
      && ClaimedOnce(s.pow.log, v.key, v.install)
      && v.install < |s.pow.installed| && ProvesTarget(setup.server, s.pow, v)
  {
    var s := Exec(setup, run).value;
    PowInside(setup, run);
    InvOverRuns(setup.server, PowRun(run));
    hide P.Exec, Exec, TokenInv, PassInv, LogInv, ChallengeInv, ReadInv, VerifierOk, VerifiersApart, SolvedOk;
    hide HasClaim, ProvesTarget;
    var v := s.pow.solved[n];
    assert SolvedOk(setup.server, s.pow, v);
    SolvedProves(setup.server, s.pow, v);
    forall i, j | 0 <= i < j < |s.pow.log| && s.pow.log[i].Claim? && s.pow.log[j].Claim?
      ensures s.pow.log[i].install != s.pow.log[j].install
    {
      AtMostOneSuccessPerInstall(setup.server, PowRun(run), v.key, i, j);
    }
  }

  /** The solved claim behind a payout the batcher has accepted. */
  lemma AcceptedIsSolved(setup: Setup, s: State, i: nat) returns (n: nat)
    requires AccountInv(setup, s) && Distinct(s.pow.solved) && i < |s.batcher.accepted|
    ensures n < |s.pow.solved| && s.pow.solved[n].key.chain.L1?
    ensures s.pow.solved[n].install == s.batcher.accepted[i].install
    ensures s.batcher.accepted[i].amount == setup.l1.perClaim
  {
    hide B.Conserved, Ids, L1Ids;
    var id := s.batcher.accepted[i].install;
    IdIsIn(s.batcher.accepted, i);
    assert id in Places(s);
    L1IdsAre(s.pow.solved, id);
    n :| 0 <= n < |s.pow.solved| && s.pow.solved[n].install == id && s.pow.solved[n].key.chain.L1?;
  }

  /**
   * Every payout ever drained into a batch was earned by a solved L1 claim, and goes to the address that its claim's
   * handler queued, at the one step `n` that queued a payout for that claim.
   */
  lemma EveryPayoutIsEarned(setup: Setup, run: seq<Step>, i: nat) returns (v: P.Solved, n: nat)
    requires Exec(setup, run).Some? && i < |PaidOut(Exec(setup, run).value)|
    ensures var s := Exec(setup, run).value; var p := PaidOut(s)[i];
      && EarnedBy(setup, s, p, v)
      && n < |run| && run[n] == Step.Queue(p.install, p.address)
      && forall m :: 0 <= m < |run| && run[m].Queue? && run[m].install == p.install ==> m == n
  {
    hide Exec, P.Exec, AccountInv, B.Drained, Distinct, ClaimedOnce, ProvesTarget, PaidOut;
    var s := Exec(setup, run).value;
    AccountOverRuns(setup, run);
    PowInside(setup, run);
    SolvedAreDistinct(setup.server, PowRun(run));
    PaidIsAccepted(setup, s);
    var j := AcceptedIsSolved(setup, s, i);
    v := s.pow.solved[j];
    SolvedIsEarned(setup, run, j);
    assert PaidOut(s)[i] == s.batcher.accepted[i];
    n := PayoutWasQueued(setup, run, PaidOut(s)[i]);
    forall m | 0 <= m < |run| && run[m].Queue? && run[m].install == PaidOut(s)[i].install ensures m == n {
      if m < n { OneQueueStep(setup, run, m, n); }
      if n < m { OneQueueStep(setup, run, n, m); }
    }
  }

  /** Where rounding keeps difficulties in range, the digest behind every payout is below 2^(256 - min_difficulty). */
  lemma EveryPayoutMeetsTheMinimum(setup: Setup, run: seq<Step>, i: nat) returns (v: P.Solved)
    requires Exec(setup, run).Some? && KeepsRange(setup) && i < |PaidOut(Exec(setup, run).value)|
    ensures var s := Exec(setup, run).value;
      && EarnedBy(setup, s, PaidOut(s)[i], v)
      && var digest := setup.server.hash(setup.server.salt + s.pow.installed[v.install].nonce + v.solution);
      Value(digest) < Pow2(256 - setup.l1.minDiff)
  {
    hide Exec, PaidOut, ClaimedOnce, Pow2, Value, FromSettings, LayerKeepsRange;
    var step: nat;
    v, step := EveryPayoutIsEarned(setup, run, i);
    var s := Exec(setup, run).value;
    var n :| 0 <= n < |s.pow.solved| && s.pow.solved[n] == v;
    SolvedFromSettings(setup, run, n);
    FromSettingsInRange(setup.rnd, setup.l1, s.pow.installed[v.install].difficulty);
    Pow2Monotone(256 - s.pow.installed[v.install].difficulty, 256 - setup.l1.minDiff);
  }

  lemma {:induction false} IdsTwice(payouts: seq<B.Payout>, i: nat, j: nat)
    requires i < j < |payouts| && payouts[i].install == payouts[j].install
    ensures Ids(payouts)[payouts[i].install] >= 2
  {
    hide Ids;
    var n := |payouts| - 1;
    var front := payouts[..n];
    IdsLast(payouts);
    if j < n {
      IdsTwice(front, i, j);
    } else {
      IdIsIn(front, i);
    }
  }

  lemma AcceptedAreDistinct(setup: Setup, s: State, i: nat, j: nat)
    requires AccountInv(setup, s) && Distinct(s.pow.solved) && i < j < |s.batcher.accepted|
    ensures s.batcher.accepted[i].install != s.batcher.accepted[j].install
  {
    hide Ids, L1Ids, Payable;
    var id := s.batcher.accepted[i].install;
    L1IdsAre(s.pow.solved, id);
    assert Ids(s.batcher.accepted)[id] <= Places(s)[id];
    if id == s.batcher.accepted[j].install { IdsTwice(s.batcher.accepted, i, j); }
  }

  /** No claim is paid twice, whichever batches the payouts are in. */
  lemma NoClaimPaysTwice(setup: Setup, run: seq<Step>, i: nat, j: nat)
    requires Exec(setup, run).Some? && i < j < |PaidOut(Exec(setup, run).value)|
    ensures var paid := PaidOut(Exec(setup, run).value); paid[i].install != paid[j].install
  {
    hide Exec, P.Exec, AccountInv, Distinct, PaidOut;
    var s := Exec(setup, run).value;
    AccountOverRuns(setup, run);
    PowInside(setup, run);
    SolvedAreDistinct(setup.server, PowRun(run));
    PaidIsAccepted(setup, s);
    AcceptedAreDistinct(setup, s, i, j);
  }

  /** `n` claims in sats. */
  function Worth(n: nat, amount: nat): nat { n * amount }

  lemma BatchesWorth(setup: Setup, s: State)
    requires Payable(setup, s)
    ensures B.Spent(s.batcher.batches) == Worth(|PaidOut(s)|, setup.l1.perClaim)
  {
    hide B.Spent, B.Total, B.Drained;
    B.SpentIsDrained(setup.batcher, s.batcher.batches);
    var paid := PaidOut(s);
    assert s.batcher.accepted == paid + s.batcher.queue;
    forall p | p in paid ensures p.amount == setup.l1.perClaim {
      var i :| 0 <= i < |paid| && paid[i] == p;
      assert s.batcher.accepted[i] == p;
    }
    B.TotalOfEqual(paid, setup.l1.perClaim);
  }

  /**
   * Where the solved L1 claims have gone, counted; and what the batches come to: the claim amount for each payout
   * drained, so never more than the claim amount for each solved claim.
   */
  lemma SatsAccounting(setup: Setup, run: seq<Step>)
    requires Exec(setup, run).Some?
    ensures var s, amount := Exec(setup, run).value, setup.l1.perClaim;
      && |L1Ids(s.pow.solved)| ==
         |PaidOut(s)| + |s.batcher.queue| + |s.channel| + |s.batcher.dropped| + |s.rejected| + |s.handlers|
      && B.Spent(s.batcher.batches) == Worth(|PaidOut(s)|, amount) <= Worth(|L1Ids(s.pow.solved)|, amount)
  {
    var s := Exec(setup, run).value;
    hide Exec, L1Ids, Ids, B.Spent, B.Total, B.Drained, PaidOut, Worth, Payable, Places;
    AccountOverRuns(setup, run);
    PlacesCount(s);
    PaidIsAccepted(setup, s);
    BatchesWorth(setup, s);
    WorthMonotone(|PaidOut(s)|, |L1Ids(s.pow.solved)|, setup.l1.perClaim);
  }

  lemma PlacesCount(s: State)
    ensures |Places(s)| == |s.handlers| + |s.rejected| + |s.channel| + |s.batcher.accepted| + |s.batcher.dropped|
  {
    hide Ids;
    IdsCount(s.channel);
    IdsCount(s.batcher.accepted);
    IdsCount(s.batcher.dropped);
  }

  /** If a full slice of claims fits in a `u64`, no run of the faucet aborts. */
  lemma {:induction false} NeverAborts(setup: Setup, run: seq<Step>)
    requires Exec(setup, run).Some? && B.FullSlice(setup.batcher, setup.l1.perClaim) <= U64_MAX
    ensures !Exec(setup, run).value.batcher.aborted
  {
    if run == [] {
    } else {
      var front, l := run[..|run| - 1], run[|run| - 1];
      AccountOverRuns(setup, front);
      hide AccountInv, Apply, Enabled;
      TickFits(setup, Exec(setup, front).value, l);
    }
  }

  lemma QueueIsUniform(setup: Setup, s: State)
    requires AccountInv(setup, s)
    ensures forall p :: p in s.batcher.queue ==> p.amount <= setup.l1.perClaim
    ensures |s.batcher.queue| <= setup.batcher.maxInFlight
  {
    hide Ids, L1Ids, B.Drained, B.BatchOk, Places;
    var accepted, queue, n := s.batcher.accepted, s.batcher.queue, |PaidOut(s)|;
    forall i | 0 <= i < |queue| ensures queue[i].amount == setup.l1.perClaim { assert queue[i] == accepted[n + i]; }
  }

  lemma TickFits(setup: Setup, s: State, l: Step)
    requires AccountInv(setup, s) && Enabled(setup, s, l) && B.FullSlice(setup.batcher, setup.l1.perClaim) <= U64_MAX
    ensures !Apply(setup, s, l).batcher.aborted
  {
    QueueIsUniform(setup, s);
    hide AccountInv, P.Apply, P.Enabled, Offered, B.FullSlice, B.Step;
    match l {
      case Tick(built) => B.SliceFits(setup.batcher, s.batcher, built, setup.l1.perClaim);
      case Receive => B.ArrivalIsTakenOrDropped(setup.batcher, s.batcher, s.channel[0]);
      case _ => assert Apply(setup, s, l).batcher == s.batcher;
    }
  }

  // ---------- what one client can get ----------

  ghost predicate SolvedBy(solved: seq<P.Solved>, k: Key, id: nat) {
    exists i :: 0 <= i < |solved| && solved[i].key == k && solved[i].install == id
  }

  /** The amount drained into batches for claims of one client. */
  ghost function PaidTo(payouts: seq<B.Payout>, solved: seq<P.Solved>, k: Key): nat {
    if payouts == [] then 0
    else
      var p := payouts[|payouts| - 1];
      PaidTo(payouts[..|payouts| - 1], solved, k) + if SolvedBy(solved, k, p.install) then p.amount else 0
  }

  /** The payouts of installs that the client solved. */
  ghost function PaidFor(payouts: seq<B.Payout>, solved: seq<P.Solved>, k: Key): set<nat> {
    set i: nat | i < |payouts| && SolvedBy(solved, k, payouts[i].install)
  }

  lemma PaidForLast(payouts: seq<B.Payout>, solved: seq<P.Solved>, k: Key)
    requires payouts != []
    ensures var n := |payouts| - 1;
      |PaidFor(payouts, solved, k)| ==
        |PaidFor(payouts[..n], solved, k)| + if SolvedBy(solved, k, payouts[n].install) then 1 else 0
  {
    hide SolvedBy;
    var n := |payouts| - 1;
    var front, now := PaidFor(payouts[..n], solved, k), PaidFor(payouts, solved, k);
    assert now == if SolvedBy(solved, k, payouts[n].install) then front + {n} else front;
  }

  lemma OneMoreWorth(n: nat, amount: nat)
    ensures Worth(0, amount) == 0 && Worth(n + 1, amount) == Worth(n, amount) + amount
  {
  }

  /** The client's amount is the claim amount for each of its payouts. */
  lemma {:induction false} PaidToIsCounted(payouts: seq<B.Payout>, solved: seq<P.Solved>, k: Key, amount: nat)
    requires forall i :: 0 <= i < |payouts| ==> payouts[i].amount == amount
    ensures PaidTo(payouts, solved, k) == Worth(|PaidFor(payouts, solved, k)|, amount)
  {
    if payouts == [] {
      OneMoreWorth(0, amount);
      assert PaidFor(payouts, solved, k) == {};
    } else {
      var front := payouts[..|payouts| - 1];
      PaidToIsCounted(front, solved, k, amount);
      PaidForLast(payouts, solved, k);
      OneMoreWorth(|PaidFor(front, solved, k)|, amount);
      hide SolvedBy, PaidFor, Worth;
    }
  }

  /** Payouts of distinct installs of the client, each one of `claimed`, come to at most its size in claim amounts. */
  lemma {:induction false} PaidToBound(payouts: seq<B.Payout>, solved: seq<P.Solved>, k: Key, claimed: set<nat>,
                                       amount: nat)
    requires forall i :: 0 <= i < |payouts| ==> payouts[i].amount == amount
    requires forall i, j :: 0 <= i < j < |payouts| ==> payouts[i].install != payouts[j].install
    requires forall i :: 0 <= i < |payouts| && SolvedBy(solved, k, payouts[i].install) ==> payouts[i].install in claimed
    ensures PaidTo(payouts, solved, k) <= Worth(|claimed|, amount)
  {
    if payouts == [] {
    } else {
      var n := |payouts| - 1;
      var p := payouts[n];
      if SolvedBy(solved, k, p.install) {
        PaidToBound(payouts[..n], solved, k, claimed - {p.install}, amount);
        assert claimed == claimed - {p.install} + {p.install};
        assert (|claimed - {p.install}| + 1) * amount == |claimed - {p.install}| * amount + amount;
      } else {
        PaidToBound(payouts[..n], solved, k, claimed, amount);
      }
    }
  }

  lemma SolvedByHasClaimed(setup: Setup, run: seq<Step>, k: Key, id: nat)
    requires Exec(setup, run).Some? && SolvedBy(Exec(setup, run).value.pow.solved, k, id)
    ensures id in ClaimedOn(Exec(setup, run).value.pow.log, k)
  {
    hide Exec, ClaimedOn;
    var s := Exec(setup, run).value;
    var n :| 0 <= n < |s.pow.solved| && s.pow.solved[n].key == k && s.pow.solved[n].install == id;
    SolvedIsEarned(setup, run, n);
    var i :| 0 <= i < |s.pow.log| && s.pow.log[i].Claim? && s.pow.log[i].key == k && s.pow.log[i].install == id;
    ClaimIsOn(s.pow.log, k, i);
  }

  /** A client is paid no more than the claim amount for each of its successful claims. */
  lemma PaidWithinClaims(setup: Setup, run: seq<Step>, k: Key)
    requires Exec(setup, run).Some?
    ensures var s := Exec(setup, run).value;
      && PaidTo(PaidOut(s), s.pow.solved, k) == Worth(|PaidFor(PaidOut(s), s.pow.solved, k)|, setup.l1.perClaim)
      && PaidTo(PaidOut(s), s.pow.solved, k) <= Worth(Claims(s.pow.log, k), setup.l1.perClaim)
  {
    hide *;
    var s := Exec(setup, run).value;
    var paid, claimed := PaidOut(s), ClaimedOn(s.pow.log, k);
    forall i: nat | i < |paid| ensures paid[i].amount == setup.l1.perClaim {
      var v, _ := EveryPayoutIsEarned(setup, run, i);
      AmountOf(setup, s, paid[i], v);
    }
    forall i: nat, j: nat | i < j < |paid| ensures paid[i].install != paid[j].install {
      NoClaimPaysTwice(setup, run, i, j);
    }
    forall i: nat | i < |paid| && SolvedBy(s.pow.solved, k, paid[i].install) ensures paid[i].install in claimed {
      SolvedByHasClaimed(setup, run, k, paid[i].install);
    }
    PaidToIsCounted(paid, s.pow.solved, k, setup.l1.perClaim);
    PaidToBound(paid, s.pow.solved, k, claimed, setup.l1.perClaim);
    ClaimedOnIsCounted(s.pow.log, k);
    WorthMonotone(|claimed|, Claims(s.pow.log, k), setup.l1.perClaim);
  }

  lemma WorthMonotone(a: nat, b: nat, amount: nat)
    requires a <= b
    ensures Worth(a, amount) <= Worth(b, amount)
  {
    ProductMonotone(a, b, amount);
  }

  /** The most a client at one address can have been paid by time T: T / (D - delay) + 1 claim amounts. */
  lemma SatsPerClient(setup: Setup, run: seq<Step>, ip: Ip, delay: nat)
    requires Exec(setup, run).Some? && delay < setup.server.l1Duration
    requires PromptInstalls(Exec(setup, run).value.pow.log, Key(ip, L1), setup.server.l1Duration, delay)
    ensures var s := Exec(setup, run).value;
      PaidTo(PaidOut(s), s.pow.solved, Key(ip, L1))
        <= Worth(s.pow.clock / (setup.server.l1Duration - delay) + 1, setup.l1.perClaim)
  {
    hide *;
    var s, k, life := Exec(setup, run).value, Key(ip, L1), setup.server.l1Duration;
    PaidWithinClaims(setup, run, k);
    PowInside(setup, run);
    ClaimsByTime(setup.server, PowRun(run), k, life, delay);
    WorthMonotone(Claims(s.pow.log, k), s.pow.clock / (life - delay) + 1, setup.l1.perClaim);
  }

  lemma AmountOf(setup: Setup, s: State, p: B.Payout, v: P.Solved)
    requires EarnedBy(setup, s, p, v)
    ensures p.amount == setup.l1.perClaim
  {
  }
}
