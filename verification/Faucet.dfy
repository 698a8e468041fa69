/** The faucet end to end: a difficulty from the balance, a challenge, a claim, a queued payout, a batch. */
module Faucet {
  import opened Bytes
  import opened Challenges
  import opened PowInvariants
  import P = PowSystem
  import B = Batcher
  import D = Difficulty
  import DifficultyBounds
  import DifficultyRange

  /** The settings of one layer; `perClaim` is also the amount of every payout. */
  datatype Layer = Layer(maxDiff: Byte, minDiff: Byte, minBalance: U64, perClaim: U64, coeff: D.F32)

  datatype Setup = Setup(server: Server, rnd: D.Rounding, l1: Layer, l2: Layer, batcher: B.Config)

  function LayerOf(setup: Setup, chain: Chain): Layer { if chain.L1? then setup.l1 else setup.l2 }

  function LayerConfig(rnd: D.Rounding, l: Layer): D.Result<D.Config, D.ConfigError> {
    D.New(rnd, l.maxDiff, l.minDiff, l.minBalance, l.perClaim, l.coeff)
  }

  function ConfigOf(setup: Setup, chain: Chain): D.Result<D.Config, D.ConfigError> {
    LayerConfig(setup.rnd, LayerOf(setup, chain))
  }

  /** `difficulty` is what the layer's configuration computes for some balance. */
  ghost predicate Offered(setup: Setup, chain: Chain, difficulty: Byte) {
    && ConfigOf(setup, chain).Success?
    && exists balance: U64 :: difficulty == D.Calculate(setup.rnd, ConfigOf(setup, chain).value, balance)
  }

  /**
   * `handlers` are the claim handlers whose check has passed and which have still to check the address and queue the
   * payout; each is named by the install it claimed. `rejected` had an address for another network.
   */
  datatype State = State(pow: P.State, handlers: set<nat>, rejected: seq<nat>, channel: seq<B.Payout>, batcher: B.State)

  datatype Step =
    | Pow(step: P.Step)
    | Reject(install: nat)
    | Queue(install: nat, address: seq<Byte>)
    | Receive
    | Tick(built: bool)

  function Init(): State { State(P.Init(), {}, [], [], B.Init()) }

  ghost predicate Enabled(setup: Setup, s: State, l: Step) {
    && !s.batcher.aborted
    && match l
       case Pow(p) => P.Enabled(s.pow, p) && (p.BeginGet? ==> Offered(setup, p.key.chain, p.difficulty))
       case Reject(id) => id in s.handlers
       case Queue(id, _) => id in s.handlers
       case Receive => s.channel != []
       case Tick(_) => true
  }

  /** The handlers that go on to pay after a step of the challenge system. */
  function Passed(handlers: set<nat>, before: seq<P.Solved>, after: seq<P.Solved>): set<nat> {
    if |after| > |before| && after[|after| - 1].key.chain.L1? then handlers + {after[|after| - 1].install} else handlers
  }

  ghost function Apply(setup: Setup, s: State, l: Step): State
    requires Enabled(setup, s, l)
  {
    match l
    case Pow(p) =>
      var t := P.Apply(setup.server, s.pow, p);
      s.(pow := t, handlers := Passed(s.handlers, s.pow.solved, t.solved))
    case Reject(id) => s.(handlers := s.handlers - {id}, rejected := s.rejected + [id])
    case Queue(id, address) =>
      s.(handlers := s.handlers - {id}, channel := s.channel + [B.Payout(address, setup.l1.perClaim, id)])
    case Receive => s.(channel := s.channel[1..], batcher := B.Step(setup.batcher, s.batcher, B.Arrival(s.channel[0])))
    case Tick(built) => s.(batcher := B.Step(setup.batcher, s.batcher, B.Tick(built)))
  }

  ghost function Exec(setup: Setup, run: seq<Step>): Option<State> {
    if run == [] then Some(Init())
    else
      match Exec(setup, run[..|run| - 1])
      case None => None
      case Some(s) => if Enabled(setup, s, run[|run| - 1]) then Some(Apply(setup, s, run[|run| - 1])) else None
  }

  // ---------- the challenge system inside ----------

  function PowRun(run: seq<Step>): seq<P.Step> {
    if run == [] then []
    else PowRun(run[..|run| - 1]) + (if run[|run| - 1].Pow? then [run[|run| - 1].step] else [])
  }

  /** What the faucet does to the challenges is a run of the challenge system, so all its theorems apply. */
  lemma {:induction false} PowInside(setup: Setup, run: seq<Step>)
    requires Exec(setup, run).Some?
    ensures P.Exec(setup.server, PowRun(run)) == Some(Exec(setup, run).value.pow)
  {
    if run == [] {
    } else {
      var front, l := run[..|run| - 1], run[|run| - 1];
      PowInside(setup, front);
      hide P.Apply, P.Enabled, P.Exec;
      if l.Pow? {
        P.Extend(setup.server, PowRun(front), l.step);
      } else {
        assert PowRun(run) == PowRun(front);
      }
    }
  }

  // ---------- difficulties ----------

  ghost predicate GentleLayer(layer: Layer) {
    && layer.coeff.Finite?
    && DifficultyBounds.Gentle(layer.maxDiff as real, layer.minDiff as real, layer.minBalance as real,
                               layer.coeff.v * layer.perClaim as real)
  }

  /** Both layers are such that rounding keeps the difficulty in range. */
  ghost predicate Gentle(setup: Setup) {
    D.IsBinary32Rounding(setup.rnd) && GentleLayer(setup.l1) && GentleLayer(setup.l2)
  }

  /**
   * Both layers compute difficulties within their bounds for every balance. DifficultyRange gives the exact condition
   * on a configuration: two evaluations of it.
   */
  ghost predicate KeepsRange(setup: Setup) {
    LayerKeepsRange(setup.rnd, setup.l1) && LayerKeepsRange(setup.rnd, setup.l2)
  }

  ghost predicate LayerKeepsRange(rnd: D.Rounding, l: Layer) {
    LayerConfig(rnd, l).Success? ==> DifficultyRange.KeepsRange(rnd, LayerConfig(rnd, l).value)
  }

  /** Gentle settings are enough. */
  lemma GentleKeepsRange(setup: Setup)
    requires Gentle(setup)
    ensures KeepsRange(setup)
  {
    hide LayerConfig, GentleLayer, LayerKeepsRange, D.IsBinary32Rounding;
    GentleLayerKeepsRange(setup.rnd, setup.l1);
    GentleLayerKeepsRange(setup.rnd, setup.l2);
  }

  lemma GentleLayerKeepsRange(rnd: D.Rounding, l: Layer)
    requires D.IsBinary32Rounding(rnd) && GentleLayer(l)
    ensures LayerKeepsRange(rnd, l)
  {
    if LayerConfig(rnd, l).Success? {
      assert DifficultyBounds.Gentle(l.maxDiff as real, l.minDiff as real, l.minBalance as real,
        l.coeff.v * l.perClaim as real);
      hide D.New, D.Calculate, D.IsBinary32Rounding, DifficultyBounds.Gentle;
      DifficultyRange.GentleKeepsRangeAndOrder(rnd, l.maxDiff, l.minDiff, l.minBalance, l.perClaim, l.coeff,
        LayerConfig(rnd, l).value);
    }
  }

  ghost predicate CallOffered(setup: Setup, call: P.Call) {
    match call
    case Candidate(key, challenge) => Offered(setup, key.chain, challenge.difficulty)
    case Reading(key, slot, _, _) => Offered(setup, key.chain, slot.challenge.difficulty)
    case Verifying(key, slot, _) => Offered(setup, key.chain, slot.challenge.difficulty)
    case _ => true
  }

  ghost predicate SolvedOffered(setup: Setup, s: P.State, v: P.Solved) {
    v.install < |s.installed| && Offered(setup, v.key.chain, s.installed[v.install].difficulty)
  }

  /** Every challenge offered, mapped, read or solved has a difficulty computed for its own chain. */
  ghost predicate OfferedInv(setup: Setup, s: P.State) {
    && (forall c :: c in s.calls ==> CallOffered(setup, s.calls[c]))
    && (forall k :: k in s.slots ==> Offered(setup, k.chain, s.slots[k].challenge.difficulty))
    && (forall i :: 0 <= i < |s.solved| ==> SolvedOffered(setup, s, s.solved[i]))
  }

  lemma OwnCallOffered(setup: Setup, s: P.State, l: P.Step, c: P.CallId)
    requires OfferedInv(setup, s) && P.Enabled(s, l) && TakenBy(l, c)
    requires l.BeginGet? ==> Offered(setup, l.key.chain, l.difficulty)
    ensures var t := P.Apply(setup.server, s, l); c in t.calls ==> CallOffered(setup, t.calls[c])
  {
    if c in s.calls { assert CallOffered(setup, s.calls[c]); }
    hide Offered;
  }

  lemma SlotsOffered(setup: Setup, s: P.State, l: P.Step, k: Key)
    requires OfferedInv(setup, s) && P.Enabled(s, l)
    ensures var t := P.Apply(setup.server, s, l);
      k in t.slots ==> Offered(setup, k.chain, t.slots[k].challenge.difficulty)
  {
    if l.InstallCas? || l.ClaimCas? {
      assert CallOffered(setup, s.calls[l.call]);
    } else if !l.Remove? {
      hide P.Apply, P.Enabled;
      MapUntouched(setup.server, s, l);
    }
    hide Offered;
  }

  /** A solved claim that was not there before the step comes from the verifying call that took it. */
  lemma SolvedComesFrom(server: Server, s: P.State, l: P.Step)
    requires P.Enabled(s, l)
    ensures var t := P.Apply(server, s, l);
      || t.solved == s.solved
      || (l.CheckHash? && s.calls[l.call].Verifying? && t.installed == s.installed
          && var call := s.calls[l.call];
          t.solved == s.solved + [P.Solved(call.key, call.slot.install, call.solution)])
  {
  }

  lemma SolvedStayOffered(setup: Setup, s: P.State, l: P.Step, i: nat)
    requires OfferedInv(setup, s) && ChallengeInv(s) && P.Enabled(s, l)
    ensures var t := P.Apply(setup.server, s, l); i < |t.solved| ==> SolvedOffered(setup, t, t.solved[i])
  {
    SolvedComesFrom(setup.server, s, l);
    HistoryGrows(setup.server, s, l);
    if l.CheckHash? {
      assert CallOffered(setup, s.calls[l.call]) && CopyOk(s, s.calls[l.call]);
    }
    hide P.Apply, Offered;
    if i < |s.solved| { assert SolvedOffered(setup, s, s.solved[i]); }
  }

  lemma OfferedStep(setup: Setup, s: P.State, l: P.Step)
    requires OfferedInv(setup, s) && ChallengeInv(s) && P.Enabled(s, l)
    requires l.BeginGet? ==> Offered(setup, l.key.chain, l.difficulty)
    ensures OfferedInv(setup, P.Apply(setup.server, s, l))
  {
    hide P.Apply, P.Enabled, CallOffered, Offered, SolvedOffered, ChallengeInv;
    var t := P.Apply(setup.server, s, l);
    forall c | c in t.calls ensures CallOffered(setup, t.calls[c]) {
      if TakenBy(l, c) { OwnCallOffered(setup, s, l, c); } else { OthersUntouched(setup.server, s, l, c); }
    }
    forall k | k in t.slots ensures Offered(setup, k.chain, t.slots[k].challenge.difficulty) {
      SlotsOffered(setup, s, l, k);
    }
    forall i: nat | i < |t.solved| ensures SolvedOffered(setup, t, t.solved[i]) { SolvedStayOffered(setup, s, l, i); }
  }

  lemma {:induction false} OfferedOverRuns(setup: Setup, run: seq<Step>)
    requires Exec(setup, run).Some?
    ensures OfferedInv(setup, Exec(setup, run).value.pow)
  {
    if run == [] {
    } else {
      var front, l := run[..|run| - 1], run[|run| - 1];
      OfferedOverRuns(setup, front);
      PowInside(setup, front);
      InvOverRuns(setup.server, PowRun(front));
      hide OfferedInv, P.Apply, P.Enabled, ChallengeInv, Offered, P.Exec;
      if l.Pow? { OfferedStep(setup, Exec(setup, front).value.pow, l.step); }
    }
  }

  /** `difficulty` is computed for some balance by the configuration accepted for these settings. */
  ghost predicate FromSettings(rnd: D.Rounding, l: Layer, difficulty: Byte) {
    exists config: D.Config, balance: U64 ::
      && D.New(rnd, l.maxDiff, l.minDiff, l.minBalance, l.perClaim, l.coeff) == D.Success(config)
      && difficulty == D.Calculate(rnd, config, balance)
  }

  lemma OfferedIsFromSettings(setup: Setup, chain: Chain, difficulty: Byte)
    requires Offered(setup, chain, difficulty)
    ensures chain == L1 ==> FromSettings(setup.rnd, setup.l1, difficulty)
    ensures chain == L2 ==> FromSettings(setup.rnd, setup.l2, difficulty)
  {
    hide D.New, D.Calculate;
    var config := ConfigOf(setup, chain).value;
    var balance: U64 :| difficulty == D.Calculate(setup.rnd, config, balance);
  }

  /** The difficulty of every mapped challenge was computed from the settings of its own chain, for some balance. */
  lemma MappedFromSettings(setup: Setup, run: seq<Step>, k: Key)
    requires Exec(setup, run).Some? && k in Exec(setup, run).value.pow.slots
    ensures var d := Exec(setup, run).value.pow.slots[k].challenge.difficulty;
      && (k.chain == L1 ==> FromSettings(setup.rnd, setup.l1, d))
      && (k.chain == L2 ==> FromSettings(setup.rnd, setup.l2, d))
  {
    OfferedOverRuns(setup, run);
    hide Exec, FromSettings, Offered;
    OfferedIsFromSettings(setup, k.chain, Exec(setup, run).value.pow.slots[k].challenge.difficulty);
  }

  /** And so was that of every solved one. */
  lemma SolvedFromSettings(setup: Setup, run: seq<Step>, n: nat)
    requires Exec(setup, run).Some? && n < |Exec(setup, run).value.pow.solved|
    ensures var s := Exec(setup, run).value.pow; var v := s.solved[n];
      && v.install < |s.installed|
      && (v.key.chain == L1 ==> FromSettings(setup.rnd, setup.l1, s.installed[v.install].difficulty))
      && (v.key.chain == L2 ==> FromSettings(setup.rnd, setup.l2, s.installed[v.install].difficulty))
  {
    OfferedOverRuns(setup, run);
    hide Exec, FromSettings, Offered;
    var s := Exec(setup, run).value.pow;
    assert SolvedOffered(setup, s, s.solved[n]);
    OfferedIsFromSettings(setup, s.solved[n].key.chain, s.installed[s.solved[n].install].difficulty);
  }

  /** At every balance a get on either chain can begin, with what its own settings compute for that balance. */
  lemma EveryBalanceIsServed(setup: Setup, s: State, c: P.CallId, ip: Ip, nonce: Nonce, balance: U64)
    requires !s.batcher.aborted && c !in s.pow.calls
    ensures var l := setup.l1; var r := D.New(setup.rnd, l.maxDiff, l.minDiff, l.minBalance, l.perClaim, l.coeff);
      r.Success? ==> Enabled(setup, s, Pow(P.BeginGet(c, Key(ip, L1), nonce, D.Calculate(setup.rnd, r.value, balance))))
    ensures var l := setup.l2; var r := D.New(setup.rnd, l.maxDiff, l.minDiff, l.minBalance, l.perClaim, l.coeff);
      r.Success? ==> Enabled(setup, s, Pow(P.BeginGet(c, Key(ip, L2), nonce, D.Calculate(setup.rnd, r.value, balance))))
  {
    hide D.New, D.Calculate;
  }

  lemma FromSettingsInRange(rnd: D.Rounding, l: Layer, difficulty: Byte)
    requires LayerKeepsRange(rnd, l) && FromSettings(rnd, l, difficulty)
    ensures l.minDiff <= difficulty <= l.maxDiff
  {
    hide D.Calculate;
    var config: D.Config, balance: U64 :|
      && D.New(rnd, l.maxDiff, l.minDiff, l.minBalance, l.perClaim, l.coeff) == D.Success(config)
      && difficulty == D.Calculate(rnd, config, balance);
  }

  /** If both calculations stay in range, every mapped difficulty is between the bounds set for its own chain. */
  lemma RangeOverRuns(setup: Setup, run: seq<Step>, k: Key)
    requires Exec(setup, run).Some? && KeepsRange(setup) && k in Exec(setup, run).value.pow.slots
    ensures var d := Exec(setup, run).value.pow.slots[k].challenge.difficulty;
      && (k.chain == L1 ==> setup.l1.minDiff <= d <= setup.l1.maxDiff)
      && (k.chain == L2 ==> setup.l2.minDiff <= d <= setup.l2.maxDiff)
  {
    hide Exec, FromSettings, LayerKeepsRange;
    MappedFromSettings(setup, run, k);
    var d := Exec(setup, run).value.pow.slots[k].challenge.difficulty;
    if k.chain == L1 {
      FromSettingsInRange(setup.rnd, setup.l1, d);
    } else {
      FromSettingsInRange(setup.rnd, setup.l2, d);
    }
  }

  // ---------- accounting ----------

  function Ids(payouts: seq<B.Payout>): multiset<nat> {
    if payouts == [] then multiset{} else Ids(payouts[..|payouts| - 1]) + multiset{payouts[|payouts| - 1].install}
  }

  lemma {:induction false} IdsAppend(a: seq<B.Payout>, b: seq<B.Payout>)
    ensures Ids(a + b) == Ids(a) + Ids(b)
  {
    if b == [] {
      assert a + b == a;
    } else {
      var n := |b| - 1;
      assert (a + b)[..|a + b| - 1] == a + b[..n];
      IdsAppend(a, b[..n]);
    }
  }

  lemma IdsOne(p: B.Payout)
    ensures Ids([p]) == multiset{p.install}
  {
    assert [p][..0] == [];
  }

  lemma IdsLast(payouts: seq<B.Payout>)
    requires payouts != []
    ensures Ids(payouts) == Ids(payouts[..|payouts| - 1]) + multiset{payouts[|payouts| - 1].install}
  {
  }

  lemma {:induction false} IdsCount(payouts: seq<B.Payout>)
    ensures |Ids(payouts)| == |payouts|
  {
    if payouts == [] {
    } else {
      IdsCount(payouts[..|payouts| - 1]);
    }
  }

  lemma {:induction false} IdIsIn(payouts: seq<B.Payout>, i: nat)
    requires i < |payouts|
    ensures payouts[i].install in Ids(payouts)
  {
    hide Ids;
    IdsLast(payouts);
    if i == |payouts| - 1 {
    } else {
      IdIsIn(payouts[..|payouts| - 1], i);
    }
  }

  /** The installs of the solved L1 claims. */
  function L1Ids(solved: seq<P.Solved>): multiset<nat> {
    if solved == [] then multiset{}
    else
      var v := solved[|solved| - 1];
      L1Ids(solved[..|solved| - 1]) + if v.key.chain.L1? then multiset{v.install} else multiset{}
  }

  ghost predicate Distinct(solved: seq<P.Solved>) {
    forall i, j :: 0 <= i < j < |solved| ==> solved[i].install != solved[j].install
  }

  lemma L1IdsLast(solved: seq<P.Solved>, id: nat)
    requires solved != []
    ensures var v := solved[|solved| - 1];
      L1Ids(solved)[id] == L1Ids(solved[..|solved| - 1])[id] + if v.key.chain.L1? && v.install == id then 1 else 0
  {
  }

  lemma {:induction false} L1IdIsSolved(solved: seq<P.Solved>, id: nat)
    requires id in L1Ids(solved)
    ensures exists i :: 0 <= i < |solved| && solved[i].install == id && solved[i].key.chain.L1?
  {
    hide L1Ids;
    if solved == [] {
      assert L1Ids([]) == multiset{} by { NoL1Ids(); }
    } else {
      var n := |solved| - 1;
      L1IdsLast(solved, id);
      if id in L1Ids(solved[..n]) {
        L1IdIsSolved(solved[..n], id);
        var i :| 0 <= i < n && solved[..n][i].install == id && solved[..n][i].key.chain.L1?;
        assert solved[i].install == id && solved[i].key.chain.L1?;
      } else {
        assert solved[n].install == id && solved[n].key.chain.L1?;
      }
    }
  }

  lemma NoL1Ids()
    ensures L1Ids([]) == multiset{}
  {
  }

  lemma {:induction false} L1IdsAre(solved: seq<P.Solved>, id: nat)
    requires Distinct(solved)
    ensures L1Ids(solved)[id] <= 1
    ensures id in L1Ids(solved) ==> exists i :: 0 <= i < |solved| && solved[i].install == id && solved[i].key.chain.L1?
  {
    hide L1Ids;
    if solved == [] {
      NoL1Ids();
    } else {
      var n := |solved| - 1;
      var front := solved[..n];
      L1IdsLast(solved, id);
      assert Distinct(front);
      L1IdsAre(front, id);
      if id in L1Ids(solved) { L1IdIsSolved(solved, id); }
    }
  }

  /** Where a solved claim can be: with its handler, refused, in the channel, or taken or dropped by the batcher. */
  function Places(s: State): multiset<nat> {
    multiset(s.handlers) + multiset(s.rejected) + Ids(s.channel) + Ids(s.batcher.accepted) + Ids(s.batcher.dropped)
  }

  ghost predicate Uniform(setup: Setup, payouts: seq<B.Payout>) {
    forall i :: 0 <= i < |payouts| ==> payouts[i].amount == setup.l1.perClaim
  }

  ghost predicate Payable(setup: Setup, s: State) {
    Uniform(setup, s.channel) && Uniform(setup, s.batcher.accepted) && B.Conserved(setup.batcher, s.batcher)
  }

  /** Every solved L1 claim is in exactly one place, and everything queued is for the configured amount. */
  ghost predicate AccountInv(setup: Setup, s: State) {
    L1Ids(s.pow.solved) == Places(s) && Payable(setup, s)
  }

  lemma SolvedAppend(solved: seq<P.Solved>, v: P.Solved)
    ensures L1Ids(solved + [v]) == L1Ids(solved) + if v.key.chain.L1? then multiset{v.install} else multiset{}
  {
    assert (solved + [v])[..|solved|] == solved;
  }

  lemma FreshIsNotSolved(solved: seq<P.Solved>, v: P.Solved)
    requires Distinct(solved + [v])
    ensures v.install !in L1Ids(solved)
  {
    assert forall i :: 0 <= i < |solved| ==> (solved + [v])[i] == solved[i];
    assert (solved + [v])[|solved|] == v;
    L1IdsAre(solved, v.install);
  }

  /** A newly solved claim is nowhere yet, so its handler is its one place. */
  lemma PlacesGain(s: State, v: P.Solved)
    requires L1Ids(s.pow.solved) == Places(s) && Distinct(s.pow.solved + [v])
    ensures L1Ids(s.pow.solved + [v]) == Places(s.(handlers := Passed(s.handlers, s.pow.solved, s.pow.solved + [v])))
  {
    hide Ids, L1Ids, Distinct;
    SolvedAppend(s.pow.solved, v);
    FreshIsNotSolved(s.pow.solved, v);
    assert v.install !in Places(s);
    assert v.install !in s.handlers;
  }

  lemma AccountPow(setup: Setup, s: State, l: Step)
    requires AccountInv(setup, s) && Enabled(setup, s, l)
    requires l.Pow? && Distinct(P.Apply(setup.server, s.pow, l.step).solved)
    ensures AccountInv(setup, Apply(setup, s, l))
  {
    SolvedComesFrom(setup.server, s.pow, l.step);
    hide P.Apply, P.Enabled, Ids, L1Ids, Payable, Offered, Distinct;
    var solved, t := s.pow.solved, P.Apply(setup.server, s.pow, l.step);
    if t.solved != solved {
      assert t.solved == solved + [t.solved[|solved|]];
      PlacesGain(s, t.solved[|solved|]);
    }
    SamePayable(setup, s, Apply(setup, s, l));
  }

  lemma SamePayable(setup: Setup, s: State, t: State)
    requires Payable(setup, s) && t.channel == s.channel && t.batcher == s.batcher
    ensures Payable(setup, t)
  {
    hide B.Conserved, Uniform;
  }

  lemma AccountReject(setup: Setup, s: State, l: Step)
    requires AccountInv(setup, s) && l.Reject? && l.install in s.handlers && !s.batcher.aborted
    ensures AccountInv(setup, Apply(setup, s, l))
  {
    hide Ids, L1Ids, Payable;
    SamePayable(setup, s, Apply(setup, s, l));
  }

  lemma AccountQueue(setup: Setup, s: State, l: Step)
    requires AccountInv(setup, s) && l.Queue? && l.install in s.handlers && !s.batcher.aborted
    ensures AccountInv(setup, Apply(setup, s, l))
  {
    hide Ids, L1Ids, B.Conserved;
    var p := B.Payout(l.address, setup.l1.perClaim, l.install);
    IdsAppend(s.channel, [p]);
    IdsOne(p);
  }

  lemma IdsMove(channel: seq<B.Payout>, taken: seq<B.Payout>)
    requires channel != []
    ensures Ids(channel) + Ids(taken) == Ids(channel[1..]) + Ids(taken + [channel[0]])
  {
    hide Ids;
    var p := channel[0];
    assert channel == [p] + channel[1..];
    IdsAppend([p], channel[1..]);
    IdsAppend(taken, [p]);
  }

  /** A receive moves one install from the channel to the accepted or to the dropped. */
  lemma PlacesMove(setup: Setup, s: State, t: State)
    requires s.channel != [] && t.channel == s.channel[1..] && s.handlers == t.handlers && s.rejected == t.rejected
    requires var p := s.channel[0];
      || (t.batcher.accepted, t.batcher.dropped) == (s.batcher.accepted + [p], s.batcher.dropped)
      || (t.batcher.accepted, t.batcher.dropped) == (s.batcher.accepted, s.batcher.dropped + [p])
    ensures Places(s) == Places(t)
  {
    hide Ids;
    var h := multiset(s.handlers) + multiset(s.rejected);
    if t.batcher.dropped == s.batcher.dropped {
      IdsMove(s.channel, s.batcher.accepted);
      assert h + Ids(s.channel) + Ids(s.batcher.accepted) == h + (Ids(s.channel) + Ids(s.batcher.accepted));
      assert h + Ids(t.channel) + Ids(t.batcher.accepted) == h + (Ids(t.channel) + Ids(t.batcher.accepted));
    } else {
      IdsMove(s.channel, s.batcher.dropped);
      Regroup(h, Ids(s.channel), Ids(s.batcher.accepted), Ids(s.batcher.dropped));
      Regroup(h, Ids(t.channel), Ids(t.batcher.accepted), Ids(t.batcher.dropped));
    }
  }

  lemma Regroup(h: multiset<nat>, c: multiset<nat>, a: multiset<nat>, d: multiset<nat>)
    ensures h + c + a + d == h + a + (c + d)
  {
  }

  lemma PayableReceive(setup: Setup, s: State)
    requires Payable(setup, s) && s.channel != [] && !s.batcher.aborted
    ensures Payable(setup, Apply(setup, s, Receive))
  {
    B.StepConserves(setup.batcher, s.batcher, B.Arrival(s.channel[0]));
    B.ArrivalIsTakenOrDropped(setup.batcher, s.batcher, s.channel[0]);
    hide B.Conserved, B.Step;
  }

  lemma AccountReceive(setup: Setup, s: State)
    requires AccountInv(setup, s) && Enabled(setup, s, Receive)
    ensures AccountInv(setup, Apply(setup, s, Receive))
  {
    B.ArrivalIsTakenOrDropped(setup.batcher, s.batcher, s.channel[0]);
    PayableReceive(setup, s);
    hide Ids, L1Ids, B.Conserved, B.Step, Places, Uniform;
    PlacesMove(setup, s, Apply(setup, s, Receive));
  }

  lemma AccountTick(setup: Setup, s: State, l: Step)
    requires AccountInv(setup, s) && Enabled(setup, s, l) && l.Tick?
    ensures AccountInv(setup, Apply(setup, s, l))
  {
    B.StepConserves(setup.batcher, s.batcher, B.Tick(l.built));
    B.TickSeesNothing(setup.batcher, s.batcher, l.built);
    hide Ids, L1Ids, B.Conserved, B.Step, Uniform;
  }

  lemma SolvedAreDistinct(server: Server, run: seq<P.Step>)
    requires P.Exec(server, run).Some?
    ensures Distinct(P.Exec(server, run).value.solved)
  {
    hide P.Exec, TokenInv, PassInv, LogInv, ChallengeInv, ReadInv, VerifierOk, VerifiersApart, SolvedOk;
    InvOverRuns(server, run);
  }

  lemma {:induction false} AccountOverRuns(setup: Setup, run: seq<Step>)
    requires Exec(setup, run).Some?
    ensures AccountInv(setup, Exec(setup, run).value)
  {
    if run == [] {
    } else {
      var front, l := run[..|run| - 1], run[|run| - 1];
      var s := Exec(setup, front).value;
      PowInside(setup, run);
      SolvedAreDistinct(setup.server, PowRun(run));
      AccountOverRuns(setup, front);
      if l.Pow? { assert Exec(setup, run).value.pow == P.Apply(setup.server, s.pow, l.step); }
      hide AccountInv, P.Apply, P.Enabled, P.Exec, PowRun, Distinct, Apply;
      match l {
        case Pow(_) => AccountPow(setup, s, l);
        case Queue(_, _) => AccountQueue(setup, s, l);
        case Reject(_) => AccountReject(setup, s, l);
        case Receive => AccountReceive(setup, s);
        case Tick(_) => AccountTick(setup, s, l);
      }
    }
  }
}
