/** The payout batcher: a bounded FIFO that every tick drains one slice of. */
module Batcher {
  import opened Bytes

  /** A payout; `install` is history and numbers the challenge whose claim it pays. */
  datatype Payout = Payout(address: seq<Byte>, amount: U64, install: nat)

  datatype Config = Config(maxPerTx: nat, maxInFlight: nat)

  /** One drained slice, and whether the wallet could build its transaction. */
  datatype Batch = Batch(requests: seq<Payout>, total: nat, built: bool)

  /**
   * The queue of the batcher task; `accepted`, `dropped` and `batches` are history. A sum of amounts that
   * overflows aborts the process.
   */
  datatype State = State(
    queue: seq<Payout>, accepted: seq<Payout>, dropped: seq<Payout>, batches: seq<Batch>, aborted: bool)

  function Init(): State { State([], [], [], [], false) }

  datatype Event = Arrival(payout: Payout) | Tick(built: bool)

  function Min(a: nat, b: nat): nat { if a < b then a else b }

  /** The sum of the amounts, in unbounded integers. */
  function Total(requests: seq<Payout>): nat {
    if requests == [] then 0 else Total(requests[..|requests| - 1]) + requests[|requests| - 1].amount
  }

  function Receive(cfg: Config, s: State, p: Payout): State {
    if |s.queue| < cfg.maxInFlight then s.(queue := s.queue + [p], accepted := s.accepted + [p])
    else s.(dropped := s.dropped + [p])
  }

  /** The requests are drained before the transaction is built, so a batch that fails is gone too. */
  function Drain(cfg: Config, s: State, built: bool): State {
    var n := Min(cfg.maxPerTx, |s.queue|);
    var total := Total(s.queue[..n]);
    if s.queue == [] then s
    else if total > U64_MAX then s.(aborted := true)
    else s.(queue := s.queue[n..], batches := s.batches + [Batch(s.queue[..n], total, built)])
  }

  function Step(cfg: Config, s: State, e: Event): State {
    if s.aborted then s
    else if e.Arrival? then Receive(cfg, s, e.payout)
    else Drain(cfg, s, e.built)
  }

  function Exec(cfg: Config, s: State, events: seq<Event>): State
    decreases |events|
  {
    if events == [] then s else Exec(cfg, Step(cfg, s, events[0]), events[1..])
  }

  // ---------- conservation and order ----------

  /** All drained requests, oldest first. */
  function Drained(batches: seq<Batch>): seq<Payout> {
    if batches == [] then [] else Drained(batches[..|batches| - 1]) + batches[|batches| - 1].requests
  }

  function Arrivals(events: seq<Event>): seq<Payout> {
    if events == [] then []
    else (if events[0].Arrival? then [events[0].payout] else []) + Arrivals(events[1..])
  }

  ghost predicate BatchOk(cfg: Config, b: Batch) {
    && |b.requests| <= cfg.maxPerTx && (cfg.maxPerTx > 0 ==> b.requests != [])
    && b.total == Total(b.requests) <= U64_MAX
  }

  /** Accepted requests leave in the order they came, in slices of bounded size, and the queue is bounded. */
  ghost predicate Conserved(cfg: Config, s: State) {
    && s.accepted == Drained(s.batches) + s.queue
    && |s.queue| <= cfg.maxInFlight
    && forall i :: 0 <= i < |s.batches| ==> BatchOk(cfg, s.batches[i])
  }

  lemma DrainedAppend(batches: seq<Batch>, b: Batch)
    ensures Drained(batches + [b]) == Drained(batches) + b.requests
  {
    assert (batches + [b])[..|batches|] == batches;
  }

  lemma SplitQueue(drained: seq<Payout>, queue: seq<Payout>, n: nat)
    requires n <= |queue|
    ensures drained + queue == drained + queue[..n] + queue[n..]
  {
  }

  lemma StepConserves(cfg: Config, s: State, e: Event)
    requires Conserved(cfg, s)
    ensures Conserved(cfg, Step(cfg, s, e))
  {
    hide Total, Drained;
    if e.Tick? {
      var n := Min(cfg.maxPerTx, |s.queue|);
      DrainedAppend(s.batches, Batch(s.queue[..n], Total(s.queue[..n]), e.built));
      SplitQueue(Drained(s.batches), s.queue, n);
    }
  }

  /**
   * What a tick takes off a queue: as many of the oldest requests as a batch holds, all of them gone whether or not the
   * transaction is built; and nothing if their sum overflows.
   */
  lemma TickDrains(cfg: Config, s: State, built: bool)
    requires !s.aborted
    ensures s.queue == [] ==> Step(cfg, s, Tick(built)) == s
    ensures s.queue != [] ==>
      var t, n := Step(cfg, s, Tick(built)), if cfg.maxPerTx < |s.queue| then cfg.maxPerTx else |s.queue|;
      && (t.aborted <==> Total(s.queue[..n]) > U64_MAX)
      && (t.aborted ==> t == s.(aborted := true))
      && (!t.aborted ==>
            && t.batches == s.batches + [Batch(s.queue[..n], Total(s.queue[..n]), built)]
            && t == s.(queue := s.queue[n..], batches := t.batches))
  {
  }

  /** There is room: what decides whether an arrival is accepted or dropped. */
  predicate HasRoom(cfg: Config, s: State) { !s.aborted && |s.queue| < cfg.maxInFlight }

  lemma ArrivalIsTakenOrDropped(cfg: Config, s: State, p: Payout)
    requires !s.aborted
    ensures var t := Step(cfg, s, Arrival(p));
      && t.batches == s.batches && !t.aborted
      && (t.accepted, t.dropped) ==
         if HasRoom(cfg, s) then (s.accepted + [p], s.dropped) else (s.accepted, s.dropped + [p])
  {
  }

  lemma TickSeesNothing(cfg: Config, s: State, built: bool)
    ensures var t := Step(cfg, s, Tick(built));
      t.accepted == s.accepted && t.dropped == s.dropped && s.batches <= t.batches
  {
    hide Total;
  }

  /** The arrivals of a run that find room, in the order they arrive. */
  function Admitted(cfg: Config, s: State, events: seq<Event>): seq<Payout>
    decreases |events|
  {
    if events == [] then []
    else
      var rest := Admitted(cfg, Step(cfg, s, events[0]), events[1..]);
      if events[0].Arrival? && HasRoom(cfg, s) then [events[0].payout] + rest else rest
  }

  /** The arrivals that find the queue full, in the order they arrive. */
  function Refused(cfg: Config, s: State, events: seq<Event>): seq<Payout>
    decreases |events|
  {
    if events == [] then []
    else
      var rest := Refused(cfg, Step(cfg, s, events[0]), events[1..]);
      if events[0].Arrival? && !s.aborted && !HasRoom(cfg, s) then [events[0].payout] + rest else rest
  }

  /** `all` splits into `a` and `b`, each in the order of `all`. */
  ghost predicate Interleaves(all: seq<Payout>, a: seq<Payout>, b: seq<Payout>) {
    if all == [] then a == [] && b == []
    else
      || (a != [] && a[0] == all[0] && Interleaves(all[1..], a[1..], b))
      || (b != [] && b[0] == all[0] && Interleaves(all[1..], a, b[1..]))
  }

  lemma FrontOfFirst(all: seq<Payout>, a: seq<Payout>, b: seq<Payout>, p: Payout)
    requires Interleaves(all, a, b)
    ensures Interleaves([p] + all, [p] + a, b) && Interleaves([p] + all, a, [p] + b)
  {
    assert ([p] + all)[1..] == all && ([p] + a)[1..] == a && ([p] + b)[1..] == b;
  }

  /** What has arrived is what was admitted and what was refused, both in order; nothing is lost or doubled. */
  lemma {:induction false} ArrivalsInterleave(cfg: Config, s: State, events: seq<Event>)
    requires !Exec(cfg, s, events).aborted
    ensures Interleaves(Arrivals(events), Admitted(cfg, s, events), Refused(cfg, s, events))
    decreases |events|
  {
    if events == [] {
    } else {
      var s', rest := Step(cfg, s, events[0]), events[1..];
      if s.aborted { AbortedStays(cfg, s, events); }
      assert !s.aborted;
      ArrivalsInterleave(cfg, s', rest);
      hide Exec, Step, Interleaves;
      if events[0].Arrival? {
        FrontOfFirst(Arrivals(rest), Admitted(cfg, s', rest), Refused(cfg, s', rest), events[0].payout);
      } else {
        assert Arrivals(events) == Arrivals(rest);
      }
    }
  }

  /**
   * Over every run, from any point of it: order, bounds and totals are kept; the accepted requests are exactly the
   * arrivals that found room, in the order they came, and the dropped ones exactly those that did not.
   */
  lemma {:induction false} FifoConservation(cfg: Config, s: State, events: seq<Event>)
    requires Conserved(cfg, s)
    ensures var t := Exec(cfg, s, events);
      && Conserved(cfg, t) && s.batches <= t.batches
      && t.accepted == s.accepted + Admitted(cfg, s, events)
      && t.dropped == s.dropped + Refused(cfg, s, events)
      && (!t.aborted ==> Interleaves(Arrivals(events), Admitted(cfg, s, events), Refused(cfg, s, events)))
    decreases |events|
  {
    if !Exec(cfg, s, events).aborted { ArrivalsInterleave(cfg, s, events); }
    if events == [] {
    } else {
      var s', rest := Step(cfg, s, events[0]), events[1..];
      StepConserves(cfg, s, events[0]);
      FifoConservation(cfg, s', rest);
      StepAdmits(cfg, s, events[0]);
      hide Conserved, Step, HasRoom, Interleaves;
    }
  }

  lemma StepAdmits(cfg: Config, s: State, e: Event)
    ensures var t := Step(cfg, s, e);
      && s.batches <= t.batches
      && t.accepted == s.accepted + (if e.Arrival? && HasRoom(cfg, s) then [e.payout] else [])
      && t.dropped == s.dropped + (if e.Arrival? && !s.aborted && !HasRoom(cfg, s) then [e.payout] else [])
  {
    if !s.aborted {
      match e {
        case Arrival(p) => ArrivalIsTakenOrDropped(cfg, s, p);
        case Tick(built) => TickSeesNothing(cfg, s, built);
      }
      hide Step;
    }
  }

  lemma {:induction false} AbortedStays(cfg: Config, s: State, events: seq<Event>)
    requires s.aborted
    ensures Exec(cfg, s, events) == s
    decreases |events|
  {
    if events == [] {
    } else {
      AbortedStays(cfg, s, events[1..]);
    }
  }

  // ---------- waiting ----------

  function Ticks(events: seq<Event>): nat {
    if events == [] then 0 else (if events[0].Tick? then 1 else 0) + Ticks(events[1..])
  }

  lemma NextSlice(p: nat, m: nat)
    requires 0 < m <= p
    ensures (p - m) / m == p / m - 1 && (p - m) % m == p % m
  {
    var q, r := p / m, p % m;
    assert p - m == (q - 1) * m + r;
    DivisionUnique(p - m, m, q - 1, r);
  }

  lemma DivisionUnique(n: int, m: nat, q: int, r: nat)
    requires r < m && n == q * m + r
    ensures n / m == q && n % m == r
  {
    var d := n / m - q;
    assert d * m == r - n % m by { assert n == n / m * m + n % m; }
    MultipleInside(d, m);
  }

  lemma MultipleInside(d: int, m: int)
    requires -m < d * m < m
    ensures d == 0
  {
    assert d >= 1 ==> d * m >= m;
    assert d <= -1 ==> d * m <= -m;
  }

  /** Between two states, the `round`-th slice drained holds `p` at place `i`. */
  ghost predicate DrainedIn(s: State, t: State, round: nat, i: nat, p: Payout) {
    && |s.batches| + round < |t.batches|
    && i < |t.batches[|s.batches| + round].requests|
    && t.batches[|s.batches| + round].requests[i] == p
  }

  /** After `ticks` ticks the request at position p is either still waiting or has been drained in its own round. */
  ghost predicate Waited(cfg: Config, s: State, t: State, ticks: nat, p: nat)
    requires cfg.maxPerTx > 0 && p < |s.queue|
  {
    var round := p / cfg.maxPerTx;
    && (ticks <= round ==> |t.batches| == |s.batches| + ticks)
    && (ticks > round ==> DrainedIn(s, t, round, p % cfg.maxPerTx, s.queue[p]))
  }

  lemma WaitedTick(cfg: Config, s: State, built: bool, t: State, ticks: nat, p: nat)
    requires cfg.maxPerTx > 0 && p < |s.queue| && !s.aborted
    requires var u := Step(cfg, s, Tick(built)); !u.aborted && u.batches <= t.batches
    requires p >= cfg.maxPerTx ==> Waited(cfg, Step(cfg, s, Tick(built)), t, ticks, p - cfg.maxPerTx)
    ensures Waited(cfg, s, t, ticks + 1, p)
  {
    hide Total;
    if p < cfg.maxPerTx { DivisionUnique(p, cfg.maxPerTx, 0, p); } else { NextSlice(p, cfg.maxPerTx); }
  }

  /**
   * The exact waiting time: the request at position p is drained on the (p / maxPerTx + 1)-th tick from now, as number
   * p % maxPerTx of its batch, and on no earlier one, whatever arrives in between.
   */
  lemma {:induction false} WaitingTime(cfg: Config, s: State, events: seq<Event>, p: nat)
    requires cfg.maxPerTx > 0 && p < |s.queue| && !Exec(cfg, s, events).aborted
    ensures Waited(cfg, s, Exec(cfg, s, events), Ticks(events), p)
    decreases |events|
  {
    if events == [] {
      WaitedNothing(cfg, s, p);
    } else {
      var s', rest := Step(cfg, s, events[0]), events[1..];
      if s'.aborted { AbortedStays(cfg, s', rest); }
      BatchesGrow(cfg, s', rest);
      var t := Exec(cfg, s', rest);
      assert t == Exec(cfg, s, events);
      hide Waited, Exec, Total;
      if events[0].Arrival? {
        WaitingTime(cfg, s', rest, p);
        WaitedArrival(cfg, s, events[0].payout, t, Ticks(rest), p);
      } else {
        if p >= cfg.maxPerTx { WaitingTime(cfg, s', rest, p - cfg.maxPerTx); }
        WaitedTick(cfg, s, events[0].built, t, Ticks(rest), p);
      }
    }
  }

  lemma WaitedNothing(cfg: Config, s: State, p: nat)
    requires cfg.maxPerTx > 0 && p < |s.queue|
    ensures Waited(cfg, s, s, 0, p)
  {
    assert p / cfg.maxPerTx >= 0;
  }

  lemma WaitedArrival(cfg: Config, s: State, arrived: Payout, t: State, ticks: nat, p: nat)
    requires cfg.maxPerTx > 0 && p < |s.queue| && !s.aborted
    requires Waited(cfg, Step(cfg, s, Arrival(arrived)), t, ticks, p)
    ensures Waited(cfg, s, t, ticks, p)
  {
  }

  lemma {:induction false} BatchesGrow(cfg: Config, s: State, events: seq<Event>)
    ensures s.batches <= Exec(cfg, s, events).batches
    decreases |events|
  {
    if events == [] {
    } else {
      BatchesGrow(cfg, Step(cfg, s, events[0]), events[1..]);
    }
  }

  lemma DrainedGrows(cfg: Config, s: State, e: Event)
    requires !Step(cfg, s, e).aborted
    ensures var n := if e.Tick? then Min(cfg.maxPerTx, |s.queue|) else 0;
      |Drained(Step(cfg, s, e).batches)| == |Drained(s.batches)| + n
  {
    hide Total, Drained;
    if e.Tick? {
      var q := s.queue[..Min(cfg.maxPerTx, |s.queue|)];
      DrainedAppend(s.batches, Batch(q, Total(q), e.built));
    }
  }

  lemma {:induction false} DrainedOnlyGrows(cfg: Config, s: State, events: seq<Event>)
    requires !Exec(cfg, s, events).aborted
    ensures |Drained(Exec(cfg, s, events).batches)| >= |Drained(s.batches)|
    decreases |events|
  {
    if events == [] {
    } else {
      var s', rest := Step(cfg, s, events[0]), events[1..];
      if s'.aborted { AbortedStays(cfg, s', rest); }
      assert !s'.aborted;
      hide Step, Drained;
      DrainedOnlyGrows(cfg, s', rest);
      DrainedGrows(cfg, s, events[0]);
    }
  }

  /** The round a position is drained in, counting from 0. */
  function Round(cfg: Config, p: nat): nat
    requires cfg.maxPerTx > 0
  {
    p / cfg.maxPerTx
  }

  lemma RoundStep(cfg: Config, p: nat)
    requires cfg.maxPerTx > 0
    ensures p < cfg.maxPerTx ==> Round(cfg, p) == 0
    ensures p >= cfg.maxPerTx ==> Round(cfg, p) == Round(cfg, p - cfg.maxPerTx) + 1
  {
    if p < cfg.maxPerTx { DivisionUnique(p, cfg.maxPerTx, 0, p); } else { NextSlice(p, cfg.maxPerTx); }
  }

  /** The request at position p is among the drained ones exactly when p / maxPerTx + 1 ticks have passed. */
  lemma {:induction false} DrainedByTicks(cfg: Config, s: State, events: seq<Event>, p: nat)
    requires cfg.maxPerTx > 0 && p < |s.queue| && !Exec(cfg, s, events).aborted
    ensures |Drained(Exec(cfg, s, events).batches)| > |Drained(s.batches)| + p <==> Ticks(events) > Round(cfg, p)
    decreases |events|
  {
    RoundStep(cfg, p);
    if events == [] {
    } else {
      var s', rest := Step(cfg, s, events[0]), events[1..];
      if s'.aborted { AbortedStays(cfg, s', rest); }
      assert !s'.aborted && Exec(cfg, s', rest) == Exec(cfg, s, events);
      DrainedGrows(cfg, s, events[0]);
      QueueAfter(cfg, s, events[0]);
      TicksFirst(events);
      hide Step, Drained, Exec, Ticks, Round;
      if events[0].Arrival? {
        DrainedByTicks(cfg, s', rest, p);
      } else if p < cfg.maxPerTx {
        DrainedOnlyGrows(cfg, s', rest);
      } else {
        DrainedByTicks(cfg, s', rest, p - cfg.maxPerTx);
      }
    }
  }

  lemma QueueAfter(cfg: Config, s: State, e: Event)
    requires !Step(cfg, s, e).aborted
    ensures e.Arrival? ==> s.queue <= Step(cfg, s, e).queue
    ensures e.Tick? ==> Step(cfg, s, e).queue == s.queue[Min(cfg.maxPerTx, |s.queue|)..]
  {
    hide Total;
  }

  // ---------- runs in pieces ----------

  lemma {:induction false} ExecAppend(cfg: Config, s: State, a: seq<Event>, b: seq<Event>)
    ensures Exec(cfg, s, a + b) == Exec(cfg, Exec(cfg, s, a), b)
    decreases |a|
  {
    if a == [] {
      assert a + b == b;
    } else {
      assert (a + b)[1..] == a[1..] + b;
      hide Step;
      ExecAppend(cfg, Step(cfg, s, a[0]), a[1..], b);
    }
  }

  lemma {:induction false} ArrivalsAppend(a: seq<Event>, b: seq<Event>)
    ensures Arrivals(a + b) == Arrivals(a) + Arrivals(b)
  {
    if a == [] {
      assert a + b == b;
    } else {
      ArrivalsFirst(a);
      ArrivalsFirst(a + b);
      assert (a + b)[1..] == a[1..] + b;
      ArrivalsAppend(a[1..], b);
      hide Arrivals;
      Regroup(if a[0].Arrival? then [a[0].payout] else [], Arrivals(a[1..]), Arrivals(b));
    }
  }

  lemma Regroup(a: seq<Payout>, b: seq<Payout>, c: seq<Payout>)
    ensures a + b + c == a + (b + c)
  {
  }

  lemma ArrivalsFirst(a: seq<Event>)
    requires a != []
    ensures Arrivals(a) == (if a[0].Arrival? then [a[0].payout] else []) + Arrivals(a[1..])
  {
  }

  lemma {:induction false} TicksAppend(a: seq<Event>, b: seq<Event>)
    ensures Ticks(a + b) == Ticks(a) + Ticks(b)
  {
    if a == [] {
      assert a + b == b;
    } else {
      TicksFirst(a);
      TicksFirst(a + b);
      assert (a + b)[1..] == a[1..] + b;
      TicksAppend(a[1..], b);
      hide Ticks;
    }
  }

  lemma TicksFirst(a: seq<Event>)
    requires a != []
    ensures Ticks(a) == (if a[0].Tick? then 1 else 0) + Ticks(a[1..])
  {
  }

  /** Ticks that drain a full queue: maxInFlight / maxPerTx, rounded up. */
  function Rounds(cfg: Config): nat
    requires cfg.maxPerTx > 0
  {
    (cfg.maxInFlight + cfg.maxPerTx - 1) / cfg.maxPerTx
  }

  /** No accepted request waits longer than a full queue takes to drain. */
  lemma WaitIsBounded(cfg: Config, s: State, p: Payout, events: seq<Event>)
    requires cfg.maxPerTx > 0 && !s.aborted && |s.queue| < cfg.maxInFlight
    requires !Exec(cfg, Step(cfg, s, Arrival(p)), events).aborted && Ticks(events) >= Rounds(cfg)
    ensures |s.queue| / cfg.maxPerTx < Rounds(cfg)
    ensures var t := Exec(cfg, Step(cfg, s, Arrival(p)), events);
      DrainedIn(s, t, |s.queue| / cfg.maxPerTx, |s.queue| % cfg.maxPerTx, p)
  {
    hide Exec, Ticks, DrainedIn, Rounds;
    var t, n := Step(cfg, s, Arrival(p)), |s.queue|;
    RoundsBelow(cfg, n);
    WaitingTime(cfg, t, events, n);
    assert t.queue[n] == p;
    SameBatches(s, t, Exec(cfg, t, events), n / cfg.maxPerTx, n % cfg.maxPerTx, p);
  }

  lemma SameBatches(s: State, t: State, u: State, round: nat, i: nat, p: Payout)
    requires s.batches == t.batches && DrainedIn(t, u, round, i, p)
    ensures DrainedIn(s, u, round, i, p)
  {
  }

  lemma RoundsBelow(cfg: Config, p: nat)
    requires p < cfg.maxInFlight && cfg.maxPerTx > 0
    ensures p / cfg.maxPerTx < Rounds(cfg)
  {
    var m, q := cfg.maxPerTx, cfg.maxInFlight;
    var a, b := p / m, Rounds(cfg);
    assert a * m <= p by { assert p == a * m + p % m; }
    assert q <= b * m by { assert q + m - 1 == b * m + (q + m - 1) % m; }
    FewerMultiples(a, b, m);
  }

  lemma RoundIsBelow(cfg: Config, p: nat)
    requires p < cfg.maxInFlight && cfg.maxPerTx > 0
    ensures Round(cfg, p) < Rounds(cfg)
  {
    RoundsBelow(cfg, p);
    hide Rounds;
  }

  lemma FewerMultiples(a: int, b: int, m: nat)
    requires a * m < b * m
    ensures a < b
  {
    assert b <= a ==> b * m <= a * m;
  }

  /** With slices of size zero every tick makes an empty batch and no request ever leaves. */
  lemma {:induction false} EmptySlicesDrainNothing(cfg: Config, s: State, events: seq<Event>)
    requires cfg.maxPerTx == 0
    ensures var t := Exec(cfg, s, events);
      s.queue <= t.queue && s.batches <= t.batches && Drained(t.batches) == Drained(s.batches)
    decreases |events|
  {
    if events == [] {
    } else {
      var s' := Step(cfg, s, events[0]);
      assert s'.batches != s.batches ==> s'.batches[..|s.batches|] == s.batches;
      EmptySlicesDrainNothing(cfg, s', events[1..]);
    }
  }

  // ---------- totals ----------

  lemma {:induction false} TotalBounded(requests: seq<Payout>, cap: nat)
    requires forall p :: p in requests ==> p.amount <= cap
    ensures Total(requests) <= |requests| * cap
  {
    if requests == [] {
    } else {
      var n := |requests| - 1;
      TotalBounded(requests[..n], cap);
      assert (n + 1) * cap == n * cap + cap;
    }
  }

  lemma {:induction false} TotalOfEqual(requests: seq<Payout>, amount: nat)
    requires forall p :: p in requests ==> p.amount == amount
    ensures Total(requests) == |requests| * amount
  {
    if requests == [] {
    } else {
      var n := |requests| - 1;
      TotalOfEqual(requests[..n], amount);
      assert (n + 1) * amount == n * amount + amount;
    }
  }

  lemma {:induction false} TotalOfPrefix(requests: seq<Payout>, n: nat)
    requires n <= |requests|
    ensures Total(requests[..n]) <= Total(requests)
  {
    if n < |requests| {
      TotalOfPrefix(requests[..|requests| - 1], n);
      assert requests[..|requests| - 1][..n] == requests[..n];
    } else {
      assert requests[..n] == requests;
    }
  }

  /** The sum of the totals of all batches. */
  function Spent(batches: seq<Batch>): nat {
    if batches == [] then 0 else Spent(batches[..|batches| - 1]) + batches[|batches| - 1].total
  }

  lemma {:induction false} TotalConcat(a: seq<Payout>, b: seq<Payout>)
    ensures Total(a + b) == Total(a) + Total(b)
  {
    if b == [] {
      assert a + b == a;
    } else {
      assert (a + b)[..|a + b| - 1] == a + b[..|b| - 1];
      TotalConcat(a, b[..|b| - 1]);
    }
  }

  /** The totals of the batches add up to the amounts of the drained requests. */
  lemma {:induction false} SpentIsDrained(cfg: Config, batches: seq<Batch>)
    requires forall i :: 0 <= i < |batches| ==> BatchOk(cfg, batches[i])
    ensures Spent(batches) == Total(Drained(batches))
  {
    if batches == [] {
    } else {
      var n := |batches| - 1;
      SpentIsDrained(cfg, batches[..n]);
      TotalConcat(Drained(batches[..n]), batches[n].requests);
    }
  }

  lemma TotalAppend(requests: seq<Payout>, p: Payout)
    ensures Total([]) == 0 && Total(requests + [p]) == Total(requests) + p.amount
  {
    assert (requests + [p])[..|requests|] == requests;
  }

  lemma OneMore(requests: seq<Payout>, n: nat)
    requires n < |requests|
    ensures requests[..n] + [requests[n]] == requests[..n + 1]
    ensures Total([]) == 0
    ensures Total(requests[..n + 1]) == Total(requests[..n]) + requests[n].amount <= Total(requests)
  {
    hide Total;
    assert requests[..n] + [requests[n]] == requests[..n + 1];
    TotalAppend(requests[..n], requests[n]);
    TotalOfPrefix(requests, n + 1);
  }

  ghost predicate Capped(events: seq<Event>, cap: nat) {
    forall e :: e in events && e.Arrival? ==> e.payout.amount <= cap
  }

  /** What a slice can come to at most when every amount is at most `cap`. */
  function FullSlice(cfg: Config, cap: nat): nat { Min(cfg.maxPerTx, cfg.maxInFlight) * cap }

  /** A tick on a queue of capped amounts does not overflow. */
  lemma SliceFits(cfg: Config, s: State, built: bool, cap: nat)
    requires FullSlice(cfg, cap) <= U64_MAX && !s.aborted && |s.queue| <= cfg.maxInFlight
    requires forall p :: p in s.queue ==> p.amount <= cap
    ensures !Step(cfg, s, Tick(built)).aborted
  {
    var n := Min(cfg.maxPerTx, |s.queue|);
    TotalBounded(s.queue[..n], cap);
    ProductMonotone(n, Min(cfg.maxPerTx, cfg.maxInFlight), cap);
  }

  lemma {:induction false} CappedNeverAborts(cfg: Config, s: State, events: seq<Event>, cap: nat)
    requires FullSlice(cfg, cap) <= U64_MAX
    requires Capped(events, cap) && !s.aborted && |s.queue| <= cfg.maxInFlight
    requires forall p :: p in s.queue ==> p.amount <= cap
    ensures !Exec(cfg, s, events).aborted
    decreases |events|
  {
    if events == [] {
    } else {
      hide FullSlice, Total;
      if events[0].Tick? { SliceFits(cfg, s, events[0].built, cap); }
      assert events[0] in events;
      assert Capped(events[1..], cap);
      CappedNeverAborts(cfg, Step(cfg, s, events[0]), events[1..], cap);
    }
  }

  function Repeat(p: Payout, n: nat): (events: seq<Event>)
    ensures |events| == n && forall e :: e in events ==> e == Arrival(p)
  {
    seq(n, _ => Arrival(p))
  }

  /** `n` copies of a payout have arrived and been accepted. */
  function Filled(s: State, p: Payout, n: nat): State {
    s.(queue := s.queue + seq(n, _ => p), accepted := s.accepted + seq(n, _ => p))
  }

  lemma {:induction false} Fill(cfg: Config, s: State, p: Payout, n: nat)
    requires !s.aborted && |s.queue| + n <= cfg.maxInFlight
    ensures Exec(cfg, s, Repeat(p, n) + [Tick(true)]) == Step(cfg, Filled(s, p, n), Tick(true))
    decreases n
  {
    var events := Repeat(p, n) + [Tick(true)];
    if n == 0 {
      assert events[1..] == [];
      assert Filled(s, p, n) == s;
    } else {
      assert events[1..] == Repeat(p, n - 1) + [Tick(true)];
      assert [p] + seq(n - 1, _ => p) == seq(n, _ => p);
      assert s.queue + [p] + seq(n - 1, _ => p) == s.queue + seq(n, _ => p);
      assert s.accepted + [p] + seq(n - 1, _ => p) == s.accepted + seq(n, _ => p);
      Fill(cfg, Step(cfg, s, Arrival(p)), p, n - 1);
    }
  }

  /** When a full slice of the cap does not fit, as many arrivals of it and a tick overflow. */
  lemma FullSliceOverflows(cfg: Config, cap: U64) returns (events: seq<Event>)
    requires FullSlice(cfg, cap) > U64_MAX
    ensures Capped(events, cap) && Exec(cfg, Init(), events).aborted
  {
    var n, p := Min(cfg.maxPerTx, cfg.maxInFlight), Payout([], cap, 0);
    var full := seq(n, _ => p);
    events := Repeat(p, n) + [Tick(true)];
    Fill(cfg, Init(), p, n);
    TotalOfEqual(full, cap);
    hide Exec, Total;
    assert [] + full == full && full[..n] == full;
  }

  /** A cap on the amounts rules the overflow out, over every run, exactly when a full slice of it fits in a `u64`. */
  lemma NeverOverflowsIff(cfg: Config, cap: U64)
    ensures (forall events :: Capped(events, cap) ==> !Exec(cfg, Init(), events).aborted)
       <==> FullSlice(cfg, cap) <= U64_MAX
  {
    hide Exec, Capped, FullSlice;
    if FullSlice(cfg, cap) <= U64_MAX {
      forall events | Capped(events, cap) ensures !Exec(cfg, Init(), events).aborted {
        CappedNeverAborts(cfg, Init(), events, cap);
      }
    } else {
      var events := FullSliceOverflows(cfg, cap);
    }
  }

  /** The settings' cap on a claim: the largest amount whose value in wei fits in a `u64`. */
  const MAX_SATS_PER_CLAIM: U64 := U64_MAX / 10_000_000_000

  /** With that cap the total cannot overflow unless both limits exceed ten thousand million and two. */
  lemma SettingsNeverOverflow(cfg: Config)
    ensures (forall events :: Capped(events, MAX_SATS_PER_CLAIM) ==> !Exec(cfg, Init(), events).aborted)
       <==> Min(cfg.maxPerTx, cfg.maxInFlight) <= 10_000_000_002
  {
    hide Exec, Capped, FullSlice;
    NeverOverflowsIff(cfg, MAX_SATS_PER_CLAIM);
    FullSliceOfCap(cfg);
  }

  lemma FullSliceOfCap(cfg: Config)
    ensures FullSlice(cfg, MAX_SATS_PER_CLAIM) <= U64_MAX <==> Min(cfg.maxPerTx, cfg.maxInFlight) <= 10_000_000_002
  {
    assert MAX_SATS_PER_CLAIM == 1_844_674_407;
  }

  // ---------- the task and its handle ----------

  datatype QueueResult = Queued | BatcherNotStarted | BatcherNotAvailable

  class Batcher {
    const cfg: Config
    var started: bool
    /** Sent by the request handlers and not yet received by the task. */
    var channel: seq<Payout>
    var queue: seq<Payout>
    var aborted: bool
    ghost var accepted: seq<Payout>
    ghost var dropped: seq<Payout>
    ghost var batches: seq<Batch>

    ghost function View(): State
      reads this
    {
      State(queue, accepted, dropped, batches, aborted)
    }

    constructor (cfg: Config)
      ensures this.cfg == cfg && !started && channel == [] && View() == Init()
    {
      this.cfg, started, channel, queue, aborted := cfg, false, [], [], false;
      accepted, dropped, batches := [], [], [];
    }

    method Start()
      requires !started
      modifies this`started
      ensures started
    {
      started := true;
    }

    /** Sending fails only once the task, and with it the receiver, is gone. */
    method QueuePayoutRequest(p: Payout, receiverAlive: bool) returns (r: QueueResult)
      modifies this`channel
      ensures r == if !started then BatcherNotStarted else if !receiverAlive then BatcherNotAvailable else Queued
      ensures channel == if r.Queued? then old(channel) + [p] else old(channel)
    {
      if !started {
        return BatcherNotStarted;
      }
      if !receiverAlive {
        return BatcherNotAvailable;
      }
      channel := channel + [p];
      r := Queued;
    }

    method OnReceive()
      requires channel != [] && !aborted
      modifies this
      ensures View() == Step(cfg, old(View()), Arrival(old(channel[0])))
      ensures channel == old(channel)[1..] && started == old(started)
    {
      var req := channel[0];
      channel := channel[1..];
      if |queue| < cfg.maxInFlight {
        queue, accepted := queue + [req], accepted + [req];
      } else {
        dropped := dropped + [req];
      }
    }

    /** `finishes` is the wallet's answer when asked to finish the transaction. */
    method OnTick(finishes: bool) returns (sent: Option<Batch>)
      requires !aborted
      modifies this
      ensures View() == Step(cfg, old(View()), Tick(finishes))
      ensures sent == if |batches| > old(|batches|) && finishes then Some(batches[|batches| - 1]) else None
      ensures channel == old(channel) && started == old(started)
    {
      sent := None;
      if queue == [] {
        return;
      }
      var numToDequeue := if cfg.maxPerTx < |queue| then cfg.maxPerTx else |queue|;
      ghost var front := queue[..numToDequeue];
      var recipients: seq<Payout>, totalSent := [], 0;
      assert Total(recipients) == 0;
      hide Total;
      while |recipients| < numToDequeue
        invariant |recipients| <= numToDequeue && recipients == front[..|recipients|]
        invariant totalSent == Total(recipients) <= U64_MAX
        invariant queue == old(queue) && View() == old(View()) && channel == old(channel) && started == old(started)
        decreases numToDequeue - |recipients|
      {
        var req := queue[|recipients|];
        OneMore(front, |recipients|);
        recipients := recipients + [req];
        if totalSent + req.amount > U64_MAX {
          aborted := true;
          return;
        }
        totalSent := totalSent + req.amount;
      }
      assert recipients == front;
      queue := queue[numToDequeue..];
      var batch := Batch(recipients, totalSent, finishes);
      batches := batches + [batch];
      if finishes {
        sent := Some(batch);
      }
    }
  }
}
