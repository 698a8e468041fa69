/**
 * What a run does to the map, as a log of installs, claims and evictions, and what every log that a run can
 * produce implies: at most one claim an install, and a bound on the rate of claims.
 */
module History {
  import opened Challenges

  datatype Event =
    | Install(key: Key, install: nat, at: Instant, expiresAt: Instant)
    | Claim(key: Key, install: nat, at: Instant, call: nat)
    | Evict(key: Key, install: nat, at: Instant)

  /** The state of one key: what a log leaves of it. */
  datatype Life = Absent | Present(install: nat, at: Instant, expiresAt: Instant, claimed: bool)

  type Log = seq<Event>

  function LifeStep(life: Life, e: Event): Life {
    match e
    case Install(_, i, at, exp) => Present(i, at, exp, false)
    case Claim(_, _, _, _) => if life.Present? then life.(claimed := true) else Absent
    case Evict(_, _, _) => Absent
  }

  function LifeAfter(log: Log, k: Key): Life {
    if log == [] then Absent
    else
      var e, before := log[|log| - 1], LifeAfter(log[..|log| - 1], k);
      if e.key == k then LifeStep(before, e) else before
  }

  function InstallCount(log: Log): nat {
    if log == [] then 0 else InstallCount(log[..|log| - 1]) + (if log[|log| - 1].Install? then 1 else 0)
  }

  /** An install needs an absent key, a claim an unclaimed install, an eviction an expired one. */
  ghost predicate Legal(life: Life, e: Event) {
    match e
    case Install(_, _, _, _) => life.Absent?
    case Claim(_, i, _, _) => life.Present? && life.install == i && !life.claimed
    case Evict(_, i, at) => life.Present? && life.install == i && at >= life.expiresAt
  }

  ghost predicate WellFormed(log: Log) {
    log == [] ||
    var front, e := log[..|log| - 1], log[|log| - 1];
    && WellFormed(front)
    && Legal(LifeAfter(front, e.key), e)
    && (front != [] ==> front[|front| - 1].at <= e.at)
    && (e.Install? ==> e.install == InstallCount(front))
  }

  function TimeOf(log: Log): Instant { if log == [] then 0 else log[|log| - 1].at }

  /** A log extended by one legal event. */
  lemma Extended(log: Log, e: Event, k: Key)
    requires WellFormed(log) && Legal(LifeAfter(log, e.key), e) && TimeOf(log) <= e.at
    requires e.Install? ==> e.install == InstallCount(log)
    ensures WellFormed(log + [e]) && TimeOf(log + [e]) == e.at
    ensures LifeAfter(log + [e], k) == if e.key == k then LifeStep(LifeAfter(log, k), e) else LifeAfter(log, k)
    ensures InstallCount(log + [e]) == InstallCount(log) + if e.Install? then 1 else 0
    ensures ClaimedIds(log + [e]) == ClaimedIds(log) + if e.Claim? then {e.install} else {}
  {
    assert (log + [e])[..|log|] == log;
  }

  // ---------- one claim an install ----------

  function ClaimedIds(log: Log): set<nat> {
    if log == [] then {}
    else ClaimedIds(log[..|log| - 1]) + (if log[|log| - 1].Claim? then {log[|log| - 1].install} else {})
  }

  lemma {:induction false} ClaimedIdsAre(log: Log, id: nat)
    ensures id in ClaimedIds(log) <==> exists i :: 0 <= i < |log| && log[i].Claim? && log[i].install == id
  {
    if log == [] {
    } else {
      var n := |log| - 1;
      ClaimedIdsAre(log[..n], id);
      if id in ClaimedIds(log[..n]) {
        var i :| 0 <= i < n && log[..n][i].Claim? && log[..n][i].install == id;
        assert log[i].Claim? && log[i].install == id;
      }
      if i :| 0 <= i < |log| && log[i].Claim? && log[i].install == id {
        if i < n { assert log[..n][i].Claim?; }
      }
    }
  }

  /**
   * What is present after a log: an id below the count, unclaimed exactly when the log holds no claim of it, and no
   * other key has it.
   */
  lemma {:induction false} PresentIds(log: Log, k: Key)
    requires WellFormed(log)
    ensures forall id :: id in ClaimedIds(log) ==> id < InstallCount(log)
    ensures var life := LifeAfter(log, k); life.Present? ==>
      && life.install < InstallCount(log)
      && (life.claimed <==> life.install in ClaimedIds(log))
      && forall k' :: k' != k && LifeAfter(log, k').Present? ==> LifeAfter(log, k').install != life.install
  {
    if log == [] {
    } else {
      var front, e := log[..|log| - 1], log[|log| - 1];
      PresentIds(front, k);
      PresentIds(front, e.key);
      forall k' | k' != k && LifeAfter(log, k').Present? && LifeAfter(log, k).Present?
        ensures LifeAfter(log, k').install != LifeAfter(log, k).install
      {
        PresentIds(front, k');
      }
    }
  }

  /** No install is claimed twice, whoever claims it. */
  lemma {:induction false} OneClaimPerInstall(log: Log, i: nat, j: nat)
    requires WellFormed(log) && i < j < |log| && log[i].Claim? && log[j].Claim?
    ensures log[i].install != log[j].install
  {
    var front := log[..|log| - 1];
    if j < |front| {
      OneClaimPerInstall(front, i, j);
    } else {
      PresentIds(front, log[j].key);
      assert front[i] == log[i];
      ClaimedIdsAre(front, log[i].install);
    }
  }

  function Installs(log: Log, k: Key): nat {
    if log == [] then 0
    else Installs(log[..|log| - 1], k) + (if log[|log| - 1].Install? && log[|log| - 1].key == k then 1 else 0)
  }

  function Claims(log: Log, k: Key): nat {
    if log == [] then 0
    else Claims(log[..|log| - 1], k) + (if log[|log| - 1].Claim? && log[|log| - 1].key == k then 1 else 0)
  }

  /** The positions in a log of a key's installs, and of its claims. */
  ghost function InstallsAt(log: Log, k: Key): set<nat> {
    set i: nat | i < |log| && log[i].Install? && log[i].key == k
  }

  ghost function ClaimsAt(log: Log, k: Key): set<nat> {
    set i: nat | i < |log| && log[i].Claim? && log[i].key == k
  }

  lemma PositionsAppend(log: Log, k: Key)
    requires log != []
    ensures var n := |log| - 1;
      && InstallsAt(log, k) == InstallsAt(log[..n], k) + (if log[n].Install? && log[n].key == k then {n} else {})
      && ClaimsAt(log, k) == ClaimsAt(log[..n], k) + if log[n].Claim? && log[n].key == k then {n} else {}
  {
  }

  /** The counts are of those positions. */
  lemma {:induction false} CountsArePositions(log: Log, k: Key)
    ensures Installs(log, k) == |InstallsAt(log, k)| && Claims(log, k) == |ClaimsAt(log, k)|
  {
    if log == [] {
      assert InstallsAt(log, k) == {} && ClaimsAt(log, k) == {};
    } else {
      var n := |log| - 1;
      CountsArePositions(log[..n], k);
      PositionsAppend(log, k);
      assert n !in InstallsAt(log[..n], k) && n !in ClaimsAt(log[..n], k);
      hide InstallsAt, ClaimsAt;
    }
  }

  /** Successful claims on a key never exceed its installs; an unclaimed present challenge leaves one to spare. */
  lemma {:induction false} ClaimsNeverExceedInstalls(log: Log, k: Key)
    requires WellFormed(log)
    ensures Claims(log, k) <= Installs(log, k)
    ensures var life := LifeAfter(log, k); life.Present? && !life.claimed ==> Claims(log, k) < Installs(log, k)
  {
    if log == [] {
    } else {
      ClaimsNeverExceedInstalls(log[..|log| - 1], k);
    }
  }

  /** The installs claimed on one key. */
  function ClaimedOn(log: Log, k: Key): set<nat> {
    if log == [] then {}
    else
      var e := log[|log| - 1];
      ClaimedOn(log[..|log| - 1], k) + (if e.Claim? && e.key == k then {e.install} else {})
  }

  lemma {:induction false} ClaimedOnIsCounted(log: Log, k: Key)
    ensures |ClaimedOn(log, k)| <= Claims(log, k)
  {
    if log == [] {
    } else {
      ClaimedOnIsCounted(log[..|log| - 1], k);
    }
  }

  lemma {:induction false} ClaimIsOn(log: Log, k: Key, i: nat)
    requires i < |log| && log[i].Claim? && log[i].key == k
    ensures log[i].install in ClaimedOn(log, k)
  {
    if i == |log| - 1 {
    } else {
      ClaimIsOn(log[..|log| - 1], k, i);
    }
  }

  // ---------- between two moments ----------

  /** If an unclaimed install is later gone or claimed, the log in between holds its claim or its eviction. */
  lemma {:induction false} EndedInBetween(log: Log, n: nat, k: Key) returns (i: nat)
    requires n <= |log|
    requires LifeAfter(log[..n], k).Present? && !LifeAfter(log[..n], k).claimed
    requires WellFormed(log)
    requires var was, life := LifeAfter(log[..n], k), LifeAfter(log, k);
      life.Absent? || life.install != was.install || life.claimed
    ensures n <= i < |log| && log[i].key == k && log[i].install == LifeAfter(log[..n], k).install
    ensures log[i].Claim? || log[i].Evict?
  {
    assert log[..|log|] == log;
    var front, e := log[..|log| - 1], log[|log| - 1];
    assert front[..n] == log[..n];
    var was, before := LifeAfter(front[..n], k), LifeAfter(front, k);
    if before.Absent? || before.install != was.install || before.claimed {
      i := EndedInBetween(front, n, k);
    } else {
      i := |log| - 1;
    }
  }

  ghost predicate ClaimedSince(log: Log, k: Key, from: nat) {
    exists i :: from <= i < |log| && log[i].Claim? && log[i].key == k
  }

  /** If an unclaimed install is followed by a claimed one, the log in between holds a claim on the key. */
  lemma {:induction false} ClaimedInBetween(log: Log, n: nat, k: Key)
    requires n <= |log|
    requires LifeAfter(log[..n], k).Present? ==> !LifeAfter(log[..n], k).claimed
    requires LifeAfter(log, k).Present? && LifeAfter(log, k).claimed
    ensures ClaimedSince(log, k, n)
  {
    assert log[..|log|] == log;
    var front, e := log[..|log| - 1], log[|log| - 1];
    assert front[..n] == log[..n];
    if e.Claim? && e.key == k {
      assert log[|log| - 1].Claim?;
    } else {
      ClaimedInBetween(front, n, k);
      var i :| n <= i < |front| && front[i].Claim? && front[i].key == k;
      assert log[i] == front[i];
    }
  }

  // ---------- the rate of claims ----------

  /** Every challenge of the key is installed with at least `life` left to live. */
  ghost predicate LongLived(log: Log, k: Key, life: nat) {
    forall i :: 0 <= i < |log| && log[i].Install? && log[i].key == k ==> log[i].expiresAt >= log[i].at + life
  }

  /** Claims on a key at positions `from` and later. */
  function ClaimsFrom(log: Log, k: Key, from: nat): nat {
    if |log| <= from then 0
    else ClaimsFrom(log[..|log| - 1], k, from) + (if log[|log| - 1].Claim? && log[|log| - 1].key == k then 1 else 0)
  }

  /** The claims from a position on are those that are not before it. */
  lemma {:induction false} ClaimsSplit(log: Log, k: Key, from: nat)
    requires from <= |log|
    ensures Claims(log, k) == Claims(log[..from], k) + ClaimsFrom(log, k, from)
  {
    if |log| == from {
      assert log[..from] == log;
    } else {
      ClaimsSplit(log[..|log| - 1], k, from);
      assert log[..|log| - 1][..from] == log[..from];
    }
  }

  /** How late the present state must be once `n` claims have been seen since time `start`. */
  ghost predicate Paced(life: Life, now: Instant, start: Instant, n: nat, d: nat) {
    && now >= start
    && (n >= 1 && life.Absent? ==> now >= start + (n - 1) * d)
    && (n >= 1 && life.Present? && !life.claimed ==> life.at >= start + (n - 1) * d)
    && (n >= 2 && life.Present? && life.claimed ==> life.at >= start + (n - 2) * d)
    && (life.Present? ==> now >= life.at && life.expiresAt >= life.at + d)
  }

  lemma PacedStep(life: Life, now: Instant, start: Instant, n: nat, d: nat, e: Event)
    requires Paced(life, now, start, n, d) && Legal(life, e) && e.at >= now
    requires e.Install? ==> e.expiresAt >= e.at + d
    ensures Paced(LifeStep(life, e), e.at, start, if e.Claim? then n + 1 else n, d)
  {
    if n >= 2 { assert (n - 1) * d == (n - 2) * d + d; }
    assert (n + 1 - 2) * d == (n - 1) * d;
    if n == 1 { assert (n - 1) * d == 0; }
  }

  /** Before the window opens nothing is known but that the present challenge is long-lived. */
  lemma {:induction false} PresentIsLongLived(log: Log, k: Key, d: nat)
    requires WellFormed(log) && LongLived(log, k, d)
    ensures var life := LifeAfter(log, k); life.Present? ==> TimeOf(log) >= life.at && life.expiresAt >= life.at + d
  {
    if log == [] {
    } else {
      var front := log[..|log| - 1];
      assert forall i :: 0 <= i < |front| ==> front[i] == log[i];
      PresentIsLongLived(front, k, d);
    }
  }

  lemma {:induction false} PacedRun(log: Log, k: Key, from: nat, d: nat)
    requires WellFormed(log) && LongLived(log, k, d) && from < |log|
    ensures Paced(LifeAfter(log, k), log[|log| - 1].at, log[from].at, ClaimsFrom(log, k, from), d)
  {
    var n := |log| - 1;
    var front, e := log[..n], log[n];
    FrontIsLongLived(log, k, d);
    OneMore(log, k, from);
    if from == n {
      PresentIsLongLived(front, k, d);
      assert ClaimsFrom(front, k, from) == 0;
      hide WellFormed, LongLived, LifeAfter, ClaimsFrom, Legal;
      PacedAtStart(LifeAfter(front, k), TimeOf(front), e.at, d);
      if e.key == k { PacedStep(LifeAfter(front, k), e.at, e.at, 0, d, e); }
    } else {
      PacedRun(front, k, from, d);
      assert log[from] == front[from];
      hide WellFormed, LongLived, LifeAfter, ClaimsFrom, Legal;
      if e.key == k {
        PacedStep(LifeAfter(front, k), front[n - 1].at, log[from].at, ClaimsFrom(front, k, from), d, e);
      } else {
        PacedLater(LifeAfter(front, k), front[n - 1].at, log[from].at, ClaimsFrom(front, k, from), d, e.at);
      }
    }
  }

  lemma FrontIsLongLived(log: Log, k: Key, d: nat)
    requires log != [] && LongLived(log, k, d)
    ensures LongLived(log[..|log| - 1], k, d)
    ensures var e := log[|log| - 1]; e.Install? && e.key == k ==> e.expiresAt >= e.at + d
  {
    assert forall i :: 0 <= i < |log| - 1 ==> log[..|log| - 1][i] == log[i];
  }

  /** What the last event of a log does to one key and to its claims. */
  lemma OneMore(log: Log, k: Key, from: nat)
    requires WellFormed(log) && from < |log|
    ensures var front, e := log[..|log| - 1], log[|log| - 1];
      && WellFormed(front) && Legal(LifeAfter(front, e.key), e) && TimeOf(front) <= e.at
      && LifeAfter(log, k) == (if e.key == k then LifeStep(LifeAfter(front, k), e) else LifeAfter(front, k))
      && ClaimsFrom(log, k, from) == ClaimsFrom(front, k, from) + if e.Claim? && e.key == k then 1 else 0
  {
  }

  lemma PacedAtStart(life: Life, now: Instant, start: Instant, d: nat)
    requires now <= start && (life.Present? ==> now >= life.at && life.expiresAt >= life.at + d)
    ensures Paced(life, start, start, 0, d)
  {
  }

  lemma PacedLater(life: Life, now: Instant, start: Instant, n: nat, d: nat, later: Instant)
    requires Paced(life, now, start, n, d) && now <= later
    ensures Paced(life, later, start, n, d)
  {
  }

  /** n claims within a window are at least n - 2 challenge lives: (n - 2) * d <= window. */
  predicate FitsWindow(n: nat, d: nat, window: nat) { (n - 2) * d <= window }

  /**
   * n claims on one key between two events of a run are at least (n - 2) challenge lives apart: in any window of
   * length W, (n - 2) * d <= W.
   */
  lemma RateBound(log: Log, k: Key, from: nat, d: nat, window: nat)
    requires WellFormed(log) && LongLived(log, k, d) && from < |log|
    requires log[|log| - 1].at - log[from].at <= window
    ensures FitsWindow(ClaimsFrom(log, k, from), d, window)
  {
    PacedRun(log, k, from, d);
    PacedGap(LifeAfter(log, k), log[|log| - 1].at, log[from].at, ClaimsFrom(log, k, from), d);
  }

  lemma PacedGap(life: Life, now: Instant, start: Instant, n: nat, d: nat)
    requires Paced(life, now, start, n, d)
    ensures (n - 2) * d <= now - start
  {
    if n >= 2 {
      assert (n - 1) * d == (n - 2) * d + d;
    } else {
      assert (2 - n) * d >= 0;
    }
  }

  /** From the start of a run the bound is one life tighter: at most T / d + 1 claims by time T. */
  lemma {:induction false} RateFromStart(log: Log, k: Key, d: nat)
    requires WellFormed(log) && LongLived(log, k, d)
    ensures Claims(log, k) >= 1 ==> (Claims(log, k) - 1) * d <= TimeOf(log)
    ensures var n, life := Claims(log, k), LifeAfter(log, k);
      && (life.Absent? ==> n * d <= TimeOf(log))
      && (life.Present? && !life.claimed ==> n * d <= life.at)
      && (life.Present? && life.claimed ==> n >= 1 && (n - 1) * d <= life.at)
  {
    if log == [] {
    } else {
      var front, e := log[..|log| - 1], log[|log| - 1];
      assert forall i :: 0 <= i < |front| ==> front[i] == log[i];
      RateFromStart(front, k, d);
      PresentIsLongLived(front, k, d);
      var n := Claims(front, k);
      assert n * d == (n - 1) * d + d;
      assert (n + 1 - 1) * d == n * d;
    }
  }

  lemma AtMostOnePerLife(log: Log, k: Key, d: nat)
    requires WellFormed(log) && LongLived(log, k, d) && d > 0
    ensures Claims(log, k) <= TimeOf(log) / d + 1
  {
    RateFromStart(log, k, d);
    var n, t := Claims(log, k), TimeOf(log);
    if n >= 1 {
      DivisionBound(n - 1, d, t);
    }
  }

  lemma DivisionBound(n: nat, d: nat, t: nat)
    requires d > 0 && n * d <= t
    ensures n <= t / d
  {
    var q := t / d;
    assert t == q * d + t % d && (q + 1) * d == q * d + d;
    assert n >= q + 1 ==> n * d >= (q + 1) * d;
  }
}
