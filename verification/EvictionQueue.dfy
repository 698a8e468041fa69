/** The eviction queue: a heap of expiry entries and the wakeup time it publishes. */
module EvictionQueue {
  import opened Bytes
  import opened Challenges

  /** One entry; `install` is history and names the install the entry was pushed for. */
  datatype EvictionEntry = EvictionEntry(key: Key, expiresAt: Instant, install: nat)

  /** `a >= b` in the inverted order that turns the library's max-heap into a min-heap on expiry. */
  predicate AtLeast(a: EvictionEntry, b: EvictionEntry) {
    a.expiresAt <= b.expiresAt
  }

  /** Whole milliseconds, cast to `u64`. */
  function Millis(t: Instant): nat {
    t / 1_000_000 % 0x1_0000_0000_0000_0000
  }

  /** 10000 years after the start: where the wakeup time rests while the heap is empty. */
  const FAR: Instant := 60 * 60 * 24 * 365 * 10_000 * 1_000_000_000

  function Wakeup(next: Option<Instant>): Instant {
    if next.Some? then next.value else FAR
  }

  /** The published time is in whole milliseconds, rounded down, and 10000 years of 365 days for an empty heap. */
  lemma PublishedTime(next: Option<Instant>)
    requires next.Some? ==> next.value < 1_000_000 * 0x1_0000_0000_0000_0000
    ensures next.Some? ==> 1_000_000 * Millis(Wakeup(next)) <= next.value < 1_000_000 * (Millis(Wakeup(next)) + 1)
    ensures next.None? ==> Millis(Wakeup(next)) == 315_360_000_000_000
  {
    if next.Some? {
      var ms := next.value / 1_000_000;
      assert 0 <= ms < 0x1_0000_0000_0000_0000;
    }
  }

  /** `next` is the least expiry in `rest`, or nothing when it is empty. */
  ghost predicate IsLeast(rest: multiset<EvictionEntry>, next: Option<Instant>) {
    match next
    case None => rest == multiset{}
    case Some(t) => (exists e :: e in rest && e.expiresAt == t) && forall e :: e in rest ==> t <= e.expiresAt
  }

  /** What one pass over the heap at time `now` pops, leaves, and reports as the next wakeup. */
  ghost predicate IsSplit(heap: multiset<EvictionEntry>, now: Instant, popped: seq<EvictionEntry>,
                          rest: multiset<EvictionEntry>, next: Option<Instant>) {
    && heap == multiset(popped) + rest
    && (forall e :: e in popped ==> e.expiresAt <= now)
    && (forall i, j :: 0 <= i < j < |popped| ==> popped[i].expiresAt <= popped[j].expiresAt)
    && (forall e :: e in rest ==> e.expiresAt > now)
    && IsLeast(rest, next)
  }

  lemma LeastIsUnique(rest: multiset<EvictionEntry>, m: Option<Instant>, n: Option<Instant>)
    requires IsLeast(rest, m) && IsLeast(rest, n)
    ensures m == n
  {
  }

  /** A pass is determined by the heap and the time, up to the order of equal expiries. */
  lemma SplitIsUnique(heap: multiset<EvictionEntry>, now: Instant, p1: seq<EvictionEntry>, r1: multiset<EvictionEntry>,
                      n1: Option<Instant>, p2: seq<EvictionEntry>, r2: multiset<EvictionEntry>, n2: Option<Instant>)
    requires IsSplit(heap, now, p1, r1, n1) && IsSplit(heap, now, p2, r2, n2)
    ensures multiset(p1) == multiset(p2) && r1 == r2 && n1 == n2
  {
    hide IsLeast;
    forall e ensures multiset(p1)[e] == multiset(p2)[e] && r1[e] == r2[e] {
      assert heap[e] == multiset(p1)[e] + r1[e] && heap[e] == multiset(p2)[e] + r2[e];
      if e.expiresAt <= now { assert e !in r1 && e !in r2; } else { assert e !in p1 && e !in p2; }
    }
    assert r1 == r2;
    LeastIsUnique(r1, n1, n2);
  }

  lemma {:induction false} LeastExists(rest: multiset<EvictionEntry>) returns (next: Option<Instant>)
    ensures IsLeast(rest, next)
    decreases |rest|
  {
    if rest == multiset{} {
      next := None;
    } else {
      var e :| e in rest;
      var others := rest - multiset{e};
      var n := LeastExists(others);
      next := Some(if n.Some? && n.value < e.expiresAt then n.value else e.expiresAt);
      assert rest == others + multiset{e};
    }
  }

  /** Every heap has its split at every time. */
  lemma {:induction false} SplitExists(heap: multiset<EvictionEntry>, now: Instant)
    returns (popped: seq<EvictionEntry>, rest: multiset<EvictionEntry>, next: Option<Instant>)
    ensures IsSplit(heap, now, popped, rest, next)
    decreases |heap|
  {
    var least := LeastExists(heap);
    if least.Some? && least.value <= now {
      var e :| e in heap && e.expiresAt == least.value;
      popped, rest, next := SplitExists(heap - multiset{e}, now);
      SplitOneMore(heap, now, e, popped, rest, next);
      popped := [e] + popped;
    } else {
      popped, rest, next := [], heap, least;
      assert multiset(popped) + rest == heap;
    }
  }

  lemma SplitOneMore(heap: multiset<EvictionEntry>, now: Instant, e: EvictionEntry, popped: seq<EvictionEntry>,
                     rest: multiset<EvictionEntry>, next: Option<Instant>)
    requires e in heap && e.expiresAt <= now && IsSplit(heap - multiset{e}, now, popped, rest, next)
    requires forall f :: f in heap ==> e.expiresAt <= f.expiresAt
    ensures IsSplit(heap, now, [e] + popped, rest, next)
  {
    hide IsLeast;
    var all := [e] + popped;
    assert multiset(all) == multiset{e} + multiset(popped);
    MovedOver(heap, e, multiset(popped), rest);
    forall f | f in popped ensures f in heap { assert f in multiset(popped) + rest; }
    FrontInOrder(e, popped);
  }

  lemma MovedOver(heap: multiset<EvictionEntry>, e: EvictionEntry, popped: multiset<EvictionEntry>,
                  rest: multiset<EvictionEntry>)
    requires e in heap && heap - multiset{e} == popped + rest
    ensures heap == multiset{e} + popped + rest
  {
    assert heap == multiset{e} + (heap - multiset{e});
  }

  lemma FrontInOrder(e: EvictionEntry, popped: seq<EvictionEntry>)
    requires forall f :: f in popped ==> e.expiresAt <= f.expiresAt
    requires forall i, j :: 0 <= i < j < |popped| ==> popped[i].expiresAt <= popped[j].expiresAt
    ensures var all := [e] + popped; forall i, j :: 0 <= i < j < |all| ==> all[i].expiresAt <= all[j].expiresAt
  {
  }

  function Keys(entries: seq<EvictionEntry>): set<Key> {
    set e | e in entries :: e.key
  }

  lemma KeysOneMore(entries: seq<EvictionEntry>, i: nat)
    requires i < |entries|
    ensures Keys(entries[..i + 1]) == Keys(entries[..i]) + {entries[i].key}
  {
    assert entries[..i + 1] == entries[..i] + [entries[i]];
  }

  // ---------- the heap ----------

  function Parent(i: nat): nat
    requires i > 0
  {
    (i - 1) / 2
  }

  /** The link from `j` to its parent is in order. */
  ghost predicate Link(h: seq<EvictionEntry>, j: nat)
    requires 0 < j < |h|
  {
    AtLeast(h[Parent(j)], h[j])
  }

  /** If `j` is a child of `i`, it is in order with the parent of `i`. */
  ghost predicate GrandLink(h: seq<EvictionEntry>, i: nat, j: nat)
    requires 0 < i < |h| && 0 < j < |h|
  {
    Parent(j) == i ==> AtLeast(h[Parent(i)], h[j])
  }

  ghost predicate HeapOrdered(h: seq<EvictionEntry>) {
    forall j :: 0 < j < |h| ==> Link(h, j)
  }

  lemma {:induction false} RootIsLeast(h: seq<EvictionEntry>, i: nat)
    requires HeapOrdered(h) && i < |h|
    ensures AtLeast(h[0], h[i])
  {
    if i == 0 {
    } else {
      assert Link(h, i);
      RootIsLeast(h, Parent(i));
    }
  }

  lemma AllAboveRoot(h: seq<EvictionEntry>)
    requires HeapOrdered(h) && h != []
    ensures forall e :: e in h ==> h[0].expiresAt <= e.expiresAt
  {
    forall i: nat | i < |h| ensures AtLeast(h[0], h[i]) { RootIsLeast(h, i); }
  }

  function Swap(h: seq<EvictionEntry>, i: nat, j: nat): (s: seq<EvictionEntry>)
    requires i < |h| && j < |h|
    ensures |s| == |h| && s[i] == h[j] && s[j] == h[i]
    ensures forall k :: 0 <= k < |h| && k != i && k != j ==> s[k] == h[k]
    ensures multiset(s) == multiset(h)
  {
    h[i := h[j]][j := h[i]]
  }

  /** Ordered but for the link from `i` to its parent. */
  ghost predicate OrderedExceptAt(h: seq<EvictionEntry>, i: nat)
    requires i < |h|
  {
    && (forall j :: 0 < j < |h| && j != i ==> Link(h, j))
    && (i > 0 ==> forall j :: 0 < j < |h| ==> GrandLink(h, i, j))
  }

  /** Ordered but for the links from `i` to its children. */
  ghost predicate OrderedExceptBelow(h: seq<EvictionEntry>, i: nat)
    requires i < |h|
  {
    && (forall j :: 0 < j < |h| && Parent(j) != i ==> Link(h, j))
    && (i > 0 ==> forall j :: 0 < j < |h| ==> GrandLink(h, i, j))
  }

  lemma UpStep(h: seq<EvictionEntry>, i: nat)
    requires 0 < i < |h| && OrderedExceptAt(h, i) && !AtLeast(h[Parent(i)], h[i])
    ensures OrderedExceptAt(Swap(h, i, Parent(i)), Parent(i))
  {
    var p := Parent(i);
    var s := Swap(h, i, p);
    assert p > 0 ==> Link(h, p);
    forall j | 0 < j < |s| ensures (j != p ==> Link(s, j)) && (p > 0 ==> GrandLink(s, p, j)) {
      if j != i { assert Link(h, j); }
      assert GrandLink(h, i, j);
    }
  }

  lemma DownStep(h: seq<EvictionEntry>, i: nat, c: nat)
    requires 0 < c < |h| && Parent(c) == i && OrderedExceptBelow(h, i) && !AtLeast(h[i], h[c])
    requires forall j :: 0 < j < |h| && Parent(j) == i ==> AtLeast(h[c], h[j])
    ensures OrderedExceptBelow(Swap(h, i, c), c)
  {
    var s := Swap(h, i, c);
    if i > 0 { assert GrandLink(h, i, c); }
    forall j | 0 < j < |s| ensures (Parent(j) != c ==> Link(s, j)) && GrandLink(s, c, j) {
      if Parent(j) != i { assert Link(h, j); }
    }
  }

  lemma DownDone(h: seq<EvictionEntry>, i: nat)
    requires i < |h| && OrderedExceptBelow(h, i)
    requires forall j :: 0 < j < |h| && Parent(j) == i ==> AtLeast(h[i], h[j])
    ensures HeapOrdered(h)
  {
    forall j | 0 < j < |h| ensures Link(h, j) {}
  }

  method SiftUp(h: seq<EvictionEntry>) returns (r: seq<EvictionEntry>)
    requires h != [] && OrderedExceptAt(h, |h| - 1)
    ensures HeapOrdered(r) && multiset(r) == multiset(h)
  {
    r := h;
    var i := |h| - 1;
    while i > 0 && !AtLeast(r[Parent(i)], r[i])
      invariant 0 <= i < |r| && |r| == |h|
      invariant OrderedExceptAt(r, i)
      invariant multiset(r) == multiset(h)
    {
      UpStep(r, i);
      r := Swap(r, i, Parent(i));
      i := Parent(i);
    }
    forall j | 0 < j < |r| ensures Link(r, j) {}
  }

  /** The child of `i` that comes first in the order. */
  function FirstChild(h: seq<EvictionEntry>, i: nat): (c: nat)
    requires 2 * i + 1 < |h|
    ensures 0 < c < |h| && Parent(c) == i && i < c
    ensures forall j :: 0 < j < |h| && Parent(j) == i ==> AtLeast(h[c], h[j])
  {
    var c := 2 * i + 1;
    assert forall j :: 0 < j && Parent(j) == i ==> j == c || j == c + 1;
    if c + 1 < |h| && !AtLeast(h[c], h[c + 1]) then c + 1 else c
  }

  lemma NoChild(h: seq<EvictionEntry>, i: nat)
    requires i < |h| && 2 * i + 1 >= |h|
    ensures forall j :: 0 < j < |h| ==> Parent(j) != i
  {
  }

  method SiftDown(h: seq<EvictionEntry>) returns (r: seq<EvictionEntry>)
    requires h != [] && OrderedExceptBelow(h, 0)
    ensures HeapOrdered(r) && multiset(r) == multiset(h)
  {
    hide Parent, OrderedExceptBelow, HeapOrdered, Swap;
    r := h;
    var i := 0;
    while 2 * i + 1 < |r|
      invariant 0 <= i < |r| && |r| == |h|
      invariant OrderedExceptBelow(r, i)
      invariant multiset(r) == multiset(h)
      decreases |r| - i
    {
      var c := FirstChild(r, i);
      if AtLeast(r[i], r[c]) {
        DownDone(r, i);
        return;
      }
      DownStep(r, i, c);
      r := Swap(r, i, c);
      i := c;
    }
    NoChild(r, i);
    DownDone(r, i);
  }

  lemma AppendedIsOrdered(h: seq<EvictionEntry>, e: EvictionEntry)
    requires HeapOrdered(h)
    ensures OrderedExceptAt(h + [e], |h|)
  {
    forall j | 0 < j < |h + [e]| ensures (j != |h| ==> Link(h + [e], j)) && (|h| > 0 ==> GrandLink(h + [e], |h|, j)) {
      if j < |h| { assert Link(h, j); }
    }
  }

  /** Overwriting the root with the last entry: what remains, and how it is still ordered. */
  lemma RootReplaced(h: seq<EvictionEntry>)
    requires HeapOrdered(h) && |h| > 1
    ensures var r := h[..|h| - 1][0 := h[|h| - 1]];
      multiset(h) == multiset(r) + multiset{h[0]} && OrderedExceptBelow(r, 0)
  {
    var n := |h| - 1;
    var r := h[..n][0 := h[n]];
    RootMoved(h);
    forall j | 0 < j < |r| && Parent(j) != 0 ensures Link(r, j) {
      assert Link(h, j);
    }
  }

  lemma RootMoved(h: seq<EvictionEntry>)
    requires |h| > 1
    ensures multiset(h) == multiset(h[..|h| - 1][0 := h[|h| - 1]]) + multiset{h[0]}
  {
    var n := |h| - 1;
    assert h == [h[0]] + h[1..n] + [h[n]] && h[..n][0 := h[n]] == [h[n]] + h[1..n];
  }

  class EvictionQueue {
    var heap: seq<EvictionEntry>
    /** Shared with the clients as an atomic. */
    var nextWakeupMillis: nat
    /** Wakeup times sent to the background task and not yet received. */
    var channel: seq<Instant>
    /** The background task's own variable. */
    var nextWakeup: Instant

    ghost predicate Valid()
      reads this
    {
      HeapOrdered(heap)
    }

    ghost function Contents(): multiset<EvictionEntry>
      reads this
    {
      multiset(heap)
    }

    constructor ()
      ensures Valid() && Contents() == multiset{}
      ensures nextWakeupMillis == U64_MAX && channel == [] && nextWakeup == FAR
    {
      heap, nextWakeupMillis, channel, nextWakeup := [], U64_MAX, [], FAR;
    }

    method Push(e: EvictionEntry)
      requires Valid()
      modifies this`heap
      ensures Valid() && Contents() == old(Contents()) + multiset{e}
    {
      AppendedIsOrdered(heap, e);
      heap := SiftUp(heap + [e]);
    }

    method Pop() returns (e: EvictionEntry)
      requires Valid() && heap != []
      modifies this`heap
      ensures Valid() && e == old(heap[0]) && old(Contents()) == Contents() + multiset{e}
      ensures |heap| < old(|heap|)
    {
      ghost var before := heap;
      e := heap[0];
      if |heap| == 1 {
        assert heap == [e];
        heap := [];
      } else {
        RootReplaced(heap);
        heap := SiftDown(heap[..|heap| - 1][0 := heap[|heap| - 1]]);
      }
      assert |multiset(before)| == |multiset(heap)| + 1;
    }

    /** Called after an install: push, load the published wakeup, and send unless it is soon enough. */
    method AddChallenge(e: EvictionEntry)
      requires Valid()
      modifies this
      ensures Valid() && Contents() == old(Contents()) + multiset{e}
      ensures channel == if Millis(e.expiresAt) < nextWakeupMillis then old(channel) + [e.expiresAt] else old(channel)
      ensures nextWakeupMillis == old(nextWakeupMillis) && nextWakeup == old(nextWakeup)
    {
      Push(e);
      var expiry := Millis(e.expiresAt);
      if expiry < nextWakeupMillis {
        channel := channel + [e.expiresAt];
      }
    }

    /** The pop loop, run under the heap's lock. */
    method PopExpired(now: Instant) returns (toExpire: seq<EvictionEntry>, next: Option<Instant>)
      requires Valid()
      modifies this`heap
      ensures Valid() && IsSplit(old(Contents()), now, toExpire, Contents(), next)
    {
      toExpire := [];
      while heap != [] && heap[0].expiresAt <= now
        invariant Valid()
        invariant old(Contents()) == multiset(toExpire) + Contents()
        invariant PoppedInOrder(toExpire, now, Contents())
        decreases |heap|
      {
        ghost var before := Contents();
        RootIsMinimum(heap);
        var e := Pop();
        PoppedOneMore(toExpire, now, before, Contents(), e);
        toExpire := toExpire + [e];
      }
      next := if heap == [] then None else Some(heap[0].expiresAt);
      if heap != [] { RootIsMinimum(heap); }
    }

    /** Pops what has expired, deletes those keys, and reports the least remaining expiry. */
    method RemoveExpired(now: Instant, challenges: ChallengeSet)
      returns (next: Option<Instant>, ghost popped: seq<EvictionEntry>)
      requires Valid()
      modifies this`heap, challenges
      ensures Valid() && IsSplit(old(Contents()), now, popped, Contents(), next)
      ensures challenges.slots == old(challenges.slots) - Keys(popped)
      ensures challenges.installs == old(challenges.installs)
    {
      var toExpire;
      toExpire, next := PopExpired(now);
      popped := toExpire;
      ghost var rest := heap;
      assert challenges.slots == old(challenges.slots) - Keys(toExpire[..0]);
      hide IsSplit, HeapOrdered, Keys;
      var i := 0;
      while i < |toExpire|
        invariant 0 <= i <= |toExpire| && heap == rest
        invariant challenges.slots == old(challenges.slots) - Keys(toExpire[..i])
        invariant challenges.installs == old(challenges.installs)
      {
        KeysOneMore(toExpire, i);
        challenges.Remove(toExpire[i].key);
        i := i + 1;
      }
      assert toExpire[..i] == toExpire;
    }

    /** The background task's timer branch. */
    method OnTimer(now: Instant, challenges: ChallengeSet)
      returns (ghost popped: seq<EvictionEntry>, ghost next: Option<Instant>)
      requires Valid()
      modifies this, challenges
      ensures Valid() && IsSplit(old(Contents()), now, popped, Contents(), next)
      ensures challenges.slots == old(challenges.slots) - Keys(popped)
      ensures challenges.installs == old(challenges.installs)
      ensures nextWakeup == Wakeup(next) && nextWakeupMillis == Millis(nextWakeup) && channel == old(channel)
    {
      var wakeup: Option<Instant>;
      wakeup, popped := RemoveExpired(now, challenges);
      next := wakeup;
      nextWakeup := if wakeup.Some? then wakeup.value else FAR;
      nextWakeupMillis := Millis(nextWakeup);
    }

    /** The background task's message branch. */
    method OnMessage()
      requires Valid() && channel != []
      modifies this`channel, this`nextWakeup, this`nextWakeupMillis
      ensures Valid() && channel == old(channel)[1..]
      ensures nextWakeup == if old(channel)[0] < old(nextWakeup) then old(channel)[0] else old(nextWakeup)
      ensures nextWakeupMillis ==
        if old(channel)[0] < old(nextWakeup) then Millis(nextWakeup) else old(nextWakeupMillis)
    {
      var newWakeup := channel[0];
      channel := channel[1..];
      if newWakeup < nextWakeup {
        nextWakeup := newWakeup;
        nextWakeupMillis := Millis(nextWakeup);
      }
    }
  }

  /** The loop invariant of the pop loop: expired, in order of expiry, and below everything that remains. */
  ghost predicate PoppedInOrder(popped: seq<EvictionEntry>, now: Instant, rest: multiset<EvictionEntry>) {
    && (forall e :: e in popped ==> e.expiresAt <= now)
    && (forall i, j :: 0 <= i < j < |popped| ==> popped[i].expiresAt <= popped[j].expiresAt)
    && (forall e, f :: e in popped && f in rest ==> e.expiresAt <= f.expiresAt)
  }

  lemma RootIsMinimum(h: seq<EvictionEntry>)
    requires HeapOrdered(h) && h != []
    ensures h[0] in multiset(h) && forall e :: e in multiset(h) ==> h[0].expiresAt <= e.expiresAt
  {
    AllAboveRoot(h);
  }

  lemma PoppedOneMore(popped: seq<EvictionEntry>, now: Instant, before: multiset<EvictionEntry>,
                      after: multiset<EvictionEntry>, e: EvictionEntry)
    requires PoppedInOrder(popped, now, before) && before == after + multiset{e} && e.expiresAt <= now
    requires forall f :: f in before ==> e.expiresAt <= f.expiresAt
    ensures PoppedInOrder(popped + [e], now, after)
    ensures multiset(popped) + before == multiset(popped + [e]) + after
  {
    assert e in before;
  }

  /**
   * A get that runs without interference: an existing challenge is returned as it is, otherwise the new one is
   * installed, queued for eviction and returned.
   */
  method GetChallenge(server: Server, challenges: ChallengeSet, queue: EvictionQueue,
                      key: Key, nonce: Nonce, now: Instant, difficulty: Byte) returns (r: Challenge)
    requires queue.Valid()
    modifies challenges, queue
    ensures queue.Valid()
    ensures var s := old(challenges.slots); key in s ==>
      && r == s[key].challenge && challenges.slots == s
      && queue.Contents() == old(queue.Contents()) && queue.channel == old(queue.channel)
    ensures var s := old(challenges.slots); key !in s ==>
      && var life := if key.chain == L1 then server.l1Duration else server.l2Duration;
      && r == Challenge(nonce, false, now + life, difficulty)
      && challenges.slots == s[key := Slot(r, old(challenges.installs))]
      && queue.Contents() == old(queue.Contents()) + multiset{EvictionEntry(key, r.expiresAt, old(challenges.installs))}
      && queue.channel == old(queue.channel)
         + if Millis(r.expiresAt) < old(queue.nextWakeupMillis) then [r.expiresAt] else []
    ensures queue.nextWakeup == old(queue.nextWakeup) && queue.nextWakeupMillis == old(queue.nextWakeupMillis)
  {
    var challenge := Challenge(nonce, false, now + Duration(server, key.chain), difficulty);
    ghost var install := challenges.installs;
    var ok := challenges.Cas(key, None, challenge);
    if ok {
      queue.AddChallenge(EvictionEntry(key, challenge.expiresAt, challenges.installs - 1));
      r := challenge;
    } else {
      var actual := challenges.Get(key);
      r := actual.value;
    }
  }
}
