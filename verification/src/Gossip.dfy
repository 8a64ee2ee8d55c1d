/** Gossip deduplication: `MessageCache`, `GossipMessage::is_fresh` and `P2PNode::on_message` of `src/network/p2p.rs`. */
module Gossip {
  import opened Common

  const EVICT_EVERY: nat := 128

  /** What deduplication looks at; one clock in milliseconds serves both timestamps and the cache. */
  datatype Message = Message(id: Bytes32, timestamp: nat)

  /** Own broadcasts enter the cache without a freshness check. */
  datatype Arrival = Incoming(message: Message) | Broadcast(id: Bytes32)

  datatype Event = Event(now: nat, arrival: Arrival)

  // ---- The specification -------------------------------------------------------------------

  datatype CacheState = CacheState(seen: map<Bytes32, nat>, insertsSinceEvict: nat)

  predicate IsFresh(m: Message, maxAge: nat, now: nat) {
    (if now >= m.timestamp then now - m.timestamp else 0) < maxAge
  }

  function Retain(seen: map<Bytes32, nat>, maxAge: nat, now: nat): map<Bytes32, nat> {
    map id | id in seen && now - seen[id] < maxAge :: seen[id]
  }

  function InsertId(c: CacheState, maxAge: nat, id: Bytes32, now: nat): (CacheState, bool) {
    if id in c.seen then (c, false)
    else if c.insertsSinceEvict + 1 >= EVICT_EVERY
    then (CacheState(Retain(c.seen, maxAge, now)[id := now], 0), true)
    else (CacheState(c.seen[id := now], c.insertsSinceEvict + 1), true)
  }

  /** The new cache, and whether the message goes on to the node. */
  function Arrive(c: CacheState, window: nat, e: Event): (CacheState, bool) {
    match e.arrival
    case Broadcast(id) => InsertId(c, window, id, e.now)
    case Incoming(m) => if !IsFresh(m, window, e.now) then (c, false) else InsertId(c, window, m.id, e.now)
  }

  const NEW_CACHE: CacheState := CacheState(map[], 0)

  function CacheAfter(window: nat, es: seq<Event>): CacheState {
    if es == [] then NEW_CACHE else Arrive(CacheAfter(window, es[..|es| - 1]), window, es[|es| - 1]).0
  }

  /** Whether event i of the run got past the cache. */
  predicate Passed(window: nat, es: seq<Event>, i: nat)
    requires i < |es|
  {
    Arrive(CacheAfter(window, es[..i]), window, es[i]).1
  }

  // ---- The objects -------------------------------------------------------------------------------

  class MessageCache {
    var seen: map<Bytes32, nat>
    const maxAge: nat
    var insertsSinceEvict: nat

    ghost function State(): CacheState
      reads this
    {
      CacheState(seen, insertsSinceEvict)
    }

    constructor (maxAge: nat)
      ensures State() == NEW_CACHE && this.maxAge == maxAge
    {
      seen, this.maxAge, insertsSinceEvict := map[], maxAge, 0;
    }

    /** Says whether the id is new; every 128th insertion first drops what is too old. */
    method Insert(id: Bytes32, now: nat) returns (isNew: bool)
      modifies this
      ensures (State(), isNew) == InsertId(old(State()), maxAge, id, now)
    {
      if id in seen { return false; }
      insertsSinceEvict := insertsSinceEvict + 1;
      if insertsSinceEvict >= EVICT_EVERY {
        insertsSinceEvict := 0;
        seen := map i | i in seen && now - seen[i] < maxAge :: seen[i];
      }
      seen := seen[id := now];
      return true;
    }
  }

  class P2PNode {
    const dedupWindow: nat
    const messageCache: MessageCache
    var messagesSent: nat
    var messagesRecv: nat

    ghost predicate Valid()
      reads this
    {
      messageCache.maxAge == dedupWindow
    }

    constructor (dedupWindow: nat)
      ensures Valid() && fresh(messageCache) && messageCache.State() == NEW_CACHE && this.dedupWindow == dedupWindow
      ensures messagesSent == 0 && messagesRecv == 0
    {
      this.dedupWindow := dedupWindow;
      messageCache := new MessageCache(dedupWindow);
      messagesSent, messagesRecv := 0, 0;
    }

    method OnMessage(m: Message, now: nat) returns (accepted: bool)
      requires Valid()
      modifies this`messagesRecv, messageCache
      ensures Valid()
      ensures (messageCache.State(), accepted) == Arrive(old(messageCache.State()), dedupWindow, Event(now, Incoming(m)))
      ensures messagesRecv == old(messagesRecv) + if accepted then 1 else 0
    {
      if !IsFresh(m, dedupWindow, now) { return false; }
      accepted := messageCache.Insert(m.id, now);
      if accepted { messagesRecv := messagesRecv + 1; }
    }

    /** The part of `gossip` after its checks on the node and the payload. */
    method Send(id: Bytes32, now: nat) returns (sent: bool)
      requires Valid()
      modifies this`messagesSent, messageCache
      ensures Valid()
      ensures (messageCache.State(), sent) == Arrive(old(messageCache.State()), dedupWindow, Event(now, Broadcast(id)))
      ensures messagesSent == old(messagesSent) + if sent then 1 else 0
    {
      sent := messageCache.Insert(id, now);
      if sent { messagesSent := messagesSent + 1; }
    }
  }

  // ---- At most once ------------------------------------------------------------------------------------

  /** The clock never runs backwards. */
  ghost predicate Monotone(es: seq<Event>) {
    forall i, j :: 0 <= i < j < |es| ==> es[i].now <= es[j].now
  }

  /** Once an id has passed, it is in the cache under that time, or it is old by now. */
  lemma {:induction false} PassedIsRemembered(window: nat, es: seq<Event>, i: nat, m: Message)
    requires Monotone(es) && i < |es| && Passed(window, es, i) && es[i].arrival == Incoming(m)
    ensures var seen := CacheAfter(window, es).seen;
            (m.id in seen && seen[m.id] >= es[i].now) || es[|es| - 1].now - es[i].now >= window
    decreases |es|
  {
    var init, last := es[..|es| - 1], es[|es| - 1];
    if i < |init| {
      assert init[..i] == es[..i];
      PassedIsRemembered(window, init, i, m);
      assert es[|init| - 1].now <= last.now;
    }
  }

  /**
   A message whose timestamp is not in the future when it first gets through never gets through
   again, although old entries are dropped only at every 128th insertion.
   */
  lemma AtMostOnce(window: nat, es: seq<Event>, i: nat, j: nat, m: Message)
    requires Monotone(es) && i < j < |es| && es[i].arrival == es[j].arrival == Incoming(m)
    requires m.timestamp <= es[i].now && Passed(window, es, i)
    ensures !Passed(window, es, j)
  {
    var before := es[..j];
    assert before[..i] == es[..i];
    PassedIsRemembered(window, before, i, m);
    assert es[j - 1].now <= es[j].now;
  }

  // ---- Any arrival of a known id -------------------------------------------------------------------------

  function IdOf(e: Event): Bytes32 {
    match e.arrival { case Incoming(m) => m.id case Broadcast(id) => id }
  }

  /** Less than a window has passed since the message's timestamp; own broadcasts are not asked for that. */
  predicate FreshEnough(window: nat, e: Event) {
    e.arrival.Incoming? ==> 0 < window && e.now < e.arrival.message.timestamp + window
  }

  /** What is in the cache has got past it. */
  lemma {:induction false} CachedHasPassed(window: nat, es: seq<Event>, id: Bytes32) returns (i: nat)
    requires id in CacheAfter(window, es).seen
    ensures i < |es| && Passed(window, es, i) && IdOf(es[i]) == id
  {
    i := |es| - 1;
    var init := es[..i];
    if !(Passed(window, es, i) && IdOf(es[i]) == id) {
      i := CachedHasPassed(window, init, id);
      assert init[..i] == es[..i];
    }
  }

  lemma PassedInPrefix(window: nat, es: seq<Event>, j: nat, i: nat)
    requires i < j <= |es|
    ensures Passed(window, es[..j], i) == Passed(window, es, i)
  {
    assert es[..j][..i] == es[..i];
  }

  /** An id that has not passed before passes exactly when its arrival is fresh. */
  lemma FirstPassesIff(window: nat, es: seq<Event>, j: nat)
    requires j < |es| && forall i :: 0 <= i < j && IdOf(es[i]) == IdOf(es[j]) ==> !Passed(window, es, i)
    ensures Passed(window, es, j) <==> FreshEnough(window, es[j])
  {
    if IdOf(es[j]) in CacheAfter(window, es[..j]).seen {
      var i := CachedHasPassed(window, es[..j], IdOf(es[j]));
      PassedInPrefix(window, es, j, i);
    }
  }

  /** How many events got past the cache. */
  function PassCount(window: nat, es: seq<Event>): nat {
    if es == [] then 0
    else PassCount(window, es[..|es| - 1]) + if Passed(window, es, |es| - 1) then 1 else 0
  }

  /** Event i is a 128th insertion. */
  predicate Evicts(window: nat, es: seq<Event>, i: nat)
    requires i < |es|
  {
    Passed(window, es, i) && (PassCount(window, es[..i]) + 1) % EVICT_EVERY == 0
  }

  /** The cache's counter is that number modulo 128. */
  lemma {:induction false} CounterCounts(window: nat, es: seq<Event>)
    ensures CacheAfter(window, es).insertsSinceEvict == PassCount(window, es) % EVICT_EVERY
  {
    if es != [] { CounterCounts(window, es[..|es| - 1]); }
  }

  /** One arrival that is not a passing one of this id: the id goes only in an eviction, and then only if it is old. */
  lemma ArrivalKeepsId(window: nat, es: seq<Event>, i: nat, id: Bytes32)
    requires i < |es| && (IdOf(es[i]) == id ==> !Passed(window, es, i))
    ensures var was, now := CacheAfter(window, es[..i]).seen, CacheAfter(window, es[..i + 1]).seen;
            && (id in now <==> id in was && !(Evicts(window, es, i) && es[i].now - was[id] >= window))
            && (id in now ==> now[id] == was[id])
  {
    CounterCounts(window, es[..i]);
    assert es[..i + 1][..i] == es[..i];
  }

  /** A 128th insertion that finds the id of event i a window old. */
  ghost predicate Drops(window: nat, es: seq<Event>, i: nat, e: nat)
    requires i < e < |es|
  {
    Evicts(window, es, e) && es[e].now - es[i].now >= window
  }

  ghost predicate DroppedBetween(window: nat, es: seq<Event>, i: nat, j: nat)
    requires i < j <= |es|
  {
    exists e :: i < e < j && Drops(window, es, i, e)
  }

  lemma DroppedOneMore(window: nat, es: seq<Event>, i: nat, n: nat)
    requires i < n < |es|
    ensures DroppedBetween(window, es, i, n + 1) <==> DroppedBetween(window, es, i, n) || Drops(window, es, i, n)
  {
    if DroppedBetween(window, es, i, n) {
      var e :| i < e < n && Drops(window, es, i, e);
      assert i < e < n + 1;
    }
  }

  /** The id of event i does not get past the cache again before event j. */
  ghost predicate NotAgain(window: nat, es: seq<Event>, i: nat, j: nat)
    requires i < j <= |es|
  {
    forall k :: i < k < j && IdOf(es[k]) == IdOf(es[i]) ==> !Passed(window, es, k)
  }

  /** After n events the id of event i is in the cache, under that time, unless it was dropped. */
  ghost predicate Known(window: nat, es: seq<Event>, i: nat, n: nat)
    requires i < n <= |es|
  {
    var seen := CacheAfter(window, es[..n]).seen;
    && (IdOf(es[i]) in seen <==> !DroppedBetween(window, es, i, n))
    && (IdOf(es[i]) in seen ==> seen[IdOf(es[i])] == es[i].now)
  }

  lemma KnownAtFirst(window: nat, es: seq<Event>, i: nat)
    requires i < |es| && Passed(window, es, i)
    ensures Known(window, es, i, i + 1)
  {
    assert es[..i + 1][..i] == es[..i];
  }

  lemma KnownOneMore(window: nat, es: seq<Event>, i: nat, n: nat)
    requires i < n < |es| && Known(window, es, i, n)
    requires IdOf(es[n]) == IdOf(es[i]) ==> !Passed(window, es, n)
    ensures Known(window, es, i, n + 1)
  {
    ArrivalKeepsId(window, es, n, IdOf(es[i]));
    DroppedOneMore(window, es, i, n);
  }

  lemma {:induction false} KnownUntilDropped(window: nat, es: seq<Event>, i: nat, n: nat)
    requires i < n < |es| && Passed(window, es, i) && NotAgain(window, es, i, n + 1)
    ensures Known(window, es, i, n + 1)
    decreases n
  {
    if n == i + 1 {
      KnownAtFirst(window, es, i);
    } else {
      KnownUntilDropped(window, es, i, n - 1);
    }
    KnownOneMore(window, es, i, n);
  }

  /**
   The exact condition for an id to pass again, whatever timestamp it comes with: the arrival is
   fresh, and since the id last passed a 128th insertion found it a window old.
   */
  lemma PassesAgainIff(window: nat, es: seq<Event>, i: nat, j: nat)
    requires i < j < |es| && IdOf(es[i]) == IdOf(es[j])
    requires Passed(window, es, i) && NotAgain(window, es, i, j)
    ensures Passed(window, es, j) <==> FreshEnough(window, es[j]) && DroppedBetween(window, es, i, j)
  {
    if j == i + 1 {
      KnownAtFirst(window, es, i);
    } else {
      KnownUntilDropped(window, es, i, j - 1);
    }
  }

  // ---- Future timestamps ---------------------------------------------------------------------------------

  /** `m`, then 127 other broadcasts a window later, then `m` again. */
  function Replayed(m: Message, now: nat, window: nat, others: seq<Bytes32>): seq<Event> {
    [Event(now, Incoming(m))] + Broadcasts(now + window, others) + [Event(now + window, Incoming(m))]
  }

  function Broadcasts(now: nat, ids: seq<Bytes32>): seq<Event> {
    seq(|ids|, i requires 0 <= i < |ids| => Event(now, Broadcast(ids[i])))
  }

  ghost predicate Different(m: Message, ids: seq<Bytes32>) {
    (forall i, j :: 0 <= i < j < |ids| ==> ids[i] != ids[j]) && (forall i :: 0 <= i < |ids| ==> ids[i] != m.id)
  }

  ghost predicate Filled(c: CacheState, m: Message, now: nat, window: nat, others: seq<Bytes32>, n: nat)
    requires n <= |others|
  {
    && c.insertsSinceEvict == n + 1
    && c.seen.Keys == {m.id} + (set i | 0 <= i < n :: others[i])
    && c.seen[m.id] == now
  }

  lemma {:induction false} FillCache(m: Message, now: nat, window: nat, others: seq<Bytes32>, n: nat)
    requires Different(m, others) && n <= |others| && n <= 126 && window > 0 && now < m.timestamp
    ensures Filled(CacheAfter(window, Replayed(m, now, window, others)[..n + 1]), m, now, window, others, n)
  {
    var es := Replayed(m, now, window, others);
    if n == 0 {
      assert es[..1] == [Event(now, Incoming(m))];
      assert es[..1][..0] == [];
    } else {
      FillCache(m, now, window, others, n - 1);
      assert es[..n + 1][..n] == es[..n];
      assert es[n] == Event(now + window, Broadcast(others[n - 1]));
      assert (set i | 0 <= i < n :: others[i]) == (set i | 0 <= i < n - 1 :: others[i]) + {others[n - 1]};
    }
  }

  /**
   The condition on the timestamp is needed: for every time, window and message stamped after that
   time, and any 127 other ids, the clock only moving forward, the message gets through twice.
   */
  lemma FutureMessagePassesTwice(m: Message, now: nat, window: nat, others: seq<Bytes32>)
    requires now < m.timestamp && window > 0 && |others| == 127 && Different(m, others)
    ensures var es := Replayed(m, now, window, others);
            && |es| == 129 && Monotone(es) && es[0].arrival == es[128].arrival == Incoming(m)
            && Passed(window, es, 0) && Passed(window, es, 128)
  {
    var es := Replayed(m, now, window, others);
    FillCache(m, now, window, others, 126);
    var full := CacheAfter(window, es[..127]);
    assert es[..128][..127] == es[..127];
    assert es[127] == Event(now + window, Broadcast(others[126]));
    assert m.id !in Retain(full.seen, window, now + window);
    assert m.id !in CacheAfter(window, es[..128]).seen;
    assert es[..0] == [];
  }
}
