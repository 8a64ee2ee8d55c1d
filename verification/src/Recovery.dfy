/** Reopening a chain from its database, crashes included: `src/core/chain.rs:220-262, 331-349`. */
module Recovery {
  import opened Common
  import opened Blocks
  import opened Ledger
  import opened Database

  /** Replays blocks 1..n, stopping for good at the first that is missing or unreadable. */
  function Replay(rules: Rules, codec: Codec, db: Store, genesis: Block, n: u64): (r: (ChainState, bool)) {
    if n == 0 then (NewChain(rules, genesis), false)
    else
      var (st, stopped) := Replay(rules, codec, db, genesis, n - 1);
      if stopped then (st, true)
      else match GetByHeight(codec, db, n)
        case Ok(Some(b)) => (Push(rules, st, b, n), false)
        case _ => (st, true)
  }

  function Open(rules: Rules, codec: Codec, db: Store, genesis: Block): ChainState {
    match LoadState(db)
    case Ok(Some((height, _))) =>
      if height > 0 then Replay(rules, codec, db, genesis, height).0 else NewChain(rules, genesis)
    case _ => NewChain(rules, genesis)
  }

  /** The two batches an accepted block is written in. */
  function Record(rules: Rules, codec: Codec, db: Store, b: Block): Store {
    SaveState(PutBlock(rules, codec, db, b), b.header.height, HashOf(rules, b))
  }

  // ---- A node that may stop anywhere ---------------------------------------------------------

  /** How far an append gets before the process dies; Completed means it does not die. */
  datatype Reach = Completed | DiesBeforePut | DiesBetweenWrites

  /** A process that dies is started again, with a genesis block stamped by the clock. */
  datatype NodeEvent = Offer(block: Block, reach: Reach, restartTime: int) | Crash(restartTime: int)

  datatype Node = Node(chain: ChainState, db: Store)

  function Written(rules: Rules, codec: Codec, node: Node, b: Block, reach: Reach): Store {
    if Append(rules, node.chain, b).1.Some? || reach == DiesBeforePut then node.db
    else if reach == DiesBetweenWrites then PutBlock(rules, codec, node.db, b)
    else Record(rules, codec, node.db, b)
  }

  function NodeStep(rules: Rules, codec: Codec, node: Node, ev: NodeEvent): Node {
    match ev
    case Crash(time) => Node(Open(rules, codec, node.db, Genesis(time)), node.db)
    case Offer(b, reach, time) =>
      var db := Written(rules, codec, node, b, reach);
      Node(if reach == Completed then Append(rules, node.chain, b).0 else Open(rules, codec, db, Genesis(time)), db)
  }

  /** A fresh node on an empty database. */
  function FirstBoot(rules: Rules, time: int): Node {
    Node(NewChain(rules, Genesis(time)), EMPTY)
  }

  ghost predicate NodeSteps(rules: Rules, codec: Codec, before: Node, ev: NodeEvent, after: Node) {
    after == NodeStep(rules, codec, before, ev)
  }

  /** `nodes` is what a node goes through from its first boot on. */
  ghost predicate IsNodeRun(rules: Rules, codec: Codec, time: int, evs: seq<NodeEvent>, nodes: seq<Node>) {
    && |nodes| == |evs| + 1 && nodes[0] == FirstBoot(rules, time)
    && forall i :: 0 <= i < |evs| ==> NodeSteps(rules, codec, nodes[i], evs[i], nodes[i + 1])
  }

  /** The blocks an event adds for good: those whose append ran to its end. */
  function KeptBy(rules: Rules, node: Node, ev: NodeEvent): seq<Block> {
    if ev.Offer? && ev.reach == Completed then Taken(rules, node.chain, ev.block) else []
  }

  // ---- The headers of a run -----------------------------------------------------------------------

  function OfferedBlocks(evs: seq<NodeEvent>): (bs: seq<Block>)
    ensures |bs| <= |evs|
  {
    if evs == [] then []
    else OfferedBlocks(evs[..|evs| - 1]) + if evs[|evs| - 1].Offer? then [evs[|evs| - 1].block] else []
  }

  /** The genesis blocks the node has made at its starts. */
  function GenesisBlocks(time: int, evs: seq<NodeEvent>): seq<Block> {
    [Genesis(time)] + seq(|evs|, i requires 0 <= i < |evs| => Genesis(evs[i].restartTime))
  }

  function OfferedHeaders(evs: seq<NodeEvent>): set<BlockHeader> {
    Headers(OfferedBlocks(evs))
  }

  function GenesisHeaders(time: int, evs: seq<NodeEvent>): set<BlockHeader> {
    Headers(GenesisBlocks(time, evs))
  }

  lemma {:induction false} OfferedAt(evs: seq<NodeEvent>, i: nat)
    requires i < |evs| && evs[i].Offer?
    ensures evs[i].block.header in OfferedHeaders(evs)
  {
    var init, last := evs[..|evs| - 1], evs[|evs| - 1];
    if last.Offer? { HeadersSnoc(OfferedBlocks(init), last.block); }
    if i < |init| {
      OfferedAt(init, i);
      assert OfferedBlocks(init) + [] == OfferedBlocks(init);
    }
  }

  lemma GenesisAt(time: int, evs: seq<NodeEvent>, i: nat)
    requires i < |evs|
    ensures Genesis(evs[i].restartTime).header in GenesisHeaders(time, evs)
  {
    assert GenesisBlocks(time, evs)[i + 1] == Genesis(evs[i].restartTime);
  }

  lemma FirstGenesis(time: int, evs: seq<NodeEvent>)
    ensures Genesis(time).header in GenesisHeaders(time, evs)
  {
    assert GenesisBlocks(time, evs)[0] == Genesis(time);
  }

  // ---- What the database holds ---------------------------------------------------------------------

  ghost predicate Persisted(rules: Rules, codec: Codec, db: Store, bs: seq<Block>) {
    && |bs| < U64
    && (forall i :: 0 <= i < |bs| ==> HeldAt(rules, codec, db, i + 1, bs[i]))
    && LoadState(db) == if bs == [] then Ok(None) else Ok(Some((|bs|, HashOf(rules, bs[|bs| - 1]))))
  }

  lemma ReplayStep(rules: Rules, codec: Codec, db: Store, genesis: Block, n: u64, st: ChainState, b: Block)
    requires n > 0 && Replay(rules, codec, db, genesis, n - 1) == (st, false)
    requires GetByHeight(codec, db, n) == Ok(Some(b))
    ensures Replay(rules, codec, db, genesis, n) == (Push(rules, st, b, n), false)
  {
  }

  lemma PersistedIsRead(rules: Rules, codec: Codec, db: Store, bs: seq<Block>, n: u64)
    requires RoundTrips(codec) && Persisted(rules, codec, db, bs) && 0 < n <= |bs|
    ensures GetByHeight(codec, db, n) == Ok(Some(bs[n - 1]))
  {
    var i := n - 1;
    assert HeldAt(rules, codec, db, i + 1, bs[i]);
    HeldIsRead(rules, codec, db, n, bs[n - 1]);
  }

  lemma TakeSnoc(bs: seq<Block>, n: nat)
    requires 0 < n <= |bs|
    ensures bs[..n - 1] + [bs[n - 1]] == bs[..n]
  {
  }

  lemma {:induction false} ReplayBuilds(rules: Rules, codec: Codec, db: Store, genesis: Block, bs: seq<Block>, n: u64)
    requires RoundTrips(codec) && Persisted(rules, codec, db, bs) && n <= |bs|
    ensures Replay(rules, codec, db, genesis, n) == (Build(rules, genesis, bs[..n]), false)
  {
    if n > 0 {
      var init, b := bs[..n - 1], bs[n - 1];
      ReplayBuilds(rules, codec, db, genesis, bs, n - 1);
      PersistedIsRead(rules, codec, db, bs, n);
      ReplayStep(rules, codec, db, genesis, n, Build(rules, genesis, init), b);
      BuildSnoc(rules, genesis, init, b);
      TakeSnoc(bs, n);
    }
  }

  lemma OpenBuilds(rules: Rules, codec: Codec, db: Store, genesis: Block, bs: seq<Block>)
    requires RoundTrips(codec) && Persisted(rules, codec, db, bs)
    ensures Open(rules, codec, db, genesis) == Build(rules, genesis, bs)
  {
    if bs != [] {
      ReplayBuilds(rules, codec, db, genesis, bs, |bs|);
      assert bs[..|bs|] == bs;
    }
  }

  /** The height index has 32 bytes or more, the first 32 are a filed hash, and what is filed decodes to this block. */
  predicate ReadsAs(codec: Codec, db: Store, height: u64, b: Block) {
    && ToLe(height, 8) in db.blocksByHeight
    && var entry := db.blocksByHeight[ToLe(height, 8)];
       && |entry| >= 32 && entry[..32] in db.blocksByHash
       && codec.decode(db.blocksByHash[entry[..32]]) == Some(b)
  }

  ghost predicate Unreadable(codec: Codec, db: Store, height: u64) {
    forall b :: !ReadsAs(codec, db, height, b)
  }

  lemma GetIffReads(codec: Codec, db: Store, height: u64, b: Block)
    ensures GetByHeight(codec, db, height) == Ok(Some(b)) <==> ReadsAs(codec, db, height, b)
  {
  }

  /** The blocks at heights 1 to |bs| can be read, and are these. */
  ghost predicate Readable(codec: Codec, db: Store, bs: seq<Block>) {
    |bs| < U64 && forall i :: 0 <= i < |bs| ==> ReadsAs(codec, db, i + 1, bs[i])
  }

  /** Replay of n heights gives the chain of `bs`, all that can be read one after another up to there. */
  ghost predicate ReadsUpTo(rules: Rules, codec: Codec, db: Store, genesis: Block, n: u64, bs: seq<Block>) {
    && |bs| <= n && Readable(codec, db, bs)
    && Replay(rules, codec, db, genesis, n) == (Build(rules, genesis, bs), |bs| < n)
    && (|bs| < n ==> Unreadable(codec, db, |bs| + 1))
  }

  lemma {:induction false} ReplayReads(rules: Rules, codec: Codec, db: Store, genesis: Block, n: u64) returns (bs: seq<Block>)
    ensures ReadsUpTo(rules, codec, db, genesis, n, bs)
  {
    if n == 0 {
      bs := [];
    } else {
      var i: u64 := n - 1;
      bs := ReplayReads(rules, codec, db, genesis, i);
      if |bs| == i {
        bs := ReadsNext(rules, codec, db, genesis, bs, i, n);
      } else {
        StaysStopped(rules, codec, db, genesis, bs, i, n);
      }
    }
  }

  lemma StaysStopped(rules: Rules, codec: Codec, db: Store, genesis: Block, bs: seq<Block>, i: u64, n: u64)
    requires n == i + 1 && |bs| < i && ReadsUpTo(rules, codec, db, genesis, i, bs)
    ensures ReadsUpTo(rules, codec, db, genesis, n, bs)
  {
    ReplayStaysStopped(rules, codec, db, genesis, n, Build(rules, genesis, bs));
  }

  lemma ReplayStops(rules: Rules, codec: Codec, db: Store, genesis: Block, n: u64, st: ChainState)
    requires n > 0 && Replay(rules, codec, db, genesis, n - 1) == (st, false)
    requires GetByHeight(codec, db, n).Err? || GetByHeight(codec, db, n).value.None?
    ensures Replay(rules, codec, db, genesis, n) == (st, true)
  {
  }

  lemma ReplayStaysStopped(rules: Rules, codec: Codec, db: Store, genesis: Block, n: u64, st: ChainState)
    requires n > 0 && Replay(rules, codec, db, genesis, n - 1) == (st, true)
    ensures Replay(rules, codec, db, genesis, n) == (st, true)
  {
  }

  lemma ReadableSnoc(codec: Codec, db: Store, bs: seq<Block>, n: u64, b: Block)
    requires n == |bs| + 1 && Readable(codec, db, bs) && ReadsAs(codec, db, n, b)
    ensures Readable(codec, db, bs + [b])
  {
    forall i | 0 <= i < |bs + [b]| ensures ReadsAs(codec, db, i + 1, (bs + [b])[i]) {
      ReadAt(codec, db, bs, b, i);
    }
  }

  lemma ReadAt(codec: Codec, db: Store, bs: seq<Block>, b: Block, i: nat)
    requires i <= |bs| < U64 - 1
    requires if i < |bs| then ReadsAs(codec, db, i + 1, bs[i]) else ReadsAs(codec, db, i + 1, b)
    ensures ReadsAs(codec, db, i + 1, (bs + [b])[i])
  {
  }

  lemma ReadsNext(rules: Rules, codec: Codec, db: Store, genesis: Block, bs: seq<Block>, i: u64, n: u64) returns (more: seq<Block>)
    requires n == i + 1 && |bs| == i && ReadsUpTo(rules, codec, db, genesis, i, bs)
    ensures ReadsUpTo(rules, codec, db, genesis, n, more)
  {
    more := bs;
    match GetByHeight(codec, db, n) {
      case Ok(Some(b)) =>
        more := bs + [b];
        BuildSnoc(rules, genesis, bs, b);
        ReplayStep(rules, codec, db, genesis, n, Build(rules, genesis, bs), b);
        GetIffReads(codec, db, n, b);
        ReadableSnoc(codec, db, bs, n, b);
      case _ =>
        ReplayStops(rules, codec, db, genesis, n, Build(rules, genesis, bs));
        forall b ensures !ReadsAs(codec, db, n, b) {
          GetIffReads(codec, db, n, b);
        }
    }
  }

  /**
   Whatever a database holds, damaged or not, opening it gives the chain of the blocks it can read one
   after another from height 1, up to the saved height or the first that is missing or unreadable.
   */
  lemma OpenReads(rules: Rules, codec: Codec, db: Store, genesis: Block) returns (bs: seq<Block>)
    ensures Open(rules, codec, db, genesis) == Build(rules, genesis, bs)
    ensures |bs| <= SavedHeight(db) && Readable(codec, db, bs)
    ensures |bs| < SavedHeight(db) ==> Unreadable(codec, db, |bs| + 1)
  {
    bs := ReplayReads(rules, codec, db, genesis, SavedHeight(db));
  }

  /** No persisted block shares this one's hash. */
  ghost predicate FreshHash(rules: Rules, bs: seq<Block>, b: Block) {
    forall i :: 0 <= i < |bs| ==> HashOf(rules, bs[i]) != HashOf(rules, b)
  }

  lemma NextIsFresh(rules: Rules, bs: seq<Block>, b: Block, hs: set<BlockHeader>)
    requires InjectiveOn(rules.headerHash, hs) && Headers(bs) <= hs && b.header in hs
    requires Numbered(bs) && b.header.height == |bs| + 1
    ensures FreshHash(rules, bs, b)
  {
    forall i | 0 <= i < |bs| ensures HashOf(rules, bs[i]) != HashOf(rules, b) {
      assert bs[i].header in Headers(bs) && Apart(rules.headerHash, bs[i].header, b.header);
    }
  }

  /** A block beyond the saved height disturbs nothing below it. */
  lemma PutKeepsPersisted(rules: Rules, codec: Codec, db: Store, bs: seq<Block>, b: Block)
    requires Persisted(rules, codec, db, bs) && FreshHash(rules, bs, b) && b.header.height == |bs| + 1
    ensures Persisted(rules, codec, PutBlock(rules, codec, db, b), bs)
  {
    forall i | 0 <= i < |bs| ensures HeldAt(rules, codec, PutBlock(rules, codec, db, b), i + 1, bs[i]) {
      PutElsewhere(rules, codec, db, b, i + 1, bs[i]);
    }
  }

  lemma RecordHolds(rules: Rules, codec: Codec, db: Store, height: u64, b: Block, at: Block)
    requires (at == b && height == b.header.height) || HeldAt(rules, codec, PutBlock(rules, codec, db, b), height, at)
    ensures HeldAt(rules, codec, Record(rules, codec, db, b), height, at)
  {
  }

  lemma HeldSnoc(rules: Rules, codec: Codec, db: Store, bs: seq<Block>, b: Block, i: nat)
    requires i <= |bs| < U64 - 1
    requires if i < |bs| then HeldAt(rules, codec, db, i + 1, bs[i]) else HeldAt(rules, codec, db, i + 1, b)
    ensures HeldAt(rules, codec, db, i + 1, (bs + [b])[i])
  {
  }

  lemma RecordedAt(rules: Rules, codec: Codec, db: Store, bs: seq<Block>, b: Block, i: nat)
    requires Persisted(rules, codec, PutBlock(rules, codec, db, b), bs) && b.header.height == |bs| + 1 && i <= |bs|
    ensures HeldAt(rules, codec, Record(rules, codec, db, b), i + 1, (bs + [b])[i])
  {
    if i < |bs| {
      assert HeldAt(rules, codec, PutBlock(rules, codec, db, b), i + 1, bs[i]);
      RecordHolds(rules, codec, db, i + 1, b, bs[i]);
    } else {
      RecordHolds(rules, codec, db, i + 1, b, b);
    }
    HeldSnoc(rules, codec, Record(rules, codec, db, b), bs, b, i);
  }

  lemma RecordExtendsPersisted(rules: Rules, codec: Codec, db: Store, bs: seq<Block>, b: Block)
    requires Persisted(rules, codec, db, bs) && FreshHash(rules, bs, b) && b.header.height == |bs| + 1
    ensures Persisted(rules, codec, Record(rules, codec, db, b), bs + [b])
  {
    PutKeepsPersisted(rules, codec, db, bs, b);
    SaveLoad(PutBlock(rules, codec, db, b), b.header.height, HashOf(rules, b));
    forall i | 0 <= i < |bs + [b]| ensures HeldAt(rules, codec, Record(rules, codec, db, b), i + 1, (bs + [b])[i]) {
      RecordedAt(rules, codec, db, bs, b, i);
    }
  }

  // ---- Every run ------------------------------------------------------------------------------------

  /** Chain and database agree on the list of blocks, the genesis block apart. */
  ghost predicate InStep(rules: Rules, codec: Codec, node: Node, bs: seq<Block>, genesis: Block) {
    node.chain == Build(rules, genesis, bs) && Chained(rules, bs) && Persisted(rules, codec, node.db, bs)
  }

  function GenesisAfter(genesis: Block, ev: NodeEvent): Block {
    if ev.Offer? && ev.reach == Completed then genesis else Genesis(ev.restartTime)
  }

  lemma WrittenCases(rules: Rules, codec: Codec, node: Node, b: Block, reach: Reach, time: int)
    ensures Check(rules, node.chain, b).Some? || reach == DiesBeforePut ==> Written(rules, codec, node, b, reach) == node.db
    ensures Check(rules, node.chain, b).None? && reach == DiesBetweenWrites ==>
              Written(rules, codec, node, b, reach) == PutBlock(rules, codec, node.db, b)
    ensures Check(rules, node.chain, b).None? && reach == Completed ==>
              Written(rules, codec, node, b, reach) == Record(rules, codec, node.db, b)
    ensures KeptBy(rules, node, Offer(b, reach, time))
            == if Check(rules, node.chain, b).None? && reach == Completed then [b] else []
  {
  }

  lemma WrittenPersists(rules: Rules, codec: Codec, node: Node, bs: seq<Block>, genesis: Block, b: Block, reach: Reach, time: int,
                        hs: set<BlockHeader>)
    requires InjectiveOn(rules.headerHash, hs) && Headers(bs) <= hs && b.header in hs
    requires InStep(rules, codec, node, bs, genesis)
    ensures Persisted(rules, codec, Written(rules, codec, node, b, reach), bs + KeptBy(rules, node, Offer(b, reach, time)))
  {
    WrittenCases(rules, codec, node, b, reach, time);
    assert bs + [] == bs;
    if Check(rules, node.chain, b).None? {
      CheckFacts(rules, node.chain, b);
      BuildShape(rules, genesis, bs);
      NextIsFresh(rules, bs, b, hs);
      PutKeepsPersisted(rules, codec, node.db, bs, b);
      RecordExtendsPersisted(rules, codec, node.db, bs, b);
    }
  }

  lemma AppendBuilds(rules: Rules, codec: Codec, node: Node, bs: seq<Block>, genesis: Block, b: Block, reach: Reach, time: int)
    requires InStep(rules, codec, node, bs, genesis)
    ensures var after := bs + KeptBy(rules, node, Offer(b, reach, time));
            Chained(rules, after) && (reach == Completed ==> Append(rules, node.chain, b).0 == Build(rules, genesis, after))
  {
    WrittenCases(rules, codec, node, b, reach, time);
    assert bs + [] == bs;
    if Check(rules, node.chain, b).None? {
      TakenExtends(rules, genesis, node.chain, bs, b);
    }
  }

  lemma StepInStep(rules: Rules, codec: Codec, node: Node, bs: seq<Block>, genesis: Block, ev: NodeEvent, hs: set<BlockHeader>)
    requires InjectiveOn(rules.headerHash, hs) && Headers(bs) <= hs && (ev.Offer? ==> ev.block.header in hs)
    requires RoundTrips(codec) && InStep(rules, codec, node, bs, genesis)
    ensures InStep(rules, codec, NodeStep(rules, codec, node, ev), bs + KeptBy(rules, node, ev), GenesisAfter(genesis, ev))
  {
    assert bs + [] == bs;
    match ev {
      case Crash(time) =>
        OpenBuilds(rules, codec, node.db, Genesis(time), bs);
      case Offer(b, reach, time) =>
        WrittenPersists(rules, codec, node, bs, genesis, b, reach, time, hs);
        AppendBuilds(rules, codec, node, bs, genesis, b, reach, time);
        if reach != Completed {
          OpenBuilds(rules, codec, Written(rules, codec, node, b, reach), Genesis(time), bs);
        }
    }
  }

  lemma KeptHeaders(rules: Rules, node: Node, bs: seq<Block>, ev: NodeEvent, hs: set<BlockHeader>)
    requires Headers(bs) <= hs && (ev.Offer? ==> ev.block.header in hs)
    ensures Headers(bs + KeptBy(rules, node, ev)) <= hs
  {
    assert bs + [] == bs;
    if ev.Offer? { HeadersSnoc(bs, ev.block); }
  }

  /** From step i on the list of kept blocks only grows. */
  lemma {:induction false} StaysInStep(
    rules: Rules, codec: Codec, time: int, evs: seq<NodeEvent>, nodes: seq<Node>,
    i: nat, j: nat, was: seq<Block>, genesis: Block)
    returns (bs: seq<Block>, g: Block)
    requires InjectiveOn(rules.headerHash, OfferedHeaders(evs)) && RoundTrips(codec)
    requires IsNodeRun(rules, codec, time, evs, nodes) && i <= j < |nodes|
    requires InStep(rules, codec, nodes[i], was, genesis) && Headers(was) <= OfferedHeaders(evs)
    requires genesis.header.height == 0 && genesis.header in GenesisHeaders(time, evs)
    ensures was <= bs && InStep(rules, codec, nodes[j], bs, g) && Headers(bs) <= OfferedHeaders(evs)
    ensures g.header.height == 0 && g.header in GenesisHeaders(time, evs)
    decreases j
  {
    if i == j {
      bs, g := was, genesis;
    } else {
      var k := j - 1;
      bs, g := StaysInStep(rules, codec, time, evs, nodes, i, k, was, genesis);
      assert NodeSteps(rules, codec, nodes[k], evs[k], nodes[k + 1]);
      if evs[k].Offer? { OfferedAt(evs, k); }
      GenesisAt(time, evs, k);
      StepInStep(rules, codec, nodes[k], bs, g, evs[k], OfferedHeaders(evs));
      KeptHeaders(rules, nodes[k], bs, evs[k], OfferedHeaders(evs));
      bs, g := bs + KeptBy(rules, nodes[k], evs[k]), GenesisAfter(g, evs[k]);
    }
  }

  lemma RunInStep(rules: Rules, codec: Codec, time: int, evs: seq<NodeEvent>, nodes: seq<Node>, n: nat)
    returns (bs: seq<Block>, genesis: Block)
    requires InjectiveOn(rules.headerHash, OfferedHeaders(evs)) && RoundTrips(codec)
    requires IsNodeRun(rules, codec, time, evs, nodes) && n < |nodes|
    ensures InStep(rules, codec, nodes[n], bs, genesis) && Headers(bs) <= OfferedHeaders(evs)
    ensures genesis.header.height == 0 && genesis.header in GenesisHeaders(time, evs)
  {
    FirstGenesis(time, evs);
    bs, genesis := StaysInStep(rules, codec, time, evs, nodes, 0, n, [], Genesis(time));
  }

  function StoredAt(codec: Codec, db: Store, n: u64): seq<Block> {
    match GetByHeight(codec, db, n) { case Ok(Some(b)) => [b] case _ => [] }
  }

  /** The persisted blocks 1 to n, as the database gives them back. */
  function StoredBlocks(codec: Codec, db: Store, n: u64): seq<Block> {
    if n == 0 then [] else StoredBlocks(codec, db, n - 1) + StoredAt(codec, db, n)
  }

  lemma StoredSnoc(codec: Codec, db: Store, init: seq<Block>, n: u64, b: Block)
    requires n > 0 && StoredBlocks(codec, db, n - 1) == init && GetByHeight(codec, db, n) == Ok(Some(b))
    ensures StoredBlocks(codec, db, n) == init + [b]
  {
  }

  lemma {:induction false} PersistedIsStored(rules: Rules, codec: Codec, db: Store, bs: seq<Block>, n: u64)
    requires RoundTrips(codec) && Persisted(rules, codec, db, bs) && n <= |bs|
    ensures StoredBlocks(codec, db, n) == bs[..n]
  {
    if n > 0 {
      PersistedIsStored(rules, codec, db, bs, n - 1);
      PersistedIsRead(rules, codec, db, bs, n);
      StoredSnoc(codec, db, bs[..n - 1], n, bs[n - 1]);
      TakeSnoc(bs, n);
    }
  }

  /** The database gives back exactly the list, up to the saved height. */
  lemma StoredIsAll(rules: Rules, codec: Codec, db: Store, bs: seq<Block>)
    requires RoundTrips(codec) && Persisted(rules, codec, db, bs)
    ensures SavedHeight(db) == |bs| && StoredBlocks(codec, db, SavedHeight(db)) == bs
  {
    PersistedIsStored(rules, codec, db, bs, |bs|);
    assert bs[..|bs|] == bs;
  }

  function SavedHeight(db: Store): u64 {
    match LoadState(db) { case Ok(Some((height, _))) => height case _ => 0 }
  }

  /** Reopened now, the chain is that of exactly the saved number of persisted blocks. */
  ghost predicate RestoresStored(rules: Rules, codec: Codec, node: Node, restartTime: int) {
    var stored := StoredBlocks(codec, node.db, SavedHeight(node.db));
    && |stored| == SavedHeight(node.db) == node.chain.height
    && Open(rules, codec, node.db, Genesis(restartTime)) == Build(rules, Genesis(restartTime), stored)
  }

  /** The chain `again` differs from `st` in its genesis block at most. */
  ghost predicate SameButGenesis(again: ChainState, st: ChainState) {
    && again.height == st.height && again.accounts == st.accounts
    && (forall i :: 0 < i ==> BlockAt(again, i) == BlockAt(st, i))
    && (again.height > 0 ==> again.tip == st.tip)
  }

  lemma BuiltSameButGenesis(rules: Rules, g: Block, h: Block, bs: seq<Block>)
    requires HashesApart(rules, g, bs) && HashesApart(rules, h, bs)
    requires g.header.height == h.header.height == 0 && Numbered(bs)
    ensures SameButGenesis(Build(rules, h, bs), Build(rules, g, bs))
  {
    GenesisForgotten(rules, g, h, bs);
    BuildShape(rules, g, bs);
    BuildShape(rules, h, bs);
    forall i | 0 < i ensures BlockAt(Build(rules, h, bs), i) == BlockAt(Build(rules, g, bs), i) {
      BuildBlockAt(rules, g, bs, i);
      BuildBlockAt(rules, h, bs, i);
    }
  }

  /** Every block above genesis is there, and each of its transactions was verified. */
  ghost predicate VerifiedAboveGenesis(rules: Rules, st: ChainState) {
    forall i :: 0 < i <= st.height ==> BlockAt(st, i).Some? && AllVerified(rules, BlockAt(st, i).value.transactions)
  }

  lemma BuiltVerified(rules: Rules, genesis: Block, bs: seq<Block>)
    requires HashesApart(rules, genesis, bs) && genesis.header.height == 0 && Numbered(bs) && BlocksVerified(rules, bs)
    ensures VerifiedAboveGenesis(rules, Build(rules, genesis, bs))
  {
    BuildShape(rules, genesis, bs);
    forall i | 0 < i <= |bs| ensures BlockAt(Build(rules, genesis, bs), i) == Some(bs[i - 1]) && VerifiedAt(rules, bs, i - 1) {
      BuildBlockAt(rules, genesis, bs, i);
    }
  }

  /** All headers of a run: those offered, and those of the genesis blocks up to the next start. */
  function RunHeaders(time: int, evs: seq<NodeEvent>, restartTime: int): set<BlockHeader> {
    OfferedHeaders(evs) + GenesisHeaders(time, evs) + {Genesis(restartTime).header}
  }

  ghost predicate RunHashesApart(rules: Rules, time: int, evs: seq<NodeEvent>, restartTime: int) {
    forall x, y {:trigger Apart(rules.headerHash, x, y)} ::
      x in RunHeaders(time, evs, restartTime) && y in RunHeaders(time, evs, restartTime) ==> Apart(rules.headerHash, x, y)
  }

  ghost predicate OfferedHashesApart(rules: Rules, evs: seq<NodeEvent>) {
    forall x, y {:trigger Apart(rules.headerHash, x, y)} ::
      x in OfferedHeaders(evs) && y in OfferedHeaders(evs) ==> Apart(rules.headerHash, x, y)
  }

  lemma RunHashesApartMeans(rules: Rules, time: int, evs: seq<NodeEvent>, restartTime: int)
    ensures RunHashesApart(rules, time, evs, restartTime)
            <==> InjectiveOn(rules.headerHash, RunHeaders(time, evs, restartTime))
  {
  }

  /**
   After any run with any number of crashes, stopping now and opening the database again gives the
   chain of exactly the persisted blocks up to the saved height; it equals the running chain in
   height, accounts, every block above genesis and, when there is one, the tip, and every transaction
   of these blocks was verified.  Only a hash collision between headers of this very run could prevent it.
   */
  lemma CrashRecovery(rules: Rules, codec: Codec, time: int, evs: seq<NodeEvent>, nodes: seq<Node>, n: nat, restartTime: int)
    requires RunHashesApart(rules, time, evs, restartTime)
    requires RoundTrips(codec) && IsNodeRun(rules, codec, time, evs, nodes) && n < |nodes|
    ensures RestoresStored(rules, codec, nodes[n], restartTime)
    ensures SameButGenesis(Open(rules, codec, nodes[n].db, Genesis(restartTime)), nodes[n].chain)
    ensures VerifiedAboveGenesis(rules, Open(rules, codec, nodes[n].db, Genesis(restartTime)))
  {
    RunHashesApartMeans(rules, time, evs, restartTime);
    var bs, g := RunInStep(rules, codec, time, evs, nodes, n);
    OpenBuilds(rules, codec, nodes[n].db, Genesis(restartTime), bs);
    BuiltSameButGenesis(rules, g, Genesis(restartTime), bs);
    BuildShape(rules, g, bs);
    StoredIsAll(rules, codec, nodes[n].db, bs);
    BuiltVerified(rules, Genesis(restartTime), bs);
  }

  /** A header hash as these results ask for exists for every run of fewer than 2^254 events. */
  lemma RunHashesCanBeApart(rules: Rules, time: int, evs: seq<NodeEvent>, restartTime: int) returns (some: Rules)
    requires 2 * |evs| + 2 <= Pow(256, 32)
    ensures RunHashesApart(some, time, evs, restartTime) && OfferedHashesApart(some, evs)
    ensures some == rules.(headerHash := some.headerHash)
  {
    HeadersCount(OfferedBlocks(evs));
    HeadersCount(GenesisBlocks(time, evs));
    var f := InjectiveHashExists(RunHeaders(time, evs, restartTime));
    some := rules.(headerHash := f);
    RunHashesApartMeans(some, time, evs, restartTime);
  }

  // ---- No key image is spent twice, crashes or not -----------------------------------------------------

  lemma {:induction false} ImagesGrow(bs: seq<Block>, n: nat)
    requires n <= |bs|
    ensures SetOf(ChainKeyImages(bs[..n])) <= SetOf(ChainKeyImages(bs))
  {
    if n < |bs| {
      var init := bs[..|bs| - 1];
      ImagesGrow(init, n);
      assert init[..n] == bs[..n];
      SetOfConcat(ChainKeyImages(init), KeyImages(bs[|bs| - 1].transactions));
    } else {
      assert bs[..n] == bs;
    }
  }

  lemma SpentIsRefused(rules: Rules, st: ChainState, b: Block, k: Bytes)
    requires k in st.accounts.spent && k in KeyImages(b.transactions)
    ensures Append(rules, st, b).1.Some?
  {
    assert k in SetOf(KeyImages(b.transactions));
    if Check(rules, st, b).None? {
      CheckFacts(rules, st, b);
      ValidatedUnspent(rules, st, b.transactions);
      assert false;
    }
  }

  /**
   A key image spent in a block taken by step i, hence covered by the saved height, is refused in
   every block offered later, whatever blocks came and however often the node died in between.
   */
  lemma SpentForGood(
    rules: Rules, codec: Codec, time: int, evs: seq<NodeEvent>, nodes: seq<Node>, i: nat, j: nat, k: Bytes, b: Block)
    requires OfferedHashesApart(rules, evs) && RoundTrips(codec)
    requires IsNodeRun(rules, codec, time, evs, nodes) && i <= j < |nodes|
    requires k in nodes[i].chain.accounts.spent && k in KeyImages(b.transactions)
    ensures Append(rules, nodes[j].chain, b).1.Some?
  {
    assert InjectiveOn(rules.headerHash, OfferedHeaders(evs));
    var kept, g := RunInStep(rules, codec, time, evs, nodes, i);
    BuildSpent(rules, g, kept);
    var all, h := StaysInStep(rules, codec, time, evs, nodes, i, j, kept, g);
    KeptStaySpent(rules, h, kept, all, k);
    SpentIsRefused(rules, nodes[j].chain, b, k);
  }

  lemma KeptStaySpent(rules: Rules, genesis: Block, kept: seq<Block>, all: seq<Block>, k: Bytes)
    requires kept <= all && k in ChainKeyImages(kept)
    ensures k in Build(rules, genesis, all).accounts.spent
  {
    assert kept == all[..|kept|];
    ImagesGrow(all, |kept|);
    BuildSpent(rules, genesis, all);
    assert k in SetOf(ChainKeyImages(kept));
  }
}
