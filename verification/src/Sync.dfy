/** Block sync: request serving, the catch-up loop and block application of `src/main.rs`. */
module Sync {
  import opened Common
  import opened Blocks
  import opened Ledger
  import opened ChainNode

  const BLOCKS_PER_BATCH: nat := 100

  datatype BlockRequest = BlockRequest(fromHeight: nat, toHeight: nat, requestId: nat)

  // ---- The seed ----------------------------------------------------------------------------

  /** The blocks at heights from..=end, at most `limit` heights, missing ones left out. */
  function BlocksFrom(st: ChainState, from: nat, end: nat, limit: nat): seq<Block>
    decreases limit
  {
    if from > end || limit == 0 then []
    else Found(st, from) + BlocksFrom(st, from + 1, end, limit - 1)
  }

  function Serve(st: ChainState, req: BlockRequest): seq<Block> {
    BlocksFrom(st, req.fromHeight, Min(req.toHeight, st.height), BLOCKS_PER_BATCH)
  }

  /** What the inbound handler answers to a request. */
  method ServeRequest(chain: Chain, req: BlockRequest) returns (blocks: seq<Block>)
    ensures blocks == Serve(chain.State(), req)
  {
    ghost var st := chain.State();
    blocks := [];
    var end := Min(req.toHeight, chain.height);
    var h: nat, limit: nat := req.fromHeight, BLOCKS_PER_BATCH;
    while h <= end && limit > 0
      invariant blocks + BlocksFrom(st, h, end, limit) == Serve(st, req)
      decreases limit
    {
      ghost var rest := BlocksFrom(st, h + 1, end, limit - 1);
      assert BlocksFrom(st, h, end, limit) == Found(st, h) + rest;
      assert blocks + (Found(st, h) + rest) == (blocks + Found(st, h)) + rest;
      var b := chain.At(h);
      if b.Some? { blocks := blocks + [b.value]; } else { assert blocks + [] == blocks; }
      h, limit := h + 1, limit - 1;
    }
  }

  /** This chain has at least `height` blocks, and up to there they are those of `bs`. */
  ghost predicate Serving(st: ChainState, bs: seq<Block>, height: nat) {
    height <= |bs| && height <= st.height && forall h :: 1 <= h <= height ==> BlockAt(st, h) == Some(bs[h - 1])
  }

  /** A chain built from a list serves each of its prefixes. */
  lemma BuiltServes(rules: Rules, genesis: Block, list: seq<Block>, bs: seq<Block>, height: nat)
    requires HashesApart(rules, genesis, list) && genesis.header.height == 0 && Numbered(list)
    requires bs <= list && height <= |bs|
    ensures Serving(Build(rules, genesis, list), bs, height)
  {
    BuildShape(rules, genesis, list);
    forall h | 1 <= h <= height ensures BlockAt(Build(rules, genesis, list), h) == Some(bs[h - 1]) {
      BuildBlockAt(rules, genesis, list, h);
    }
  }

  lemma {:induction false} ServesSlice(st: ChainState, bs: seq<Block>, height: nat, from: nat, end: nat, limit: nat)
    requires Serving(st, bs, height) && 1 <= from <= end + 1 && end <= height && end + 1 - from <= limit
    ensures BlocksFrom(st, from, end, limit) == bs[from - 1..end]
    decreases limit
  {
    if from <= end {
      ServesSlice(st, bs, height, from + 1, end, limit - 1);
      assert BlockAt(st, from) == Some(bs[from - 1]);
    }
  }

  /** A chain's blocks by height, the genesis block first. */
  function All(genesis: Block, bs: seq<Block>): seq<Block> {
    [genesis] + bs
  }

  lemma {:induction false} FoundFrom(rules: Rules, genesis: Block, bs: seq<Block>, from: nat, end: nat, limit: nat)
    requires HashesApart(rules, genesis, bs) && genesis.header.height == 0 && Numbered(bs)
    requires from <= end + 1 && end <= |bs|
    ensures BlocksFrom(Build(rules, genesis, bs), from, end, limit) == All(genesis, bs)[from..Min(end + 1, from + limit)]
    decreases limit
  {
    if from <= end && limit > 0 {
      FoundFrom(rules, genesis, bs, from + 1, end, limit - 1);
      BuildBlockAt(rules, genesis, bs, from);
      assert All(genesis, bs)[from] == if from == 0 then genesis else bs[from - 1];
      FirstOfSlice(All(genesis, bs), from, Min(end + 1, from + limit));
    }
  }

  lemma FirstOfSlice(all: seq<Block>, i: nat, j: nat)
    requires i < j <= |all|
    ensures all[i..j] == [all[i]] + all[i + 1..j]
  {
  }

  /**
   The answer to any request, however far off: the chain's blocks from the height asked for on, at most
   a hundred of them, none above the asked one or the chain's own, and none if that leaves nothing.
   */
  lemma ServesAny(rules: Rules, genesis: Block, bs: seq<Block>, req: BlockRequest)
    requires HashesApart(rules, genesis, bs) && genesis.header.height == 0 && Numbered(bs)
    ensures var end := Min(Min(req.toHeight, |bs|), req.fromHeight + 99);
            Serve(Build(rules, genesis, bs), req)
            == if req.fromHeight <= end then All(genesis, bs)[req.fromHeight..end + 1] else []
  {
    BuildShape(rules, genesis, bs);
    var end := Min(req.toHeight, |bs|);
    if req.fromHeight <= end + 1 {
      FoundFrom(rules, genesis, bs, req.fromHeight, end, BLOCKS_PER_BATCH);
    }
  }

  // ---- The client ------------------------------------------------------------------------------

  /** Request i asks for the i-th hundred heights after `height`, the last one cut at the seed's height. */
  ghost predicate Tiles(requests: seq<BlockRequest>, height: nat, seedHeight: nat) {
    forall i :: 0 <= i < |requests| ==> requests[i] == Batch(i, height, seedHeight)
  }

  function Batch(i: nat, height: nat, seedHeight: nat): BlockRequest {
    BlockRequest(height + BLOCKS_PER_BATCH * i + 1, Min(height + BLOCKS_PER_BATCH * (i + 1), seedHeight), i)
  }

  /** Where the loop stands after some answered requests. */
  ghost predicate Progress(requests: seq<BlockRequest>, sent: seq<Block>, next: nat, height: nat, seedHeight: nat, bs: seq<Block>)
    requires height <= seedHeight <= |bs|
  {
    && next == Min(height + BLOCKS_PER_BATCH * |requests|, seedHeight) + 1
    && Tiles(requests, height, seedHeight) && sent == bs[height..next - 1]
  }

  function NextRequest(next: nat, seedHeight: nat, id: nat): BlockRequest {
    BlockRequest(next, Min(next + BLOCKS_PER_BATCH - 1, seedHeight), id)
  }

  lemma NextTile(requests: seq<BlockRequest>, sent: seq<Block>, next: nat, height: nat, seedHeight: nat, bs: seq<Block>)
    requires height <= seedHeight <= |bs| && next <= seedHeight
    requires Progress(requests, sent, next, height, seedHeight, bs)
    ensures var req := NextRequest(next, seedHeight, |requests|);
            && Tiles(requests + [req], height, seedHeight)
            && req.toHeight == Min(height + BLOCKS_PER_BATCH * (|requests| + 1), seedHeight)
  {
  }

  lemma NextBatch(requests: seq<BlockRequest>, sent: seq<Block>, next: nat, height: nat, seedHeight: nat, bs: seq<Block>, st: ChainState)
    requires height <= seedHeight <= |bs| && 0 < next <= seedHeight && Serving(st, bs, seedHeight)
    requires Progress(requests, sent, next, height, seedHeight, bs)
    ensures var req := NextRequest(next, seedHeight, |requests|);
            Progress(requests + [req], sent + Serve(st, req), req.toHeight + 1, height, seedHeight, bs)
  {
    var req := NextRequest(next, seedHeight, |requests|);
    NextTile(requests, sent, next, height, seedHeight, bs);
    AnswersBatch(st, bs, seedHeight, req);
    Adjacent(bs, height, next - 1, req.toHeight);
  }

  /** Enough batches leave no gap and no overlap: every height is asked for, each in one batch. */
  lemma TilesCover(requests: seq<BlockRequest>, height: nat, seedHeight: nat, h: nat) returns (i: nat)
    requires Tiles(requests, height, seedHeight) && BLOCKS_PER_BATCH * |requests| >= seedHeight - height
    requires height < h <= seedHeight
    ensures i < |requests| && requests[i].fromHeight <= h <= requests[i].toHeight
    ensures forall j :: 0 <= j < |requests| && j != i ==> !(requests[j].fromHeight <= h <= requests[j].toHeight)
  {
    i := (h - height - 1) / BLOCKS_PER_BATCH;
    assert requests[i] == Batch(i, height, seedHeight);
    forall j | 0 <= j < |requests| && j != i ensures !(requests[j].fromHeight <= h <= requests[j].toHeight) {
      assert requests[j] == Batch(j, height, seedHeight);
    }
  }

  lemma AnswersBatch(st: ChainState, bs: seq<Block>, seedHeight: nat, req: BlockRequest)
    requires Serving(st, bs, seedHeight) && 1 <= req.fromHeight <= req.toHeight + 1
    requires req.toHeight <= seedHeight && req.toHeight < req.fromHeight + BLOCKS_PER_BATCH
    ensures Serve(st, req) == bs[req.fromHeight - 1..req.toHeight]
  {
    ServesSlice(st, bs, seedHeight, req.fromHeight, req.toHeight, BLOCKS_PER_BATCH);
  }

  lemma Adjacent(bs: seq<Block>, i: nat, j: nat, k: nat)
    requires i <= j <= k <= |bs|
    ensures bs[i..j] + bs[j..k] == bs[i..k]
  {
  }

  /**
   The catch-up loop.  `replies[i]` is the seed's chain when request i reaches it, which may have
   grown in between; when they run out the connection is lost.
   */
  method CatchUp(height: nat, seedHeight: nat, replies: seq<ChainState>, ghost bs: seq<Block>)
    returns (requests: seq<BlockRequest>, sent: seq<Block>)
    requires height <= seedHeight <= |bs|
    requires forall i :: 0 <= i < |replies| ==> Serving(replies[i], bs, seedHeight)
    ensures Tiles(requests, height, seedHeight)
    ensures sent == bs[height..Min(height + BLOCKS_PER_BATCH * |replies|, seedHeight)]
    ensures BLOCKS_PER_BATCH * |replies| >= seedHeight - height ==> BLOCKS_PER_BATCH * |requests| >= seedHeight - height
  {
    requests, sent := [], [];
    var next, reqId := height + 1, 0;
    while next <= seedHeight
      invariant reqId == |requests| <= |replies|
      invariant next > 0 && Progress(requests, sent, next, height, seedHeight, bs)
    {
      var req := NextRequest(next, seedHeight, reqId);
      if reqId == |replies| {
        NextTile(requests, sent, next, height, seedHeight, bs);
        return requests + [req], sent;
      }
      var blocks := Serve(replies[reqId], req);
      NextBatch(requests, sent, next, height, seedHeight, bs, replies[reqId]);
      requests := requests + [req];
      reqId := reqId + 1;
      sent := sent + blocks;
      next := req.toHeight + 1;
    }
  }

  /** The database, if there is one. */
  function Stores(chain: Chain): set<object> {
    if chain.db.Some? then {chain.db.value} else {}
  }

  /** It files blocks under the same hashes as the chain. */
  ghost predicate WritesOwnHashes(chain: Chain) {
    chain.db.Some? ==> chain.db.value.rules == chain.rules
  }

  function AppendAll(rules: Rules, st: ChainState, offered: seq<Block>): ChainState {
    if offered == [] then st
    else Append(rules, AppendAll(rules, st, offered[..|offered| - 1]), offered[|offered| - 1]).0
  }

  /** The node's loop over received blocks: each is offered to the chain, errors are dropped. */
  method ApplyAll(chain: Chain, blocks: seq<Block>)
    requires WritesOwnHashes(chain)
    modifies chain, Stores(chain)
    ensures chain.State() == AppendAll(chain.rules, old(chain.State()), blocks)
  {
    for i := 0 to |blocks|
      invariant chain.State() == AppendAll(chain.rules, old(chain.State()), blocks[..i])
    {
      assert blocks[..i + 1][..i] == blocks[..i];
      var _ := chain.AppendBlock(blocks[i]);
    }
    assert blocks[..|blocks|] == blocks;
  }

  // ---- Safety ------------------------------------------------------------------------------------

  /**
   Whatever blocks of the seed's chain arrive, lost, repeated or out of order, the client stays on a
   prefix of that chain and never goes back.
   */
  lemma {:induction false} StaysPrefix(rules: Rules, genesis: Block, bs: seq<Block>, have: nat, offered: seq<Block>) returns (n: nat)
    requires Chained(rules, bs) && have <= |bs| && forall i :: 0 <= i < |offered| ==> offered[i] in bs
    ensures have <= n <= |bs|
    ensures AppendAll(rules, Build(rules, genesis, bs[..have]), offered) == Build(rules, genesis, bs[..n])
  {
    n := have;
    if offered != [] {
      var init, b := offered[..|offered| - 1], offered[|offered| - 1];
      n := StaysPrefix(rules, genesis, bs, have, init);
      var st := Build(rules, genesis, bs[..n]);
      if Check(rules, st, b).None? {
        TakesNext(rules, genesis, bs, n, b);
        n := n + 1;
      }
    }
  }

  /** A block of the list that the client takes is the next one. */
  lemma TakesNext(rules: Rules, genesis: Block, bs: seq<Block>, n: nat, b: Block)
    requires Numbered(bs) && n <= |bs| && b in bs && Check(rules, Build(rules, genesis, bs[..n]), b).None?
    ensures n < |bs| && b == bs[n]
    ensures Append(rules, Build(rules, genesis, bs[..n]), b).0 == Build(rules, genesis, bs[..n + 1])
  {
    var init := bs[..n];
    CheckFacts(rules, Build(rules, genesis, init), b);
    BuildShape(rules, genesis, init);
    AtItsHeight(bs, b);
    BuildSnoc(rules, genesis, init, b);
    assert init + [b] == bs[..n + 1];
  }

  lemma AtItsHeight(bs: seq<Block>, b: Block)
    requires Numbered(bs) && b in bs
    ensures 1 <= b.header.height <= |bs| && bs[b.header.height - 1] == b
  {
  }

  // ---- Convergence ---------------------------------------------------------------------------------

  /** Each block of the list passes every check on top of its predecessors. */
  ghost predicate Admissible(rules: Rules, genesis: Block, bs: seq<Block>) {
    forall n :: 0 <= n < |bs| ==> PassesAt(rules, genesis, bs, n)
  }

  ghost predicate PassesAt(rules: Rules, genesis: Block, bs: seq<Block>, n: nat)
    requires n < |bs|
  {
    Check(rules, Build(rules, genesis, bs[..n]), bs[n]).None?
  }

  lemma AdmissibleGrows(rules: Rules, genesis: Block, bs: seq<Block>, b: Block)
    requires Admissible(rules, genesis, bs) && Check(rules, Build(rules, genesis, bs), b).None?
    ensures Admissible(rules, genesis, bs + [b])
  {
    var all := bs + [b];
    forall n | 0 <= n < |all| ensures PassesAt(rules, genesis, all, n) {
      if n < |bs| {
        assert PassesAt(rules, genesis, bs, n);
        assert all[..n] == bs[..n];
      } else {
        assert all[..n] == bs;
      }
    }
  }

  /** `st` is the chain of `bs`, which is such a list and was offered in the run. */
  ghost predicate Seed(rules: Rules, genesis: Block, offered: seq<Block>, st: ChainState, bs: seq<Block>) {
    Holds(rules, genesis, st, bs) && Admissible(rules, genesis, bs) && Headers(bs) <= Headers(offered)
  }

  lemma SeedTakes(rules: Rules, genesis: Block, offered: seq<Block>, st: ChainState, bs: seq<Block>, i: nat)
    requires Seed(rules, genesis, offered, st, bs) && i < |offered|
    ensures Seed(rules, genesis, offered, Append(rules, st, offered[i]).0, bs + Taken(rules, st, offered[i]))
  {
    AppendHolds(rules, genesis, st, bs, offered[i]);
    if Check(rules, st, offered[i]).None? {
      AdmissibleGrows(rules, genesis, bs, offered[i]);
      HeadersSnoc(bs, offered[i]);
    } else {
      assert bs + Taken(rules, st, offered[i]) == bs;
    }
  }

  /** A seed's chain is such a list, however it came about, and only ever grows at its end. */
  lemma {:induction false} SeedGrows(
    rules: Rules, genesis: Block, offered: seq<Block>, states: seq<ChainState>, m: nat, bs: seq<Block>, n: nat)
    returns (more: seq<Block>)
    requires IsLedgerRun(rules, genesis, offered, states) && m <= n <= |offered|
    requires Seed(rules, genesis, offered, states[m], bs)
    ensures Seed(rules, genesis, offered, states[n], more) && bs <= more
    decreases n
  {
    if n == m {
      more := bs;
    } else {
      var i := n - 1;
      more := SeedGrows(rules, genesis, offered, states, m, bs, i);
      assert Offers(rules, states[i], offered[i], states[i + 1]);
      SeedTakes(rules, genesis, offered, states[i], more, i);
      more := more + Taken(rules, states[i], offered[i]);
    }
  }

  lemma SeedAdmissible(rules: Rules, genesis: Block, offered: seq<Block>, states: seq<ChainState>, n: nat)
    returns (bs: seq<Block>)
    requires IsLedgerRun(rules, genesis, offered, states) && n <= |offered|
    ensures Seed(rules, genesis, offered, states[n], bs)
  {
    bs := SeedGrows(rules, genesis, offered, states, 0, [], n);
  }

  /** Whatever the seed appends later, it goes on serving the blocks it had. */
  lemma SeedServes(
    rules: Rules, genesis: Block, offered: seq<Block>, states: seq<ChainState>, m: nat, bs: seq<Block>, n: nat)
    requires IsLedgerRun(rules, genesis, offered, states) && m <= n <= |offered|
    requires HashesApart(rules, genesis, offered) && genesis.header.height == 0
    requires Seed(rules, genesis, offered, states[m], bs)
    ensures Serving(states[n], bs, |bs|)
  {
    var more := SeedGrows(rules, genesis, offered, states, m, bs, n);
    InjectiveOnPart(rules.headerHash, {genesis.header} + Headers(more), {genesis.header} + Headers(offered));
    BuiltServes(rules, genesis, more, bs, |bs|);
  }

  /** Only the first block can tell which genesis it is checked on. */
  lemma CheckForgetsGenesis(rules: Rules, g: Block, h: Block, bs: seq<Block>, b: Block)
    requires bs != [] || HashOf(rules, g) == HashOf(rules, h)
    ensures Check(rules, Build(rules, g, bs), b) == Check(rules, Build(rules, h, bs), b)
  {
    BuildShape(rules, g, bs);
    BuildShape(rules, h, bs);
    GenesisForgotten(rules, g, h, bs);
    SameValidation(rules, Build(rules, g, bs), Build(rules, h, bs), b.transactions);
  }

  lemma {:induction false} SameValidation(rules: Rules, st: ChainState, su: ChainState, txs: seq<Transaction>)
    requires st.accounts == su.accounts
    ensures ValidateTxs(rules, st, txs) == ValidateTxs(rules, su, txs)
  {
    if txs != [] { SameValidation(rules, st, su, txs[..|txs| - 1]); }
  }

  lemma AppendAllSnoc(rules: Rules, st: ChainState, offered: seq<Block>, b: Block)
    ensures AppendAll(rules, st, offered + [b]) == Append(rules, AppendAll(rules, st, offered), b).0
  {
    assert (offered + [b])[..|offered|] == offered;
  }

  lemma SliceSnoc(bs: seq<Block>, i: nat, j: nat)
    requires i <= j < |bs|
    ensures bs[i..j] + [bs[j]] == bs[i..j + 1]
  {
  }

  lemma TakesOne(rules: Rules, seedGenesis: Block, genesis: Block, bs: seq<Block>, n: nat)
    requires Admissible(rules, seedGenesis, bs) && n < |bs|
    requires n > 0 || HashOf(rules, genesis) == HashOf(rules, seedGenesis)
    ensures Append(rules, Build(rules, genesis, bs[..n]), bs[n]).0 == Build(rules, genesis, bs[..n + 1])
  {
    var init := bs[..n];
    assert PassesAt(rules, seedGenesis, bs, n);
    CheckForgetsGenesis(rules, seedGenesis, genesis, init, bs[n]);
    BuildShape(rules, genesis, init);
    BuildSnoc(rules, genesis, init, bs[n]);
    assert init + [bs[n]] == bs[..n + 1];
  }

  ghost predicate TakenUpTo(rules: Rules, st: ChainState, genesis: Block, bs: seq<Block>, have: nat, to: nat)
    requires have <= to <= |bs|
  {
    AppendAll(rules, st, bs[have..to]) == Build(rules, genesis, bs[..to])
  }

  lemma TakesNextOffered(rules: Rules, st: ChainState, offered: seq<Block>, b: Block, before: ChainState, after: ChainState)
    requires AppendAll(rules, st, offered) == before && Append(rules, before, b).0 == after
    ensures AppendAll(rules, st, offered + [b]) == after
  {
    AppendAllSnoc(rules, st, offered, b);
  }

  lemma TakenOneMore(rules: Rules, seedGenesis: Block, genesis: Block, bs: seq<Block>, have: nat, to: nat, st: ChainState)
    requires Admissible(rules, seedGenesis, bs) && have <= to < |bs| && TakenUpTo(rules, st, genesis, bs, have, to)
    requires have > 0 || HashOf(rules, genesis) == HashOf(rules, seedGenesis)
    ensures TakenUpTo(rules, st, genesis, bs, have, to + 1)
  {
    TakesOne(rules, seedGenesis, genesis, bs, to);
    TakesNextOffered(rules, st, bs[have..to], bs[to], Build(rules, genesis, bs[..to]), Build(rules, genesis, bs[..to + 1]));
    SliceSnoc(bs, have, to);
  }

  /** Offered the rest of an admissible chain in order, a client on a prefix takes all of it. */
  lemma {:induction false} TakesRest(
    rules: Rules, seedGenesis: Block, genesis: Block, bs: seq<Block>, have: nat, to: nat, st: ChainState)
    requires Admissible(rules, seedGenesis, bs) && have <= to <= |bs| && st == Build(rules, genesis, bs[..have])
    requires have > 0 || HashOf(rules, genesis) == HashOf(rules, seedGenesis)
    ensures TakenUpTo(rules, st, genesis, bs, have, to)
  {
    if have < to {
      TakesRest(rules, seedGenesis, genesis, bs, have, to - 1, st);
      TakenOneMore(rules, seedGenesis, genesis, bs, have, to - 1, st);
    } else {
      assert bs[have..to] == [];
    }
  }

  lemma OtherGenesisRefuses(rules: Rules, genesis: Block, bs: seq<Block>, b: Block)
    requires bs != [] && bs[0].header.prevHash != HashOf(rules, genesis)
    requires b.header.height == 1 ==> b == bs[0]
    ensures Check(rules, NewChain(rules, genesis), b).Some?
  {
  }

  /** A fresh client on another genesis takes nothing of the seed's chain, in whatever order it comes. */
  lemma {:induction false} OtherGenesisTakesNothing(rules: Rules, genesis: Block, bs: seq<Block>, offered: seq<Block>)
    requires Numbered(bs) && bs != [] && bs[0].header.prevHash != HashOf(rules, genesis)
    requires forall i :: 0 <= i < |offered| ==> offered[i] in bs
    ensures AppendAll(rules, NewChain(rules, genesis), offered) == NewChain(rules, genesis)
  {
    if offered != [] {
      var b := offered[|offered| - 1];
      OtherGenesisTakesNothing(rules, genesis, bs, offered[..|offered| - 1]);
      AtItsHeight(bs, b);
      OtherGenesisRefuses(rules, genesis, bs, b);
    }
  }

  /**
   A fresh client catches up with a seed exactly when its own genesis block has the hash the seed's
   first block names.  As genesis blocks carry the time of their creation, that takes the same
   millisecond: see SameGenesisSameTime.
   */
  lemma FreshClientConverges(rules: Rules, seedGenesis: Block, genesis: Block, bs: seq<Block>, seedHeight: nat)
    requires Admissible(rules, seedGenesis, bs) && Numbered(bs) && 0 < seedHeight <= |bs|
    ensures AppendAll(rules, NewChain(rules, genesis), bs[..seedHeight]).height == seedHeight
            <==> HashOf(rules, genesis) == HashOf(rules, seedGenesis)
  {
    assert bs[..0] == [] && bs[0..seedHeight] == bs[..seedHeight];
    assert PassesAt(rules, seedGenesis, bs, 0);
    CheckFacts(rules, NewChain(rules, seedGenesis), bs[0]);
    if HashOf(rules, genesis) == HashOf(rules, seedGenesis) {
      TakesRest(rules, seedGenesis, genesis, bs, 0, seedHeight, NewChain(rules, genesis));
      BuildShape(rules, genesis, bs[..seedHeight]);
    } else {
      OtherGenesisTakesNothing(rules, genesis, bs, bs[..seedHeight]);
    }
  }

  lemma SameGenesisSameTime(rules: Rules, t: int, u: int)
    requires InjectiveOn(rules.headerHash, {Genesis(t).header, Genesis(u).header})
    ensures HashOf(rules, Genesis(t)) == HashOf(rules, Genesis(u)) <==> t == u
  {
    assert Apart(rules.headerHash, Genesis(t).header, Genesis(u).header);
  }

  /**
   One undisturbed sync: a client on a prefix of the seed's chain ends at the height the seed
   announced, with exactly the seed's blocks.
   */
  method SyncFrom(chain: Chain, ghost seedGenesis: Block, ghost genesis: Block, ghost bs: seq<Block>,
                  seedHeight: nat, replies: seq<ChainState>)
    requires WritesOwnHashes(chain) && chain.height <= seedHeight <= |bs|
    requires Admissible(chain.rules, seedGenesis, bs)
    requires chain.State() == Build(chain.rules, genesis, bs[..chain.height])
    requires chain.height > 0 || HashOf(chain.rules, genesis) == HashOf(chain.rules, seedGenesis)
    requires forall i :: 0 <= i < |replies| ==> Serving(replies[i], bs, seedHeight)
    requires BLOCKS_PER_BATCH * |replies| >= seedHeight - chain.height
    modifies chain, Stores(chain)
    ensures chain.State() == Build(chain.rules, genesis, bs[..seedHeight]) && chain.height == seedHeight
  {
    ghost var have := chain.height;
    var _, blocks := CatchUp(chain.height, seedHeight, replies, bs);
    ApplyAll(chain, blocks);
    TakesRest(chain.rules, seedGenesis, genesis, bs, have, seedHeight, old(chain.State()));
    assert TakenUpTo(chain.rules, old(chain.State()), genesis, bs, have, seedHeight);
    BuildShape(chain.rules, genesis, bs[..seedHeight]);
  }

  /** The list of a run's state is what the state gives back. */
  lemma SeedBlocks(rules: Rules, genesis: Block, offered: seq<Block>, st: ChainState, bs: seq<Block>, n: nat)
    requires HashesApart(rules, genesis, offered) && genesis.header.height == 0
    requires Seed(rules, genesis, offered, st, bs) && n <= st.height
    ensures st.height == |bs| && BlocksOf(st, n) == bs[..n]
  {
    BuildShape(rules, genesis, bs);
    InjectiveOnPart(rules.headerHash, {genesis.header} + Headers(bs), {genesis.header} + Headers(offered));
    BlocksOfBuild(rules, genesis, bs, n);
  }

  /**
   The same with a seed that is any run of appends, announces its height after `hello` of them and
   goes on appending while it answers: `times[i]` is how far it is when request i reaches it.
   */
  method SyncFromRun(chain: Chain, ghost genesis: Block, seedHeight: nat, replies: seq<ChainState>,
                     ghost seedGenesis: Block, ghost offered: seq<Block>, ghost states: seq<ChainState>,
                     ghost hello: nat, ghost times: seq<nat>)
    requires IsLedgerRun(chain.rules, seedGenesis, offered, states) && seedGenesis.header.height == 0
    requires HashesApart(chain.rules, seedGenesis, offered)
    requires hello <= |offered| && seedHeight == states[hello].height && |times| == |replies|
    requires forall i :: 0 <= i < |replies| ==> hello <= times[i] <= |offered| && replies[i] == states[times[i]]
    requires WritesOwnHashes(chain) && chain.height <= seedHeight
    requires chain.State() == Build(chain.rules, genesis, BlocksOf(states[hello], chain.height))
    requires chain.height > 0 || HashOf(chain.rules, genesis) == HashOf(chain.rules, seedGenesis)
    requires BLOCKS_PER_BATCH * |replies| >= seedHeight - chain.height
    modifies chain, Stores(chain)
    ensures chain.State() == Build(chain.rules, genesis, BlocksOf(states[hello], seedHeight))
    ensures chain.height == seedHeight
    ensures genesis == seedGenesis ==> chain.State() == states[hello]
  {
    ghost var bs := SeedAdmissible(chain.rules, seedGenesis, offered, states, hello);
    SeedBlocks(chain.rules, seedGenesis, offered, states[hello], bs, chain.height);
    SeedBlocks(chain.rules, seedGenesis, offered, states[hello], bs, seedHeight);
    assert bs[..seedHeight] == bs;
    forall i | 0 <= i < |replies| ensures Serving(replies[i], bs, seedHeight) {
      SeedServes(chain.rules, seedGenesis, offered, states, hello, bs, times[i]);
    }
    SyncFrom(chain, seedGenesis, genesis, bs, seedHeight, replies);
  }
}
