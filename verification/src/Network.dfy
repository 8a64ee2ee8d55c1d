/**
 A network of engines and Byzantine validators as a transition system, with the invariant its runs
 keep.  The engines are those of `src/consensus/tendermint.rs`; what may be delivered to them is
 stated by `Enabled`.
 */
module Network {
  import opened Common
  import opened Blocks
  import opened Tendermint
  import opened VoteAccounting
  import opened EngineSteps

  // ---- The system ----------------------------------------------------------------------

  datatype Config = Config(crypto: Crypto, validators: seq<Bytes>, honest: set<Bytes>)

  function Members(cfg: Config): set<Bytes> {
    set n | n in cfg.validators
  }

  function Byzantine(cfg: Config): set<Bytes> {
    Members(cfg) - cfg.honest
  }

  /** Distinct validators of which at most a third are Byzantine. */
  ghost predicate ConfigOk(cfg: Config) {
    && |Members(cfg)| == |cfg.validators|
    && cfg.honest <= Members(cfg)
    && 2 * |cfg.validators| < U64
    && |Byzantine(cfg)| <= |cfg.validators| / 3
  }

  /** What a vote says, without its signature. */
  datatype Ballot = Ballot(voteType: VoteType, height: u64, round: u32, hash: Option<Bytes>, voter: Bytes)

  function BallotOf(v: Vote): Ballot {
    Ballot(v.voteType, v.height, v.round, v.blockHash, v.nullifier)
  }

  datatype Acceptance = Acceptance(node: Bytes, proposal: Proposal)

  datatype Decision = Decision(node: Bytes, height: u64, block: Block, votes: set<Vote>)

  datatype Net = Net(
    engines: map<Bytes, EngineState>, started: set<(Bytes, u64)>, cast: set<Ballot>,
    accepted: set<Acceptance>, decided: set<Decision>
  )

  datatype NetEvent = At(id: Bytes, event: Event)

  /** Votes reach an engine only from validators, with power 1, and honest ones only as cast. */
  predicate Deliverable(cfg: Config, cast: set<Ballot>, v: Vote) {
    v.nullifier in cfg.validators && v.power == 1 && (v.nullifier in cfg.honest ==> BallotOf(v) in cast)
  }

  /** As Enabled below, except that a height may be started again. */
  predicate Delivered(cfg: Config, net: Net, ev: NetEvent) {
    ev.id in cfg.honest && ev.id in net.engines
    && (ev.event.HearVote? ==> Deliverable(cfg, net.cast, ev.event.vote))
  }

  predicate Enabled(cfg: Config, net: Net, ev: NetEvent) {
    Delivered(cfg, net, ev) && (ev.event.Begin? ==> (ev.id, ev.event.height) !in net.started)
  }

  function NewStarts(ev: NetEvent): set<(Bytes, u64)> {
    if ev.event.Begin? then {(ev.id, ev.event.height)} else {}
  }

  function NewBallots(out: Option<Output>): set<Ballot> {
    if out.Some? && out.value.BroadcastVote? then {BallotOf(out.value.vote)} else {}
  }

  function NewAcceptances(id: Bytes, e: Event, out: Option<Output>): set<Acceptance> {
    if e.HearProposal? && out.Some? then {Acceptance(id, e.proposal)} else {}
  }

  function NewDecisions(id: Bytes, height: u64, out: Option<Output>): set<Decision> {
    if out.Some? && out.value.FinalizedBlock? then {Decision(id, height, out.value.block, out.value.votes)} else {}
  }

  function NetStep(cfg: Config, net: Net, ev: NetEvent): Net {
    if ev.id !in net.engines then net
    else
      var s := net.engines[ev.id];
      var out := Emitted(cfg.crypto, s, ev.event);
      Net(net.engines[ev.id := Step(cfg.crypto, s, ev.event)],
          net.started + NewStarts(ev),
          net.cast + NewBallots(out),
          net.accepted + NewAcceptances(ev.id, ev.event, out),
          net.decided + NewDecisions(ev.id, s.height, out))
  }

  /** What a node is set up with: the height it opens at, and its credentials. */
  datatype Setup = Setup(height: u64, commitment: Option<ValidatorCommitment>, key: Option<Bytes>)

  function StartedEngine(cfg: Config, id: Bytes, node: Setup): EngineState
    requires |cfg.validators| < U64
  {
    StartHeight(NewEngine(node.height, |cfg.validators|, cfg.validators, Some(id), node.commitment, node.key), node.height)
  }

  /** Every node builds its engine and starts its height at once. */
  function Init(cfg: Config, nodes: map<Bytes, Setup>): Net
    requires |cfg.validators| < U64
  {
    Net(map id | id in nodes :: StartedEngine(cfg, id, nodes[id]),
        set id | id in nodes :: (id, nodes[id].height), {}, {}, {})
  }

  /** A step is permitted and has its effect; with `restarts`, a height may be begun again. */
  ghost predicate Steps(cfg: Config, restarts: bool, before: Net, ev: NetEvent, after: Net) {
    (if restarts then Delivered(cfg, before, ev) else Enabled(cfg, before, ev)) && after == NetStep(cfg, before, ev)
  }

  /** `nets` is what the network goes through while the events happen one by one. */
  ghost predicate Goes(cfg: Config, restarts: bool, events: seq<NetEvent>, nets: seq<Net>) {
    && |nets| == |events| + 1
    && forall i :: 0 <= i < |events| ==> Steps(cfg, restarts, nets[i], events[i], nets[i + 1])
  }

  /** A run from the nodes' start, in which every step is enabled where it is taken. */
  ghost predicate IsRun(cfg: Config, nodes: map<Bytes, Setup>, events: seq<NetEvent>, nets: seq<Net>)
    requires |cfg.validators| < U64
  {
    Goes(cfg, false, events, nets) && nets[0] == Init(cfg, nodes)
  }

  // ---- Invariants --------------------------------------------------------------------------

  ghost predicate Witnessed(cfg: Config, cast: set<Ballot>, sets: map<u32, VoteSetState>) {
    forall r, n :: r in sets && n in sets[r].votes ==> Deliverable(cfg, cast, sets[r].votes[n])
  }

  predicate Commits(b: Ballot) {
    b.voteType == Precommit && b.hash.Some?
  }

  /** Every block this engine precommitted at its height is the one it is locked on. */
  ghost predicate Sticky(cast: set<Ballot>, id: Bytes, s: EngineState) {
    forall b :: b in cast && Commits(b) && b.voter == id && b.height == s.height
      ==> s.locked.Some? && b.hash == Some(s.locked.value.0)
  }

  /** Some honest engine accepted a proposal of `hash` for this height that names its round's proposer and verifies. */
  ghost predicate Proposed(cfg: Config, accepted: set<Acceptance>, height: u64, hash: Bytes) {
    exists a :: a in accepted && AcceptedFrom(cfg, a, height, hash)
  }

  ghost predicate AcceptedFrom(cfg: Config, a: Acceptance, height: u64, hash: Bytes) {
    && a.node in cfg.honest && a.proposal.height == height && HashOf(cfg.crypto, a.proposal.block) == hash
    && ProposerAt(cfg.validators, height, a.proposal.round) == Some(a.proposal.proposer)
    && ProposalVerifies(cfg.crypto, a.proposal)
  }

  ghost predicate LockProposed(cfg: Config, accepted: set<Acceptance>, s: EngineState) {
    s.locked.Some? ==> Proposed(cfg, accepted, s.height, s.locked.value.0)
  }

  predicate Configured(cfg: Config, id: Bytes, s: EngineState) {
    s.ourNullifier == Some(id) && s.validators == cfg.validators && s.totalValidators == |cfg.validators|
  }

  ghost predicate NodeOk(cfg: Config, net: Net, id: Bytes, s: EngineState) {
    && Configured(cfg, id, s)
    && (id, s.height) in net.started
    && EngineOk(cfg.crypto, s)
    && Witnessed(cfg, net.cast, s.prevotes)
    && Witnessed(cfg, net.cast, s.precommits)
    && Sticky(net.cast, id, s)
    && LockProposed(cfg, net.accepted, s)
  }

  ghost predicate BallotsStarted(cast: set<Ballot>, started: set<(Bytes, u64)>) {
    forall b :: b in cast ==> (b.voter, b.height) in started
  }

  ghost predicate BallotsProposed(cfg: Config, accepted: set<Acceptance>, cast: set<Ballot>) {
    forall b :: b in cast && b.hash.Some? ==> Proposed(cfg, accepted, b.height, b.hash.value)
  }

  /** An engine precommits at most one block per height. */
  ghost predicate OneCommit(cast: set<Ballot>) {
    forall a, b :: a in cast && b in cast && Commits(a) && Commits(b) && a.voter == b.voter && a.height == b.height
      ==> a.hash == b.hash
  }

  function Backers(votes: set<Vote>, hash: Bytes): set<Bytes> {
    set v | v in votes && v.blockHash == Some(hash) :: v.nullifier
  }

  /** A decision carries deliverable precommits for its block from a quorum of validators. */
  ghost predicate Certified(cfg: Config, cast: set<Ballot>, d: Decision) {
    && (forall v :: v in d.votes ==> Deliverable(cfg, cast, v) && v.voteType == Precommit && v.height == d.height)
    && |Backers(d.votes, HashOf(cfg.crypto, d.block))| >= 2 * |cfg.validators| / 3 + 1
  }

  ghost predicate AllCertified(cfg: Config, net: Net) {
    forall d :: d in net.decided ==> Certified(cfg, net.cast, d)
  }

  ghost predicate NodesOk(cfg: Config, net: Net) {
    forall id :: id in net.engines ==> NodeOk(cfg, net, id, net.engines[id])
  }

  ghost predicate NetOk(cfg: Config, net: Net) {
    && NodesOk(cfg, net)
    && BallotsStarted(net.cast, net.started)
    && BallotsProposed(cfg, net.accepted, net.cast)
    && OneCommit(net.cast)
    && AllCertified(cfg, net)
  }
}
