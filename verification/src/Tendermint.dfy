/**
 The consensus engine as a transition function on values: `src/consensus/tendermint.rs`.
 The classes of module TendermintEngine update their fields in place and are proved to follow it.
 */
module Tendermint {
  import opened Common
  import opened Blocks

  // ---- Votes and proposals -------------------------------------------------------

  datatype VoteType = Prevote | Precommit

  datatype Vote = Vote(
    voteType: VoteType, height: u64, round: u32, blockHash: Option<Bytes>,
    nullifier: Bytes, pubkey: Bytes, signature: Bytes, power: u64
  )

  datatype Proposal = Proposal(
    height: u64, round: u32, block: Block, proposer: Bytes, signature: Bytes, proof: ValidatorCommitment
  )

  datatype Evidence = Evidence(height: u64, round: u32, voteType: VoteType, voteA: Vote, voteB: Vote)

  /** The block hash, and Ed25519 as functions of key, message and signature. */
  datatype Crypto = Crypto(
    headerHash: BlockHeader -> Bytes,
    edSign: (Bytes, Bytes) -> Bytes,
    edVerify: (Bytes, Bytes, Bytes) -> bool
  )

  function HashOf(c: Crypto, b: Block): Bytes {
    c.headerHash(b.header)
  }

  function Ascii(s: string): (b: Bytes)
    ensures |b| == |s|
  {
    seq(|s|, i requires 0 <= i < |s| => s[i] as int % 256)
  }

  function VoteSignBytes(v: Vote): Bytes {
    (if v.voteType.Prevote? then Ascii("PREVOTE") else Ascii("PRECOMMIT"))
    + ToLe(v.height, 8) + ToLe(v.round, 4)
    + match v.blockHash { case Some(h) => h case None => ZERO32 }
  }

  /** An empty signature is trusted; any other must be 64 bytes that verify. */
  predicate VoteVerifies(c: Crypto, v: Vote) {
    v.signature == [] || (|v.signature| == 64 && c.edVerify(v.pubkey, VoteSignBytes(v), v.signature))
  }

  function ProposalSignBytes(c: Crypto, p: Proposal): Bytes {
    Ascii("PROPOSAL") + ToLe(p.height, 8) + ToLe(p.round, 4) + HashOf(c, p.block)
  }

  predicate ProposalVerifies(c: Crypto, p: Proposal) {
    p.signature == []
    || (|p.signature| == 64 && c.edVerify(p.proof.publicKey, ProposalSignBytes(c, p), p.signature))
  }

  // ---- Vote sets -------------------------------------------------------------------

  datatype VoteSetState = VoteSetState(votes: map<Bytes, Vote>, quorum: nat, power: map<Option<Bytes>, nat>)

  /** More than two thirds, in 64-bit arithmetic. */
  function QuorumOf(total: u64): nat {
    (total * 2 % U64) / 3 + 1
  }

  function EmptyVoteSet(total: u64): VoteSetState {
    VoteSetState(map[], QuorumOf(total), map[])
  }

  /** Counts a vote unless its nullifier has voted; Some(h) when h has a quorum after it. */
  function AddVote(vs: VoteSetState, v: Vote): (VoteSetState, Option<Option<Bytes>>) {
    if v.nullifier in vs.votes then (vs, None)
    else
      var before := if v.blockHash in vs.power then vs.power[v.blockHash] else 0;
      var acc := (before + v.power) % U64;
      (VoteSetState(vs.votes[v.nullifier := v], vs.quorum, vs.power[v.blockHash := acc]),
       if acc >= vs.quorum then Some(v.blockHash) else None)
  }

  // ---- Engine state ------------------------------------------------------------------

  datatype Phase = NewHeight | Proposing | Prevoting | Precommitting | Committed

  datatype EngineState = EngineState(
    height: u64, round: u32, phase: Phase,
    totalValidators: u64, ourNullifier: Option<Bytes>, ourCommitment: Option<ValidatorCommitment>,
    signingKey: Option<Bytes>,
    proposal: Option<Proposal>, locked: Option<(Bytes, u32)>, valid: Option<(Bytes, u32)>,
    prevotes: map<u32, VoteSetState>, precommits: map<u32, VoteSetState>,
    validators: seq<Bytes>, equivocations: seq<Evidence>
  )

  datatype ConsensusError = InvalidProposal(height: u64, round: u32) | WrongHeight(expected: u64, got: u64) | UnauthorizedProposer

  datatype Output =
    | BroadcastVote(vote: Vote)
    | BroadcastProposal(proposal: Proposal)
    | FinalizedBlock(block: Block, votes: set<Vote>)
    | SlashEvidence(evidence: Evidence)
    | Pending

  type Outcome = Result<Output, ConsensusError>

  function NewEngine(height: u64, total: u64, validators: seq<Bytes>, nullifier: Option<Bytes>,
                     commitment: Option<ValidatorCommitment>, key: Option<Bytes>): EngineState
  {
    EngineState(height, 0, NewHeight, total, nullifier, commitment, key, None, None, None, map[], map[], validators, [])
  }

  /** Round robin over the nullifiers; the sum wraps at 64 bits. */
  function ProposerAt(validators: seq<Bytes>, height: u64, round: u32): Option<Bytes> {
    if validators == [] then None
    else Some(validators[(height + round) % U64 % |validators|])
  }

  function Proposer(s: EngineState, round: u32): Option<Bytes> {
    ProposerAt(s.validators, s.height, round)
  }

  predicate IsProposer(s: EngineState) {
    s.ourNullifier.Some? && Proposer(s, s.round) == s.ourNullifier
  }

  function StartHeight(s: EngineState, height: u64): EngineState {
    s.(height := height, round := 0, proposal := None, locked := None, valid := None,
       prevotes := map[], precommits := map[], phase := Proposing)
  }

  function MakeProposal(c: Crypto, s: EngineState, b: Block): Proposal
    requires s.ourNullifier.Some?
  {
    var proof := match s.ourCommitment { case Some(k) => k case None => ValidatorCommitment(ZERO32, ZERO32) };
    var p := Proposal(s.height, s.round, b, s.ourNullifier.value, [], proof);
    match s.signingKey case Some(sk) => p.(signature := c.edSign(sk, ProposalSignBytes(c, p))) case None => p
  }

  function SubmitProposal(c: Crypto, s: EngineState, b: Block): (EngineState, Outcome) {
    if !IsProposer(s) then (s, Err(UnauthorizedProposer))
    else
      var p := MakeProposal(c, s, b);
      (s.(proposal := Some(p)), Ok(BroadcastProposal(p)))
  }

  function MakeVote(c: Crypto, s: EngineState, t: VoteType, h: Option<Bytes>): Vote {
    var pubkey := match s.ourCommitment { case Some(k) => k.publicKey case None => ZERO32 };
    var nullifier := match s.ourNullifier { case Some(n) => n case None => ZERO32 };
    var v := Vote(t, s.height, s.round, h, nullifier, pubkey, [], 1);
    match s.signingKey case Some(sk) => v.(signature := c.edSign(sk, VoteSignBytes(v))) case None => v
  }

  /** A locked engine prevotes its lock, whatever was proposed. */
  function DecidePrevote(c: Crypto, s: EngineState): Option<Bytes> {
    match s.locked
    case Some(lock) => Some(lock.0)
    case None => match s.proposal { case Some(p) => Some(HashOf(c, p.block)) case None => None }
  }

  function EnterPrevote(c: Crypto, s: EngineState): (EngineState, Output) {
    (s.(phase := Prevoting), BroadcastVote(MakeVote(c, s, Prevote, DecidePrevote(c, s))))
  }

  function ReceiveProposal(c: Crypto, s: EngineState, p: Proposal): (EngineState, Outcome) {
    if p.height != s.height || p.round != s.round then (s, Err(InvalidProposal(p.height, p.round)))
    else if Proposer(s, s.round) != Some(p.proposer) then (s, Err(UnauthorizedProposer))
    else if !ProposalVerifies(c, p) then (s, Err(InvalidProposal(p.height, p.round)))
    else
      var (s1, out) := EnterPrevote(c, s.(proposal := Some(p)));
      (s1, Ok(out))
  }

  function EnterPrecommit(c: Crypto, s: EngineState, hasBlock: bool): (EngineState, Output) {
    var h := if hasBlock && s.locked.Some? then Some(s.locked.value.0) else None;
    (s.(phase := Precommitting), BroadcastVote(MakeVote(c, s, Precommit, h)))
  }

  function VoteSetAt(sets: map<u32, VoteSetState>, round: u32, total: u64): VoteSetState {
    if round in sets then sets[round] else EmptyVoteSet(total)
  }

  /** The lock is taken when there is none, and refreshed only for the same block. */
  function Relock(s: EngineState, h: Bytes, round: u32): EngineState {
    if s.locked.None? || s.locked.value.0 == h then s.(valid := Some((h, round)), locked := Some((h, round)))
    else s.(valid := Some((h, round)))
  }

  function CountPrevote(s: EngineState, v: Vote): (EngineState, Option<Option<Bytes>>) {
    var (vs, quorum) := AddVote(VoteSetAt(s.prevotes, v.round, s.totalValidators), v);
    (s.(prevotes := s.prevotes[v.round := vs]), quorum)
  }

  function CountPrecommit(s: EngineState, v: Vote): (EngineState, Option<Option<Bytes>>) {
    var (vs, quorum) := AddVote(VoteSetAt(s.precommits, v.round, s.totalValidators), v);
    (s.(precommits := s.precommits[v.round := vs]), quorum)
  }

  function HandlePrevote(c: Crypto, s: EngineState, v: Vote): (EngineState, Output) {
    var (s1, quorum) := CountPrevote(s, v);
    match quorum
    case None => (s1, Pending)
    case Some(Some(h)) => EnterPrecommit(c, Relock(s1, h, v.round), true)
    case Some(None) => EnterPrecommit(c, s1, false)
  }

  function StartNewRound(s: EngineState): EngineState {
    s.(round := (s.round + 1) % U32, proposal := None, phase := Proposing)
  }

  /** The block is final if it is the one at hand; a quorum for any other leaves the engine waiting. */
  function CommitTo(c: Crypto, s: EngineState, h: Bytes, round: u32): (EngineState, Output)
    requires round in s.precommits
  {
    if s.proposal.Some? && HashOf(c, s.proposal.value.block) == h
    then (s.(phase := Committed), FinalizedBlock(s.proposal.value.block, s.precommits[round].votes.Values))
    else (s, Pending)
  }

  function HandlePrecommit(c: Crypto, s: EngineState, v: Vote): (EngineState, Output) {
    var (s1, quorum) := CountPrecommit(s, v);
    match quorum
    case None => (s1, Pending)
    case Some(Some(h)) => CommitTo(c, s1, h, v.round)
    case Some(None) => (StartNewRound(s1), Pending)
  }

  function SetsFor(s: EngineState, t: VoteType): map<u32, VoteSetState> {
    if t.Prevote? then s.prevotes else s.precommits
  }

  /** A stored vote of the same nullifier, type and round for another block. */
  function DetectEquivocation(s: EngineState, v: Vote): Option<Evidence> {
    var sets := SetsFor(s, v.voteType);
    if v.round in sets && v.nullifier in sets[v.round].votes
       && sets[v.round].votes[v.nullifier].blockHash != v.blockHash
    then Some(Evidence(s.height, s.round, v.voteType, sets[v.round].votes[v.nullifier], v))
    else None
  }

  function ReceiveVote(c: Crypto, s: EngineState, v: Vote): (EngineState, Outcome) {
    if v.height != s.height then (s, Err(WrongHeight(s.height, v.height)))
    else if !VoteVerifies(c, v) then (s, Ok(Pending))
    else
      match DetectEquivocation(s, v)
      case Some(e) => (s.(equivocations := s.equivocations + [e]), Ok(SlashEvidence(e)))
      case None =>
        var (s1, out) := if v.voteType.Prevote? then HandlePrevote(c, s, v) else HandlePrecommit(c, s, v);
        (s1, Ok(out))
  }

  /** `expired` says whether the current step's time is up; None means nothing happened. */
  function CheckTimeout(c: Crypto, s: EngineState, expired: bool): (EngineState, Option<Output>) {
    if !expired then (s, None)
    else
      match s.phase
      case Proposing => (s, Some(BroadcastVote(MakeVote(c, s, Prevote, None))))
      case Prevoting =>
        var (s1, out) := EnterPrecommit(c, s, false);
        (s1, Some(out))
      case Precommitting => (StartNewRound(s), Some(Pending))
      case _ => (s, None)
  }
}
