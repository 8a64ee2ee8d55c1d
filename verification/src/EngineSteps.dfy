/** What one step of an engine emits and how it moves the lock: `src/consensus/tendermint.rs:303-529`. */
module EngineSteps {
  import opened Common
  import opened Blocks
  import opened Tendermint
  import opened VoteAccounting

  /** What the engine hands to the node in a step; errors hand over nothing. */
  function Emitted(c: Crypto, s: EngineState, e: Event): Option<Output> {
    match e
    case Begin(_) => None
    case Submit(b) => OkOnly(SubmitProposal(c, s, b).1)
    case HearProposal(p) => OkOnly(ReceiveProposal(c, s, p).1)
    case HearVote(v) => OkOnly(ReceiveVote(c, s, v).1)
    case Tick(expired) => CheckTimeout(c, s, expired).1
  }

  function OkOnly(r: Outcome): Option<Output> {
    match r { case Ok(o) => Some(o) case Err(_) => None }
  }

  ghost predicate QuorumFor(vs: VoteSetState, h: Option<Bytes>) {
    h in vs.power && vs.power[h] >= vs.quorum
  }

  predicate SameLock(s: EngineState, t: EngineState) {
    s.locked.Some? && t.locked.Some? && s.locked.value.0 == t.locked.value.0
  }

  // ---- The two vote handlers ------------------------------------------------------------

  lemma CountedQuorum(s: EngineState, v: Vote)
    ensures CountPrevote(s, v).1.Some? ==> QuorumFor(CountPrevote(s, v).0.prevotes[v.round], CountPrevote(s, v).1.value)
    ensures CountPrecommit(s, v).1.Some? ==> QuorumFor(CountPrecommit(s, v).0.precommits[v.round], CountPrecommit(s, v).1.value)
  {
  }

  /** A precommit names the lock or nothing. */
  ghost predicate CommitsLock(c: Crypto, t: EngineState, out: Output) {
    && out.BroadcastVote? && out.vote.voteType == Precommit
    && out.vote.height == t.height && (t.ourNullifier.Some? ==> out.vote.nullifier == t.ourNullifier.value)
    && (out.vote.blockHash.Some? ==> t.locked.Some? && out.vote.blockHash == Some(t.locked.value.0))
  }

  lemma EnterPrecommitFacts(c: Crypto, s: EngineState, hasBlock: bool)
    ensures var (t, out) := EnterPrecommit(c, s, hasBlock);
            CommitsLock(c, t, out) && t == s.(phase := Precommitting)
  {
  }

  lemma RelockFacts(s: EngineState, h: Bytes, round: u32)
    ensures var t := Relock(s, h, round);
            && t.prevotes == s.prevotes && t.precommits == s.precommits && t.height == s.height
            && (s.locked.Some? ==> SameLock(s, t)) && (s.locked.None? ==> t.locked == Some((h, round)))
  {
  }

  lemma PrevoteFacts(c: Crypto, s: EngineState, v: Vote)
    ensures var (t, out) := HandlePrevote(c, s, v);
            && t.prevotes == CountPrevote(s, v).0.prevotes && t.precommits == s.precommits
            && t.height == s.height
            && (s.locked.Some? ==> SameLock(s, t))
            && (s.locked.None? && t.locked.Some? ==> QuorumFor(t.prevotes[v.round], Some(t.locked.value.0)))
            && (out == Pending || CommitsLock(c, t, out))
  {
    CountedQuorum(s, v);
    var (s1, q) := CountPrevote(s, v);
    match q {
      case None =>
      case Some(Some(h)) =>
        RelockFacts(s1, h, v.round);
        EnterPrecommitFacts(c, Relock(s1, h, v.round), true);
      case Some(None) =>
        EnterPrecommitFacts(c, s1, false);
    }
  }

  lemma PrecommitFacts(c: Crypto, s: EngineState, v: Vote)
    ensures var (t, out) := HandlePrecommit(c, s, v);
            && t.precommits == CountPrecommit(s, v).0.precommits && t.prevotes == s.prevotes
            && t.height == s.height && t.locked == s.locked
            && (out == Pending || (out.FinalizedBlock? && out.votes == t.precommits[v.round].votes.Values
                                   && QuorumFor(t.precommits[v.round], Some(HashOf(c, out.block)))))
  {
    CountedQuorum(s, v);
  }

  // ---- Any step within a height -------------------------------------------------------------

  /** A lock keeps its block; a first lock needs a prevote quorum. */
  ghost predicate LockMove(s: EngineState, e: Event, t: EngineState) {
    && (s.locked.Some? ==> SameLock(s, t))
    && (s.locked.None? && t.locked.Some? ==>
          && e.HearVote? && e.vote.round in t.prevotes
          && QuorumFor(t.prevotes[e.vote.round], Some(t.locked.value.0)))
  }

  /** Vote sets change only by counting the vote that was heard. */
  ghost predicate SetsMove(s: EngineState, e: Event, t: EngineState) {
    && (t.prevotes == s.prevotes || (e.HearVote? && t.prevotes == CountPrevote(s, e.vote).0.prevotes))
    && (t.precommits == s.precommits || (e.HearVote? && t.precommits == CountPrecommit(s, e.vote).0.precommits))
  }

  /** A block is prevoted for being locked or just proposed, and precommitted for being locked. */
  ghost predicate VoteCast(c: Crypto, s: EngineState, e: Event, t: EngineState, v: Vote) {
    && v.height == s.height && (s.ourNullifier.Some? ==> v.nullifier == s.ourNullifier.value)
    && (v.voteType.Precommit? && v.blockHash.Some? ==> t.locked.Some? && v.blockHash == Some(t.locked.value.0))
    && (v.voteType.Prevote? && v.blockHash.Some? ==>
          || (s.locked.Some? && v.blockHash == Some(s.locked.value.0))
          || (e.HearProposal? && v.blockHash == Some(HashOf(c, e.proposal.block))))
  }

  /** A final block has a precommit quorum, whose votes come with it. */
  ghost predicate Finality(c: Crypto, e: Event, t: EngineState, block: Block, votes: set<Vote>) {
    && e.HearVote? && e.vote.round in t.precommits && votes == t.precommits[e.vote.round].votes.Values
    && QuorumFor(t.precommits[e.vote.round], Some(HashOf(c, block)))
  }

  ghost predicate OutputMove(c: Crypto, s: EngineState, e: Event, t: EngineState, out: Option<Output>) {
    && (out.Some? && out.value.BroadcastVote? ==> VoteCast(c, s, e, t, out.value.vote))
    && (out.Some? && out.value.FinalizedBlock? ==> Finality(c, e, t, out.value.block, out.value.votes))
    && (out.Some? && e.HearProposal? ==>
          && e.proposal.height == s.height && ProposalVerifies(c, e.proposal)
          && ProposerAt(s.validators, s.height, e.proposal.round) == Some(e.proposal.proposer))
  }

  ghost predicate Move(c: Crypto, s: EngineState, e: Event, t: EngineState, out: Option<Output>) {
    && t.height == s.height && LockMove(s, e, t) && SetsMove(s, e, t) && OutputMove(c, s, e, t, out)
  }

  lemma VoteMove(c: Crypto, s: EngineState, v: Vote)
    ensures Move(c, s, HearVote(v), ReceiveVote(c, s, v).0, OkOnly(ReceiveVote(c, s, v).1))
  {
    PrevoteFacts(c, s, v);
    PrecommitFacts(c, s, v);
    var (t, out) := ReceiveVote(c, s, v);
    if v.height == s.height && VoteVerifies(c, v) && DetectEquivocation(s, v).None? {
      if v.voteType.Prevote? {
        PrevoteMove(c, s, v);
      } else {
        PrecommitMove(c, s, v);
      }
    }
  }

  lemma PrevoteMove(c: Crypto, s: EngineState, v: Vote)
    ensures Move(c, s, HearVote(v), HandlePrevote(c, s, v).0, Some(HandlePrevote(c, s, v).1))
  {
    PrevoteFacts(c, s, v);
    HandleKeepsSetup(c, s, v);
  }

  lemma PrecommitMove(c: Crypto, s: EngineState, v: Vote)
    ensures Move(c, s, HearVote(v), HandlePrecommit(c, s, v).0, Some(HandlePrecommit(c, s, v).1))
  {
    PrecommitFacts(c, s, v);
  }

  predicate SameSetup(s: EngineState, t: EngineState) {
    t.validators == s.validators && t.totalValidators == s.totalValidators && t.ourNullifier == s.ourNullifier
  }

  lemma HandleKeepsSetup(c: Crypto, s: EngineState, v: Vote)
    ensures SameSetup(s, HandlePrevote(c, s, v).0)
    ensures SameSetup(s, HandlePrecommit(c, s, v).0)
  {
  }

  lemma StepKeepsSetup(c: Crypto, s: EngineState, e: Event)
    ensures SameSetup(s, Step(c, s, e))
  {
    if e.HearVote? { HandleKeepsSetup(c, s, e.vote); }
  }

  lemma ProposalMove(c: Crypto, s: EngineState, p: Proposal)
    ensures Move(c, s, HearProposal(p), ReceiveProposal(c, s, p).0, OkOnly(ReceiveProposal(c, s, p).1))
  {
  }

  lemma TickMove(c: Crypto, s: EngineState, expired: bool)
    ensures Move(c, s, Tick(expired), CheckTimeout(c, s, expired).0, CheckTimeout(c, s, expired).1)
  {
    EnterPrecommitFacts(c, s, false);
  }

  lemma StepMove(c: Crypto, s: EngineState, e: Event)
    requires !e.Begin?
    ensures Move(c, s, e, Step(c, s, e), Emitted(c, s, e))
  {
    match e {
      case Submit(b) =>
      case HearProposal(p) => ProposalMove(c, s, p);
      case HearVote(v) => VoteMove(c, s, v);
      case Tick(expired) => TickMove(c, s, expired);
    }
  }
}
