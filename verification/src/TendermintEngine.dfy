/** `VoteSet` and `TendermintEngine` as the source has them: objects updated in place. */
module TendermintEngine {
  import opened Common
  import opened Blocks
  import opened Tendermint

  class VoteSet {
    var votes: map<Bytes, Vote>
    const quorum: nat
    var powerByBlock: map<Option<Bytes>, nat>

    ghost function State(): VoteSetState
      reads this
    {
      VoteSetState(votes, quorum, powerByBlock)
    }

    constructor (total: u64)
      ensures State() == EmptyVoteSet(total)
    {
      votes := map[];
      quorum := QuorumOf(total);
      powerByBlock := map[];
    }

    method Add(v: Vote) returns (r: Option<Option<Bytes>>)
      modifies this
      ensures (State(), r) == AddVote(old(State()), v)
    {
      if v.nullifier in votes { return None; }
      votes := votes[v.nullifier := v];
      if v.blockHash !in powerByBlock { powerByBlock := powerByBlock[v.blockHash := 0]; }
      var acc := (powerByBlock[v.blockHash] + v.power) % U64;
      powerByBlock := powerByBlock[v.blockHash := acc];
      assert powerByBlock == old(powerByBlock)[v.blockHash := acc];
      return if acc >= quorum then Some(v.blockHash) else None;
    }
  }

  /** No two rounds share a vote set. */
  ghost predicate Separate(sets: map<u32, VoteSet>) {
    forall r, t :: r in sets && t in sets && r != t ==> sets[r] != sets[t]
  }

  ghost function States(sets: map<u32, VoteSet>): map<u32, VoteSetState>
    reads sets.Values
  {
    map r | r in sets :: sets[r].State()
  }

  /** Vote sets that were not touched have the states they had. */
  twostate lemma StatesKept(sets: map<u32, VoteSet>)
    requires forall r :: r in sets ==> sets[r].State() == old(sets[r].State())
    ensures States(sets) == old(States(sets))
  {
  }

  /** `entry(round).or_insert_with(new)` followed by `add`. */
  method Count(sets: map<u32, VoteSet>, v: Vote, total: u64) returns (after: map<u32, VoteSet>, q: Option<Option<Bytes>>)
    requires Separate(sets)
    modifies sets.Values
    ensures Separate(after) && after.Keys == sets.Keys + {v.round}
    ensures fresh(after.Values - sets.Values)
    ensures (after[v.round].State(), q) == AddVote(VoteSetAt(old(States(sets)), v.round, total), v)
    ensures States(after) == old(States(sets))[v.round := after[v.round].State()]
  {
    after := sets;
    if v.round !in after {
      var vs := new VoteSet(total);
      after := after[v.round := vs];
    }
    q := after[v.round].Add(v);
  }

  class Engine {
    const crypto: Crypto
    var height: u64
    var round: u32
    var phase: Phase
    const totalValidators: u64
    const ourNullifier: Option<Bytes>
    const ourCommitment: Option<ValidatorCommitment>
    const signingKey: Option<Bytes>
    var proposal: Option<Proposal>
    var locked: Option<(Bytes, u32)>
    var valid: Option<(Bytes, u32)>
    var prevoteSets: map<u32, VoteSet>
    var precommitSets: map<u32, VoteSet>
    const validators: seq<Bytes>
    var equivocations: seq<Evidence>

    ghost predicate Valid()
      reads this
    {
      Separate(prevoteSets) && Separate(precommitSets) && prevoteSets.Values !! precommitSets.Values
    }

    ghost function Repr(): set<object>
      reads this
    {
      {this} + prevoteSets.Values + precommitSets.Values
    }

    ghost function State(): EngineState
      reads Repr()
    {
      EngineState(height, round, phase, totalValidators, ourNullifier, ourCommitment, signingKey,
                  proposal, locked, valid, States(prevoteSets), States(precommitSets), validators, equivocations)
    }

    /** A change to the engine's own fields leaves the states of the vote sets it holds. */
    twostate lemma KeepStates()
      requires prevoteSets == old(prevoteSets) && precommitSets == old(precommitSets)
      requires forall r :: r in prevoteSets ==> prevoteSets[r].State() == old(prevoteSets[r].State())
      requires forall r :: r in precommitSets ==> precommitSets[r].State() == old(precommitSets[r].State())
      ensures States(prevoteSets) == old(States(prevoteSets)) && States(precommitSets) == old(States(precommitSets))
    {
      StatesKept(prevoteSets);
      StatesKept(precommitSets);
    }

    constructor (crypto: Crypto, height: u64, total: u64, validators: seq<Bytes>, nullifier: Option<Bytes>,
                 commitment: Option<ValidatorCommitment>, key: Option<Bytes>)
      ensures Valid() && fresh(Repr()) && this.crypto == crypto
      ensures State() == NewEngine(height, total, validators, nullifier, commitment, key)
    {
      this.crypto := crypto;
      this.height, this.round, this.phase := height, 0, NewHeight;
      this.totalValidators := total;
      this.ourNullifier, this.ourCommitment, this.signingKey := nullifier, commitment, key;
      this.proposal, this.locked, this.valid := None, None, None;
      this.prevoteSets, this.precommitSets := map[], map[];
      this.validators, this.equivocations := validators, [];
    }

    method ProposerForRound(round: u32) returns (p: Option<Bytes>)
      ensures p == Proposer(State(), round)
    {
      if validators == [] { return None; }
      var idx := (height + round) % U64 % |validators|;
      return Some(validators[idx]);
    }

    method CheckIsProposer() returns (b: bool)
      ensures b == IsProposer(State())
    {
      var p := ProposerForRound(round);
      return ourNullifier.Some? && p == ourNullifier;
    }

    method BeginHeight(newHeight: u64)
      requires Valid()
      modifies this
      ensures Valid() && Repr() == {this} && State() == StartHeight(old(State()), newHeight)
    {
      height := newHeight;
      round := 0;
      proposal, locked, valid := None, None, None;
      prevoteSets, precommitSets := map[], map[];
      phase := Proposing;
    }

    method Vote(t: VoteType, h: Option<Bytes>) returns (v: Vote)
      ensures v == MakeVote(crypto, State(), t, h)
    {
      var pubkey := match ourCommitment { case Some(k) => k.publicKey case None => ZERO32 };
      var nullifier := match ourNullifier { case Some(n) => n case None => ZERO32 };
      v := Tendermint.Vote(t, height, round, h, nullifier, pubkey, [], 1);
      if signingKey.Some? { v := v.(signature := crypto.edSign(signingKey.value, VoteSignBytes(v))); }
    }

    method Submit(b: Block) returns (out: Outcome)
      requires Valid()
      modifies this`proposal
      ensures Valid() && Repr() == old(Repr())
      ensures (State(), out) == SubmitProposal(crypto, old(State()), b)
    {
      var ours := CheckIsProposer();
      if !ours { return Err(UnauthorizedProposer); }
      var proof := match ourCommitment { case Some(k) => k case None => ValidatorCommitment(ZERO32, ZERO32) };
      var p := Proposal(height, round, b, ourNullifier.value, [], proof);
      if signingKey.Some? { p := p.(signature := crypto.edSign(signingKey.value, ProposalSignBytes(crypto, p))); }
      proposal := Some(p);
      KeepStates();
      return Ok(BroadcastProposal(p));
    }

    method ToPrevote() returns (out: Output)
      requires Valid()
      modifies this`phase
      ensures Valid() && Repr() == old(Repr())
      ensures (State(), out) == EnterPrevote(crypto, old(State()))
    {
      phase := Prevoting;
      KeepStates();
      var h := match locked {
        case Some(lock) => Some(lock.0)
        case None => match proposal { case Some(p) => Some(HashOf(crypto, p.block)) case None => None }
      };
      var v := Vote(Prevote, h);
      return BroadcastVote(v);
    }

    method HearProposal(p: Proposal) returns (out: Outcome)
      requires Valid()
      modifies this`proposal, this`phase
      ensures Valid() && Repr() == old(Repr())
      ensures (State(), out) == ReceiveProposal(crypto, old(State()), p)
    {
      if p.height != height || p.round != round { return Err(InvalidProposal(p.height, p.round)); }
      var proposer := ProposerForRound(round);
      if proposer != Some(p.proposer) { return Err(UnauthorizedProposer); }
      if !ProposalVerifies(crypto, p) { return Err(InvalidProposal(p.height, p.round)); }
      proposal := Some(p);
      KeepStates();
      var o := ToPrevote();
      return Ok(o);
    }

    method ToPrecommit(hasBlock: bool) returns (out: Output)
      requires Valid()
      modifies this`phase
      ensures Valid() && Repr() == old(Repr())
      ensures (State(), out) == EnterPrecommit(crypto, old(State()), hasBlock)
    {
      phase := Precommitting;
      KeepStates();
      var h := if hasBlock && locked.Some? then Some(locked.value.0) else None;
      var v := Vote(Precommit, h);
      return BroadcastVote(v);
    }

    method AddPrevote(v: Vote) returns (q: Option<Option<Bytes>>)
      requires Valid()
      modifies this`prevoteSets, prevoteSets.Values
      ensures Valid() && fresh(Repr() - old(Repr()))
      ensures (State(), q) == CountPrevote(old(State()), v)
    {
      prevoteSets, q := Count(prevoteSets, v, totalValidators);
      StatesKept(precommitSets);
    }

    method AddPrecommit(v: Vote) returns (q: Option<Option<Bytes>>)
      requires Valid()
      modifies this`precommitSets, precommitSets.Values
      ensures Valid() && fresh(Repr() - old(Repr()))
      ensures (State(), q) == CountPrecommit(old(State()), v)
    {
      precommitSets, q := Count(precommitSets, v, totalValidators);
      StatesKept(prevoteSets);
    }

    method Lock(h: Bytes, r: u32)
      requires Valid()
      modifies this`valid, this`locked
      ensures Valid() && Repr() == old(Repr()) && State() == Relock(old(State()), h, r)
    {
      valid := Some((h, r));
      if locked.None? || locked.value.0 == h { locked := Some((h, r)); }
      KeepStates();
    }

    method OnPrevote(v: Vote) returns (out: Output)
      requires Valid()
      modifies Repr()
      ensures Valid() && fresh(Repr() - old(Repr()))
      ensures (State(), out) == HandlePrevote(crypto, old(State()), v)
    {
      var q := AddPrevote(v);
      match q {
        case None => return Pending;
        case Some(Some(h)) =>
          Lock(h, v.round);
          out := ToPrecommit(true);
        case Some(None) =>
          out := ToPrecommit(false);
      }
    }

    method NextRound()
      requires Valid()
      modifies this`round, this`proposal, this`phase
      ensures Valid() && Repr() == old(Repr()) && State() == StartNewRound(old(State()))
    {
      round := (round + 1) % U32;
      proposal := None;
      phase := Proposing;
      KeepStates();
    }

    method Commit(h: Bytes, r: u32) returns (out: Output)
      requires Valid() && r in precommitSets
      modifies this`phase
      ensures Valid() && Repr() == old(Repr()) && (State(), out) == CommitTo(crypto, old(State()), h, r)
    {
      if proposal.Some? && HashOf(crypto, proposal.value.block) == h {
        phase := Committed;
        KeepStates();
        return FinalizedBlock(proposal.value.block, precommitSets[r].votes.Values);
      }
      return Pending;
    }

    method OnPrecommit(v: Vote) returns (out: Output)
      requires Valid()
      modifies Repr()
      ensures Valid() && fresh(Repr() - old(Repr()))
      ensures (State(), out) == HandlePrecommit(crypto, old(State()), v)
    {
      var q := AddPrecommit(v);
      match q {
        case None => return Pending;
        case Some(Some(h)) =>
          assert v.round in State().precommits;
          out := Commit(h, v.round);
        case Some(None) =>
          NextRound();
          return Pending;
      }
    }

    method Detect(v: Vote) returns (e: Option<Evidence>)
      requires Valid()
      ensures e == DetectEquivocation(State(), v)
    {
      var sets := if v.voteType.Prevote? then prevoteSets else precommitSets;
      if v.round in sets && v.nullifier in sets[v.round].votes {
        var existing := sets[v.round].votes[v.nullifier];
        if existing.blockHash != v.blockHash {
          return Some(Evidence(height, round, v.voteType, existing, v));
        }
      }
      return None;
    }

    method HearVote(v: Vote) returns (out: Outcome)
      requires Valid()
      modifies Repr()
      ensures Valid() && fresh(Repr() - old(Repr()))
      ensures (State(), out) == ReceiveVote(crypto, old(State()), v)
    {
      if v.height != height { return Err(WrongHeight(height, v.height)); }
      if !VoteVerifies(crypto, v) { return Ok(Pending); }
      var e := Detect(v);
      if e.Some? {
        equivocations := equivocations + [e.value];
        KeepStates();
        return Ok(SlashEvidence(e.value));
      }
      var o;
      if v.voteType.Prevote? { o := OnPrevote(v); } else { o := OnPrecommit(v); }
      return Ok(o);
    }

    method Tick(expired: bool) returns (out: Option<Output>)
      requires Valid()
      modifies this`round, this`proposal, this`phase
      ensures Valid() && Repr() == old(Repr())
      ensures (State(), out) == CheckTimeout(crypto, old(State()), expired)
    {
      if !expired { return None; }
      match phase {
        case Proposing =>
          var v := Vote(Prevote, None);
          return Some(BroadcastVote(v));
        case Prevoting =>
          var o := ToPrecommit(false);
          return Some(o);
        case Precommitting =>
          NextRound();
          return Some(Pending);
        case _ => return None;
      }
    }
  }
}
