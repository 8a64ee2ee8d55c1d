/**
 What every run of one engine keeps: one vote per nullifier and round, `power_by_block` the exact
 tally, and evidence that is always a genuine conflict.  `src/consensus/tendermint.rs`.
 */
module VoteAccounting {
  import opened Common
  import opened Blocks
  import opened Tendermint

  // ---- Runs of one engine ------------------------------------------------------------

  datatype Event =
    | Begin(height: u64)
    | Submit(block: Block)
    | HearProposal(proposal: Proposal)
    | HearVote(vote: Vote)
    | Tick(expired: bool)

  function Step(c: Crypto, s: EngineState, e: Event): EngineState {
    match e
    case Begin(h) => StartHeight(s, h)
    case Submit(b) => SubmitProposal(c, s, b).0
    case HearProposal(p) => ReceiveProposal(c, s, p).0
    case HearVote(v) => ReceiveVote(c, s, v).0
    case Tick(expired) => CheckTimeout(c, s, expired).0
  }

  function Run(c: Crypto, s: EngineState, es: seq<Event>): EngineState {
    if es == [] then s else Step(c, Run(c, s, es[..|es| - 1]), es[|es| - 1])
  }

  // ---- The tally ------------------------------------------------------------------------

  ghost function Pick(votes: map<Bytes, Vote>): (k: Bytes)
    requires votes != map[]
    ensures k in votes
  {
    var k :| k in votes;
    k
  }

  function Share(v: Vote, h: Option<Bytes>): nat {
    if v.blockHash == h then v.power else 0
  }

  /** The power behind `h`: the sum over all stored votes, in any order. */
  ghost function PowerFor(votes: map<Bytes, Vote>, h: Option<Bytes>): nat
    decreases |votes|
  {
    if votes == map[] then 0
    else
      var k := Pick(votes);
      assert |votes - {k}| < |votes| by { FewerVotes(votes, k); }
      Share(votes[k], h) + PowerFor(votes - {k}, h)
  }

  lemma FewerVotes(votes: map<Bytes, Vote>, k: Bytes)
    requires k in votes
    ensures |votes - {k}| + 1 == |votes|
  {
    assert (votes - {k}).Keys == votes.Keys - {k};
  }

  lemma {:induction false} PowerPick(votes: map<Bytes, Vote>, k: Bytes, h: Option<Bytes>)
    requires k in votes
    ensures PowerFor(votes, h) == Share(votes[k], h) + PowerFor(votes - {k}, h)
    decreases |votes|
  {
    var j := Pick(votes);
    if j != k {
      FewerVotes(votes, j);
      FewerVotes(votes, k);
      PowerPick(votes - {j}, k, h);
      PowerPick(votes - {k}, j, h);
      assert votes - {j} - {k} == votes - {k} - {j};
    }
  }

  lemma PowerAdd(votes: map<Bytes, Vote>, v: Vote, h: Option<Bytes>)
    requires v.nullifier !in votes
    ensures PowerFor(votes[v.nullifier := v], h) == PowerFor(votes, h) + Share(v, h)
  {
    var after := votes[v.nullifier := v];
    PowerPick(after, v.nullifier, h);
    assert after - {v.nullifier} == votes;
  }

  lemma {:induction false} NoVoteNoPower(votes: map<Bytes, Vote>, h: Option<Bytes>)
    requires forall n :: n in votes ==> votes[n].blockHash != h
    ensures PowerFor(votes, h) == 0
    decreases |votes|
  {
    if votes != map[] {
      FewerVotes(votes, Pick(votes));
      NoVoteNoPower(votes - {Pick(votes)}, h);
    }
  }

  // ---- The invariant ------------------------------------------------------------------------

  /** A stored vote sits under its own nullifier and belongs to this type, round and height. */
  ghost predicate VoteFits(c: Crypto, v: Vote, n: Bytes, t: VoteType, round: u32, height: u64) {
    v.nullifier == n && v.voteType == t && v.round == round && v.height == height && VoteVerifies(c, v)
  }

  ghost predicate VotesFit(c: Crypto, votes: map<Bytes, Vote>, t: VoteType, round: u32, height: u64) {
    forall n :: n in votes ==> VoteFits(c, votes[n], n, t, round, height)
  }

  ghost function VotedFor(votes: map<Bytes, Vote>): set<Option<Bytes>> {
    set n | n in votes :: votes[n].blockHash
  }

  /** The tally is the sum of the stored votes, in 64-bit arithmetic, for exactly the voted hashes. */
  ghost predicate TallyExact(vs: VoteSetState) {
    && vs.power.Keys == VotedFor(vs.votes)
    && (forall h :: h in vs.power ==> TallyFor(vs, h))
  }

  ghost predicate TallyFor(vs: VoteSetState, h: Option<Bytes>)
    requires h in vs.power
  {
    vs.power[h] == PowerFor(vs.votes, h) % U64
  }

  ghost predicate VoteSetOk(c: Crypto, vs: VoteSetState, total: u64, t: VoteType, round: u32, height: u64) {
    vs.quorum == QuorumOf(total) && VotesFit(c, vs.votes, t, round, height) && TallyExact(vs)
  }

  ghost predicate SetsOk(c: Crypto, sets: map<u32, VoteSetState>, total: u64, t: VoteType, height: u64) {
    forall r :: r in sets ==> VoteSetOk(c, sets[r], total, t, r, height)
  }

  /** Two verified votes of one nullifier, of the same type, round and height, for different blocks. */
  ghost predicate Conflict(c: Crypto, e: Evidence) {
    && e.voteA.nullifier == e.voteB.nullifier
    && e.voteA.voteType == e.voteB.voteType == e.voteType
    && e.voteA.height == e.voteB.height == e.height
    && e.voteA.round == e.voteB.round
    && e.voteA.blockHash != e.voteB.blockHash
    && VoteVerifies(c, e.voteA) && VoteVerifies(c, e.voteB)
  }

  ghost predicate EvidenceOk(c: Crypto, es: seq<Evidence>) {
    forall i :: 0 <= i < |es| ==> Conflict(c, es[i])
  }

  ghost predicate EngineOk(c: Crypto, s: EngineState) {
    && SetsOk(c, s.prevotes, s.totalValidators, Prevote, s.height)
    && SetsOk(c, s.precommits, s.totalValidators, Precommit, s.height)
    && EvidenceOk(c, s.equivocations)
  }

  // ---- Preservation ----------------------------------------------------------------------------

  lemma AddWraps(a: nat, b: nat)
    ensures (a % U64 + b) % U64 == (a + b) % U64
  {
  }

  lemma AddKeepsTallyFor(vs: VoteSetState, v: Vote, h: Option<Bytes>)
    requires TallyExact(vs) && v.nullifier !in vs.votes && h in AddVote(vs, v).0.power
    ensures TallyFor(AddVote(vs, v).0, h)
  {
    PowerAdd(vs.votes, v, h);
    if h in vs.power {
      assert TallyFor(vs, h);
      AddWraps(PowerFor(vs.votes, h), v.power);
    } else {
      forall n | n in vs.votes ensures vs.votes[n].blockHash != h {
        assert vs.votes[n].blockHash in VotedFor(vs.votes);
      }
      NoVoteNoPower(vs.votes, h);
    }
  }

  lemma AddVotedFor(votes: map<Bytes, Vote>, v: Vote)
    requires v.nullifier !in votes
    ensures VotedFor(votes[v.nullifier := v]) == VotedFor(votes) + {v.blockHash}
  {
    var after := votes[v.nullifier := v];
    assert after[v.nullifier].blockHash in VotedFor(after);
    forall n | n in votes ensures votes[n].blockHash in VotedFor(after) {
      assert after[n] == votes[n];
    }
  }

  lemma AddKeepsTally(vs: VoteSetState, v: Vote)
    requires TallyExact(vs)
    ensures TallyExact(AddVote(vs, v).0)
  {
    if v.nullifier !in vs.votes {
      AddVotedFor(vs.votes, v);
      forall h | h in AddVote(vs, v).0.power ensures TallyFor(AddVote(vs, v).0, h) {
        AddKeepsTallyFor(vs, v, h);
      }
    }
  }

  lemma AddKeepsVoteSet(c: Crypto, vs: VoteSetState, v: Vote, total: u64)
    requires VoteSetOk(c, vs, total, v.voteType, v.round, v.height) && VoteVerifies(c, v)
    ensures VoteSetOk(c, AddVote(vs, v).0, total, v.voteType, v.round, v.height)
  {
    AddKeepsTally(vs, v);
  }

  lemma EmptyIsOk(c: Crypto, total: u64, t: VoteType, round: u32, height: u64)
    ensures VoteSetOk(c, EmptyVoteSet(total), total, t, round, height)
  {
  }

  lemma CountKeepsSets(c: Crypto, sets: map<u32, VoteSetState>, v: Vote, total: u64)
    requires SetsOk(c, sets, total, v.voteType, v.height) && VoteVerifies(c, v)
    ensures SetsOk(c, sets[v.round := AddVote(VoteSetAt(sets, v.round, total), v).0], total, v.voteType, v.height)
  {
    EmptyIsOk(c, total, v.voteType, v.round, v.height);
    AddKeepsVoteSet(c, VoteSetAt(sets, v.round, total), v, total);
  }

  lemma PrevoteKeepsEngineOk(c: Crypto, s: EngineState, v: Vote)
    requires EngineOk(c, s) && VoteVerifies(c, v) && v.height == s.height && v.voteType == Prevote
    ensures EngineOk(c, HandlePrevote(c, s, v).0)
  {
    CountKeepsSets(c, s.prevotes, v, s.totalValidators);
  }

  lemma PrecommitKeepsEngineOk(c: Crypto, s: EngineState, v: Vote)
    requires EngineOk(c, s) && VoteVerifies(c, v) && v.height == s.height && v.voteType == Precommit
    ensures EngineOk(c, HandlePrecommit(c, s, v).0)
  {
    CountKeepsSets(c, s.precommits, v, s.totalValidators);
  }

  lemma DetectedIsConflict(c: Crypto, s: EngineState, v: Vote)
    requires EngineOk(c, s) && VoteVerifies(c, v) && v.height == s.height
    ensures DetectEquivocation(s, v).Some? ==> Conflict(c, DetectEquivocation(s, v).value)
  {
    var sets := SetsFor(s, v.voteType);
    if v.round in sets && v.nullifier in sets[v.round].votes {
      assert VoteSetOk(c, sets[v.round], s.totalValidators, v.voteType, v.round, s.height);
      assert VoteFits(c, sets[v.round].votes[v.nullifier], v.nullifier, v.voteType, v.round, s.height);
    }
  }

  lemma VoteKeepsEngineOk(c: Crypto, s: EngineState, v: Vote)
    requires EngineOk(c, s)
    ensures EngineOk(c, ReceiveVote(c, s, v).0)
  {
    if v.height == s.height && VoteVerifies(c, v) {
      DetectedIsConflict(c, s, v);
      if v.voteType.Prevote? { PrevoteKeepsEngineOk(c, s, v); } else { PrecommitKeepsEngineOk(c, s, v); }
    }
  }

  lemma StepKeepsEngineOk(c: Crypto, s: EngineState, e: Event)
    requires EngineOk(c, s)
    ensures EngineOk(c, Step(c, s, e))
  {
    if e.HearVote? { VoteKeepsEngineOk(c, s, e.vote); }
  }

  /** Every engine reachable from a new one keeps exact tallies and only genuine evidence. */
  lemma {:induction false} ReachableEngineOk(
    c: Crypto, height: u64, total: u64, validators: seq<Bytes>, nullifier: Option<Bytes>,
    commitment: Option<ValidatorCommitment>, key: Option<Bytes>, es: seq<Event>)
    ensures EngineOk(c, Run(c, NewEngine(height, total, validators, nullifier, commitment, key), es))
  {
    if es != [] {
      var start := NewEngine(height, total, validators, nullifier, commitment, key);
      ReachableEngineOk(c, height, total, validators, nullifier, commitment, key, es[..|es| - 1]);
      StepKeepsEngineOk(c, Run(c, start, es[..|es| - 1]), es[|es| - 1]);
    }
  }
}
