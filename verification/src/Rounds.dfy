/**
 What each event does to an engine, told from the votes it has stored, and how rounds end:
 `src/consensus/tendermint.rs:290-574`.
 */
module Rounds {
  import opened Common
  import Numbers
  import opened Blocks
  import opened Tendermint
  import opened VoteAccounting
  import opened EngineSteps
  import opened Equivocation

  // ---- A counted vote ---------------------------------------------------------------------

  function VotesAt(sets: map<u32, VoteSetState>, round: u32): map<Bytes, Vote> {
    if round in sets then sets[round].votes else map[]
  }

  /**
   With this vote the power behind its hash, summed over all votes stored for its round, is more than
   two thirds of the validators, both in 64-bit arithmetic.
   */
  ghost predicate Completes(s: EngineState, v: Vote) {
    PowerFor(VotesAt(SetsFor(s, v.voteType), v.round)[v.nullifier := v], v.blockHash) % U64
    >= (s.totalValidators * 2 % U64) / 3 + 1
  }

  /** The vote is for this height, its signature is good, and its nullifier has not voted yet. */
  predicate Counts(c: Crypto, s: EngineState, v: Vote) {
    v.height == s.height && VoteVerifies(c, v) && Stored(s, v.voteType, v.round, v.nullifier).None?
  }

  /** The set of the vote's round has gained the vote; no other set has changed. */
  ghost predicate Gained(sets: map<u32, VoteSetState>, v: Vote, after: map<u32, VoteSetState>) {
    && VotesAt(after, v.round) == VotesAt(sets, v.round)[v.nullifier := v]
    && forall r :: r != v.round ==> VotesAt(after, r) == VotesAt(sets, r)
  }

  lemma SetAtOk(c: Crypto, s: EngineState, t: VoteType, round: u32)
    requires EngineOk(c, s)
    ensures VoteSetOk(c, VoteSetAt(SetsFor(s, t), round, s.totalValidators), s.totalValidators, t, round, s.height)
    ensures VoteSetAt(SetsFor(s, t), round, s.totalValidators).votes == VotesAt(SetsFor(s, t), round)
  {
    EmptyIsOk(c, s.totalValidators, t, round, s.height);
  }

  /** The quorum reported when a vote is added is that of the sum. */
  lemma QuorumIsSum(c: Crypto, s: EngineState, v: Vote)
    requires EngineOk(c, s) && Counts(c, s, v)
    ensures AddVote(VoteSetAt(SetsFor(s, v.voteType), v.round, s.totalValidators), v).1
            == if Completes(s, v) then Some(v.blockHash) else None
  {
    var vs := VoteSetAt(SetsFor(s, v.voteType), v.round, s.totalValidators);
    SetAtOk(c, s, v.voteType, v.round);
    AddKeepsVoteSet(c, vs, v, s.totalValidators);
    assert TallyFor(AddVote(vs, v).0, v.blockHash);
  }

  lemma AddedIsGained(s: EngineState, v: Vote)
    requires Stored(s, v.voteType, v.round, v.nullifier).None?
    ensures v.voteType.Prevote? ==> Gained(s.prevotes, v, CountPrevote(s, v).0.prevotes)
    ensures v.voteType.Precommit? ==> Gained(s.precommits, v, CountPrecommit(s, v).0.precommits)
  {
  }

  /** This engine's own vote: for this height and round, with power 1. */
  predicate Casts(s: EngineState, o: Output, t: VoteType, h: Option<Bytes>) {
    && o.BroadcastVote? && o.vote.voteType == t && o.vote.blockHash == h
    && o.vote.height == s.height && o.vote.round == s.round && o.vote.power == 1
    && o.vote.nullifier == match s.ourNullifier { case Some(n) => n case None => ZERO32 }
  }

  lemma MakeVoteCasts(c: Crypto, s: EngineState, t: VoteType, h: Option<Bytes>)
    ensures Casts(s, BroadcastVote(MakeVote(c, s, t, h)), t, h)
  {
  }

  /** The lock after a prevote quorum for `h`: taken when there is none, renewed for the same block, else kept. */
  function LockAfter(s: EngineState, h: Bytes, round: u32): (Bytes, u32) {
    match s.locked
    case None => (h, round)
    case Some(lock) => if lock.0 == h then (h, round) else lock
  }

  /** A counted prevote: only a quorum moves the engine, to a precommit of its lock or of nil. */
  lemma PrevoteHeard(c: Crypto, s: EngineState, v: Vote)
    requires EngineOk(c, s) && Counts(c, s, v) && v.voteType.Prevote?
    ensures var (t, out) := ReceiveVote(c, s, v);
            && Gained(s.prevotes, v, t.prevotes) && out.Ok?
            && if !Completes(s, v) then t == s.(prevotes := t.prevotes) && out.value == Pending
               else match v.blockHash
                 case None => t == s.(prevotes := t.prevotes, phase := Precommitting) && Casts(s, out.value, Precommit, None)
                 case Some(h) =>
                   var lock := LockAfter(s, h, v.round);
                   && t == s.(prevotes := t.prevotes, phase := Precommitting, locked := Some(lock), valid := Some((h, v.round)))
                   && Casts(s, out.value, Precommit, Some(lock.0))
  {
    QuorumIsSum(c, s, v);
    AddedIsGained(s, v);
    TakesCounted(c, s, v);
    var s1 := CountPrevote(s, v).0;
    if Completes(s, v) {
      match v.blockHash
      case None => MakeVoteCasts(c, s1.(phase := Precommitting), Precommit, None);
      case Some(h) =>
        var lock := LockAfter(s, h, v.round);
        MakeVoteCasts(c, Relock(s1, h, v.round).(phase := Precommitting), Precommit, Some(lock.0));
    }
  }

  lemma TakesCounted(c: Crypto, s: EngineState, v: Vote)
    requires Counts(c, s, v)
    ensures ReceiveVote(c, s, v)
            == if v.voteType.Prevote? then (HandlePrevote(c, s, v).0, Ok(HandlePrevote(c, s, v).1))
               else (HandlePrecommit(c, s, v).0, Ok(HandlePrecommit(c, s, v).1))
  {
  }

  /** The next round has begun: its number is one more, modulo 2^32, and nothing is proposed in it yet. */
  predicate NextRoundOf(s: EngineState, t: EngineState) {
    t == s.(prevotes := t.prevotes, precommits := t.precommits,
            round := (s.round + 1) % U32, proposal := None, phase := Proposing)
  }

  /**
   A counted precommit: a quorum for nil ends the round, a quorum for the block at hand finalizes it
   with all votes of its round, a quorum for any other block leaves the engine waiting.
   */
  lemma PrecommitHeard(c: Crypto, s: EngineState, v: Vote)
    requires EngineOk(c, s) && Counts(c, s, v) && v.voteType.Precommit?
    ensures var (t, out) := ReceiveVote(c, s, v);
            && Gained(s.precommits, v, t.precommits) && t.prevotes == s.prevotes && out.Ok?
            && if Completes(s, v) && v.blockHash.None? then NextRoundOf(s, t) && out.value == Pending
               else if Completes(s, v) && s.proposal.Some? && v.blockHash == Some(HashOf(c, s.proposal.value.block))
               then && t == s.(precommits := t.precommits, phase := Committed)
                    && out.value == FinalizedBlock(s.proposal.value.block, VotesAt(t.precommits, v.round).Values)
               else t == s.(precommits := t.precommits) && out.value == Pending
  {
    QuorumIsSum(c, s, v);
    AddedIsGained(s, v);
    TakesCounted(c, s, v);
  }

  /** Any other vote is refused, ignored, or yields evidence; it moves nothing else. */
  lemma UncountedVote(c: Crypto, s: EngineState, v: Vote)
    requires !Counts(c, s, v)
    ensures var (t, out) := ReceiveVote(c, s, v);
            && t == s.(equivocations := t.equivocations)
            && (v.height != s.height ==> t == s && out == Err(WrongHeight(s.height, v.height)))
            && (v.height == s.height && !VoteVerifies(c, v) ==> t == s && out == Ok(Pending))
  {
    if v.height == s.height && VoteVerifies(c, v) && DetectEquivocation(s, v).None? {
      RepeatIsIgnored(s, v);
    }
  }

  /** A signature that does not verify over exactly these bytes makes a vote worthless. */
  lemma BadVoteIsIgnored(c: Crypto, s: EngineState, v: Vote)
    requires v.height == s.height && v.signature != []
    requires |v.signature| != 64 || !c.edVerify(v.pubkey, VoteSignBytes(v), v.signature)
    ensures ReceiveVote(c, s, v) == (s, Ok(Pending))
  {
  }

  // ---- Timeouts ----------------------------------------------------------------------------

  lemma TimedOut(c: Crypto, s: EngineState)
    ensures CheckTimeout(c, s, false) == (s, None)
    ensures var (t, out) := CheckTimeout(c, s, true);
            match s.phase
            case Proposing => t == s && out.Some? && Casts(s, out.value, Prevote, None)
            case Prevoting => t == s.(phase := Precommitting) && out.Some? && Casts(s, out.value, Precommit, None)
            case Precommitting => NextRoundOf(s, t) && out == Some(Pending)
            case _ => t == s && out == None
  {
    MakeVoteCasts(c, s, Prevote, None);
    MakeVoteCasts(c, s.(phase := Precommitting), Precommit, None);
  }

  // ---- How rounds end ------------------------------------------------------------------------

  /** Nil has a precommit quorum with this vote, or the wait for precommits has run out. */
  ghost predicate EndsRound(c: Crypto, s: EngineState, e: Event) {
    match e
    case HearVote(v) => v.voteType.Precommit? && v.blockHash.None? && Counts(c, s, v) && Completes(s, v)
    case Tick(expired) => expired && s.phase.Precommitting?
    case _ => false
  }

  /** These events, and no others short of a new height, end the round. */
  lemma RoundEndsIff(c: Crypto, s: EngineState, e: Event)
    requires EngineOk(c, s) && !e.Begin?
    ensures EndsRound(c, s, e) ==> NextRoundOf(s, Step(c, s, e))
    ensures !EndsRound(c, s, e) ==> Step(c, s, e).round == s.round
  {
    match e {
      case Submit(b) =>
      case HearProposal(p) =>
      case Tick(expired) => TimedOut(c, s);
      case HearVote(v) =>
        if !Counts(c, s, v) {
          UncountedVote(c, s, v);
        } else if v.voteType.Prevote? {
          PrevoteHeard(c, s, v);
        } else {
          PrecommitHeard(c, s, v);
        }
    }
  }

  /** How many rounds have ended after the event, of how many before. */
  ghost function EndedAfter(c: Crypto, s: EngineState, e: Event, ended: nat): nat {
    if e.Begin? then 0 else ended + if EndsRound(c, s, e) then 1 else 0
  }

  /** The rounds that have ended since the height began, on top of the round the run started in. */
  ghost function RoundsEnded(c: Crypto, s: EngineState, es: seq<Event>): nat {
    if es == [] then s.round
    else EndedAfter(c, Run(c, s, es[..|es| - 1]), es[|es| - 1], RoundsEnded(c, s, es[..|es| - 1]))
  }

  lemma NextRoundNumber(ended: nat)
    ensures (ended % U32 + 1) % U32 == (ended + 1) % U32
  {
  }

  lemma RoundOfStep(c: Crypto, s: EngineState, e: Event, ended: nat)
    requires EngineOk(c, s) && s.round == ended % U32
    ensures EngineOk(c, Step(c, s, e)) && Step(c, s, e).round == EndedAfter(c, s, e, ended) % U32
  {
    StepKeepsEngineOk(c, s, e);
    NextRoundNumber(ended);
    if !e.Begin? { RoundEndsIff(c, s, e); }
  }

  /** Along every run an engine is in the round that as many ended rounds lead to, modulo 2^32. */
  lemma {:induction false} RoundOfRun(c: Crypto, s: EngineState, es: seq<Event>)
    requires EngineOk(c, s)
    ensures EngineOk(c, Run(c, s, es)) && Run(c, s, es).round == RoundsEnded(c, s, es) % U32
  {
    if es != [] {
      var init, e := es[..|es| - 1], es[|es| - 1];
      RoundOfRun(c, s, init);
      RoundOfStep(c, Run(c, s, init), e, RoundsEnded(c, s, init));
    }
  }

  // ---- Whose turn it is --------------------------------------------------------------------------

  lemma ProposerIs(validators: seq<Bytes>, height: u64, round: u32, turn: nat)
    requires validators != [] && turn == height + round < U64
    ensures ProposerAt(validators, height, round) == Some(validators[turn % |validators|])
  {
    assert turn % U64 == turn;
  }

  /** The next round belongs to the next validator of the list, and the first follows the last. */
  lemma NextProposer(validators: seq<Bytes>, height: u64, round: u32) returns (i: nat)
    requires validators != [] && height + round + 1 < U64 && round + 1 < U32
    ensures i < |validators| && ProposerAt(validators, height, round) == Some(validators[i])
    ensures ProposerAt(validators, height, round + 1) == Some(validators[if i + 1 < |validators| then i + 1 else 0])
  {
    var turn, next: u32 := height + round, round + 1;
    i := turn % |validators|;
    ProposerIs(validators, height, round, turn);
    ProposerIs(validators, height, next, turn + 1);
    Successor(turn, |validators|);
  }

  lemma Successor(a: nat, n: nat)
    requires n > 0
    ensures (a + 1) % n == if a % n + 1 < n then a % n + 1 else 0
  {
    var d := a / n;
    assert a == n * d + a % n;
    if a % n + 1 < n {
      Numbers.ModUnique(a + 1, n, d, a % n + 1);
    } else {
      assert n * (d + 1) == n * d + n;
      Numbers.ModUnique(a + 1, n, d + 1, 0);
    }
  }

  /** As many rounds in a row as there are validators give each of them a turn. */
  lemma EveryoneProposes(validators: seq<Bytes>, height: u64, round: u32, k: nat) returns (j: nat)
    requires k < |validators| && height + round + |validators| < U64 && round + |validators| < U32
    ensures j < |validators| && ProposerAt(validators, height, round + j) == Some(validators[k])
  {
    var n, a := |validators|, height + round;
    j := TurnOf(a, n, k);
    ProposerIs(validators, height, round + j, a + j);
  }

  lemma TurnOf(a: nat, n: nat, k: nat) returns (j: nat)
    requires k < n
    ensures j < n && (a + j) % n == k
  {
    j := if k >= a % n then k - a % n else k + n - a % n;
    var d := a / n;
    assert a == n * d + a % n;
    assert n * (d + 1) == n * d + n;
    Numbers.ModUnique(a + j, n, if k >= a % n then d else d + 1, k);
  }

  // ---- Proposals ------------------------------------------------------------------------------------

  /** What a signature on a proposal is over. */
  function ProposalText(c: Crypto, p: Proposal): Bytes {
    Ascii("PROPOSAL") + ToLe(p.height, 8) + ToLe(p.round, 4) + HashOf(c, p.block)
  }

  /** A proposal for this height and round from its proposer, unsigned or signed with the key it shows. */
  predicate GoodProposal(c: Crypto, s: EngineState, p: Proposal) {
    && p.height == s.height && p.round == s.round
    && s.validators != [] && p.proposer == s.validators[(s.height + s.round) % U64 % |s.validators|]
    && (p.signature != [] ==> |p.signature| == 64 && c.edVerify(p.proof.publicKey, ProposalText(c, p), p.signature))
  }

  lemma VerifiedIsGood(c: Crypto, s: EngineState, p: Proposal)
    ensures GoodProposal(c, s, p) <==>
              p.height == s.height && p.round == s.round && Proposer(s, s.round) == Some(p.proposer) && ProposalVerifies(c, p)
  {
    assert ProposalText(c, p) == ProposalSignBytes(c, p);
  }

  /** Exactly the good proposals are taken; the prevote goes to the lock, if there is one. */
  lemma ProposalTakenIff(c: Crypto, s: EngineState, p: Proposal)
    ensures var (t, out) := ReceiveProposal(c, s, p);
            && (out.Ok? <==> GoodProposal(c, s, p))
            && (out.Err? ==> t == s)
            && (out.Ok? ==>
                  && t == s.(proposal := Some(p), phase := Prevoting)
                  && Casts(s, out.value, Prevote, Some(if s.locked.Some? then s.locked.value.0 else HashOf(c, p.block))))
  {
    VerifiedIsGood(c, s, p);
    var h := Some(if s.locked.Some? then s.locked.value.0 else HashOf(c, p.block));
    MakeVoteCasts(c, s.(proposal := Some(p), phase := Prevoting), Prevote, h);
  }

  /** Two proposals share their signed bytes exactly when height, round and block hash agree. */
  lemma ProposalBytesBinding(c: Crypto, p: Proposal, q: Proposal)
    ensures ProposalSignBytes(c, p) == ProposalSignBytes(c, q)
            <==> p.height == q.height && p.round == q.round && HashOf(c, p.block) == HashOf(c, q.block)
  {
    if ProposalSignBytes(c, p) == ProposalSignBytes(c, q) {
      var name := Ascii("PROPOSAL");
      Slices(name, ToLe(p.height, 8), ToLe(p.round, 4), HashOf(c, p.block));
      Slices(name, ToLe(q.height, 8), ToLe(q.round, 4), HashOf(c, q.block));
      PowersOfTwo();
      Bytes4();
      LeInjective(p.height, q.height, 8);
      LeInjective(p.round, q.round, 4);
    }
  }

  /** No signature on a vote is one on a proposal. */
  lemma VoteIsNoProposal(c: Crypto, v: Vote, p: Proposal)
    ensures VoteSignBytes(v) != ProposalSignBytes(c, p)
  {
    var name := if v.voteType.Prevote? then Ascii("PREVOTE") else Ascii("PRECOMMIT");
    HeadOf(name, ToLe(v.height, 8), ToLe(v.round, 4), HashOrZero(v.blockHash), 2);
    HeadOf(Ascii("PROPOSAL"), ToLe(p.height, 8), ToLe(p.round, 4), HashOf(c, p.block), 2);
    assert VoteSignBytes(v)[2] == name[2] == 'E' as int;
  }

  lemma HeadOf(a: Bytes, b: Bytes, c: Bytes, d: Bytes, i: nat)
    requires i < |a|
    ensures i < |a + b + c + d| && (a + b + c + d)[i] == a[i]
  {
  }

  // ---- What an engine says, others take ------------------------------------------------------------

  ghost predicate SignsFor(c: Crypto, key: Bytes, pubkey: Bytes) {
    forall text :: SignsText(c, key, pubkey, text)
  }

  ghost predicate SignsText(c: Crypto, key: Bytes, pubkey: Bytes, text: Bytes) {
    |c.edSign(key, text)| == 64 && c.edVerify(pubkey, text, c.edSign(key, text))
  }

  /** The engine's signing key, if it has one, belongs to the public key it shows. */
  ghost predicate KeysMatch(c: Crypto, s: EngineState) {
    s.signingKey.Some? ==>
      SignsFor(c, s.signingKey.value, if s.ourCommitment.Some? then s.ourCommitment.value.publicKey else ZERO32)
  }

  /** A proposal submitted by the proposer is taken by every engine at the same height and round. */
  lemma SubmittedIsTaken(c: Crypto, s: EngineState, b: Block, u: EngineState)
    requires KeysMatch(c, s) && u.height == s.height && u.round == s.round && u.validators == s.validators
    ensures var (t, out) := SubmitProposal(c, s, b);
            && (out.Ok? <==> s.ourNullifier.Some? && s.validators != []
                             && s.validators[(s.height + s.round) % U64 % |s.validators|] == s.ourNullifier.value)
            && (out.Err? ==> t == s && out.error == UnauthorizedProposer)
            && (out.Ok? ==> && out.value.BroadcastProposal? && out.value.proposal.block == b
                            && t == s.(proposal := Some(out.value.proposal))
                            && GoodProposal(c, u, out.value.proposal))
  {
    if IsProposer(s) && s.signingKey.Some? {
      var p := MakeProposal(c, s, b);
      assert ProposalText(c, p) == ProposalText(c, p.(signature := []));
      assert SignsText(c, s.signingKey.value, p.proof.publicKey, ProposalText(c, p));
    }
  }

  lemma OwnVoteVerifies(c: Crypto, s: EngineState, t: VoteType, h: Option<Bytes>)
    requires KeysMatch(c, s)
    ensures VoteVerifies(c, MakeVote(c, s, t, h))
  {
    if s.signingKey.Some? {
      var v := MakeVote(c, s, t, h);
      assert VoteSignBytes(v) == VoteSignBytes(v.(signature := []));
      assert SignsText(c, s.signingKey.value, v.pubkey, VoteSignBytes(v));
    }
  }

  /** Every vote an engine hands out is counted by every engine at that height which has none of its nullifier. */
  lemma EmittedIsCounted(c: Crypto, s: EngineState, e: Event, v: Vote, u: EngineState)
    requires KeysMatch(c, s) && Emitted(c, s, e) == Some(BroadcastVote(v))
    requires u.height == s.height && Stored(u, v.voteType, v.round, v.nullifier).None?
    ensures Stored(ReceiveVote(c, u, v).0, v.voteType, v.round, v.nullifier) == Some(v)
  {
    var from, h := EmittedIsMade(c, s, e, v);
    OwnVoteVerifies(c, from, v.voteType, h);
    TakesCounted(c, u, v);
    PrevoteFacts(c, u, v);
    PrecommitFacts(c, u, v);
  }

  lemma EmittedIsMade(c: Crypto, s: EngineState, e: Event, v: Vote) returns (from: EngineState, h: Option<Bytes>)
    requires Emitted(c, s, e) == Some(BroadcastVote(v))
    ensures v == MakeVote(c, from, v.voteType, h) && from.height == s.height
    ensures from.signingKey == s.signingKey && from.ourCommitment == s.ourCommitment
  {
    h := v.blockHash;
    match e {
      case HearProposal(p) => from := s.(proposal := Some(p), phase := Prevoting);
      case Tick(_) => from := s;
      case HearVote(w) =>
        from := HandlePrevote(c, s, w).0;
        MadeByHandler(c, s, w);
    }
  }

  lemma MadeByHandler(c: Crypto, s: EngineState, w: Vote)
    ensures var (t, out) := HandlePrevote(c, s, w);
            && t.signingKey == s.signingKey && t.ourCommitment == s.ourCommitment && t.height == s.height
            && (out.BroadcastVote? ==> out.vote == MakeVote(c, t, Precommit, out.vote.blockHash))
    ensures !HandlePrecommit(c, s, w).1.BroadcastVote?
  {
  }
}
