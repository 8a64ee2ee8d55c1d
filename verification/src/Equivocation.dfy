/** Conflicting votes are caught, and what a vote's signature binds: `src/consensus/tendermint.rs`. */
module Equivocation {
  import opened Common
  import opened Blocks
  import opened Tendermint
  import opened VoteAccounting
  import opened EngineSteps

  // ---- A stored vote decides what later votes of its nullifier do ---------------------------------

  /** The vote stored for a nullifier in a round, if any. */
  function Stored(s: EngineState, t: VoteType, round: u32, n: Bytes): Option<Vote> {
    var sets := SetsFor(s, t);
    if round in sets && n in sets[round].votes then Some(sets[round].votes[n]) else None
  }

  lemma CountKeepsStored(s: EngineState, v: Vote, t: VoteType, round: u32, n: Bytes)
    requires Stored(s, t, round, n).Some?
    ensures Stored(CountPrevote(s, v).0, t, round, n) == Stored(s, t, round, n)
    ensures Stored(CountPrecommit(s, v).0, t, round, n) == Stored(s, t, round, n)
  {
  }

  lemma StepKeepsStored(c: Crypto, s: EngineState, e: Event, t: VoteType, round: u32, n: Bytes)
    requires !e.Begin? && Stored(s, t, round, n).Some?
    ensures Stored(Step(c, s, e), t, round, n) == Stored(s, t, round, n)
    ensures Step(c, s, e).height == s.height
  {
    StepMove(c, s, e);
    if e.HearVote? { CountKeepsStored(s, e.vote, t, round, n); }
  }

  lemma {:induction false} RunKeepsStored(c: Crypto, s: EngineState, es: seq<Event>, t: VoteType, round: u32, n: Bytes)
    requires Stored(s, t, round, n).Some?
    requires forall i :: 0 <= i < |es| ==> !es[i].Begin?
    ensures Stored(Run(c, s, es), t, round, n) == Stored(s, t, round, n)
    ensures Run(c, s, es).height == s.height
  {
    if es != [] {
      RunKeepsStored(c, s, es[..|es| - 1], t, round, n);
      StepKeepsStored(c, Run(c, s, es[..|es| - 1]), es[|es| - 1], t, round, n);
    }
  }

  /**
   Once a vote is stored, and until the next height begins, a verified vote of the same nullifier,
   type and round for another block yields evidence naming both, however much happened in between;
   neither it nor a repeat of the stored vote changes a tally.
   */
  lemma ConflictIsCaught(c: Crypto, s: EngineState, es: seq<Event>, v: Vote)
    requires Stored(s, v.voteType, v.round, v.nullifier).Some?
    requires forall i :: 0 <= i < |es| ==> !es[i].Begin?
    requires v.height == s.height && VoteVerifies(c, v)
    ensures var before, stored := Run(c, s, es), Stored(s, v.voteType, v.round, v.nullifier).value;
            var (after, out) := ReceiveVote(c, before, v);
            && (v.blockHash != stored.blockHash ==>
                  out == Ok(SlashEvidence(Evidence(s.height, before.round, v.voteType, stored, v)))
                  && after.equivocations == before.equivocations + [out.value.evidence]
                  && after.prevotes == before.prevotes && after.precommits == before.precommits)
            && (v.blockHash == stored.blockHash ==>
                  out == Ok(Pending) && after == before)
  {
    RunKeepsStored(c, s, es, v.voteType, v.round, v.nullifier);
    var before := Run(c, s, es);
    if v.blockHash == Stored(s, v.voteType, v.round, v.nullifier).value.blockHash {
      RepeatIsIgnored(before, v);
    }
  }

  lemma RepeatIsIgnored(s: EngineState, v: Vote)
    requires Stored(s, v.voteType, v.round, v.nullifier).Some?
    ensures v.voteType.Prevote? ==> CountPrevote(s, v) == (s, None)
    ensures v.voteType.Precommit? ==> CountPrecommit(s, v) == (s, None)
  {
    var sets := SetsFor(s, v.voteType);
    assert sets[v.round := sets[v.round]] == sets;
  }

  // ---- What a vote signature covers --------------------------------------------------------------------

  function HashOrZero(h: Option<Bytes>): Bytes {
    match h { case Some(b) => b case None => ZERO32 }
  }

  /**
   Two votes share their signed bytes exactly when type, height and round agree and so do the
   hashes, a nil vote counting as the all-zero hash.  Nullifier, public key and power are not signed.
   */
  lemma SignBytesBinding(v: Vote, w: Vote)
    requires v.blockHash.Some? ==> |v.blockHash.value| == 32
    requires w.blockHash.Some? ==> |w.blockHash.value| == 32
    ensures VoteSignBytes(v) == VoteSignBytes(w)
            <==> v.voteType == w.voteType && v.height == w.height && v.round == w.round
                 && HashOrZero(v.blockHash) == HashOrZero(w.blockHash)
  {
    if VoteSignBytes(v) == VoteSignBytes(w) {
      assert v.voteType == w.voteType by {
        assert |VoteSignBytes(v)| == (if v.voteType.Prevote? then 51 else 53);
        assert |VoteSignBytes(w)| == (if w.voteType.Prevote? then 51 else 53);
      }
      var tag := if v.voteType.Prevote? then 7 else 9;
      SignedFields(v, tag);
      SignedFields(w, tag);
      PowersOfTwo();
      Bytes4();
      LeInjective(v.height, w.height, 8);
      LeInjective(v.round, w.round, 4);
    }
  }

  lemma Slices(a: Bytes, b: Bytes, c: Bytes, d: Bytes)
    ensures var s := a + b + c + d;
            && s[|a|..|a| + |b|] == b
            && s[|a| + |b|..|a| + |b| + |c|] == c
            && s[|a| + |b| + |c|..] == d
  {
  }

  lemma SignedFields(v: Vote, tag: nat)
    requires tag == if v.voteType.Prevote? then 7 else 9
    requires v.blockHash.Some? ==> |v.blockHash.value| == 32
    ensures |VoteSignBytes(v)| == tag + 44
    ensures VoteSignBytes(v)[tag..tag + 8] == ToLe(v.height, 8)
    ensures VoteSignBytes(v)[tag + 8..tag + 12] == ToLe(v.round, 4)
    ensures VoteSignBytes(v)[tag + 12..] == HashOrZero(v.blockHash)
  {
    var name := if v.voteType.Prevote? then Ascii("PREVOTE") else Ascii("PRECOMMIT");
    var h, r, b := ToLe(v.height, 8), ToLe(v.round, 4), HashOrZero(v.blockHash);
    assert VoteSignBytes(v) == name + h + r + b;
    Slices(name, h, r, b);
  }

  /** So a signed nil vote verifies as a vote for the all-zero hash as well, and under any nullifier. */
  lemma NilVoteAliasesZeroHash(c: Crypto, v: Vote, n: Bytes, power: u64)
    requires v.blockHash == None
    ensures VoteVerifies(c, v) <==> VoteVerifies(c, v.(blockHash := Some(ZERO32), nullifier := n, power := power))
  {
    var w := v.(blockHash := Some(ZERO32), nullifier := n, power := power);
    SignBytesBinding(v, w);
  }
}
