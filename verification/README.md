# CipherX: a Dafny model of consensus, confidential transactions and the ledger

CipherX is a privacy chain: Tendermint-style consensus, ring signatures, stealth addresses,
confidential amounts, and a ledger persisted in RocksDB. This project models the logic of those parts
and proves what they promise, for every input, every run and every reachable state. `dafny verify
dfyconfig.toml` checks all of it.

## What is modelled

**Consensus** (`src/consensus/tendermint.rs`). `Tendermint` gives the engine as a transition function
on values; `TendermintEngine` has `VoteSet` and `Engine` as the source has them, classes whose methods
update their fields, each proved to follow that function. `VoteAccounting`, `EngineSteps` and
`Equivocation` prove what every run of one engine keeps; `Rounds` says what each event does, from the
sums over stored votes, how rounds end and whose turn is next. `Network` puts the honest engines and
Byzantine validators into one transition system, and `Agreement` proves agreement over all rounds of a
height and validity, for every run. `Restart` shows why one assumption is needed.

The assumptions about the network are those of `Network.ConfigOk` and `Network.Enabled`:

- the validator list has no duplicates, its length is the engine's `total_validators`, and fewer than
  2^63 validators exist, so that neither the quorum nor a tally wraps at 64 bits;
- at most a third of the validators, rounded down, are Byzantine; they may send anything at any time;
- an engine hears votes only under nullifiers of the list and with power 1, and under an honest
  nullifier only votes that engine cast (the signed bytes of a vote cover neither, see
  `Equivocation.SignBytesBinding`, so the engine itself cannot check this);
- an honest node begins a height at most once. The error path of `src/main.rs:209-212` begins the
  same height again; `Restart.RestartBreaksAgreement` gives, for every list of validators, a run in
  which every honest one then finalizes two given blocks at one height.

Votes and proposals may otherwise be lost, repeated, delayed and reordered at will, proposals may come
from anyone, and timeouts fire at any moment. Nothing is claimed about one vote per round (an engine
may precommit nil on a timeout and a block later in the same round, and prevotes once per proposal it
hears) or about liveness.

**Algebraic protocols** (`src/crypto/ring_sig.rs`, `ringct.rs`, `stealth.rs`). `Ristretto` takes the
group of section 4 of RFC 9496 as any record of operations that obeys the laws of a cyclic group of
odd prime order with canonical encodings (`Lawful`); the laws of multiples, of inverses (by the
extended Euclidean algorithm in `Numbers`) and of extraction are proved from them. A hash is an oracle
on its domain tag and the list of byte strings it absorbs; random scalars are arguments. The loops of
`sign`, `verify`, `prove_range` and `verify_range` are proved as loops. Soundness is stated with
explicit extractors on two accepting transcripts, because in a cyclic group every commitment has some
opening. `RingBinding`, `RangeBinding` and `StealthBinding` say what the hashes tie together: in their
results the alternative is two different byte strings absorbed under one tag with one digest
(`Ristretto.Collision`), both of them written out.

**Ledger** (`src/core/chain.rs`, `src/storage/db.rs`). `Ledger` is the in-memory chain as a value,
`Admission` when a block is accepted and what it is refused for, `UtxoSet` what the set of outputs
holds, `ChainNode.Chain` the object with its loops, `Database` the column families as maps of bytes written
in two atomic batches, `Recovery` replay and every run of a node that may die before, between and
after the two batches. Block encoding is assumed to round-trip. `Emission` and `Supply` treat rewards,
the halving eras and the cap.

**Supporting structures.** `Merkle` and `PrivateState` (transaction and storage roots), `Mempool`,
`Gossip` (message cache and freshness), `Sync` (request serving, catch-up, block application).

**Collisions.** Digests are 32 bytes, so no hash is assumed injective on everything it can be given.
Results about the ledger ask that the headers of the run at hand (offered blocks and genesis blocks)
have distinct hashes, results about the mempool that the transactions added in the run have distinct
ids; `Ledger.HashesCanBeApart`, `Recovery.RunHashesCanBeApart` and `Mempool.IdsCanDiffer` give such a
hash for every run that can be written down. Results about roots and signatures ask for nothing and
return the collision instead.

## Results that are not what one might expect

- A nil vote and a vote for the all-zero hash have the same signed bytes (`Equivocation.NilVoteAliasesZeroHash`).
- Evidence carries the round the engine is in, not the round of the two votes, which may differ.
- A fresh client catches up with a seed exactly when its genesis block hashes to what the seed's first
  block names (`Sync.FreshClientConverges`). Genesis blocks carry the time of their creation
  (`src/core/block.rs:117`), so this takes the same millisecond (`Sync.SameGenesisSameTime`).
- For the same reason reopening a chain changes its block 0, and nothing else (`Recovery.CrashRecovery`).
- The fifteen halving eras pay about 1.009 million CIP in all. Documentation in
  `src/core/chain.rs:73-76` expects the cap of 18.4 million near year 50; in the code the cap first
  takes something after height 133 762 500 124 799 (`Emission.CapBindsAfter`).
- Transaction lists of different lengths can share a root: repeating the last of an odd number of
  three or more leaves does not change it (`Merkle.RepeatedLastLeaf`). Collisions apart, two lists
  share a root exactly when, with the taller tree cut off at the height of the other, both are the
  same once every odd level has its last node doubled (`Merkle.RootsAgreeAtAnyLength`).
- A gossip message stamped in the future can be accepted twice (`Gossip.FutureMessagePassesTwice`);
  one that is not cannot (`Gossip.AtMostOnce`). As the id covers payload and topic only, a copy with
  a new timestamp passes again exactly when it is fresh and a 128th insertion since has found the id
  a window old (`Gossip.PassesAgainIff`).
- Whoever alters an accepted ring signature under its c0 and key image, or an accepted range proof
  under its challenges, has a hash collision, a secret key of the ring or the logarithm of H
  (`RingBinding.Unalterable`, `RangeBinding.ProofUnalterable`).
- A precommit quorum for nil ends the round the engine is in, whatever round the votes are for, and
  every further nil precommit for that round ends one more (`Rounds.PrecommitHeard`).
- A transaction without inputs that verifies is accepted again and again; its outputs are filed under
  the same keys each time, and only the last ones stay (`UtxoSet.RepeatReplaces`). With distinct ids
  nothing is lost (`UtxoSet.UtxosOfRun`).
- The mempool does not check that a transaction's own key images differ, and the ledger refuses a
  block of pooled transactions as a double spend exactly when one of them repeats one
  (`Mempool.PurgedPoolDoubleSpendsIff`).
- With a challenge of zero at the signer's slot a ring signature verifies under any key
  (`RingSignature.ZeroChallengeAcceptsAnyKey`).

## Integers

The program is built in release mode, where `u64` and `u32` arithmetic wraps. Wrap-around is written
out where it can be reached: the quorum `total * 2 / 3 + 1`, vote tallies, `height + round` in the
proposer rotation, the round counter, output indices, the saturating supply. A chain's height is an
unbounded number bounded in fact by the 64-bit heights of the blocks it accepts: after height 2^64 - 1
the model refuses every block. Digests and random strings are the integers they encode.

## Model

| member | source | states |
|---|---|---|
| Agreement.Agreement | src/consensus/tendermint.rs:420-491 | in every state of every run with at most a third of the validators Byzantine, two decisions of honest engines at one height, in whatever rounds, are for one block hash |
| Agreement.Validity | src/consensus/tendermint.rs:329-491 | in every such state each hash an honest engine has locked, voted for or finalized is that of a proposal some honest engine accepted, for that height, in the name of the proposer of its round and verified |
| Agreement.HonestInBoth | src/consensus/tendermint.rs:166-172 | two sets of at least 2n/3+1 validators share an honest one |
| Agreement.QuorumVoters | src/consensus/tendermint.rs:175-186 | when `add` reports a quorum, at least 2n/3+1 distinct validators voted for that hash: power is a head count and nothing wraps |
| Agreement.QuorumHasHonestBallot | src/consensus/tendermint.rs:175-186 | a reported quorum contains a vote some honest engine really cast, for that hash, type and height |
| Agreement.PowerIsHeadCount | src/consensus/tendermint.rs:175-186 | with one unit of power each, the summed power behind a hash is the number of its voters |
| Agreement.LockStaysProposed | src/consensus/tendermint.rs:420-443 | a step keeps the locked block one that was proposed: a first lock needs a prevote quorum, hence an honest prevote |
| Agreement.StaysSticky | src/consensus/tendermint.rs:431-461 | a step keeps every block precommitted at this height equal to the locked one |
| Agreement.StaysOneCommit | src/consensus/tendermint.rs:447-461 | a step keeps each engine to one precommitted block per height |
| Agreement.BallotsStayProposed | src/consensus/tendermint.rs:374-396 | a step keeps every block voted for one that was proposed; a locked engine repeats its lock whatever is proposed |
| Agreement.NewDecisionCertified | src/consensus/tendermint.rs:463-491 | a finalized block comes with deliverable precommits for it from a quorum |
| Agreement.BeginKeepsNetOk | src/consensus/tendermint.rs:306-316 | beginning a height for the first time keeps the invariant: the lock is gone, but no vote for that height was cast before |
| Agreement.StepKeepsNetOk | src/consensus/tendermint.rs:306-529 | every enabled step of any node keeps all parts of the network invariant |
| Agreement.RunNetOk | src/consensus/tendermint.rs:306-529 | the network invariant holds in every state of every run |
| Agreement.CertifiedAgree | src/consensus/tendermint.rs:420-491 | two certified decisions of one height agree |
| Agreement.DecisionProposed | src/consensus/tendermint.rs:463-491 | a certified decision is for a proposed block |
| Restart.RestartBreaksAgreement | src/main.rs:209-212 | the start-once assumption is needed, whatever the validators: for every admissible configuration with at least one validator, every height and every two blocks, some run in which heights may be begun again, and all else is as assumed, ends with every honest engine having finalized both blocks at that height |
| Restart.RoundFinalizes | src/consensus/tendermint.rs:353-491 | from all honest engines fresh at a height, one proposal and the votes of a quorum let every one of them finalize any block, and begin the height afresh |
| Restart.HearsPrevote | src/consensus/tendermint.rs:420-461 | the prevote that completes the quorum locks the block and casts the precommit; an earlier one is only counted |
| Restart.HearsPrecommit | src/consensus/tendermint.rs:463-491 | the precommit that completes the quorum finalizes the block with exactly the votes counted; an earlier one is only counted |
| EngineSteps.StepMove | src/consensus/tendermint.rs:329-529 | any step within a height: a lock keeps its block and a first lock has a prevote quorum; vote sets change only by counting the vote heard; a block is precommitted only if locked, prevoted only if locked or just proposed; a finalized block has a precommit quorum whose votes come with it |
| EngineSteps.PrevoteFacts | src/consensus/tendermint.rs:420-443 | what a counted prevote does to lock, vote sets and output |
| EngineSteps.PrecommitFacts | src/consensus/tendermint.rs:463-491 | what a counted precommit does: the lock stays, and finality needs a quorum for the block at hand |
| VoteAccounting.ReachableEngineOk | src/consensus/tendermint.rs:159-186 | in every engine reachable from a new one, each stored vote sits under its own nullifier with its set's type, round and height, `power_by_block` is exactly the per-hash sum, and all evidence is two verified conflicting votes of one nullifier |
| VoteAccounting.StepKeepsEngineOk | src/consensus/tendermint.rs:306-529 | every step keeps exact accounting |
| VoteAccounting.AddKeepsTally | src/consensus/tendermint.rs:175-186 | counting a vote keeps the tally the exact 64-bit sum of the stored votes, for exactly the voted hashes |
| VoteAccounting.PowerPick | src/consensus/tendermint.rs:175-186 | the summed power does not depend on the order of summation |
| VoteAccounting.DetectedIsConflict | src/consensus/tendermint.rs:533-552 | what is reported as equivocation is one |
| Rounds.RoundOfRun | src/consensus/tendermint.rs:463-529 | along every run of an engine its round is the number of rounds that have ended since the height began, modulo 2^32 |
| Rounds.RoundEndsIff | src/consensus/tendermint.rs:463-529 | short of a new height, exactly two events end a round: a counted nil precommit with which nil has more than two thirds of the power, and a precommit timeout; then the next round has begun, with no proposal and the propose step |
| Rounds.PrevoteHeard | src/consensus/tendermint.rs:400-461 | what a counted prevote does, told from the sum over all stored votes: nothing but being counted, or, with a quorum, the lock taken, renewed or kept and a precommit of exactly that lock, or of nil |
| Rounds.PrecommitHeard | src/consensus/tendermint.rs:400-499 | what a counted precommit does, told likewise: a quorum for nil ends the round, one for the block at hand finalizes it with all votes of its round, anything else leaves the engine waiting |
| Rounds.UncountedVote | src/consensus/tendermint.rs:400-418 | any other vote moves nothing but, perhaps, the evidence |
| Rounds.BadVoteIsIgnored | src/consensus/tendermint.rs:104-120 | a vote whose signature is not empty and does not verify over exactly its signed bytes is ignored |
| Rounds.TimedOut | src/consensus/tendermint.rs:503-529 | each timeout: nil prevote without leaving the step, nil precommit, or the next round |
| Rounds.NextProposer | src/consensus/tendermint.rs:290-295 | the proposer of the next round is the next validator of the list, the first after the last |
| Rounds.EveryoneProposes | src/consensus/tendermint.rs:290-295 | among as many successive rounds as there are validators each has one |
| Rounds.ProposalTakenIff | src/consensus/tendermint.rs:353-396 | a proposal is taken exactly when height, round and proposer are right and it is unsigned or signed over its bytes with the key it shows; then the prevote is for the lock if there is one, else for the proposal |
| Rounds.ProposalBytesBinding | src/consensus/tendermint.rs:136-142 | two proposals share their signed bytes exactly when height, round and block hash agree |
| Rounds.VoteIsNoProposal | src/consensus/tendermint.rs:86-142 | no vote has the signed bytes of a proposal |
| Rounds.SubmittedIsTaken | src/consensus/tendermint.rs:329-370 | exactly the proposer of the round can submit, and every engine at that height and round takes what it submits |
| Rounds.EmittedIsCounted | src/consensus/tendermint.rs:374-574 | every vote an engine hands out is counted by every engine at that height that has none of its nullifier, given a matching key pair |
| Equivocation.ConflictIsCaught | src/consensus/tendermint.rs:400-418 | once a vote is stored and until the next height, a verified vote of the same nullifier, type and round for another block yields evidence naming both and is not counted; a repeat of the stored vote changes nothing |
| Equivocation.RunKeepsStored | src/consensus/tendermint.rs:175-186 | a stored vote stays as it is for the rest of the height, whatever happens |
| Equivocation.RepeatIsIgnored | src/consensus/tendermint.rs:175-179 | a second vote of a nullifier leaves the vote set as it was |
| Equivocation.SignBytesBinding | src/consensus/tendermint.rs:86-100 | two votes have equal signed bytes exactly when type, height, round and hash agree, nil counting as the zero hash |
| Equivocation.NilVoteAliasesZeroHash | src/consensus/tendermint.rs:86-120 | a signed nil vote verifies exactly when the vote for the zero hash does, under any nullifier and power |
| TendermintEngine.VoteSet.constructor | src/consensus/tendermint.rs:166-172 | an empty set with quorum 2n/3+1 in 64-bit arithmetic |
| TendermintEngine.VoteSet.Add | src/consensus/tendermint.rs:175-186 | the new set and the reported quorum, as specified; a known nullifier changes nothing |
| TendermintEngine.Count | src/consensus/tendermint.rs:420-425 | the round's set is made on first use and counts the vote; no other round's set changes |
| TendermintEngine.Engine.constructor | src/consensus/tendermint.rs:263-286 | a new engine: round 0, no lock, no vote sets |
| TendermintEngine.Engine.BeginHeight | src/consensus/tendermint.rs:306-326 | the whole new state of a fresh height: lock, proposal and vote sets forgotten, evidence kept |
| TendermintEngine.Engine.Submit | src/consensus/tendermint.rs:329-351 | only the proposer submits; the proposal is signed and becomes the current one |
| TendermintEngine.Engine.HearProposal | src/consensus/tendermint.rs:353-370 | which proposals are refused, with which error, and the prevote an accepted one leads to |
| TendermintEngine.Engine.ToPrevote | src/consensus/tendermint.rs:374-396 | the prevote: the lock if there is one, else the proposal, else nil |
| TendermintEngine.Engine.ToPrecommit | src/consensus/tendermint.rs:447-461 | the precommit and the new step |
| TendermintEngine.Engine.AddPrevote | src/consensus/tendermint.rs:420-425 | a prevote is counted in its round's set and nothing else changes |
| TendermintEngine.Engine.AddPrecommit | src/consensus/tendermint.rs:463-468 | a precommit is counted in its round's set and nothing else changes |
| TendermintEngine.Engine.OnPrevote | src/consensus/tendermint.rs:420-443 | new state and output of a prevote, as specified |
| TendermintEngine.Engine.Commit | src/consensus/tendermint.rs:471-481 | the block is final only if it is the one at hand |
| TendermintEngine.Engine.OnPrecommit | src/consensus/tendermint.rs:463-491 | new state and output of a precommit, as specified |
| TendermintEngine.Engine.Detect | src/consensus/tendermint.rs:533-552 | finds the stored vote a new one conflicts with |
| TendermintEngine.Engine.HearVote | src/consensus/tendermint.rs:400-418 | new state and outcome of any vote: wrong height, bad signature, evidence, or counted |
| TendermintEngine.Engine.Tick | src/consensus/tendermint.rs:503-529 | what each step does when its time is up; a propose timeout votes nil without leaving the step |
| RingSignature.SignedVerifies | src/crypto/ring_sig.rs:117-268 | completeness: a signature made for slot p with key x, where P_p = x*G, verifies exactly when x is not zero and H_p(P_p) is not the identity, for every ring of two or more keys, message and randomness |
| RingSignature.ForkRevealsKey | src/crypto/ring_sig.rs:257-267 | two accepted signatures over one ring and key image with equal commitments but different challenges at slot j give an explicit x with P_j = x*G and I = x*H_p(P_j), x not zero |
| RingSignature.WrongKeyNeedsCollision | src/crypto/ring_sig.rs:117-268 | a signature made with a key that is not its slot's, and with a challenge other than zero at that slot, verifies only if at some slot the verifier's and the signer's query to the challenge hash are different bytes with one digest |
| RingSignature.ZeroChallengeAcceptsAnyKey | src/crypto/ring_sig.rs:188-268 | with a challenge of zero at the slot the signature verifies, whatever the key, exactly when the key image is not the identity |
| RingSignature.Sign | src/crypto/ring_sig.rs:117-209 | each error in order; otherwise the key image x*H_p(P) and a signature whose challenges are linked at every slot but the signer's |
| RingSignature.Loop | src/crypto/ring_sig.rs:170-186 | the wrap-around loop makes each entry of c the challenge its predecessor hands on, from the slot after p round to p |
| RingSignature.Verify | src/crypto/ring_sig.rs:214-268 | true exactly when all parts decode, the image is not the identity and the recomputed ring closes |
| RingSignature.Next | src/crypto/ring_sig.rs:177-182 | (i+1) % n is the next slot, 0 after the last |
| RingSignature.ArrivalFollows | src/crypto/ring_sig.rs:257-264 | while slots are linked, the verifier's running challenge is the signer's vector |
| RingSignature.AcceptsByClosing | src/crypto/ring_sig.rs:257-267 | the verifier accepts exactly when the closed slot links up and the image is not the identity |
| RingSignature.SlotCloses | src/crypto/ring_sig.rs:188-189 | with the right key the response of the closed slot reproduces both commitments |
| RingSignature.EncodingDecodes | src/crypto/ring_sig.rs:191-197 | what the signer serializes decodes to the same scalars and image |
| RingBinding.SignatureBindsMessage | src/crypto/ring_sig.rs:68-80 | two accepted signatures with one c0, over whatever rings, are for one message and end in the same two points, or their last queries are different bytes with one digest |
| RingBinding.Unalterable | src/crypto/ring_sig.rs:214-268 | two accepted signatures over one ring with one c0 and key image are one signature of one message, or at some slot there is such a collision, or the two give away the secret key of a slot |
| RingBinding.SlotBinds | src/crypto/ring_sig.rs:257-267 | equal challenges after a slot come from equal message, response and challenge, or from a break at that slot |
| RingBinding.ChallengeIsDigest | src/crypto/ring_sig.rs:68-80 | the challenge on leaving a slot is the digest of tag, message and both points, in this order |
| RingBinding.OneKeyOneImage | src/crypto/ring_sig.rs:50-61 | linkability: who answers for a key, in whatever ring, slot and message, does so under one key image |
| Pedersen.CommitOpens | src/crypto/ringct.rs:85-91 | for every canonical blinding the commitment decodes to v*H + r*G |
| Pedersen.SumScalars | src/crypto/ringct.rs:154-161 | sums blindings modulo the order, refusing any that is not canonical |
| Pedersen.ComputeFeeBlinding | src/crypto/ringct.rs:150-163 | none exactly when a blinding is not canonical, else the bytes of sum(in) - sum(out) |
| Pedersen.CommitAll | src/crypto/ringct.rs:484-499 | one commitment per amount, opening under its own blinding |
| Pedersen.BuildTxCommitments | src/crypto/ringct.rs:478-513 | always succeeds: every commitment opens to its amount and the fee blinding closes the sum |
| Pedersen.SumIsOpening | src/crypto/ringct.rs:132-135 | a sum of commitments is the commitment to the sums |
| Pedersen.BalanceIffCongruent | src/crypto/ringct.rs:113-141 | built commitments pass the balance check exactly when inputs and outputs plus fee agree modulo the group order (H not the identity) |
| Pedersen.BalanceIffConserved | src/crypto/ringct.rs:113-141 | for sums below the order, exactly when they agree as integers |
| Pedersen.TwoOpeningsRevealLog | src/crypto/ringct.rs:84-91 | opening one commitment to two amounts solves for the discrete logarithm of H |
| RangeProof.ProveRange | src/crypto/ringct.rs:213-277 | completeness: none exactly for a blinding that is not canonical; otherwise the proof is accepted for the amount's commitment, for every 64-bit amount and all randomness |
| RangeProof.RangeProofSound | src/crypto/ringct.rs:343-408 | soundness by extraction: two accepted proofs for one commitment, with the same bit commitments and branch points but different challenges at every bit, yield v in [0, 2^64) and r whose commitment it is |
| RangeProof.VerifyRange | src/crypto/ringct.rs:343-408 | true exactly when length, every bit proof, the weighted sum and the tag are right |
| RangeProof.VerifyBits | src/crypto/ringct.rs:356-385 | the parsing loop accepts exactly when all 64 bit proofs do, and returns their commitments |
| RangeProof.VerifyBit | src/crypto/ringct.rs:358-385 | one iteration: the five fields at their offsets and the challenge equation |
| RangeProof.SumPoints | src/crypto/ringct.rs:387-393 | the second loop computes the sum of 2^i * C_i with a running power reduced modulo the order |
| RangeProof.OrProofComplete | src/crypto/ringct.rs:285-340 | both branches of the OR-proof satisfy the verifier's equation, whatever the randomness |
| RangeProof.CommitToBits | src/crypto/ringct.rs:221-246 | one commitment per bit of the amount, the blindings' weighted sum closed by the last one |
| RangeProof.LastBlindingCloses | src/crypto/ringct.rs:235-240 | dividing by 2^63 modulo the order makes the weighted blindings sum to the outer one |
| RangeProof.ProveBit | src/crypto/ringct.rs:250-261 | 160 bytes that the verifier accepts for this bit |
| RangeProof.ProveBits | src/crypto/ringct.rs:248-261 | 64 such chunks, one after another |
| RangeProof.BitsWeigh | src/crypto/ringct.rs:226-226 | the low k bits weigh the amount modulo 2^k |
| RangeProof.BitsReachCommitment | src/crypto/ringct.rs:387-394 | the weighted bit commitments add up to the outer commitment |
| RangeProof.WeightedOpens | src/crypto/ringct.rs:387-394 | a weighted sum of openings opens to the weighted sums |
| RangeProof.ExtractBitSound | src/crypto/ringct.rs:375-382 | two accepted OR-proofs of one bit commitment with different challenges open it to 0 or 1 |
| RangeProof.BitsBounded | src/crypto/ringct.rs:178-181 | 64 weighted bits stay below 2^64 |
| RangeProof.FieldSlice | src/crypto/ringct.rs:359-363 | each field is cut where it was written |
| RangeBinding.ProofUnalterable | src/crypto/ringct.rs:343-408 | two accepted proofs whose challenges add up to the same at every bit are one proof of one commitment, or at some bit two different queries have one digest, or they give away the logarithm of H |
| RangeBinding.BitBinds | src/crypto/ringct.rs:375-382 | accepted bits with one sum of challenges have one commitment and the same branch points, or different queries with one digest |
| RangeBinding.ChunkBinds | src/crypto/ringct.rs:358-382 | the same for all 160 bytes, the logarithm of H being the one other way out |
| RangeBinding.ChallengesAreDigest | src/crypto/ringct.rs:190-198 | the two challenges of an accepted bit add up to the digest of tag, commitment and both branch points, in this order |
| RangeBinding.TagBinds | src/crypto/ringct.rs:396-405 | one tag is for one commitment and the same bit commitments, or different bytes have one SHA3-256 digest |
| Stealth.RecipientReceives | src/crypto/stealth.rs:97-223 | for every key pair, transaction key and index the recipient finds the output, decrypts the amount that was encrypted, and derives x with x*G = the one-time key |
| Stealth.ReceivedCanBeSpent | src/crypto/stealth.rs:207-223 | a ring signature made with that x at the key's slot verifies exactly when x is not zero and H_p of the key is not the identity |
| Stealth.ScanFindsOutput | src/crypto/stealth.rs:166-205 | scanning a generated output with the right view key returns the sender's shared secret |
| Stealth.ScannedIsSpendable | src/crypto/stealth.rs:166-223 | whatever was published, if an output scans, the derived key is the discrete logarithm of its one-time key |
| Stealth.AmountRoundTrip | src/crypto/ringct.rs:436-463 | an encrypted amount decrypts to itself under the same secret |
| Stealth.AmountReadIff | src/crypto/ringct.rs:436-463 | an amount is read from exactly its own encryption; anything else is refused |
| StealthBinding.FoundIff | src/crypto/stealth.rs:97-205 | with a transaction key other than zero, scanning with any view key and index finds an output exactly when both are its own, or one of the two hashes gives one scalar for different bytes |
| StealthBinding.FoundBySpendKeyIff | src/crypto/stealth.rs:166-205 | and under a spend key exactly when it is the recipient's |
| StealthBinding.OneTimeKeysDiffer | src/crypto/stealth.rs:97-135 | two outputs of one recipient have one one-time key exactly when transaction key and index agree, or a collision |
| StealthBinding.AmountKeyBinds | src/crypto/ringct.rs:424-434 | two secrets with one amount key and nonce are one scalar, or their digests share 44 bytes |
| Ledger.LedgerInvariant | src/core/chain.rs:282-408 | after any run of appends block i is at height i and links to block i-1, every transaction above genesis was verified, the tip is the last block, and the key images of all blocks are pairwise distinct and exactly the spent set; for runs whose own headers do not collide |
| Ledger.HashesCanBeApart | src/core/block.rs:75-83 | for every genesis block and list of blocks some hash keeps their headers apart, so that condition can be met |
| Ledger.AppendHolds | src/core/chain.rs:282-354 | an accepted block extends the chain's list; a refused one leaves the whole state unchanged |
| Ledger.BuildBlockAt | src/core/chain.rs:270-274 | every block is found again under its height and nothing beyond, when the headers of this chain do not collide |
| Ledger.BuildSpent | src/core/chain.rs:378-383 | the spent set is exactly the key images of the chain's blocks |
| Ledger.ValidatedUnspent | src/core/chain.rs:357-365 | transactions that validate have no key image spent before |
| Ledger.NoRepeatIffDistinct | src/core/chain.rs:314-324 | the within-block check passes exactly when the block's key images are pairwise distinct |
| Ledger.CheckedImagesDistinct | src/core/chain.rs:314-329 | an accepted block keeps all key images of the chain distinct |
| Admission.AcceptedIff | src/core/chain.rs:282-375 | a block is accepted exactly when height and link are right, no transaction but the first is a coinbase, no two inputs share a key image, none is spent, and every transaction verifies |
| Admission.RefusedFor | src/core/chain.rs:282-375 | otherwise nothing changes and the error names the first thing wrong: which check, which key image, which transaction |
| UtxoSet.UtxosOfRun | src/core/chain.rs:385-395 | in every state of every run the set of outputs holds the key of each output of the chain's blocks and nothing but outputs of these blocks; with distinct ids, each under its own key |
| UtxoSet.RepeatReplaces | src/core/chain.rs:385-395 | without distinct ids outputs are lost: one transaction without inputs, accepted in two blocks running, leaves one output |
| UtxoSet.ChainHoldsOutputs | src/core/chain.rs:385-395 | the same for the chain of any list of blocks |
| ChainNode.Chain.constructor | src/core/chain.rs:189-216 | a new chain: the genesis block, the premine, nothing spent |
| ChainNode.Chain.Reopen | src/core/chain.rs:220-262 | the chain that replay of the database gives |
| ChainNode.Chain.ReplayBlocks | src/core/chain.rs:235-250 | replays heights 1 to n and stops at the first block that is missing or unreadable |
| ChainNode.Chain.AppendBlock | src/core/chain.rs:282-354 | new state, error and database contents of an append; nothing changes on error |
| ChainNode.Chain.RepeatedImage | src/core/chain.rs:314-324 | the first key image that repeats within the block |
| ChainNode.Chain.SeeInputs | src/core/chain.rs:316-323 | one transaction's share of that check |
| ChainNode.Chain.ValidateTransaction | src/core/chain.rs:357-375 | a spent key image, failed verification, or neither |
| ChainNode.Chain.ValidateAll | src/core/chain.rs:326-329 | the first error among the transactions |
| ChainNode.Chain.ApplyBlock | src/core/chain.rs:378-408 | spent set, outputs and supply after all transactions |
| ChainNode.Chain.SpendInputs | src/core/chain.rs:380-383 | the transaction's key images join the spent set |
| ChainNode.Chain.StoreOutputs | src/core/chain.rs:385-395 | its outputs are filed under id and index |
| ChainNode.Chain.Take | src/core/chain.rs:331-339 | the block is applied and becomes the tip |
| Database.Db.Put | src/storage/db.rs:71-83 | one batch: the block under its hash, the hash under its height |
| Database.Db.ByHash | src/storage/db.rs:85-96 | the stored block, nothing, or a decoding error |
| Database.Db.ByHeight | src/storage/db.rs:98-111 | the same through the height index, which must hold 32 bytes |
| Database.Db.Save | src/storage/db.rs:128-134 | one batch: height and tip |
| Database.Db.Load | src/storage/db.rs:136-151 | height and tip as saved, nothing, or a corruption error |
| Database.PutGet | src/storage/db.rs:71-111 | a stored block is read back under its height and its hash |
| Database.PutElsewhere | src/storage/db.rs:71-83 | storing a block of another height and another hash leaves a stored one readable |
| Database.SaveLoad | src/storage/db.rs:128-151 | saved height and tip load as they were |
| Recovery.CrashRecovery | src/core/chain.rs:220-262 | after any run with any number of crashes, before, between and after the two writes, reopening gives the chain of exactly the persisted blocks up to the saved height, equal to the running one in height, accounts, blocks above genesis and, above height 0, the tip, every transaction of these blocks having been verified; for runs whose offered and genesis headers do not collide |
| Recovery.RunHashesCanBeApart | src/core/block.rs:75-83 | for every run some hash keeps those headers apart |
| Recovery.SpentForGood | src/core/chain.rs:331-365 | a key image spent in a block a node has taken, hence covered by its saved height, is refused in every block offered later in the run, crashes or not; for runs whose offered headers do not collide |
| Recovery.StepInStep | src/core/chain.rs:331-349 | a step of the node, dying or not, keeps chain and database on one list of blocks, if the new header collides with none of them |
| Recovery.StaysInStep | src/core/chain.rs:331-349 | along a run that list only grows |
| Recovery.OpenBuilds | src/core/chain.rs:231-250 | replay rebuilds the chain of the persisted list on any genesis |
| Recovery.OpenReads | src/core/chain.rs:220-262 | whatever a database holds, opening it gives the chain of the blocks it can read one after another, up to the saved height or the first that is missing or unreadable |
| Recovery.PutKeepsPersisted | src/core/chain.rs:343-345 | a block written above the saved height under a new hash, as before a crash, disturbs nothing below |
| Recovery.RecordExtendsPersisted | src/core/chain.rs:343-348 | both batches together extend the persisted list by a block of a new hash |
| Supply.SupplyOfRun | src/core/chain.rs:397-404 | after any run the chain holds a list of blocks, and the supply is min(18.4*10^15, 2*10^12 + one reward per coinbase-bearing block of it), uncut up to height 133 762 500 124 799 |
| Supply.BuildSupply | src/core/chain.rs:397-404 | the supply of any chain whose blocks bear at most one coinbase each |
| Emission.RewardFalls | src/core/chain.rs:77-88 | rewards never rise and never fall below 130 |
| Emission.RewardOfEra | src/core/chain.rs:77-88 | the reward after k halvings is the initial one shifted for the fifteen eras 0 to 14, and 130 from then on |
| Emission.RewardsFollowSchedule | src/core/chain.rs:77-88 | the sum of all rewards below height n is whole eras plus the part of the current one, for every n |
| Emission.TailTotal | src/core/chain.rs:77-88 | from the fifteenth halving on that sum is 126144000 * 7999754 plus 130 for every block since |
| Emission.CapBindsAfter | src/core/chain.rs:397-404 | with a coinbase in every block the cap takes nothing exactly up to that height, which is past the fifteen eras |
| Merkle.ComputeRoot | src/core/block.rs:149-173 | the level-by-level loop ends and returns the root of the recursive tree |
| Merkle.NextLevel | src/core/block.rs:151-170 | one pass computes the next level, the last node of an odd level doubled |
| Merkle.ComputeTxRoot | src/core/block.rs:139-174 | the root of the transactions' hashes, zero for none |
| Merkle.RootsAgree | src/core/block.rs:149-173 | lists whose trees have one height share a root exactly when they are the same once every odd level has its last node doubled, or the node hash collides, which is exhibited |
| Merkle.RootsAgreeAtAnyLength | src/core/block.rs:149-173 | the same for any two lists, the taller tree being cut off at the height of the other |
| Merkle.RootSplits | src/core/block.rs:149-173 | for a list cut after the largest power of two below its length, the root hashes the root of the left part before that of the right, raised to its level by hashing it with itself |
| Merkle.RootOfOne | src/core/block.rs:149-173 | the root of a single leaf is the leaf |
| Merkle.RootBinds | src/core/block.rs:149-173 | lists of one length and one root are equal, or the node hash collides, which is exhibited |
| Merkle.TxRootBinds | src/core/block.rs:139-174 | and so are the transactions, or two different ones have one id, or the node hash collides |
| Merkle.RepeatedLastLeaf | src/core/block.rs:155-159 | without equal lengths it fails: repeating the last of an odd number of at least three leaves keeps the root |
| PrivateState.ComputeStateRoot | src/evm/private_state.rs:77-112 | the root is that of the sorted entries, whatever order the hash map yields them in |
| PrivateState.RootOfEntries | src/evm/private_state.rs:77-112 | the root is that of the leaves by ascending key, each the hash of key, encrypted value and commitment in this order |
| PrivateState.SortedUnique | src/evm/private_state.rs:82-84 | a set of keys has one sorted list |
| PrivateState.StateRootBinds | src/evm/private_state.rs:77-112 | maps of one size have one root exactly when they hold the same keys with the same encrypted values and commitments, or a collision of leaves or nodes is exhibited; the key copied into the slot is not covered |
| Mempool.Pool.Add | src/core/mempool.rs:30-59 | new pool and result: full, key image taken, unverified, or the id |
| Mempool.Pool.Remove | src/core/mempool.rs:62-68 | the transaction and its key images go |
| Mempool.Pool.GetForBlock | src/core/mempool.rs:72-74 | as many transactions as the limit allows, each once, in any order |
| Mempool.Pool.PurgeSpent | src/core/mempool.rs:77-87 | the holders of the spent key images go |
| Mempool.PoolInvariant | src/core/mempool.rs:30-87 | over all runs on transactions of distinct ids every pooled transaction was verified, `pending_key_images` is exactly the key-image index of `txs`, no two transactions share a key image, and there are at most 50,000 |
| Mempool.AddedIff | src/core/mempool.rs:30-59 | a transaction is taken exactly when there is room, it shares no key image with a pending one and it verifies; the pool gains it alone, or does not change |
| Mempool.IdsCanDiffer | src/core/mempool.rs:30-59 | for every run some id function keeps its transactions apart |
| Mempool.PurgedIsClean | src/core/mempool.rs:77-87 | nothing left after a purge has a purged key image |
| Mempool.PurgedIff | src/core/mempool.rs:77-87 | a purge removes exactly the transactions that have one of the key images |
| Mempool.SelectionDistinct | src/core/mempool.rs:72-74 | all key images of a selection are distinct exactly when no selected transaction repeats one of its own |
| Mempool.PurgedPoolDoubleSpendsIff | src/core/mempool.rs:72-87 | a block of a coinbase and transactions drawn from a pool purged of the chain's spent images is refused as a double spend exactly when height, link and coinbase are right and a drawn transaction repeats one of its own key images |
| Gossip.MessageCache.Insert | src/network/p2p.rs:199-211 | whether an id is new, and the cache after it, eviction at every 128th insertion included |
| Gossip.P2PNode.OnMessage | src/network/p2p.rs:358-370 | stale messages and known ids are dropped; the rest are counted |
| Gossip.P2PNode.Send | src/network/p2p.rs:325-337 | an own broadcast enters the cache, once |
| Gossip.AtMostOnce | src/network/p2p.rs:119-122 | with one monotone clock, a message not stamped in the future when first accepted is never accepted again |
| Gossip.PassesAgainIff | src/network/p2p.rs:199-211 | an arrival whose id passed before passes again, whatever its timestamp, exactly when it is fresh and a 128th insertion since the id last passed has found it a window old |
| Gossip.FirstPassesIff | src/network/p2p.rs:119-122 | an id that has not passed before passes exactly when less than a window has gone by since its timestamp |
| Gossip.PassedIsRemembered | src/network/p2p.rs:199-211 | an accepted id is in the cache, or a whole window has passed |
| Gossip.FutureMessagePassesTwice | src/network/p2p.rs:119-122 | stamped in the future, it is accepted twice in an explicit run |
| Sync.ServeRequest | src/main.rs:507-515 | up to a hundred blocks from the requested range, capped at the chain's height |
| Sync.ServesAny | src/main.rs:507-515 | the answer to any request is the chain's blocks from the height asked for on, at most a hundred heights, none above the one asked for or the chain's own |
| Sync.CatchUp | src/main.rs:591-618 | request i covers the i-th hundred heights up to the seed's; the blocks handed on are exactly those of the answered requests, in order |
| Sync.TilesCover | src/main.rs:594-612 | enough requests ask for every missing height, each in exactly one batch |
| Sync.ApplyAll | src/main.rs:139-151 | received blocks are offered one after another and errors dropped |
| Sync.SyncFrom | src/main.rs:591-618 | an undisturbed sync of a client on a prefix of the seed's chain ends at the announced height with exactly the seed's blocks |
| Sync.SyncFromRun | src/main.rs:591-618 | the same against a seed that is any run of appends, announces its height at some point of it and goes on appending between requests: the client ends with the blocks the seed had when it announced, and with its very state if the genesis block is the same |
| Sync.StaysPrefix | src/main.rs:139-151 | whatever blocks of the seed arrive, lost, repeated or reordered, the client stays on a prefix and never goes back |
| Sync.TakesRest | src/main.rs:139-151 | offered the rest of the seed's chain in order, a client on a prefix takes all of it |
| Sync.SeedGrows | src/core/chain.rs:282-354 | a chain built by appends consists of blocks that pass every check, and later states only add blocks at its end |
| Sync.SeedServes | src/main.rs:507-515 | whatever the seed appends later, it goes on serving the blocks it had |
| Sync.FreshClientConverges | src/main.rs:591-618 | a fresh client reaches the seed's height exactly when its genesis has the hash the seed's first block names |
| Sync.OtherGenesisTakesNothing | src/core/chain.rs:292-295 | otherwise it takes no block of the seed, in whatever order they come |
| Sync.SameGenesisSameTime | src/core/block.rs:111-130 | two genesis blocks whose headers do not collide have one hash exactly when they were created in the same millisecond |

## Left out

- Cryptographic hardness: nothing is said about discrete logarithms being hard, oracles being random, AEAD secrecy or Ed25519 forgery; soundness is by extraction, and authenticity of votes is an assumption of the network.
- Consensus liveness: locks are never given up, so none is claimed. Clocks and timeout lengths: a timeout is a step that may happen at any time.
- Key material: `Ed25519` signing and verifying are functions of key, message and signature; a public key that does not decode counts as a signature that does not verify.
- Network.Enabled: the checks that would establish these assumptions are not in the engine; peers, sockets, framing and the event loop of `src/main.rs` are not modelled beyond what `Sync` uses.
- Transaction::verify as a whole: it stays abstract in the ledger (`Rules.txVerify`). Its three parts, balance, ring signatures and range proofs, are proved on their own; the signed message contains its own signature bytes, and `verify_ring` ignores its key image argument (`src/crypto/ring_sig.rs:308`), so they are not put together. The fee commitment has no range proof.
- The binary encoding of ring signatures (`sign_ring`, `verify_ring`) and of whole transactions: ids and header hashes are abstract functions.
- ChainNode.Chain.ValidateAll: the source validates in parallel and may return any failing transaction's error; the model returns the first in block order.
- Database.Db.Put: write errors are not modelled. The source logs a failed write and goes on; what crash recovery promises holds for runs without one.
- ChainNode.Chain.At: the exit queue, the validator count, statistics and the lock period (floating point) of the chain are not part of its state here.
- Gossip.P2PNode.OnMessage: peers, payload decoding and the event channel; one clock in milliseconds stands for wall-clock timestamps and the monotonic clock of the cache.
- Sync.CatchUp: heights in requests are unbounded numbers; also left out are reconnecting, sleeping and the live mode after catch-up. Blocks pushed meanwhile are covered by `Sync.StaysPrefix`, which allows any blocks of the seed in any order.
- Mempool.Pool.GetForBlock: the iteration order of the hash map is left open.
- `compute_tx_root` is never compared with the header by `append_block`, so a root in a header binds nothing in the ledger model either.
- The EVM executor and its gas accounting, precompiles, state proofs and slot encryption, the fee markets, staking and slashing arithmetic, RPC, wallet, Tor and key storage.
