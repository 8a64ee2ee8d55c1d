/**
 Why a height may be begun only once: the node's error path begins the same height again
 (`src/main.rs`), which forgets the lock.  Then, whatever the validators, a run of the network lets
 every honest engine finalize two blocks of one height.
 */
module Restart {
  import opened Common
  import opened Blocks
  import opened Tendermint
  import opened VoteAccounting
  import opened EngineSteps
  import opened Network

  // ---- Runs in which heights may be begun again ------------------------------------------

  /** The network can get from `a` to `b`. */
  ghost predicate LeadsTo(cfg: Config, a: Net, b: Net) {
    exists events, nets :: Goes(cfg, true, events, nets) && nets[0] == a && nets[|events|] == b
  }

  lemma LeadsNowhere(cfg: Config, a: Net)
    ensures LeadsTo(cfg, a, a)
  {
    assert Goes(cfg, true, [], [a]);
  }

  /** Two stretches of which the second begins where the first ends. */
  function Joined<T>(s: seq<T>, t: seq<T>): seq<T>
    requires t != []
  {
    s + t[1..]
  }

  lemma JoinedAt<T>(s: seq<T>, t: seq<T>, i: nat)
    requires s != [] && t != [] && s[|s| - 1] == t[0] && i < |Joined(s, t)|
    ensures Joined(s, t)[i] == if i < |s| then s[i] else t[i - |s| + 1]
    ensures i == |s| - 1 ==> Joined(s, t)[i] == t[0]
  {
  }

  lemma ConcatAt<T>(s: seq<T>, t: seq<T>, i: nat)
    requires i < |s + t|
    ensures (s + t)[i] == if i < |s| then s[i] else t[i - |s|]
  {
  }

  /** Any relation between neighbours that holds along both stretches holds along their join. */
  lemma RelatedAlong<S, E>(rel: (S, E, S) -> bool, e: seq<E>, s: seq<S>, f: seq<E>, t: seq<S>, i: nat)
    requires |s| == |e| + 1 && |t| == |f| + 1 && s[|e|] == t[0] && i < |e + f|
    requires forall k :: 0 <= k < |e| ==> rel(s[k], e[k], s[k + 1])
    requires forall k :: 0 <= k < |f| ==> rel(t[k], f[k], t[k + 1])
    ensures rel(Joined(s, t)[i], (e + f)[i], Joined(s, t)[i + 1])
  {
    ConcatAt(e, f, i);
    JoinedAt(s, t, i);
    JoinedAt(s, t, i + 1);
    if i < |e| {
      assert rel(s[i], e[i], s[i + 1]);
    } else {
      var j := i - |e|;
      assert rel(t[j], f[j], t[j + 1]);
    }
  }

  lemma GoesOn(cfg: Config, e: seq<NetEvent>, s: seq<Net>, f: seq<NetEvent>, t: seq<Net>)
    requires Goes(cfg, true, e, s) && Goes(cfg, true, f, t) && s[|e|] == t[0]
    ensures Goes(cfg, true, e + f, Joined(s, t))
  {
    ghost var rel := (a, x, b) => Steps(cfg, true, a, x, b);
    forall i | 0 <= i < |e + f| ensures Steps(cfg, true, Joined(s, t)[i], (e + f)[i], Joined(s, t)[i + 1]) {
      RelatedAlong(rel, e, s, f, t, i);
    }
  }

  lemma LeadsOn(cfg: Config, a: Net, b: Net, c: Net)
    requires LeadsTo(cfg, a, b) && LeadsTo(cfg, b, c)
    ensures LeadsTo(cfg, a, c)
  {
    var e, s :| Goes(cfg, true, e, s) && s[0] == a && s[|e|] == b;
    var f, t :| Goes(cfg, true, f, t) && t[0] == b && t[|f|] == c;
    GoesOn(cfg, e, s, f, t);
    JoinedAt(s, t, 0);
    JoinedAt(s, t, |e + f|);
  }

  lemma LeadsByStep(cfg: Config, a: Net, b: Net, ev: NetEvent)
    requires LeadsTo(cfg, a, b) && Delivered(cfg, b, ev)
    ensures LeadsTo(cfg, a, NetStep(cfg, b, ev))
  {
    var c := NetStep(cfg, b, ev);
    assert Steps(cfg, true, b, ev, c);
    assert Goes(cfg, true, [ev], [b, c]) && [b, c][0] == b && [b, c][|[ev]|] == c;
    LeadsOn(cfg, a, b, c);
  }

  // ---- One round in one engine ---------------------------------------------------------------

  /** A network, the height its nodes start at, and a block to be finalized there. */
  datatype Trial = Trial(cfg: Config, nodes: map<Bytes, Setup>, height: u64, block: Block)

  ghost predicate TrialOk(t: Trial) {
    && ConfigOk(t.cfg) && t.cfg.honest <= t.nodes.Keys
    && forall id :: id in t.cfg.honest ==> t.nodes[id].height == t.height
  }

  function Hash(t: Trial): Bytes {
    HashOf(t.cfg.crypto, t.block)
  }

  function Enough(t: Trial): nat {
    2 * |t.cfg.validators| / 3 + 1
  }

  function Suggested(t: Trial): Proposal
    requires t.cfg.validators != []
  {
    Proposal(t.height, 0, t.block, t.cfg.validators[t.height % U64 % |t.cfg.validators|], [], ValidatorCommitment(ZERO32, ZERO32))
  }

  /** The unsigned vote of the k-th validator for the block, in round 0. */
  function Ith(t: Trial, vt: VoteType, k: nat): Vote
    requires k < |t.cfg.validators|
  {
    Vote(vt, t.height, 0, Some(Hash(t)), t.cfg.validators[k], ZERO32, [], 1)
  }

  function VoteOf(t: Trial, vt: VoteType, id: Bytes): Ballot {
    Ballot(vt, t.height, 0, Some(Hash(t)), id)
  }

  /** The votes of the first k validators, counted. */
  function Tally(t: Trial, vt: VoteType, k: nat): VoteSetState
    requires k <= |t.cfg.validators|
    decreases k
  {
    if k == 0 then VoteSetState(map[], Enough(t), map[])
    else
      var v := Ith(t, vt, k - 1);
      VoteSetState(Tally(t, vt, k - 1).votes[v.nullifier := v], Enough(t), map[v.blockHash := k])
  }

  function Sets(t: Trial, vt: VoteType, k: nat): map<u32, VoteSetState>
    requires k <= |t.cfg.validators|
  {
    if k == 0 then map[] else map[0 := Tally(t, vt, k)]
  }

  ghost predicate Known(t: Trial, id: Bytes) {
    TrialOk(t) && id in t.cfg.honest
  }

  ghost function Fresh(t: Trial, id: Bytes): EngineState
    requires Known(t, id)
  {
    StartedEngine(t.cfg, id, t.nodes[id])
  }

  /** Once the block was proposed and k prevotes have come in, too few to lock. */
  ghost function Prevoted(t: Trial, id: Bytes, k: nat): EngineState
    requires Known(t, id) && k <= |t.cfg.validators| && t.cfg.validators != []
  {
    Fresh(t, id).(proposal := Some(Suggested(t)), phase := Prevoting, prevotes := Sets(t, Prevote, k))
  }

  /** Locked on the block, with k precommits. */
  ghost function Precommitted(t: Trial, id: Bytes, k: nat): EngineState
    requires Known(t, id) && k <= |t.cfg.validators| && Enough(t) <= |t.cfg.validators|
  {
    Prevoted(t, id, Enough(t)).(locked := Some((Hash(t), 0)), valid := Some((Hash(t), 0)), phase := Precommitting,
                                precommits := Sets(t, Precommit, k))
  }

  /** The same with the quorum's effect. */
  ghost function Voting(t: Trial, id: Bytes, k: nat): EngineState
    requires Known(t, id) && k <= Enough(t) <= |t.cfg.validators|
  {
    if k < Enough(t) then Prevoted(t, id, k) else Committing(t, id, 0)
  }

  ghost function Committing(t: Trial, id: Bytes, k: nat): EngineState
    requires Known(t, id) && k <= Enough(t) <= |t.cfg.validators|
  {
    if k < Enough(t) then Precommitted(t, id, k) else Precommitted(t, id, k).(phase := Committed)
  }

  lemma {:induction false} TallyVoters(t: Trial, vt: VoteType, k: nat)
    requires k <= |t.cfg.validators|
    ensures forall n :: n in Tally(t, vt, k).votes ==> n in t.cfg.validators[..k]
    ensures Tally(t, vt, k).power == if k == 0 then map[] else map[Some(Hash(t)) := k]
  {
    if k > 0 {
      TallyVoters(t, vt, k - 1);
    }
  }

  lemma {:induction false} Unrepeated(s: seq<Bytes>, k: nat)
    requires |set n | n in s| == |s| && k < |s|
    ensures s[k] !in s[..k]
    decreases |s|
  {
    var last, init := s[|s| - 1], s[..|s| - 1];
    var mem := set n | n in init;
    SeqSetSize(init);
    assert (set n | n in s) == mem + {last};
    assert last !in mem && |mem| == |init|;
    if k < |init| {
      Unrepeated(init, k);
      assert init[..k] == s[..k];
    }
  }

  lemma {:induction false} SeqSetSize(s: seq<Bytes>)
    ensures |set n | n in s| <= |s|
  {
    if s != [] {
      var last, init := s[|s| - 1], s[..|s| - 1];
      SeqSetSize(init);
      assert (set n | n in s) == (set n | n in init) + {last};
    }
  }

  /** A new voter's vote for the only block voted for. */
  lemma AddsOne(vs: VoteSetState, v: Vote, k: nat)
    requires v.nullifier !in vs.votes && v.power == 1 && k + 1 < U64
    requires vs.power == if k == 0 then map[] else map[v.blockHash := k]
    ensures AddVote(vs, v) == (VoteSetState(vs.votes[v.nullifier := v], vs.quorum, map[v.blockHash := k + 1]),
                               if k + 1 >= vs.quorum then Some(v.blockHash) else None)
  {
    assert vs.power[v.blockHash := k + 1] == map[v.blockHash := k + 1];
  }

  lemma SetSoFar(t: Trial, vt: VoteType, k: nat)
    requires ConfigOk(t.cfg) && k <= |t.cfg.validators|
    ensures VoteSetAt(Sets(t, vt, k), 0, |t.cfg.validators|) == Tally(t, vt, k)
    ensures Tally(t, vt, k).quorum == Enough(t)
  {
  }

  lemma NotYet(t: Trial, vt: VoteType, k: nat)
    requires ConfigOk(t.cfg) && k < |t.cfg.validators|
    ensures t.cfg.validators[k] !in Tally(t, vt, k).votes
  {
    TallyVoters(t, vt, k);
    Unrepeated(t.cfg.validators, k);
  }

  lemma TallyNext(t: Trial, vt: VoteType, k: nat, vs: VoteSetState, v: Vote)
    requires k < |t.cfg.validators| && vs == Tally(t, vt, k) && v == Ith(t, vt, k)
    ensures Tally(t, vt, k + 1) == VoteSetState(vs.votes[v.nullifier := v], Enough(t), map[v.blockHash := k + 1])
  {
  }

  /** The next vote counts, and completes the quorum if it is the last one needed. */
  lemma VoteCounts(t: Trial, vt: VoteType, k: nat)
    requires ConfigOk(t.cfg) && k < Enough(t) <= |t.cfg.validators|
    ensures AddVote(VoteSetAt(Sets(t, vt, k), 0, |t.cfg.validators|), Ith(t, vt, k))
            == (Tally(t, vt, k + 1), if k + 1 == Enough(t) then Some(Some(Hash(t))) else None)
  {
    var vs, v := Tally(t, vt, k), Ith(t, vt, k);
    SetSoFar(t, vt, k);
    NotYet(t, vt, k);
    TallyVoters(t, vt, k);
    AddsOne(vs, v, k);
    TallyNext(t, vt, k, vs, v);
  }

  lemma SetsNext(t: Trial, vt: VoteType, k: nat)
    requires k < |t.cfg.validators|
    ensures Sets(t, vt, k)[0 := Tally(t, vt, k + 1)] == Sets(t, vt, k + 1)
  {
  }

  lemma HearsProposal(t: Trial, id: Bytes)
    requires Known(t, id) && Enough(t) <= |t.cfg.validators|
    ensures var e := HearProposal(Suggested(t));
            && Step(t.cfg.crypto, Fresh(t, id), e) == Voting(t, id, 0)
            && NewBallots(Emitted(t.cfg.crypto, Fresh(t, id), e))
               == {VoteOf(t, Prevote, id)}
  {
    assert Proposer(Fresh(t, id), 0) == Some(Suggested(t).proposer);
  }

  lemma NoConflict(t: Trial, s: EngineState, vt: VoteType, k: nat)
    requires ConfigOk(t.cfg) && k < |t.cfg.validators| && SetsFor(s, vt) == Sets(t, vt, k)
    ensures DetectEquivocation(s, Ith(t, vt, k)).None?
  {
    NotYet(t, vt, k);
  }

  lemma CountsPrevote(t: Trial, id: Bytes, k: nat)
    requires Known(t, id) && k < Enough(t) <= |t.cfg.validators|
    ensures CountPrevote(Prevoted(t, id, k), Ith(t, Prevote, k))
            == (Prevoted(t, id, k + 1), if k + 1 == Enough(t) then Some(Some(Hash(t))) else None)
  {
    VoteCounts(t, Prevote, k);
    SetsNext(t, Prevote, k);
  }

  lemma CountsPrecommit(t: Trial, id: Bytes, k: nat)
    requires Known(t, id) && k < Enough(t) <= |t.cfg.validators|
    ensures CountPrecommit(Precommitted(t, id, k), Ith(t, Precommit, k))
            == (Precommitted(t, id, k + 1), if k + 1 == Enough(t) then Some(Some(Hash(t))) else None)
  {
    VoteCounts(t, Precommit, k);
    SetsNext(t, Precommit, k);
  }

  lemma LocksBlock(t: Trial, id: Bytes)
    requires Known(t, id) && Enough(t) <= |t.cfg.validators|
    ensures var (s, out) := EnterPrecommit(t.cfg.crypto, Relock(Prevoted(t, id, Enough(t)), Hash(t), 0), true);
            && s == Committing(t, id, 0)
            && NewBallots(Some(out)) == {VoteOf(t, Precommit, id)}
  {
  }

  lemma TakesVote(c: Crypto, s: EngineState, v: Vote)
    requires v.height == s.height && v.signature == [] && DetectEquivocation(s, v).None?
    ensures var e := HearVote(v);
            (Step(c, s, e), Emitted(c, s, e))
            == if v.voteType.Prevote? then (HandlePrevote(c, s, v).0, Some(HandlePrevote(c, s, v).1))
               else (HandlePrecommit(c, s, v).0, Some(HandlePrecommit(c, s, v).1))
  {
  }

  lemma HandlesPrevote(t: Trial, id: Bytes, k: nat)
    requires Known(t, id) && k < Enough(t) <= |t.cfg.validators|
    ensures var (s, out) := HandlePrevote(t.cfg.crypto, Prevoted(t, id, k), Ith(t, Prevote, k));
            && s == Voting(t, id, k + 1)
            && (k + 1 == Enough(t) ==> NewBallots(Some(out)) == {VoteOf(t, Precommit, id)})
  {
    CountsPrevote(t, id, k);
    LocksBlock(t, id);
  }

  lemma CommitsBlock(t: Trial, id: Bytes, k: nat)
    requires Known(t, id) && 0 < k <= Enough(t) <= |t.cfg.validators|
    ensures CommitTo(t.cfg.crypto, Precommitted(t, id, k), Hash(t), 0)
            == (Precommitted(t, id, k).(phase := Committed), FinalizedBlock(t.block, Tally(t, Precommit, k).votes.Values))
  {
  }

  lemma HandlesPrecommit(t: Trial, id: Bytes, k: nat)
    requires Known(t, id) && k < Enough(t) <= |t.cfg.validators|
    ensures var (s, out) := HandlePrecommit(t.cfg.crypto, Precommitted(t, id, k), Ith(t, Precommit, k));
            && s == Committing(t, id, k + 1)
            && (k + 1 == Enough(t) ==> out == FinalizedBlock(t.block, Tally(t, Precommit, k + 1).votes.Values))
  {
    CountsPrecommit(t, id, k);
    CommitsBlock(t, id, k + 1);
  }

  lemma HearsPrevote(t: Trial, id: Bytes, k: nat)
    requires Known(t, id) && k < Enough(t) <= |t.cfg.validators|
    ensures var e := HearVote(Ith(t, Prevote, k));
            && Step(t.cfg.crypto, Voting(t, id, k), e) == Voting(t, id, k + 1)
            && (k + 1 == Enough(t) ==>
                  NewBallots(Emitted(t.cfg.crypto, Voting(t, id, k), e)) == {VoteOf(t, Precommit, id)})
  {
    var s, v := Prevoted(t, id, k), Ith(t, Prevote, k);
    NoConflict(t, s, Prevote, k);
    TakesVote(t.cfg.crypto, s, v);
    HandlesPrevote(t, id, k);
  }

  lemma HearsPrecommit(t: Trial, id: Bytes, k: nat)
    requires Known(t, id) && k < Enough(t) <= |t.cfg.validators|
    ensures var e := HearVote(Ith(t, Precommit, k));
            && Step(t.cfg.crypto, Committing(t, id, k), e) == Committing(t, id, k + 1)
            && (k + 1 == Enough(t) ==>
                  Emitted(t.cfg.crypto, Committing(t, id, k), e)
                  == Some(FinalizedBlock(t.block, Tally(t, Precommit, k + 1).votes.Values)))
  {
    var s, v := Precommitted(t, id, k), Ith(t, Precommit, k);
    NoConflict(t, s, Precommit, k);
    TakesVote(t.cfg.crypto, s, v);
    HandlesPrecommit(t, id, k);
  }

  // ---- The same round in every honest engine -----------------------------------------------------

  /** A round has four legs, each taken by every honest engine before the next begins. */
  datatype Leg = Suggest | Lock | Finalize | Reset

  ghost function From(t: Trial, id: Bytes, leg: Leg): EngineState
    requires Known(t, id) && Enough(t) <= |t.cfg.validators|
  {
    match leg
    case Suggest => Fresh(t, id)
    case Lock => Voting(t, id, 0)
    case Finalize => Committing(t, id, 0)
    case Reset => Committing(t, id, Enough(t))
  }

  function Next(leg: Leg): Leg {
    match leg case Suggest => Lock case Lock => Finalize case Finalize => Reset case Reset => Suggest
  }

  ghost predicate Decides(net: Net, id: Bytes, height: u64, b: Block) {
    exists votes :: Decision(id, height, b, votes) in net.decided
  }

  /** What a leg leaves behind besides the engine's state. */
  ghost predicate Leaves(t: Trial, id: Bytes, leg: Leg, net: Net) {
    match leg
    case Suggest => VoteOf(t, Prevote, id) in net.cast
    case Lock => VoteOf(t, Precommit, id) in net.cast
    case Finalize => Decides(net, id, t.height, t.block)
    case Reset => true
  }

  /** The votes that a leg's engine has to hear are cast. */
  ghost predicate AllCast(t: Trial, vt: VoteType, net: Net) {
    forall id :: id in t.cfg.honest ==> VoteOf(t, vt, id) in net.cast
  }

  ghost predicate Prepared(t: Trial, leg: Leg, net: Net) {
    (leg.Lock? ==> AllCast(t, Prevote, net)) && (leg.Finalize? ==> AllCast(t, Precommit, net))
  }

  /** From `net`, with only engine `id` moving, to `after`. */
  ghost predicate Moves(t: Trial, id: Bytes, net: Net, state: EngineState, after: Net) {
    && LeadsTo(t.cfg, net, after) && after.engines == net.engines[id := state]
    && net.cast <= after.cast && net.decided <= after.decided
  }

  lemma MovesOn(t: Trial, id: Bytes, net: Net, state: EngineState, b: Net, ev: NetEvent)
    requires Moves(t, id, net, state, b) && ev.id == id && Delivered(t.cfg, b, ev)
    ensures Moves(t, id, net, Step(t.cfg.crypto, state, ev.event), NetStep(t.cfg, b, ev))
  {
    LeadsByStep(t.cfg, net, b, ev);
  }

  lemma Stays(t: Trial, id: Bytes, net: Net)
    requires id in net.engines
    ensures Moves(t, id, net, net.engines[id], net)
  {
    LeadsNowhere(t.cfg, net);
  }

  lemma IthDelivered(t: Trial, vt: VoteType, k: nat, net: Net, id: Bytes)
    requires AllCast(t, vt, net) && k < |t.cfg.validators| && id in t.cfg.honest && id in net.engines
    ensures Delivered(t.cfg, net, At(id, HearVote(Ith(t, vt, k))))
  {
  }

  lemma PrevoteArrives(t: Trial, net: Net, id: Bytes, k: nat, b: Net) returns (after: Net)
    requires Known(t, id) && k < Enough(t) <= |t.cfg.validators| && AllCast(t, Prevote, net) && id in net.engines
    requires Moves(t, id, net, Voting(t, id, k), b)
    ensures Moves(t, id, net, Voting(t, id, k + 1), after)
    ensures k + 1 == Enough(t) ==> VoteOf(t, Precommit, id) in after.cast
  {
    var ev := At(id, HearVote(Ith(t, Prevote, k)));
    HearsPrevote(t, id, k);
    IthDelivered(t, Prevote, k, b, id);
    MovesOn(t, id, net, Voting(t, id, k), b, ev);
    after := NetStep(t.cfg, b, ev);
  }

  lemma {:induction false} PrevotesArrive(t: Trial, net: Net, id: Bytes, k: nat) returns (after: Net)
    requires Known(t, id) && k <= Enough(t) <= |t.cfg.validators| && AllCast(t, Prevote, net)
    requires id in net.engines && net.engines[id] == Voting(t, id, 0)
    ensures Moves(t, id, net, Voting(t, id, k), after)
    ensures k == Enough(t) ==> VoteOf(t, Precommit, id) in after.cast
  {
    if k == 0 {
      Stays(t, id, net);
      after := net;
    } else {
      var i := k - 1;
      var b := PrevotesArrive(t, net, id, i);
      after := PrevoteArrives(t, net, id, i, b);
    }
  }

  lemma PrecommitArrives(t: Trial, net: Net, id: Bytes, k: nat, b: Net) returns (after: Net)
    requires Known(t, id) && k < Enough(t) <= |t.cfg.validators| && AllCast(t, Precommit, net) && id in net.engines
    requires Moves(t, id, net, Committing(t, id, k), b)
    ensures Moves(t, id, net, Committing(t, id, k + 1), after)
    ensures k + 1 == Enough(t) ==> Decides(after, id, t.height, t.block)
  {
    var ev := At(id, HearVote(Ith(t, Precommit, k)));
    HearsPrecommit(t, id, k);
    IthDelivered(t, Precommit, k, b, id);
    MovesOn(t, id, net, Committing(t, id, k), b, ev);
    after := NetStep(t.cfg, b, ev);
    if k + 1 == Enough(t) {
      assert Decision(id, t.height, t.block, Tally(t, Precommit, k + 1).votes.Values) in after.decided;
    }
  }

  lemma {:induction false} PrecommitsArrive(t: Trial, net: Net, id: Bytes, k: nat) returns (after: Net)
    requires Known(t, id) && k <= Enough(t) <= |t.cfg.validators| && AllCast(t, Precommit, net)
    requires id in net.engines && net.engines[id] == Committing(t, id, 0)
    ensures Moves(t, id, net, Committing(t, id, k), after)
    ensures k == Enough(t) ==> Decides(after, id, t.height, t.block)
  {
    if k == 0 {
      Stays(t, id, net);
      after := net;
    } else {
      var i := k - 1;
      var b := PrecommitsArrive(t, net, id, i);
      after := PrecommitArrives(t, net, id, i, b);
    }
  }

  lemma TakesLeg(t: Trial, net: Net, id: Bytes, leg: Leg) returns (after: Net)
    requires Known(t, id) && Enough(t) <= |t.cfg.validators| && Prepared(t, leg, net)
    requires id in net.engines && net.engines[id] == From(t, id, leg)
    ensures Moves(t, id, net, From(t, id, Next(leg)), after) && Leaves(t, id, leg, after)
  {
    Stays(t, id, net);
    match leg {
      case Suggest =>
        var ev := At(id, HearProposal(Suggested(t)));
        HearsProposal(t, id);
        MovesOn(t, id, net, Fresh(t, id), net, ev);
        after := NetStep(t.cfg, net, ev);
      case Lock =>
        after := PrevotesArrive(t, net, id, Enough(t));
      case Finalize =>
        after := PrecommitsArrive(t, net, id, Enough(t));
      case Reset =>
        var ev := At(id, Begin(t.height));
        MovesOn(t, id, net, From(t, id, Reset), net, ev);
        after := NetStep(t.cfg, net, ev);
    }
  }

  /** Engine `id` has taken the leg, or has it before it. */
  ghost predicate StandsAt(t: Trial, net: Net, leg: Leg, taken: bool, id: Bytes)
    requires Known(t, id) && Enough(t) <= |t.cfg.validators|
  {
    && id in net.engines && net.engines[id] == From(t, id, if taken then Next(leg) else leg)
    && (taken ==> Leaves(t, id, leg, net))
  }

  /** The honest engines among `done` have taken the leg, the others have it before them. */
  ghost predicate Stands(t: Trial, net: Net, leg: Leg, done: set<Bytes>)
    requires TrialOk(t) && Enough(t) <= |t.cfg.validators|
  {
    forall id :: id in t.cfg.honest ==> StandsAt(t, net, leg, id in done, id)
  }

  lemma OneMoreStands(t: Trial, net: Net, leg: Leg, done: set<Bytes>, id: Bytes, after: Net)
    requires TrialOk(t) && Enough(t) <= |t.cfg.validators| && Stands(t, net, leg, done) && id in t.cfg.honest
    requires Moves(t, id, net, From(t, id, Next(leg)), after) && Leaves(t, id, leg, after)
    ensures Stands(t, after, leg, done + {id})
  {
    forall x | x in t.cfg.honest ensures StandsAt(t, after, leg, x in done + {id}, x) {
      assert StandsAt(t, net, leg, x in done, x);
      if x in done { LeavesGrows(t, x, leg, net, after); }
    }
  }

  lemma LeavesGrows(t: Trial, id: Bytes, leg: Leg, net: Net, after: Net)
    requires Leaves(t, id, leg, net) && net.cast <= after.cast && net.decided <= after.decided
    ensures Leaves(t, id, leg, after)
  {
    if leg.Finalize? { DecidesGrows(net, after, id, t.height, t.block); }
  }

  /** The network got from `net` to `after`, where these have taken the leg. */
  ghost predicate Taken(t: Trial, net: Net, leg: Leg, done: set<Bytes>, after: Net)
    requires TrialOk(t) && Enough(t) <= |t.cfg.validators|
  {
    LeadsTo(t.cfg, net, after) && net.decided <= after.decided && net.cast <= after.cast && Stands(t, after, leg, done)
  }

  lemma OneMoreTakes(t: Trial, net: Net, leg: Leg, done: set<Bytes>, id: Bytes, b: Net) returns (after: Net)
    requires TrialOk(t) && Enough(t) <= |t.cfg.validators| && Prepared(t, leg, net)
    requires Taken(t, net, leg, done, b) && id in t.cfg.honest && id !in done
    ensures Taken(t, net, leg, done + {id}, after)
  {
    assert StandsAt(t, b, leg, id in done, id);
    after := TakesLeg(t, b, id, leg);
    OneMoreStands(t, b, leg, done, id, after);
    LeadsOn(t.cfg, net, b, after);
  }

  lemma PutBack(ids: set<Bytes>, id: Bytes) returns (rest: set<Bytes>)
    requires id in ids
    ensures rest < ids && id !in rest && rest + {id} == ids
  {
    rest := ids - {id};
  }

  lemma {:induction false} AllTakeLeg(t: Trial, net: Net, leg: Leg, ids: set<Bytes>) returns (after: Net)
    requires TrialOk(t) && Enough(t) <= |t.cfg.validators| && Prepared(t, leg, net)
    requires ids <= t.cfg.honest && Stands(t, net, leg, {})
    ensures Taken(t, net, leg, ids, after)
    decreases ids
  {
    if ids == {} {
      LeadsNowhere(t.cfg, net);
      after := net;
    } else {
      var id :| id in ids;
      var done := PutBack(ids, id);
      var b := AllTakeLeg(t, net, leg, done);
      after := OneMoreTakes(t, net, leg, done, id, b);
    }
  }

  ghost predicate AllLeft(t: Trial, leg: Leg, net: Net) {
    forall id :: id in t.cfg.honest ==> Leaves(t, id, leg, net)
  }

  /** Once all have taken a leg, all have the next before them. */
  lemma LegTaken(t: Trial, net: Net, leg: Leg)
    requires TrialOk(t) && Enough(t) <= |t.cfg.validators| && Stands(t, net, leg, t.cfg.honest)
    ensures Stands(t, net, Next(leg), {}) && Prepared(t, Next(leg), net) && AllLeft(t, leg, net)
  {
    forall id | id in t.cfg.honest ensures StandsAt(t, net, Next(leg), false, id) && Leaves(t, id, leg, net) {
      assert StandsAt(t, net, leg, true, id);
    }
  }

  /** On the way from `start`, all take a leg. */
  lemma LegEnds(t: Trial, start: Net, net: Net, leg: Leg, next: Leg) returns (after: Net)
    requires TrialOk(t) && Enough(t) <= |t.cfg.validators| && Prepared(t, leg, net) && Stands(t, net, leg, {})
    requires LeadsTo(t.cfg, start, net) && next == Next(leg)
    ensures LeadsTo(t.cfg, start, after) && net.decided <= after.decided
    ensures Stands(t, after, next, {}) && Prepared(t, next, after) && AllLeft(t, leg, after)
  {
    after := AllTakeLeg(t, net, leg, t.cfg.honest);
    LegTaken(t, after, leg);
    LeadsOn(t.cfg, start, net, after);
  }

  /** From every honest engine fresh at the height to every one having finalized the block and fresh again. */
  lemma RoundFinalizes(t: Trial, start: Net, net: Net) returns (after: Net)
    requires TrialOk(t) && Enough(t) <= |t.cfg.validators| && Stands(t, net, Suggest, {})
    requires LeadsTo(t.cfg, start, net)
    ensures LeadsTo(t.cfg, start, after) && net.decided <= after.decided && Stands(t, after, Suggest, {})
    ensures AllDecide(t, after)
  {
    after := LegEnds(t, start, net, Suggest, Lock);
    after := LegEnds(t, start, after, Lock, Finalize);
    var final := LegEnds(t, start, after, Finalize, Reset);
    after := LegEnds(t, start, final, Reset, Suggest);
    AllDecided(t, final, after);
  }

  ghost predicate AllDecide(t: Trial, net: Net) {
    forall id :: id in t.cfg.honest ==> Decides(net, id, t.height, t.block)
  }

  lemma AllDecided(t: Trial, net: Net, after: Net)
    requires AllLeft(t, Finalize, net) && net.decided <= after.decided
    ensures AllDecide(t, after)
  {
    forall id | id in t.cfg.honest ensures Decides(after, id, t.height, t.block) {
      assert Leaves(t, id, Finalize, net);
      DecidesGrows(net, after, id, t.height, t.block);
    }
  }

  lemma DecidesGrows(net: Net, after: Net, id: Bytes, height: u64, b: Block)
    requires Decides(net, id, height, b) && net.decided <= after.decided
    ensures Decides(after, id, height, b)
  {
    var votes :| Decision(id, height, b, votes) in net.decided;
    assert Decision(id, height, b, votes) in after.decided;
  }

  lemma SameStart(t: Trial, u: Trial, net: Net)
    requires TrialOk(t) && Enough(t) <= |t.cfg.validators| && u == t.(block := u.block) && Stands(t, net, Suggest, {})
    ensures Stands(u, net, Suggest, {})
  {
    forall id | id in u.cfg.honest ensures StandsAt(u, net, Suggest, false, id) {
      assert StandsAt(t, net, Suggest, false, id);
    }
  }

  /**
   Whatever the validators, the height and the two blocks: if honest nodes may begin a height again,
   some run ends with every one of them having finalized both blocks at that height.  Only honest
   votes as cast are delivered, next to those Byzantine validators may send anyway.
   */
  lemma RestartBreaksAgreement(cfg: Config, nodes: map<Bytes, Setup>, height: u64, a: Block, b: Block)
    returns (events: seq<NetEvent>, nets: seq<Net>)
    requires ConfigOk(cfg) && cfg.validators != [] && cfg.honest <= nodes.Keys
    requires forall id :: id in cfg.honest ==> nodes[id].height == height
    ensures Goes(cfg, true, events, nets) && nets[0] == Init(cfg, nodes) && cfg.honest != {}
    ensures forall id :: id in cfg.honest ==>
              Decides(nets[|events|], id, height, a) && Decides(nets[|events|], id, height, b)
  {
    var t, u, start := Trial(cfg, nodes, height, a), Trial(cfg, nodes, height, b), Init(cfg, nodes);
    assert cfg.honest == {} ==> Byzantine(cfg) == Members(cfg);
    forall id | id in cfg.honest ensures StandsAt(t, start, Suggest, false, id) {
    }
    LeadsNowhere(cfg, start);
    var one := RoundFinalizes(t, start, start);
    SameStart(t, u, one);
    var two := RoundFinalizes(u, start, one);
    forall id | id in cfg.honest ensures Decides(two, id, height, a) {
      DecidesGrows(one, two, id, height, a);
    }
    events, nets :| Goes(cfg, true, events, nets) && nets[0] == start && nets[|events|] == two;
  }
}
