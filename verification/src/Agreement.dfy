/** Agreement and validity of every run of the network of module Network. */
module Agreement {
  import opened Common
  import opened Blocks
  import opened Tendermint
  import opened VoteAccounting
  import opened EngineSteps
  import opened Network

  // ---- Quorums ------------------------------------------------------------------------

  lemma {:induction false} SubsetSize<T>(a: set<T>, b: set<T>)
    requires a <= b
    ensures |a| <= |b|
  {
    assert b == a + (b - a);
  }

  /** Two quorums share an honest validator; one quorum already holds one. */
  lemma HonestInBoth(cfg: Config, p: set<Bytes>, q: set<Bytes>) returns (n: Bytes)
    requires ConfigOk(cfg) && p <= Members(cfg) && q <= Members(cfg)
    requires |p| >= 2 * |cfg.validators| / 3 + 1 && |q| >= 2 * |cfg.validators| / 3 + 1
    ensures n in p && n in q && n in cfg.honest
  {
    assert |p + q| + |p * q| == |p| + |q|;
    SubsetSize(p + q, Members(cfg));
    var common := p * q;
    if common <= Byzantine(cfg) {
      SubsetSize(common, Byzantine(cfg));
      assert false;
    }
    n :| n in common && n !in Byzantine(cfg);
  }

  function VotersFor(votes: map<Bytes, Vote>, h: Option<Bytes>): set<Bytes> {
    set n | n in votes && votes[n].blockHash == h
  }

  /** With one unit of power each, power is a head count. */
  lemma {:induction false} PowerIsHeadCount(votes: map<Bytes, Vote>, h: Option<Bytes>)
    requires forall n :: n in votes ==> votes[n].power == 1
    ensures PowerFor(votes, h) == |VotersFor(votes, h)|
    decreases |votes|
  {
    if votes == map[] {
      assert VotersFor(votes, h) == {};
    } else {
      var k := Pick(votes);
      FewerVotes(votes, k);
      PowerIsHeadCount(votes - {k}, h);
      if votes[k].blockHash == h {
        assert VotersFor(votes, h) == VotersFor(votes - {k}, h) + {k};
      } else {
        assert VotersFor(votes, h) == VotersFor(votes - {k}, h);
      }
    }
  }

  ghost predicate SetWitnessed(cfg: Config, cast: set<Ballot>, vs: VoteSetState) {
    forall n :: n in vs.votes ==> Deliverable(cfg, cast, vs.votes[n])
  }

  lemma VotersAreMembers(cfg: Config, cast: set<Ballot>, vs: VoteSetState, t: VoteType, r: u32, height: u64, n: Bytes)
    requires ConfigOk(cfg) && VoteSetOk(cfg.crypto, vs, |cfg.validators|, t, r, height)
    requires SetWitnessed(cfg, cast, vs) && n in vs.votes
    ensures n in Members(cfg) && vs.votes[n].power == 1
  {
    assert Deliverable(cfg, cast, vs.votes[n]);
    assert VoteFits(cfg.crypto, vs.votes[n], n, t, r, height);
  }

  /** With fewer than 2^63 validators neither the tally nor the quorum wraps. */
  lemma QuorumCount(vs: VoteSetState, total: u64, h: Option<Bytes>, count: nat)
    requires TallyExact(vs) && vs.quorum == QuorumOf(total) && 2 * total < U64 && QuorumFor(vs, h)
    requires PowerFor(vs.votes, h) == count <= total
    ensures count >= 2 * total / 3 + 1
  {
    assert TallyFor(vs, h);
  }

  lemma QuorumVoters(cfg: Config, cast: set<Ballot>, vs: VoteSetState, t: VoteType, r: u32, height: u64, h: Option<Bytes>)
    requires ConfigOk(cfg) && VoteSetOk(cfg.crypto, vs, |cfg.validators|, t, r, height)
    requires SetWitnessed(cfg, cast, vs) && QuorumFor(vs, h)
    ensures VotersFor(vs.votes, h) <= Members(cfg)
    ensures |VotersFor(vs.votes, h)| >= 2 * |cfg.validators| / 3 + 1
  {
    forall n | n in vs.votes ensures n in Members(cfg) && vs.votes[n].power == 1 {
      VotersAreMembers(cfg, cast, vs, t, r, height, n);
    }
    PowerIsHeadCount(vs.votes, h);
    SubsetSize(VotersFor(vs.votes, h), Members(cfg));
    QuorumCount(vs, |cfg.validators|, h, |VotersFor(vs.votes, h)|);
  }

  /** A quorum for a hash contains an honest validator's ballot for it. */
  lemma QuorumHasHonestBallot(
    cfg: Config, cast: set<Ballot>, vs: VoteSetState, t: VoteType, r: u32, height: u64, h: Option<Bytes>)
    returns (b: Ballot)
    requires ConfigOk(cfg) && VoteSetOk(cfg.crypto, vs, |cfg.validators|, t, r, height)
    requires SetWitnessed(cfg, cast, vs) && QuorumFor(vs, h)
    ensures b in cast && b.voteType == t && b.height == height && b.hash == h && b.voter in cfg.honest
  {
    QuorumVoters(cfg, cast, vs, t, r, height, h);
    var voters := VotersFor(vs.votes, h);
    var n := HonestInBoth(cfg, voters, voters);
    assert VoteFits(cfg.crypto, vs.votes[n], n, t, r, height);
    assert Deliverable(cfg, cast, vs.votes[n]);
    b := BallotOf(vs.votes[n]);
  }

  // ---- What only grows ---------------------------------------------------------------------

  lemma WitnessedGrows(cfg: Config, cast: set<Ballot>, more: set<Ballot>, sets: map<u32, VoteSetState>)
    requires Witnessed(cfg, cast, sets) && cast <= more
    ensures Witnessed(cfg, more, sets)
  {
  }

  lemma CertifiedGrows(cfg: Config, cast: set<Ballot>, more: set<Ballot>, d: Decision)
    requires Certified(cfg, cast, d) && cast <= more
    ensures Certified(cfg, more, d)
  {
  }

  lemma ProposedGrows(cfg: Config, accepted: set<Acceptance>, more: set<Acceptance>, height: u64, hash: Bytes)
    requires Proposed(cfg, accepted, height, hash) && accepted <= more
    ensures Proposed(cfg, more, height, hash)
  {
    var a :| a in accepted && AcceptedFrom(cfg, a, height, hash);
    assert a in more;
  }

  // ---- The engine that moves -------------------------------------------------------------------

  lemma CountWitnessed(cfg: Config, cast: set<Ballot>, sets: map<u32, VoteSetState>, v: Vote, total: u64)
    requires Witnessed(cfg, cast, sets) && Deliverable(cfg, cast, v)
    ensures Witnessed(cfg, cast, sets[v.round := AddVote(VoteSetAt(sets, v.round, total), v).0])
  {
  }

  lemma SetsStayWitnessed(cfg: Config, cast: set<Ballot>, s: EngineState, e: Event, t: EngineState)
    requires Witnessed(cfg, cast, s.prevotes) && Witnessed(cfg, cast, s.precommits)
    requires e.HearVote? ==> Deliverable(cfg, cast, e.vote)
    requires SetsMove(s, e, t)
    ensures Witnessed(cfg, cast, t.prevotes) && Witnessed(cfg, cast, t.precommits)
  {
    if e.HearVote? {
      CountWitnessed(cfg, cast, s.prevotes, e.vote, s.totalValidators);
      CountWitnessed(cfg, cast, s.precommits, e.vote, s.totalValidators);
    }
  }

  lemma LockStaysProposed(cfg: Config, net: Net, id: Bytes, s: EngineState, e: Event, t: EngineState)
    requires ConfigOk(cfg) && LockProposed(cfg, net.accepted, s)
    requires BallotsProposed(cfg, net.accepted, net.cast)
    requires t.height == s.height && LockMove(s, e, t)
    requires Configured(cfg, id, t) && EngineOk(cfg.crypto, t) && Witnessed(cfg, net.cast, t.prevotes)
    ensures LockProposed(cfg, net.accepted, t)
  {
    if s.locked.None? && t.locked.Some? {
      var r, h := e.vote.round, t.locked.value.0;
      assert VoteSetOk(cfg.crypto, t.prevotes[r], |cfg.validators|, Prevote, r, t.height);
      var b := QuorumHasHonestBallot(cfg, net.cast, t.prevotes[r], Prevote, r, t.height, Some(h));
      assert b in net.cast;
    }
  }

  /** What one step adds to the network besides the engine's own state. */
  ghost predicate NewBallotsOk(cfg: Config, c: Crypto, id: Bytes, s: EngineState, e: Event, t: EngineState, added: set<Ballot>) {
    forall b :: b in added ==>
      && b.voter == id && b.height == s.height
      && (Commits(b) ==> t.locked.Some? && b.hash == Some(t.locked.value.0))
      && (b.hash.Some? && !Commits(b) ==>
            || (s.locked.Some? && b.hash == Some(s.locked.value.0))
            || (e.HearProposal? && b.hash == Some(HashOf(c, e.proposal.block))))
  }

  lemma CastBallotsOk(cfg: Config, id: Bytes, s: EngineState, e: Event, t: EngineState, out: Option<Output>)
    requires Configured(cfg, id, s) && OutputMove(cfg.crypto, s, e, t, out)
    ensures NewBallotsOk(cfg, cfg.crypto, id, s, e, t, NewBallots(out))
  {
  }

  lemma StaysSticky(cfg: Config, cast: set<Ballot>, id: Bytes, s: EngineState, e: Event, t: EngineState, added: set<Ballot>)
    requires Sticky(cast, id, s) && t.height == s.height && LockMove(s, e, t)
    requires NewBallotsOk(cfg, cfg.crypto, id, s, e, t, added)
    ensures Sticky(cast + added, id, t)
  {
  }

  lemma StaysOneCommit(cfg: Config, cast: set<Ballot>, id: Bytes, s: EngineState, e: Event, t: EngineState, added: set<Ballot>)
    requires OneCommit(cast) && Sticky(cast + added, id, t) && t.height == s.height
    requires NewBallotsOk(cfg, cfg.crypto, id, s, e, t, added)
    ensures OneCommit(cast + added)
  {
  }

  lemma BallotsStayProposed(
    cfg: Config, cast: set<Ballot>, accepted: set<Acceptance>, id: Bytes,
    s: EngineState, e: Event, t: EngineState, out: Option<Output>)
    requires BallotsProposed(cfg, accepted, cast) && LockProposed(cfg, accepted, s) && LockProposed(cfg, accepted, t)
    requires id in cfg.honest && Configured(cfg, id, s) && t.height == s.height && OutputMove(cfg.crypto, s, e, t, out)
    ensures BallotsProposed(cfg, accepted + NewAcceptances(id, e, out), cast + NewBallots(out))
  {
    var more := accepted + NewAcceptances(id, e, out);
    CastBallotsOk(cfg, id, s, e, t, out);
    forall b | b in cast + NewBallots(out) && b.hash.Some? ensures Proposed(cfg, more, b.height, b.hash.value) {
      if Proposed(cfg, accepted, b.height, b.hash.value) {
        ProposedGrows(cfg, accepted, more, b.height, b.hash.value);
      } else {
        var a := Acceptance(id, e.proposal);
        assert a in more && AcceptedFrom(cfg, a, b.height, b.hash.value);
      }
    }
  }

  lemma NewDecisionCertified(
    cfg: Config, cast: set<Ballot>, id: Bytes, s: EngineState, e: Event, t: EngineState, out: Option<Output>, d: Decision)
    requires ConfigOk(cfg) && Configured(cfg, id, t) && EngineOk(cfg.crypto, t) && Witnessed(cfg, cast, t.precommits)
    requires t.height == s.height && OutputMove(cfg.crypto, s, e, t, out) && d in NewDecisions(id, s.height, out)
    ensures Certified(cfg, cast, d)
  {
    var r, h := e.vote.round, HashOf(cfg.crypto, d.block);
    var vs := t.precommits[r];
    assert VoteSetOk(cfg.crypto, vs, |cfg.validators|, Precommit, r, t.height);
    QuorumVoters(cfg, cast, vs, Precommit, r, t.height, Some(h));
    forall n | n in vs.votes
      ensures Deliverable(cfg, cast, vs.votes[n]) && VoteFits(cfg.crypto, vs.votes[n], n, Precommit, r, t.height)
    {
    }
    forall n | n in VotersFor(vs.votes, Some(h)) ensures n in Backers(d.votes, h) {
      assert vs.votes[n] in d.votes;
    }
    SubsetSize(VotersFor(vs.votes, Some(h)), Backers(d.votes, h));
  }

  // ---- One step of the network --------------------------------------------------------------------

  /** An engine that does not move keeps its invariant while ballots of others are added. */
  lemma OtherNodeOk(cfg: Config, net: Net, after: Net, id: Bytes, added: set<Ballot>)
    requires id in net.engines && NodeOk(cfg, net, id, net.engines[id])
    requires net.started <= after.started && net.accepted <= after.accepted
    requires after.cast == net.cast + added && forall b :: b in added ==> b.voter != id
    ensures NodeOk(cfg, after, id, net.engines[id])
  {
    var s := net.engines[id];
    WitnessedGrows(cfg, net.cast, after.cast, s.prevotes);
    WitnessedGrows(cfg, net.cast, after.cast, s.precommits);
    if s.locked.Some? { ProposedGrows(cfg, net.accepted, after.accepted, s.height, s.locked.value.0); }
  }

  lemma MovedNodeOk(cfg: Config, net: Net, ev: NetEvent)
    requires ConfigOk(cfg) && NetOk(cfg, net) && Enabled(cfg, net, ev) && !ev.event.Begin?
    ensures NodeOk(cfg, NetStep(cfg, net, ev), ev.id, Step(cfg.crypto, net.engines[ev.id], ev.event))
    ensures LockProposed(cfg, net.accepted, Step(cfg.crypto, net.engines[ev.id], ev.event))
    ensures Witnessed(cfg, net.cast, Step(cfg.crypto, net.engines[ev.id], ev.event).precommits)
  {
    var c, s, e := cfg.crypto, net.engines[ev.id], ev.event;
    var t, out := Step(c, s, e), Emitted(c, s, e);
    var after := NetStep(cfg, net, ev);
    assert NodeOk(cfg, net, ev.id, s);
    StepMove(c, s, e);
    StepKeepsSetup(c, s, e);
    StepKeepsEngineOk(c, s, e);
    SetsStayWitnessed(cfg, net.cast, s, e, t);
    LockStaysProposed(cfg, net, ev.id, s, e, t);
    CastBallotsOk(cfg, ev.id, s, e, t, out);
    StaysSticky(cfg, net.cast, ev.id, s, e, t, NewBallots(out));
    WitnessedGrows(cfg, net.cast, after.cast, t.prevotes);
    WitnessedGrows(cfg, net.cast, after.cast, t.precommits);
    if t.locked.Some? { ProposedGrows(cfg, net.accepted, after.accepted, t.height, t.locked.value.0); }
  }

  lemma BallotsStayGood(cfg: Config, net: Net, ev: NetEvent)
    requires ConfigOk(cfg) && NetOk(cfg, net) && Enabled(cfg, net, ev) && !ev.event.Begin?
    ensures var after := NetStep(cfg, net, ev);
            && BallotsStarted(after.cast, after.started) && OneCommit(after.cast)
            && BallotsProposed(cfg, after.accepted, after.cast)
            && forall b :: b in NewBallots(Emitted(cfg.crypto, net.engines[ev.id], ev.event)) ==> b.voter == ev.id
  {
    var c, s, e := cfg.crypto, net.engines[ev.id], ev.event;
    var t, out := Step(c, s, e), Emitted(c, s, e);
    assert NodeOk(cfg, net, ev.id, s);
    MovedNodeOk(cfg, net, ev);
    StepMove(c, s, e);
    CastBallotsOk(cfg, ev.id, s, e, t, out);
    StaysOneCommit(cfg, net.cast, ev.id, s, e, t, NewBallots(out));
    BallotsStayProposed(cfg, net.cast, net.accepted, ev.id, s, e, t, out);
  }

  lemma DecisionsStayCertified(cfg: Config, net: Net, ev: NetEvent)
    requires ConfigOk(cfg) && NetOk(cfg, net) && Enabled(cfg, net, ev) && !ev.event.Begin?
    ensures AllCertified(cfg, NetStep(cfg, net, ev))
  {
    var c, s, e := cfg.crypto, net.engines[ev.id], ev.event;
    var t, out := Step(c, s, e), Emitted(c, s, e);
    var after := NetStep(cfg, net, ev);
    assert NodeOk(cfg, net, ev.id, s);
    MovedNodeOk(cfg, net, ev);
    StepMove(c, s, e);
    forall d | d in after.decided ensures Certified(cfg, after.cast, d) {
      if d !in net.decided { NewDecisionCertified(cfg, net.cast, ev.id, s, e, t, out, d); }
      CertifiedGrows(cfg, net.cast, after.cast, d);
    }
  }

  lemma NodesStayOk(cfg: Config, net: Net, ev: NetEvent)
    requires ConfigOk(cfg) && NetOk(cfg, net) && Enabled(cfg, net, ev) && !ev.event.Begin?
    ensures NodesOk(cfg, NetStep(cfg, net, ev))
  {
    var after := NetStep(cfg, net, ev);
    var added := NewBallots(Emitted(cfg.crypto, net.engines[ev.id], ev.event));
    MovedNodeOk(cfg, net, ev);
    BallotsStayGood(cfg, net, ev);
    forall id | id in after.engines ensures NodeOk(cfg, after, id, after.engines[id]) {
      if id != ev.id { OtherNodeOk(cfg, net, after, id, added); }
    }
  }

  /** A height begins unlocked, and no ballot of this engine for it was cast before. */
  lemma BeginKeepsNetOk(cfg: Config, net: Net, ev: NetEvent)
    requires NetOk(cfg, net) && Enabled(cfg, net, ev) && ev.event.Begin?
    ensures NetOk(cfg, NetStep(cfg, net, ev))
  {
    var after := NetStep(cfg, net, ev);
    assert NodeOk(cfg, net, ev.id, net.engines[ev.id]);
    forall id | id in after.engines ensures NodeOk(cfg, after, id, after.engines[id]) {
      if id != ev.id {
        OtherNodeOk(cfg, net, after, id, {});
      } else {
        StepKeepsEngineOk(cfg.crypto, net.engines[ev.id], ev.event);
      }
    }
    forall d | d in after.decided ensures Certified(cfg, after.cast, d) {
      CertifiedGrows(cfg, net.cast, after.cast, d);
    }
  }

  lemma StepKeepsNetOk(cfg: Config, net: Net, ev: NetEvent)
    requires ConfigOk(cfg) && NetOk(cfg, net) && Enabled(cfg, net, ev)
    ensures NetOk(cfg, NetStep(cfg, net, ev))
  {
    if ev.event.Begin? {
      BeginKeepsNetOk(cfg, net, ev);
    } else {
      NodesStayOk(cfg, net, ev);
      BallotsStayGood(cfg, net, ev);
      DecisionsStayCertified(cfg, net, ev);
      }
  }

  lemma InitOk(cfg: Config, nodes: map<Bytes, Setup>)
    requires ConfigOk(cfg)
    ensures NetOk(cfg, Init(cfg, nodes))
  {
  }

  lemma {:induction false} RunNetOk(cfg: Config, nodes: map<Bytes, Setup>, events: seq<NetEvent>, nets: seq<Net>, n: nat)
    requires ConfigOk(cfg) && IsRun(cfg, nodes, events, nets) && n <= |events|
    ensures NetOk(cfg, nets[n])
    decreases n
  {
    if n == 0 {
      InitOk(cfg, nodes);
    } else {
      var i := n - 1;
      RunNetOk(cfg, nodes, events, nets, i);
      assert Steps(cfg, false, nets[i], events[i], nets[i + 1]);
      StepKeepsNetOk(cfg, nets[i], events[i]);
    }
  }

  // ---- Main results -----------------------------------------------------------------------------------

  lemma CertifiedAgree(cfg: Config, cast: set<Ballot>, d: Decision, f: Decision)
    requires ConfigOk(cfg) && OneCommit(cast) && Certified(cfg, cast, d) && Certified(cfg, cast, f)
    requires d.height == f.height
    ensures HashOf(cfg.crypto, d.block) == HashOf(cfg.crypto, f.block)
  {
    var p, q := Backers(d.votes, HashOf(cfg.crypto, d.block)), Backers(f.votes, HashOf(cfg.crypto, f.block));
    forall n | n in p + q ensures n in Members(cfg) {
      var v :| (v in d.votes || v in f.votes) && v.nullifier == n;
      assert Deliverable(cfg, cast, v);
    }
    var n := HonestInBoth(cfg, p, q);
    var v :| v in d.votes && v.blockHash == Some(HashOf(cfg.crypto, d.block)) && v.nullifier == n;
    var w :| w in f.votes && w.blockHash == Some(HashOf(cfg.crypto, f.block)) && w.nullifier == n;
    assert Deliverable(cfg, cast, v) && Deliverable(cfg, cast, w);
    assert BallotOf(v).hash == BallotOf(w).hash;
  }

  /** No two honest engines ever finalize different blocks at one height, in whatever rounds they decide. */
  lemma Agreement(cfg: Config, nodes: map<Bytes, Setup>, events: seq<NetEvent>, nets: seq<Net>, n: nat, d: Decision, f: Decision)
    requires ConfigOk(cfg) && IsRun(cfg, nodes, events, nets) && n < |nets|
    requires d in nets[n].decided && f in nets[n].decided && d.height == f.height
    ensures HashOf(cfg.crypto, d.block) == HashOf(cfg.crypto, f.block)
  {
    RunNetOk(cfg, nodes, events, nets, n);
    CertifiedAgree(cfg, nets[n].cast, d, f);
  }

  /** Whatever honest engines have locked, voted for or finalized was proposed for its height. */
  ghost predicate AllProposed(cfg: Config, net: Net) {
    && (forall id :: id in net.engines ==> LockProposed(cfg, net.accepted, net.engines[id]))
    && BallotsProposed(cfg, net.accepted, net.cast)
    && (forall d :: d in net.decided ==> Proposed(cfg, net.accepted, d.height, HashOf(cfg.crypto, d.block)))
  }

  /**
   Every block an honest engine has locked, voted for or finalized was proposed for that height in the
   name of the proposer of some round, in a proposal that verifies and that an honest engine accepted.
   */
  lemma Validity(cfg: Config, nodes: map<Bytes, Setup>, events: seq<NetEvent>, nets: seq<Net>, n: nat)
    requires ConfigOk(cfg) && IsRun(cfg, nodes, events, nets) && n < |nets|
    ensures AllProposed(cfg, nets[n])
  {
    RunNetOk(cfg, nodes, events, nets, n);
    var net := nets[n];
    forall id | id in net.engines ensures LockProposed(cfg, net.accepted, net.engines[id]) {
      assert NodeOk(cfg, net, id, net.engines[id]);
    }
    forall d | d in net.decided ensures Proposed(cfg, net.accepted, d.height, HashOf(cfg.crypto, d.block)) {
      DecisionProposed(cfg, net, d);
    }
  }

  lemma DecisionProposed(cfg: Config, net: Net, d: Decision)
    requires ConfigOk(cfg) && BallotsProposed(cfg, net.accepted, net.cast) && Certified(cfg, net.cast, d)
    ensures Proposed(cfg, net.accepted, d.height, HashOf(cfg.crypto, d.block))
  {
    var h := HashOf(cfg.crypto, d.block);
    var p := Backers(d.votes, h);
    forall n | n in p ensures n in Members(cfg) {
      var v :| v in d.votes && v.nullifier == n;
      assert Deliverable(cfg, net.cast, v);
    }
    var n := HonestInBoth(cfg, p, p);
    var v :| v in d.votes && v.blockHash == Some(h) && v.nullifier == n;
    assert Deliverable(cfg, net.cast, v);
    assert BallotOf(v) in net.cast && BallotOf(v).hash == Some(h);
  }
}
