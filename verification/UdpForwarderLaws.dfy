// The forwarder's maps over every run (client/src/lib.rs). The receive loop, the connection
// reader and the raw pumps interleave; each takes its steps whole.
module UdpForwarderLaws {
  import opened Prelude
  import opened UdpFrag
  import opened Reassembly
  import opened UdpForwarder
  import ReassemblyLaws

  // `opening` is the peer the receive loop is establishing a flow for; `pumps` are the raw
  // carriers' pumps still running.
  datatype State = State(t: Tables, opening: Option<Peer>, pumps: multiset<Peer>)

  datatype Event =
    | Datagram(peer: Peer, now: Clock)
    | Retire                                        // the cached connection was lost
    | QuicOpened(sid: U32, ttl: int, now: Clock)          // the establishment ends in one of these three
    | RawOpened(ttl: int, now: Clock)
    | Refused
    | Sweep(now: Clock)
    | Incoming(f: Frame, at: nat, v1: U16, v2: U16)
    | Deny(peer: Peer)                              // a raw pump ends, with a DENY or without
    | PumpEnds(peer: Peer)

  const INITIAL := State(Tables(map[], map[], map[]), None, multiset{})

  function Step(s: State, e: Event, idle: nat): State {
    match e
    case Datagram(p, now) =>
      s.(t := Touched(s.t, p, now, idle), opening := if IsLivePeer(s.t, p, now, idle) then None else Some(p))
    case Retire => s.(t := PrunedAll(s.t, QuicPeers(s.t)))
    case QuicOpened(sid, ttl, now) =>
      if s.opening.Some? then s.(t := OpenedQuic(s.t, s.opening.value, sid, ttl, now), opening := None) else s
    case RawOpened(ttl, now) =>
      if s.opening.Some? then
        s.(t := OpenedRaw(s.t, s.opening.value, ttl, now), opening := None,
           pumps := s.pumps + multiset{s.opening.value})
      else s
    case Refused => s.(opening := None)
    case Sweep(now) => s.(t := PrunedAll(s.t, Due(s.t, now, idle)))
    case Incoming(f, at, v1, v2) => s.(t := Delivered(s.t, f, at, v1, v2).0)
    case Deny(p) => s.(t := s.t.(flows := s.t.flows - {p}), pumps := s.pumps - multiset{p})
    case PumpEnds(p) => s.(pumps := s.pumps - multiset{p})
  }

  predicate Carries(t: Tables, p: Peer, sid: U32) { p in t.flows && t.flows[p].carrier == Quic(sid) }

  // When an event can happen. The gateway hands out a session id that no live flow is using.
  ghost predicate Enabled(s: State, e: Event) {
    match e
    case Datagram(_, _) => s.opening.None?
    case Sweep(_) => s.opening.None?
    case Retire => s.opening.Some?
    case QuicOpened(sid, _, _) => s.opening.Some? && forall p :: p in s.t.flows ==> !Carries(s.t, p, sid)
    case RawOpened(_, _) => s.opening.Some?
    case Refused => s.opening.Some?
    case Deny(p) => p in s.pumps
    case PumpEnds(p) => p in s.pumps
    case Incoming(_, _, _, _) => true
  }

  // Each live QUIC flow's session leads back to its peer.
  ghost predicate Routed(t: Tables) {
    forall p :: p in t.flows && t.flows[p].carrier.Quic? ==>
      t.flows[p].carrier.sid in t.sids && t.sids[t.flows[p].carrier.sid] == p
  }

  // Each session is carried by the flow of the peer it leads to.
  ghost predicate Owned(t: Tables) {
    forall sid :: sid in t.sids ==> Carries(t, t.sids[sid], sid)
  }

  ghost predicate Inv(s: State) {
    Routed(s.t) && s.t.reasms.Keys <= s.t.sids.Keys && (s.opening.Some? ==> s.opening.value !in s.t.flows)
  }

  // ---------- every run ----------

  lemma PruneKeeps(t: Tables, peers: set<Peer>)
    requires Routed(t) && t.reasms.Keys <= t.sids.Keys
    ensures var u := PrunedAll(t, peers);
      Routed(u) && u.reasms.Keys <= u.sids.Keys && (Owned(t) ==> Owned(u))
  {
    var gone := SidsOf(t.flows, peers);
    var u := PrunedAll(t, peers);
    forall p | p in u.flows && u.flows[p].carrier.Quic?
      ensures u.flows[p].carrier.sid !in gone
    {
    }
    if Owned(t) {
      forall sid | sid in u.sids
        ensures Carries(u, u.sids[sid], sid)
      {
        assert Carries(t, t.sids[sid], sid);
      }
    }
  }

  // Opening for a peer without a flow prunes nothing.
  lemma OpeningPrunesNothing(s: State)
    requires Inv(s) && s.opening.Some?
    ensures Pruned(s.t, s.opening.value) == s.t
  {
  }

  lemma EndedKeeps(t: Tables, sid: U32)
    requires Routed(t) && t.reasms.Keys <= t.sids.Keys
    ensures var u := Ended(t, sid);
      Routed(u) && u.reasms.Keys <= u.sids.Keys && (Owned(t) ==> Owned(u))
  {
    var u := Ended(t, sid);
    if Owned(t) && sid in t.sids {
      forall x | x in u.sids
        ensures Carries(u, u.sids[x], x)
      {
        assert Carries(t, t.sids[x], x) && Carries(t, t.sids[sid], sid);
      }
    }
  }

  lemma RemovedKeeps(t: Tables, p: Peer)
    requires Routed(t)
    ensures Routed(t.(flows := t.flows - {p}))
  {
  }

  lemma TouchedKeeps(t: Tables, p: Peer, now: Clock, idle: nat)
    requires Routed(t)
    ensures Routed(Touched(t, p, now, idle)) && (!IsLivePeer(t, p, now, idle) ==> p !in Touched(t, p, now, idle).flows)
  {
    hide Live;
  }

  lemma DeliveredKeeps(t: Tables, f: Frame, at: nat, v1: U16, v2: U16)
    requires Routed(t) && t.reasms.Keys <= t.sids.Keys
    ensures var u := Delivered(t, f, at, v1, v2).0;
      Routed(u) && u.reasms.Keys <= u.sids.Keys && u.flows.Keys <= t.flows.Keys
  {
    hide AcceptStep;
    EndedKeeps(t, f.sessionId);
  }

  lemma OpenedKeeps(s: State, c: Carrier, f: Flow)
    requires Inv(s) && s.opening.Some? && f.carrier == c
    requires c.Quic? ==> forall p :: p in s.t.flows ==> !Carries(s.t, p, c.sid)
    ensures var p := s.opening.value;
      var u := s.t.(sids := if c.Quic? then s.t.sids[c.sid := p] else s.t.sids, flows := s.t.flows[p := f]);
      Routed(u) && u.reasms.Keys <= u.sids.Keys
  {
  }

  lemma StepKeepsInv(s: State, e: Event, idle: nat)
    requires Inv(s) && Enabled(s, e)
    ensures Inv(Step(s, e, idle))
  {
    hide Owned, AcceptStep, Live, Routed, PrunedAll, Touched, Delivered, Pruned, IsLivePeer;
    match e
    case Retire =>
      PruneKeeps(s.t, QuicPeers(s.t));
      PruneShrinks(s.t, QuicPeers(s.t));
    case Sweep(now) => PruneKeeps(s.t, Due(s.t, now, idle));
    case Incoming(f, at, v1, v2) => DeliveredKeeps(s.t, f, at, v1, v2);
    case QuicOpened(sid, ttl, now) =>
      OpeningPrunesNothing(s);
      OpenedKeeps(s, Quic(sid), Flow(Quic(sid), 1, now.unix + ttl - 2, now.mono));
    case RawOpened(ttl, now) =>
      OpeningPrunesNothing(s);
      OpenedKeeps(s, Carrier.Raw, Flow(Carrier.Raw, 0, now.unix + ttl - 2, now.mono));
    case Datagram(p, now) =>
      TouchedKeeps(s.t, p, now, idle);
      TouchedMaps(s.t, p, now, idle);
    case Deny(p) => RemovedKeeps(s.t, p);
    case _ =>
  }

  lemma PruneShrinks(t: Tables, peers: set<Peer>)
    ensures PrunedAll(t, peers).flows.Keys <= t.flows.Keys
  {
  }

  lemma TouchedMaps(t: Tables, p: Peer, now: Clock, idle: nat)
    ensures var u := Touched(t, p, now, idle); u.sids == t.sids && u.reasms == t.reasms
  {
  }

  // The removals that skip the session maps: a datagram that finds its QUIC flow not live, and
  // a late DENY from an old raw pump whose peer now has a QUIC flow.
  predicate Leaks(s: State, e: Event, idle: nat) {
    match e
    case Datagram(p, now) => p in s.t.flows && s.t.flows[p].carrier.Quic? && !Live(s.t.flows[p], now, idle)
    case Deny(p) => p in s.t.flows && s.t.flows[p].carrier.Quic?
    case _ => false
  }

  // A step keeps every session owned exactly if it is not one of those.
  lemma StepKeepsOwnedIff(s: State, e: Event, idle: nat)
    requires Inv(s) && Owned(s.t) && Enabled(s, e)
    ensures Owned(Step(s, e, idle).t) <==> !Leaks(s, e, idle)
  {
    hide AcceptStep, Live;
    var u := Step(s, e, idle).t;
    match e
    case Retire => PruneKeeps(s.t, QuicPeers(s.t));
    case Sweep(now) => PruneKeeps(s.t, Due(s.t, now, idle));
    case Incoming(f, _, _, _) =>
      EndedKeeps(s.t, f.sessionId);
      OwnedSame(s.t, u);
    case QuicOpened(sid, _, _) => OpeningPrunesNothing(s); OpenedOwned(s, sid, e.ttl, e.now);
    case RawOpened(_, _) => OpeningPrunesNothing(s); OwnedSame(s.t, u);
    case Datagram(p, now) => RemovedOwned(s.t, p); OwnedSame(s.t, u);
    case Deny(p) => RemovedOwned(s.t, p); OwnedSame(s.t, u);
    case _ =>
  }

  // Same sessions, and no QUIC flow lost.
  lemma OwnedSame(t: Tables, u: Tables)
    requires Owned(t)
    ensures t.sids == u.sids &&
            (forall p :: p in t.flows && t.flows[p].carrier.Quic? ==>
               p in u.flows && u.flows[p].carrier == t.flows[p].carrier)
            ==> Owned(u)
  {
  }

  lemma RemovedOwned(t: Tables, p: Peer)
    requires Owned(t) && Routed(t)
    ensures Owned(t.(flows := t.flows - {p})) <==> !(p in t.flows && t.flows[p].carrier.Quic?)
  {
    var u := t.(flows := t.flows - {p});
    if p in t.flows && t.flows[p].carrier.Quic? {
      assert !Carries(u, u.sids[t.flows[p].carrier.sid], t.flows[p].carrier.sid);
    } else {
      forall sid | sid in u.sids
        ensures Carries(u, u.sids[sid], sid)
      {
        assert Carries(t, t.sids[sid], sid);
      }
    }
  }

  lemma OpenedOwned(s: State, sid: U32, ttl: int, now: Clock)
    requires Inv(s) && Owned(s.t) && Enabled(s, QuicOpened(sid, ttl, now))
    ensures Owned(OpenedQuic(s.t, s.opening.value, sid, ttl, now))
  {
    var u := OpenedQuic(s.t, s.opening.value, sid, ttl, now);
    forall x | x in u.sids
      ensures Carries(u, u.sids[x], x)
    {
      if x != sid {
        assert Carries(s.t, s.t.sids[x], x);
      }
    }
  }

  // ---------- runs ----------

  function Run(s: State, run: seq<Event>, idle: nat): State
    decreases |run|
  {
    if run == [] then s else Run(Step(s, run[0], idle), run[1..], idle)
  }

  ghost predicate Feasible(s: State, run: seq<Event>, idle: nat)
    decreases |run|
  {
    run != [] ==> Enabled(s, run[0]) && Feasible(Step(s, run[0], idle), run[1..], idle)
  }

  ghost predicate AlwaysOwned(s: State, run: seq<Event>, idle: nat)
    decreases |run|
  {
    Owned(s.t) && (run != [] ==> AlwaysOwned(Step(s, run[0], idle), run[1..], idle))
  }

  predicate NeverLeaks(s: State, run: seq<Event>, idle: nat)
    decreases |run|
  {
    run != [] ==> !Leaks(s, run[0], idle) && NeverLeaks(Step(s, run[0], idle), run[1..], idle)
  }

  // In every run each live QUIC flow's session leads to its own peer, and reassemblers belong
  // to known sessions.
  lemma {:induction false} RunKeepsInv(s: State, run: seq<Event>, idle: nat)
    requires Inv(s) && Feasible(s, run, idle)
    ensures Inv(Run(s, run, idle))
    decreases |run|
  {
    hide Step, Inv, Enabled;
    if run != [] {
      StepKeepsInv(s, run[0], idle);
      RunKeepsInv(Step(s, run[0], idle), run[1..], idle);
    }
  }

  // A run keeps every session owned throughout exactly if none of its steps is a removal that
  // skips the session maps.
  lemma {:induction false} AlwaysOwnedIff(s: State, run: seq<Event>, idle: nat)
    requires Inv(s) && Owned(s.t) && Feasible(s, run, idle)
    ensures AlwaysOwned(s, run, idle) <==> NeverLeaks(s, run, idle)
    decreases |run|
  {
    hide Step, Inv, Enabled, Owned, Leaks;
    if run != [] {
      var e := run[0];
      StepKeepsInv(s, e, idle);
      StepKeepsOwnedIff(s, e, idle);
      if Owned(Step(s, e, idle).t) {
        AlwaysOwnedIff(Step(s, e, idle), run[1..], idle);
      } else {
        UnownedRun(Step(s, e, idle), run[1..], idle);
      }
    }
  }

  lemma UnownedRun(s: State, run: seq<Event>, idle: nat)
    ensures !Owned(s.t) ==> !AlwaysOwned(s, run, idle)
  {
  }

  // From the start: a forwarder keeps every session owned exactly as long as it never leaks one.
  lemma ForwarderOwnedIff(run: seq<Event>, idle: nat)
    requires Feasible(INITIAL, run, idle)
    ensures AlwaysOwned(INITIAL, run, idle) <==> NeverLeaks(INITIAL, run, idle)
    ensures Inv(Run(INITIAL, run, idle))
  {
    AlwaysOwnedIff(INITIAL, run, idle);
    RunKeepsInv(INITIAL, run, idle);
  }

  // With every session owned there are no more sessions and reassemblers than flows.
  lemma {:induction false} OwnedBound(t: Tables)
    requires Owned(t)
    ensures |t.sids| <= |t.flows|
    decreases |t.sids|
  {
    if t.sids != map[] {
      HasKey(t.sids);
      var sid :| sid in t.sids;
      var p := t.sids[sid];
      var u := Tables(t.flows - {p}, t.sids - {sid}, t.reasms);
      assert u.sids.Keys == t.sids.Keys - {sid} && u.flows.Keys == t.flows.Keys - {p};
      assert Carries(t, p, sid);
      forall x | x in u.sids
        ensures Carries(u, u.sids[x], x)
      {
        assert Carries(t, t.sids[x], x);
      }
      OwnedBound(u);
      assert |t.sids.Keys| == |u.sids.Keys| + 1 && |t.flows.Keys| == |u.flows.Keys| + 1;
    }
  }

  lemma HasKey(m: map<U32, Peer>)
    ensures m == map[] || exists k: U32 :: k in m
  {
    if forall k: U32 :: k !in m {
      assert m.Keys == {};
    }
  }

  // ---------- tombstones and deliveries ----------

  // A tombstone for a session no live flow carries changes nothing while sessions are owned.
  lemma SupersededTombstone(t: Tables, sid: U32)
    requires Owned(t) && forall p :: p in t.flows ==> !Carries(t, p, sid)
    ensures Ended(t, sid) == t
  {
    OwnedAt(t, sid);
  }

  lemma OwnedAt(t: Tables, sid: U32)
    requires Owned(t)
    ensures sid in t.sids ==> Carries(t, t.sids[sid], sid)
  {
  }

  // Once a session is left behind, its tombstone takes the peer's new flow away, and leaves
  // the new session behind in turn.
  lemma StrayTombstone(t: Tables, sid: U32)
    requires Routed(t) && sid in t.sids && !Carries(t, t.sids[sid], sid)
    requires t.sids[sid] in t.flows && t.flows[t.sids[sid]].carrier.Quic?
    ensures var p := t.sids[sid]; var other := t.flows[p].carrier.sid;
      p !in Ended(t, sid).flows && other in Ended(t, sid).sids && Ended(t, sid).sids[other] == p &&
      !Owned(Ended(t, sid))
  {
    var p := t.sids[sid];
    assert !Carries(Ended(t, sid), p, t.flows[p].carrier.sid);
  }

  // From any state: a QUIC flow lapses, its peer sends again before the sweep, a new session
  // opens, and the gateway's tombstone for the old one arrives.
  lemma LapsedFlowRun(s: State, p: Peer, now: Clock, idle: nat, sid: U32, ttl: int, f: Frame, at: nat)
    requires Inv(s) && s.opening.None? && p in s.t.flows && s.t.flows[p].carrier.Quic? && !Live(s.t.flows[p], now, idle)
    requires sid != s.t.flows[p].carrier.sid && forall x :: x in s.t.flows ==> !Carries(s.t, x, sid)
    requires f.totalLen == 0 && f.sessionId == s.t.flows[p].carrier.sid
    ensures var run := [Datagram(p, now), QuicOpened(sid, ttl, now), Incoming(f, at, 0, 0)];
      Feasible(s, run, idle) && p !in Run(s, run, idle).t.flows && sid in Run(s, run, idle).t.sids
  {
    hide Live, AcceptStep, Inv, Owned;
    var run := [Datagram(p, now), QuicOpened(sid, ttl, now), Incoming(f, at, 0, 0)];
    LapsedInv(s);
    var s1 := Step(s, run[0], idle);
    var s2 := Step(s1, run[1], idle);
    var s3 := Step(s2, run[2], idle);
    assert s1.t == s.t.(flows := s.t.flows - {p}) && s1.opening == Some(p);
    assert s2.t.sids == s.t.sids[sid := p];
    ThreeEvents(s, run, idle);
  }

  lemma ThreeEvents(s: State, run: seq<Event>, idle: nat)
    requires |run| == 3
    ensures var s1 := Step(s, run[0], idle); var s2 := Step(s1, run[1], idle);
      Run(s, run, idle) == Step(s2, run[2], idle) &&
      (Feasible(s, run, idle) <==> Enabled(s, run[0]) && Enabled(s1, run[1]) && Enabled(s2, run[2]))
  {
    hide Step, Enabled;
    var s1 := Step(s, run[0], idle);
    var s2 := Step(s1, run[1], idle);
    var s3 := Step(s2, run[2], idle);
    assert Run(s3, [], idle) == s3 && Feasible(s3, [], idle);
    assert run[2..][0] == run[2] && run[2..][1..] == [];
    assert Run(s2, run[2..], idle) == s3 && (Feasible(s2, run[2..], idle) <==> Enabled(s2, run[2]));
    assert run[1..][0] == run[1] && run[1..][1..] == run[2..];
    assert Run(s1, run[1..], idle) == s3;
  }

  lemma LapsedInv(s: State)
    requires Inv(s)
    ensures Routed(s.t)
  {
  }

  // A reassembled datagram goes to the peer whose live flow carries the session.
  lemma DeliveredToOwner(t: Tables, f: Frame, at: nat, v1: U16, v2: U16)
    requires Owned(t)
    ensures var out := Delivered(t, f, at, v1, v2).1;
      out.Some? ==> Carries(t, out.value.0, f.sessionId)
  {
    hide AcceptStep;
  }

  // ---------- session ids used again ----------

  // While sessions are owned, a new session finds no reassembler under its id.
  lemma OpensOnEmpty(s: State, sid: U32, ttl: int, now: Clock, idle: nat)
    requires Inv(s) && Owned(s.t) && Enabled(s, QuicOpened(sid, ttl, now))
    ensures sid !in s.t.reasms && sid !in Step(s, QuicOpened(sid, ttl, now), idle).t.reasms
  {
    OpeningPrunesNothing(s);
    OwnedAt(s.t, sid);
  }

  // What a session's reassembler would hold had it seen the frames since its opening only.
  function Since(s: State, slots: Slots, run: seq<Event>, sid: U32, idle: nat): Slots
    decreases |run|
  {
    if run == [] then slots else Since(Step(s, run[0], idle), SinceStep(s, slots, run[0], sid), run[1..], sid, idle)
  }

  function SinceStep(s: State, slots: Slots, e: Event, sid: U32): Slots {
    match e
    case QuicOpened(x, _, _) => if x == sid then map[] else slots
    case Incoming(f, at, v1, v2) =>
      if f.sessionId == sid && f.totalLen != 0 && sid in s.t.sids then AcceptStep(slots, LIMITS, f, at, v1, v2).0
      else slots
    case _ => slots
  }

  ghost predicate HoldsOnly(s: State, slots: Slots, sid: U32) { sid in s.t.sids ==> SlotsOf(s.t, sid) == slots }

  lemma SinceStepHolds(s: State, slots: Slots, e: Event, sid: U32, idle: nat)
    requires Inv(s) && Owned(s.t) && Enabled(s, e) && !Leaks(s, e, idle) && HoldsOnly(s, slots, sid)
    ensures HoldsOnly(Step(s, e, idle), SinceStep(s, slots, e, sid), sid)
  {
    hide AcceptStep, Live, Routed;
    match e
    case QuicOpened(x, ttl, now) =>
      OpeningPrunesNothing(s);
      OpensOnEmpty(s, x, ttl, now, idle);
    case RawOpened(_, _) => OpeningPrunesNothing(s);
    case _ =>
  }

  // In every run that never leaks, a session's reassembler holds what came in since that session
  // opened, and nothing of another session that had its id.
  lemma {:induction false} SessionsNeverMix(s: State, slots: Slots, run: seq<Event>, sid: U32, idle: nat)
    requires Inv(s) && Owned(s.t) && Feasible(s, run, idle) && NeverLeaks(s, run, idle) && HoldsOnly(s, slots, sid)
    ensures HoldsOnly(Run(s, run, idle), Since(s, slots, run, sid, idle), sid)
    decreases |run|
  {
    hide Step, SinceStep, Inv, Enabled, Owned, Leaks, HoldsOnly;
    if run != [] {
      var e := run[0];
      StepKeepsInv(s, e, idle);
      StepKeepsOwnedIff(s, e, idle);
      SinceStepHolds(s, slots, e, sid, idle);
      SessionsNeverMix(Step(s, e, idle), SinceStep(s, slots, e, sid), run[1..], sid, idle);
    }
  }

  lemma RunCons(s: State, e: Event, rest: seq<Event>, idle: nat)
    ensures Run(s, [e] + rest, idle) == Run(Step(s, e, idle), rest, idle)
    ensures Feasible(s, [e] + rest, idle) <==> Enabled(s, e) && Feasible(Step(s, e, idle), rest, idle)
  {
    hide Step, Enabled;
    assert ([e] + rest)[1..] == rest;
  }

  lemma RunNothing(s: State, idle: nat)
    ensures Run(s, [], idle) == s && Feasible(s, [], idle)
  {
  }

  const SECOND_PEER: Peer := 1

  // After a leak they can mix: peer 0's session is left behind with half of a datagram, its id
  // goes to peer 1's new session, and peer 1 is sent a datagram made of both halves.
  lemma SessionsCanMix(
    id: U16, sid: U32, one: seq<Byte>, two: seq<Byte>, f0: Frame, f1: Frame, at: nat, idle: nat)
    returns (run: seq<Event>)
    requires |one| == |two| == 2 && f0.sessionId == f1.sessionId == sid
    requires f0.fragOffset == 0 && IsFragment(f0, id, one, 1) && f1.fragOffset == 1 && IsFragment(f1, id, two, 1)
    ensures Feasible(INITIAL, run, idle)
    ensures Delivered(Run(INITIAL, run, idle).t, f1, at, id, id).1 == Some((SECOND_PEER, [one[0], two[1]]))
  {
    hide AcceptStep, IsFragment, Step, Enabled;
    var lapsed := Clock(28, 0);
    var e0, e1 := ReassemblyLaws.Arrive(f0, at, id, id), ReassemblyLaws.Arrive(f1, at, id, id);
    ReassemblyLaws.ReusedIdSplices(LIMITS, id, e0, e1, one, two);
    var half := ReassemblyLaws.Next(map[], LIMITS, e0);
    TotalsOfHalves(id, one, two, f0, f1);
    var s1 := FirstSession(sid, idle);
    var s2 := LeftBehind(s1, sid, f0, at, id, half, idle);
    var s3 := SecondSession(s2, sid, half, idle);
    var r3 := [Datagram(SECOND_PEER, lapsed), QuicOpened(sid, 30, lapsed)];
    var r2 := [Incoming(f0, at, id, id), Datagram(0, lapsed), Refused] + r3;
    run := [Datagram(0, Clock(0, 0)), QuicOpened(sid, 30, Clock(0, 0))] + r2;
    TwoThen(INITIAL, Datagram(0, Clock(0, 0)), QuicOpened(sid, 30, Clock(0, 0)), r2, idle);
    ThreeThen(s1, Incoming(f0, at, id, id), Datagram(0, lapsed), Refused, r3, idle);
    TwoThen(s2, Datagram(SECOND_PEER, lapsed), QuicOpened(sid, 30, lapsed), [], idle);
    assert [Datagram(SECOND_PEER, lapsed), QuicOpened(sid, 30, lapsed)] + [] == r3;
    RunNothing(s3, idle);
  }

  lemma TotalsOfHalves(id: U16, one: seq<Byte>, two: seq<Byte>, f0: Frame, f1: Frame)
    requires |one| == |two| == 2 && IsFragment(f0, id, one, 1) && IsFragment(f1, id, two, 1)
    ensures f0.totalLen == f1.totalLen == 2
  {
  }

  lemma FirstSession(sid: U32, idle: nat) returns (s: State)
    ensures s == Step(Step(INITIAL, Datagram(0, Clock(0, 0)), idle), QuicOpened(sid, 30, Clock(0, 0)), idle)
    ensures Enabled(INITIAL, Datagram(0, Clock(0, 0)))
    ensures Enabled(Step(INITIAL, Datagram(0, Clock(0, 0)), idle), QuicOpened(sid, 30, Clock(0, 0)))
    ensures s == State(Tables(map[0 := Flow(Carrier.Quic(sid), 1, 28, 0)], map[sid := 0], map[]), None, multiset{})
  {
    var s0 := Step(INITIAL, Datagram(0, Clock(0, 0)), idle);
    assert s0 == State(Tables(map[], map[], map[]), Some(0), multiset{});
    s := Step(s0, QuicOpened(sid, 30, Clock(0, 0)), idle);
  }

  lemma LeftBehind(s: State, sid: U32, f0: Frame, at: nat, id: U16, half: Slots, idle: nat) returns (t: State)
    requires s == State(Tables(map[0 := Flow(Carrier.Quic(sid), 1, 28, 0)], map[sid := 0], map[]), None, multiset{})
    requires f0.sessionId == sid && f0.totalLen == 2 && half == AcceptStep(map[], LIMITS, f0, at, id, id).0
    ensures var s1 := Step(s, Incoming(f0, at, id, id), idle); var s2 := Step(s1, Datagram(0, Clock(28, 0)), idle);
      Enabled(s, Incoming(f0, at, id, id)) && Enabled(s1, Datagram(0, Clock(28, 0))) && Enabled(s2, Refused) &&
      t == Step(s2, Refused, idle)
    ensures t == State(Tables(map[], map[sid := 0], map[sid := half]), None, multiset{})
  {
    hide AcceptStep;
    var s1 := Step(s, Incoming(f0, at, id, id), idle);
    assert s1.t == s.t.(reasms := map[sid := half]);
    var s2 := Step(s1, Datagram(0, Clock(28, 0)), idle);
    assert s2.t.flows == map[];
    t := Step(s2, Refused, idle);
  }

  lemma SecondSession(s: State, sid: U32, half: Slots, idle: nat) returns (t: State)
    requires s == State(Tables(map[], map[sid := 0], map[sid := half]), None, multiset{})
    ensures var s1 := Step(s, Datagram(SECOND_PEER, Clock(28, 0)), idle);
      Enabled(s, Datagram(SECOND_PEER, Clock(28, 0))) && Enabled(s1, QuicOpened(sid, 30, Clock(28, 0))) &&
      t == Step(s1, QuicOpened(sid, 30, Clock(28, 0)), idle)
    ensures t.t.sids == map[sid := SECOND_PEER] && t.t.reasms == map[sid := half]
  {
    var s1 := Step(s, Datagram(SECOND_PEER, Clock(28, 0)), idle);
    assert s1.t.flows == map[];
    t := Step(s1, QuicOpened(sid, 30, Clock(28, 0)), idle);
  }

  lemma TwoThen(s: State, a: Event, b: Event, rest: seq<Event>, idle: nat)
    ensures var s2 := Step(Step(s, a, idle), b, idle);
      Run(s, [a, b] + rest, idle) == Run(s2, rest, idle) &&
      (Feasible(s, [a, b] + rest, idle) <==>
       Enabled(s, a) && Enabled(Step(s, a, idle), b) && Feasible(s2, rest, idle))
  {
    hide Step, Enabled, Run, Feasible;
    assert [a, b] + rest == [a] + ([b] + rest);
    RunCons(s, a, [b] + rest, idle);
    RunCons(Step(s, a, idle), b, rest, idle);
  }

  lemma ThreeThen(s: State, a: Event, b: Event, c: Event, rest: seq<Event>, idle: nat)
    ensures var s1 := Step(s, a, idle); var s3 := Step(Step(s1, b, idle), c, idle);
      Run(s, [a, b, c] + rest, idle) == Run(s3, rest, idle) &&
      (Feasible(s, [a, b, c] + rest, idle) <==>
       Enabled(s, a) && Enabled(s1, b) && Enabled(Step(s1, b, idle), c) && Feasible(s3, rest, idle))
  {
    hide Step, Enabled, Run, Feasible;
    assert [a, b, c] + rest == [a] + ([b, c] + rest);
    RunCons(s, a, [b, c] + rest, idle);
    TwoThen(Step(s, a, idle), b, c, rest, idle);
  }

  // ---------- unbounded growth ----------

  function LeakedSids(n: nat): (m: map<U32, Peer>)
    requires n <= 0x1_0000_0000
    ensures forall sid: U32 :: sid in m <==> sid < n
    ensures |m| == n
  {
    if n == 0 then map[]
    else
      var m := LeakedSids(n - 1);
      assert m[n - 1 := 0].Keys == m.Keys + {n - 1};
      m[n - 1 := 0]
  }

  // One peer whose every flow lapsed before it spoke again, `n` times over.
  function LeakedState(n: nat): State
    requires n <= 0x1_0000_0000
  {
    State(Tables(
            if n == 0 then map[] else map[0 := Flow(Quic(n - 1), 1, 30 * n - 2, 0)],
            LeakedSids(n),
            map[]),
          None, multiset{})
  }

  lemma LeakOnce(n: nat, idle: nat)
    requires n < 0x1_0000_0000
    ensures var now := Clock(30 * n, 0);
      Enabled(LeakedState(n), Datagram(0, now)) &&
      Enabled(Step(LeakedState(n), Datagram(0, now), idle), QuicOpened(n, 30, now)) &&
      Step(Step(LeakedState(n), Datagram(0, now), idle), QuicOpened(n, 30, now), idle) == LeakedState(n + 1)
  {
    var now := Clock(30 * n, 0);
    var s := Step(LeakedState(n), Datagram(0, now), idle);
    assert s.t.flows == map[];
  }

  lemma {:induction false} LeakRun(k: nat, n: nat, idle: nat) returns (run: seq<Event>)
    requires k <= n <= 0x1_0000_0000
    ensures Feasible(LeakedState(k), run, idle) && Run(LeakedState(k), run, idle) == LeakedState(n)
    decreases n - k
  {
    if k == n {
      run := [];
    } else {
      hide Step, Enabled, LeakedState;
      var now := Clock(30 * k, 0);
      LeakOnce(k, idle);
      var rest := LeakRun(k + 1, n, idle);
      run := [QuicOpened(k, 30, now)] + rest;
      var s := Step(LeakedState(k), Datagram(0, now), idle);
      assert run[0] == QuicOpened(k, 30, now) && run[1..] == rest;
      assert Feasible(s, run, idle) && Run(s, run, idle) == LeakedState(n);
      var after := run;
      run := [Datagram(0, now)] + after;
      assert run[0] == Datagram(0, now) && run[1..] == after;
    }
  }

  // With one peer and one flow the session map still reaches every size a 32-bit id allows.
  lemma SessionsGrowWithoutFlows(n: nat, idle: nat)
    requires n <= 0x1_0000_0000
    ensures exists run ::
      Feasible(INITIAL, run, idle) && |Run(INITIAL, run, idle).t.sids| == n && |Run(INITIAL, run, idle).t.flows| <= 1
  {
    var run := LeakRun(0, n, idle);
    assert LeakedState(0) == INITIAL;
  }

  // ---------- between the locks ----------

  // The maps have a lock each. If a flow is pruned after the reader has looked its session up
  // and before it stores the fragment, the reassembler outlives the session.
  lemma SplitAcceptLeaks(t: Tables, p: Peer, sid: U32, slots: Slots)
    requires Carries(t, p, sid)
    ensures var late := Pruned(t, p).(reasms := Pruned(t, p).reasms[sid := slots]);
      !(late.reasms.Keys <= late.sids.Keys)
  {
    var u := Pruned(t, p);
    var late := u.(reasms := u.reasms[sid := slots]);
    assert sid in late.reasms.Keys && sid !in late.sids.Keys;
  }

  // If the gateway ends a session after its id is stored and before its flow is, the flow is
  // left with a session that leads nowhere.
  lemma SplitOpenUnroutes(t: Tables, p: Peer, sid: U32, flow: Flow)
    requires flow.carrier == Quic(sid)
    ensures var ended := Ended(t.(sids := t.sids[sid := p]), sid);
      !Routed(ended.(flows := ended.flows[p := flow]))
  {
    var ended := Ended(t.(sids := t.sids[sid := p]), sid);
    var u := ended.(flows := ended.flows[p := flow]);
    assert u.flows[p].carrier.Quic? && sid !in u.sids;
  }
}
