// The forwarder's maps after any run, told from the run's events (client/src/lib.rs).
module UdpForwarderHistory {
  import opened Prelude
  import opened UdpFrag
  import opened Reassembly
  import opened UdpForwarder
  import opened UdpForwarderLaws

  // The state after k events from the start.
  function After(run: seq<Event>, k: nat, idle: nat): State
    requires k <= |run|
  {
    if k == 0 then INITIAL else Step(After(run, k - 1, idle), run[k - 1], idle)
  }

  ghost predicate Happens(run: seq<Event>, k: nat, idle: nat)
    requires k <= |run|
  {
    k == 0 || (Happens(run, k - 1, idle) && Enabled(After(run, k - 1, idle), run[k - 1]))
  }

  lemma {:induction false} InvAfter(run: seq<Event>, k: nat, idle: nat)
    requires k <= |run| && Happens(run, k, idle)
    ensures Inv(After(run, k, idle))
  {
    hide Step, Inv, Enabled;
    if k == 0 {
      StartInv();
    } else {
      InvAfter(run, k - 1, idle);
      StepKeepsInv(After(run, k - 1, idle), run[k - 1], idle);
    }
  }

  lemma StartInv()
    ensures Inv(INITIAL)
  {
  }

  // ---------- one event, flow by flow and session by session ----------

  // Usable: before the expiry, and inside the idle window.
  predicate Usable(f: Flow, now: Clock, idle: nat) {
    now.unix < f.expiresAt && (now.mono < f.lastActive || now.mono - f.lastActive < idle) && idle > 0
  }

  // A tombstone for a session that leads to the peer.
  predicate TombstoneFor(s: State, e: Event, p: Peer) {
    e.Incoming? && e.f.totalLen == 0 && e.f.sessionId in s.t.sids && s.t.sids[e.f.sessionId] == p
  }

  // The events that end a peer's flow.
  predicate EndsFlow(s: State, e: Event, p: Peer, idle: nat)
    requires p in s.t.flows
  {
    match e
    case Datagram(x, now) => x == p && !Usable(s.t.flows[p], now, idle)
    case Retire => s.t.flows[p].carrier != Carrier.Raw
    case Sweep(now) => !Usable(s.t.flows[p], now, idle)
    case Incoming(_, _, _, _) => TombstoneFor(s, e, p)
    case Deny(x) => x == p
    case _ => false
  }

  // The flow an event opens for the peer being served.
  function OpenedBy(s: State, e: Event): Option<Flow> {
    match e
    case QuicOpened(sid, ttl, now) =>
      if s.opening.Some? then Some(Flow(Quic(sid), 1, now.unix + ttl - 2, now.mono)) else None
    case RawOpened(ttl, now) =>
      if s.opening.Some? then Some(Flow(Carrier.Raw, 0, now.unix + ttl - 2, now.mono)) else None
    case _ => None
  }

  lemma LiveIsUsable(f: Flow, now: Clock, idle: nat)
    ensures Live(f, now, idle) <==> Usable(f, now, idle)
  {
  }

  // Each peer's flow after an event: opened, ended, stamped, or as it was.
  lemma FlowAfter(s: State, e: Event, idle: nat, p: Peer)
    requires Inv(s) && Enabled(s, e)
    ensures var t := Step(s, e, idle).t;
      if s.opening == Some(p) && OpenedBy(s, e).Some? then p in t.flows && t.flows[p] == OpenedBy(s, e).value
      else if p !in s.t.flows || EndsFlow(s, e, p, idle) then p !in t.flows
      else
        p in t.flows &&
        var f := s.t.flows[p];
        t.flows[p] == if e.Datagram? && e.peer == p
                      then Flow(f.carrier, (f.dgramId + 1) % 65_536, f.expiresAt, e.now.mono) else f
  {
    hide Live, Usable, AcceptStep;
    if p in s.t.flows {
      match e
      case Datagram(_, now) => LiveIsUsable(s.t.flows[p], now, idle);
      case Sweep(now) => LiveIsUsable(s.t.flows[p], now, idle);
      case _ =>
    }
  }

  // A session goes with its flow when that is retired or swept, or by its tombstone; it comes
  // with the flow that is opened on it; no other event touches it.
  lemma SessionAfter(s: State, e: Event, idle: nat, x: U32)
    requires Inv(s) && Enabled(s, e)
    ensures var t := Step(s, e, idle).t;
      if e.QuicOpened? && e.sid == x then x in t.sids && s.opening == Some(t.sids[x])
      else if x !in s.t.sids then x !in t.sids
      else
        var owner := s.t.sids[x];
        var carried := owner in s.t.flows && s.t.flows[owner].carrier == Quic(x);
        (x !in t.sids <==>
           (e.Incoming? && e.f.totalLen == 0 && e.f.sessionId == x) || (e.Retire? && carried) ||
           (e.Sweep? && carried && !Usable(s.t.flows[owner], e.now, idle))) &&
        (x in t.sids ==> t.sids[x] == owner)
  {
    hide Live, Usable, AcceptStep;
    if x in s.t.sids {
      var owner := s.t.sids[x];
      if e.Sweep? && owner in s.t.flows {
        LiveIsUsable(s.t.flows[owner], e.now, idle);
      }
      CarriedByOwner(s, x);
    }
  }

  // Only the peer a session leads to can carry it.
  lemma CarriedByOwner(s: State, x: U32)
    requires Inv(s) && x in s.t.sids
    ensures forall p :: p in s.t.flows && s.t.flows[p].carrier == Quic(x) ==> p == s.t.sids[x]
  {
  }

  // A session's reassembler takes in each frame of the session, 16 slots of at most 256 KiB each,
  // and goes with the session. A datagram the frame completes goes to the peer it leads to.
  lemma ReassemblerAfter(s: State, e: Event, idle: nat, x: U32)
    requires Inv(s) && Enabled(s, e)
    ensures var t := Step(s, e, idle).t;
      var slots := if x in s.t.reasms then s.t.reasms[x] else map[];
      if x !in t.sids then x !in t.reasms
      else if e.Incoming? && e.f.totalLen != 0 && e.f.sessionId == x then
        x in t.reasms && t.reasms[x] == AcceptStep(slots, Limits(16, 262_144), e.f, e.at, e.v1, e.v2).0 &&
        (Delivered(s.t, e.f, e.at, e.v1, e.v2).1 ==
         match AcceptStep(slots, Limits(16, 262_144), e.f, e.at, e.v1, e.v2).1
         case Complete(data) => Some((t.sids[x], data))
         case _ => None)
      else (x in t.reasms <==> x in s.t.reasms) && (x in t.reasms ==> t.reasms[x] == s.t.reasms[x])
  {
    hide Live, AcceptStep;
    SessionAfter(s, e, idle, x);
  }

  // A raw flow's pump runs from its opening until it ends, with a DENY or without; the peer being
  // served is the last whose datagram found no usable flow, until its establishment ends.
  lemma ServedAfter(s: State, e: Event, idle: nat, p: Peer)
    requires Inv(s) && Enabled(s, e)
    ensures var u := Step(s, e, idle);
      u.pumps[p] == s.pumps[p] + (if e.RawOpened? && s.opening == Some(p) then 1 else 0) -
                    (if (e.Deny? || e.PumpEnds?) && e.peer == p then 1 else 0) &&
      (u.opening == Some(p) <==>
         if e.Datagram? then e.peer == p && !(p in s.t.flows && Usable(s.t.flows[p], e.now, idle))
         else s.opening == Some(p) && !e.QuicOpened? && !e.RawOpened? && !e.Refused?)
  {
    hide Live, Usable, AcceptStep, PrunedAll, OpenedQuic, OpenedRaw, Delivered;
    if e.Datagram? && p in s.t.flows {
      LiveIsUsable(s.t.flows[p], e.now, idle);
    }
  }

  // ---------- a flow over a run ----------

  predicate HasFlow(run: seq<Event>, k: nat, p: Peer, idle: nat)
    requires k <= |run|
  {
    p in After(run, k, idle).t.flows
  }

  function FlowAt(run: seq<Event>, k: nat, p: Peer, idle: nat): Flow
    requires k <= |run| && HasFlow(run, k, p, idle)
  {
    After(run, k, idle).t.flows[p]
  }

  // The event that opened the flow the peer has after k events.
  function OpenedAt(run: seq<Event>, k: nat, p: Peer, idle: nat): (j: nat)
    requires k <= |run| && HasFlow(run, k, p, idle)
    ensures j < k && HasFlow(run, j + 1, p, idle)
  {
    if HasFlow(run, k - 1, p, idle) then OpenedAt(run, k - 1, p, idle) else k - 1
  }

  // The peer's datagrams among events j to k.
  function Datagrams(run: seq<Event>, p: Peer, j: nat, k: nat): nat
    requires j <= k <= |run|
  {
    if k == j then 0 else Datagrams(run, p, j, k - 1) + if run[k - 1].Datagram? && run[k - 1].peer == p then 1 else 0
  }

  // When the last of them came, or `begun` if none did.
  function LastSeen(run: seq<Event>, p: Peer, j: nat, k: nat, begun: nat): nat
    requires j <= k <= |run|
  {
    if k == j then begun
    else if run[k - 1].Datagram? && run[k - 1].peer == p then run[k - 1].now.mono
    else LastSeen(run, p, j, k - 1, begun)
  }

  ghost predicate FlowIs(f: Flow, run: seq<Event>, p: Peer, j: nat, k: nat, idle: nat)
    requires j < k <= |run|
  {
    var begun := OpenedBy(After(run, j, idle), run[j]);
    begun.Some? && After(run, j, idle).opening == Some(p) &&
    f == Flow(begun.value.carrier, (begun.value.dgramId + Datagrams(run, p, j + 1, k)) % 65_536,
              begun.value.expiresAt, LastSeen(run, p, j + 1, k, begun.value.lastActive))
  }

  // Over every run: a flow is the one opened for the peer, due two seconds before the token
  // lapses, active when the peer's last datagram came, its id stepped once for each.
  lemma {:induction false} FlowHistory(run: seq<Event>, k: nat, p: Peer, idle: nat)
    requires k <= |run| && Happens(run, k, idle) && HasFlow(run, k, p, idle)
    ensures FlowIs(FlowAt(run, k, p, idle), run, p, OpenedAt(run, k, p, idle), k, idle)
  {
    hide Step, Inv, Enabled, EndsFlow;
    var prior: nat := k - 1;
    var s, e := After(run, prior, idle), run[prior];
    InvAfter(run, prior, idle);
    FlowAfter(s, e, idle, p);
    if p in s.t.flows {
      FlowHistory(run, prior, p, idle);
      NotServed(s, p);
      var j := OpenedAt(run, prior, p, idle);
      var n := Datagrams(run, p, j + 1, prior);
      NextId(OpenedBy(After(run, j, idle), run[j]).value.dgramId, n);
    } else {
      SmallId(OpenedBy(s, e).value);
    }
  }

  lemma NotServed(s: State, p: Peer)
    requires Inv(s) && p in s.t.flows
    ensures s.opening != Some(p)
  {
  }

  lemma NextId(start: nat, n: nat)
    ensures ((start + n) % 65_536 + 1) % 65_536 == (start + (n + 1)) % 65_536
  {
  }

  lemma SmallId(f: Flow)
    ensures f.dgramId % 65_536 == f.dgramId
  {
  }

  // A peer's datagram goes out if and only if its flow's token has more than two seconds left
  // and its last datagram, or the opening, came less than the idle time ago.
  lemma GoesOutIff(run: seq<Event>, k: nat, idle: nat)
    requires k < |run| && Happens(run, k, idle) && run[k].Datagram?
    ensures var s := After(run, k, idle); var p, now := run[k].peer, run[k].now;
      IsLivePeer(s.t, p, now, idle) <==>
      HasFlow(run, k, p, idle) && idle > 0 &&
      var j := OpenedAt(run, k, p, idle);
      var begun := OpenedBy(After(run, j, idle), run[j]);
      begun.Some? && now.unix < begun.value.expiresAt &&
      now.mono - LastSeen(run, p, j + 1, k, begun.value.lastActive) < idle
  {
    hide Live, Step, OpenedBy;
    var s := After(run, k, idle);
    var p := run[k].peer;
    if p in s.t.flows {
      FlowHistory(run, k, p, idle);
      LiveIsUsable(s.t.flows[p], run[k].now, idle);
    }
  }

  // Two datagrams of one flow, fewer than 65536 apart, go out under different ids.
  lemma IdsDiffer(run: seq<Event>, k1: nat, k2: nat, p: Peer, idle: nat)
    requires k1 < k2 < |run| && Happens(run, k2 + 1, idle)
    requires run[k1].Datagram? && run[k1].peer == p && run[k2].Datagram? && run[k2].peer == p
    requires HasFlow(run, k1 + 1, p, idle) && HasFlow(run, k2 + 1, p, idle)
    requires OpenedAt(run, k1 + 1, p, idle) == OpenedAt(run, k2 + 1, p, idle) < k1
    requires Datagrams(run, p, k1 + 1, k2 + 1) < 65_536
    ensures FlowAt(run, k1 + 1, p, idle).dgramId != FlowAt(run, k2 + 1, p, idle).dgramId
  {
    hide Step, Enabled, OpenedBy, HasFlow, FlowAt, Happens, After;
    var j := OpenedAt(run, k1 + 1, p, idle);
    Earlier(run, k1 + 1, k2 + 1, idle);
    FlowHistory(run, k1 + 1, p, idle);
    FlowHistory(run, k2 + 1, p, idle);
    CountsAdd(run, p, j + 1, k1 + 1, k2 + 1);
    var begun := OpenedBy(After(run, j, idle), run[j]).value;
    FarApart(begun.dgramId + Datagrams(run, p, j + 1, k1 + 1), Datagrams(run, p, k1 + 1, k2 + 1));
  }

  lemma FarApart(a: nat, n: nat)
    requires 0 < n < 65_536
    ensures a % 65_536 != (a + n) % 65_536
  {
  }

  lemma {:induction false} Earlier(run: seq<Event>, j: nat, k: nat, idle: nat)
    requires j <= k <= |run| && Happens(run, k, idle)
    ensures Happens(run, j, idle)
  {
    if j < k {
      Earlier(run, j, k - 1, idle);
    }
  }

  lemma {:induction false} CountsAdd(run: seq<Event>, p: Peer, i: nat, j: nat, k: nat)
    requires i <= j <= k <= |run|
    ensures Datagrams(run, p, i, k) == Datagrams(run, p, i, j) + Datagrams(run, p, j, k)
    ensures j < k && run[k - 1].Datagram? && run[k - 1].peer == p ==> Datagrams(run, p, j, k) > 0
  {
    if j < k {
      CountsAdd(run, p, i, j, k - 1);
    }
  }
}
