// The UDP forwarder's three maps (client/src/lib.rs): flows by local peer, peers by session
// id, reassemblers by session id.
module UdpForwarder {
  import opened Prelude
  import opened UdpFrag
  import opened Reassembly

  // A local socket address.
  type Peer = nat

  datatype Carrier = Raw | Quic(sid: U32)

  // expiresAt is in seconds of the wall clock, lastActive in units of the monotonic one.
  datatype Flow = Flow(carrier: Carrier, dgramId: U16, expiresAt: int, lastActive: nat)

  datatype Clock = Clock(unix: int, mono: nat)

  datatype Tables = Tables(flows: map<Peer, Flow>, sids: map<U32, Peer>, reasms: map<U32, Slots>)

  const LIMITS := Limits(16, 256 * 1024)

  // Usable: the token has not lapsed and the flow is inside the idle window.
  predicate Live(f: Flow, now: Clock, idle: nat) {
    now.unix < f.expiresAt && Max(0, now.mono - f.lastActive) < idle
  }

  // ---------- what each operation does to the maps ----------

  function SessionGone(t: Tables, c: Carrier): Tables {
    if c.Quic? then t.(sids := t.sids - {c.sid}, reasms := t.reasms - {c.sid}) else t
  }

  function Pruned(t: Tables, peer: Peer): Tables {
    if peer in t.flows then SessionGone(t.(flows := t.flows - {peer}), t.flows[peer].carrier) else t
  }

  // The sessions of a set of pruned peers.
  function SidsOf(flows: map<Peer, Flow>, peers: set<Peer>): set<U32> {
    set p | p in peers && p in flows && flows[p].carrier.Quic? :: flows[p].carrier.sid
  }

  function PrunedAll(t: Tables, peers: set<Peer>): Tables {
    var gone := SidsOf(t.flows, peers);
    Tables(t.flows - peers, t.sids - gone, t.reasms - gone)
  }

  predicate IsLivePeer(t: Tables, peer: Peer, now: Clock, idle: nat) {
    peer in t.flows && Live(t.flows[peer], now, idle)
  }

  // A live flow is stamped and its datagram id stepped, wrapping; any other is dropped from
  // the flow table alone.
  function Touched(t: Tables, peer: Peer, now: Clock, idle: nat): Tables {
    if IsLivePeer(t, peer, now, idle) then
      var f := t.flows[peer];
      t.(flows := t.flows[peer := f.(lastActive := now.mono, dgramId := (f.dgramId + 1) % 0x1_0000)])
    else t.(flows := t.flows - {peer})
  }

  function QuicPeers(t: Tables): set<Peer> { set p | p in t.flows && t.flows[p].carrier.Quic? }

  function Due(t: Tables, now: Clock, idle: nat): set<Peer> { set p | p in t.flows && !Live(t.flows[p], now, idle) }

  function OpenedQuic(t: Tables, peer: Peer, sid: U32, ttl: int, now: Clock): Tables {
    var u := Pruned(t, peer);
    u.(sids := u.sids[sid := peer], flows := u.flows[peer := Flow(Quic(sid), 1, now.unix + ttl - 2, now.mono)])
  }

  function OpenedRaw(t: Tables, peer: Peer, ttl: int, now: Clock): Tables {
    var u := Pruned(t, peer);
    u.(flows := u.flows[peer := Flow(Raw, 0, now.unix + ttl - 2, now.mono)])
  }

  // The gateway ended a session.
  function Ended(t: Tables, sid: U32): Tables {
    if sid in t.sids then Tables(t.flows - {t.sids[sid]}, t.sids - {sid}, t.reasms - {sid}) else t
  }

  function SlotsOf(t: Tables, sid: U32): Slots { if sid in t.reasms then t.reasms[sid] else map[] }

  // A frame of a known session goes to its reassembler; a finished datagram goes to the peer.
  function Delivered(t: Tables, f: Frame, at: nat, v1: U16, v2: U16): (Tables, Option<(Peer, seq<Byte>)>) {
    if f.totalLen == 0 then (Ended(t, f.sessionId), None)
    else if f.sessionId !in t.sids then (t, None)
    else
      var (slots, out) := AcceptStep(SlotsOf(t, f.sessionId), LIMITS, f, at, v1, v2);
      (t.(reasms := t.reasms[f.sessionId := slots]),
       if out.Complete? then Some((t.sids[f.sessionId], out.data)) else None)
  }

  // ---------- the shared maps ----------

  class Forwarder {
    var flows: map<Peer, Flow>
    var sids: map<U32, Peer>
    var reasms: map<U32, Slots>
    const idle: nat

    constructor (idle: nat)
      ensures View() == Tables(map[], map[], map[]) && this.idle == idle
    {
      flows, sids, reasms := map[], map[], map[];
      this.idle := idle;
    }

    function View(): Tables
      reads this
    {
      Tables(flows, sids, reasms)
    }

    method PruneSessionEntries(sid: Option<U32>)
      modifies this`sids, this`reasms
      ensures View() == (if sid.Some? then SessionGone(old(View()), Quic(sid.value)) else old(View()))
    {
      if sid.Some? {
        sids := sids - {sid.value};
        reasms := reasms - {sid.value};
      }
    }

    method PruneFlow(peer: Peer)
      modifies this
      ensures View() == Pruned(old(View()), peer)
    {
      var sid := None;
      if peer in flows && flows[peer].carrier.Quic? {
        sid := Some(flows[peer].carrier.sid);
      }
      flows := flows - {peer};
      PruneSessionEntries(sid);
    }

    method PruneEach(peers: set<Peer>)
      requires peers <= flows.Keys
      modifies this
      ensures View() == PrunedAll(old(View()), peers)
    {
      hide Pruned, PrunedAll, SidsOf;
      var rest := peers;
      ghost var t := View();
      assert peers - rest == {};
      PruneNone(t);
      while rest != {}
        invariant rest <= peers
        invariant View() == PrunedAll(t, peers - rest)
        decreases |rest|
      {
        var p :| p in rest;
        ghost var done := peers - rest;
        PruneOneMore(t, done, p);
        PruneFlow(p);
        rest := rest - {p};
        assert peers - rest == done + {p};
      }
      assert peers - rest == peers;
    }

    // A datagram from a local peer: sent on its live flow, or the start of a re-establishment.
    method OnDatagram(peer: Peer, now: Clock) returns (sent: bool)
      modifies this`flows
      ensures View() == Touched(old(View()), peer, now, idle)
      ensures sent == IsLivePeer(old(View()), peer, now, idle)
    {
      if peer in flows {
        var f := flows[peer];
        if Live(f, now, idle) {
          flows := flows[peer := f.(lastActive := now.mono, dgramId := (f.dgramId + 1) % 0x1_0000)];
          return true;
        }
      }
      flows := flows - {peer};
      return false;
    }

    // The cached connection was lost: its flows are retired.
    method RetireQuic()
      modifies this
      ensures View() == PrunedAll(old(View()), QuicPeers(old(View())))
    {
      var peers := set p | p in flows && flows[p].carrier.Quic?;
      PruneEach(peers);
    }

    method OpenQuic(peer: Peer, sid: U32, ttl: int, now: Clock)
      modifies this
      ensures View() == OpenedQuic(old(View()), peer, sid, ttl, now)
    {
      PruneFlow(peer);
      sids := sids[sid := peer];
      var expiresAt := now.unix + ttl - 2;
      flows := flows[peer := Flow(Quic(sid), 1, expiresAt, now.mono)];
    }

    method OpenRaw(peer: Peer, ttl: int, now: Clock)
      modifies this
      ensures View() == OpenedRaw(old(View()), peer, ttl, now)
    {
      var expiresAt := now.unix + ttl - 2;
      PruneFlow(peer);
      flows := flows[peer := Flow(Raw, 0, expiresAt, now.mono)];
    }

    method Sweep(now: Clock)
      modifies this
      ensures View() == PrunedAll(old(View()), Due(old(View()), now, idle))
    {
      var due := set p | p in flows && !Live(flows[p], now, idle);
      PruneEach(due);
    }

    // The raw carrier's pump saw a DENY.
    method OnRawDeny(peer: Peer)
      modifies this`flows
      ensures View() == old(View()).(flows := old(flows) - {peer})
    {
      flows := flows - {peer};
    }

    // One frame read from the connection. The reassembler is rebuilt around the session's
    // slots for the call.
    method OnFrame(f: Frame, at: nat) returns (out: Option<(Peer, seq<Byte>)>, ghost v1: U16, ghost v2: U16)
      modifies this
      ensures (View(), out) == Delivered(old(View()), f, at, v1, v2)
    {
      out, v1, v2 := None, 0, 0;
      if f.totalLen == 0 {
        if f.sessionId in sids {
          var peer := sids[f.sessionId];
          sids := sids - {f.sessionId};
          flows := flows - {peer};
          reasms := reasms - {f.sessionId};
        }
        return;
      }
      if f.sessionId !in sids { return; }
      var peer := sids[f.sessionId];
      var reasm := new Reassembler(16, 256 * 1024);
      if f.sessionId in reasms {
        reasm.slots := reasms[f.sessionId];
      }
      var outcome;
      outcome, v1, v2 := reasm.Accept(f, at);
      reasms := reasms[f.sessionId := reasm.slots];
      if outcome.Complete? {
        out := Some((peer, outcome.data));
      }
    }
  }

  lemma PruneNone(t: Tables)
    ensures PrunedAll(t, {}) == t
  {
    assert SidsOf(t.flows, {}) == {};
  }

  lemma PruneOneMore(t: Tables, done: set<Peer>, p: Peer)
    requires p in t.flows && p !in done
    ensures Pruned(PrunedAll(t, done), p) == PrunedAll(t, done + {p})
  {
    var c := t.flows[p].carrier;
    assert SidsOf(t.flows, done + {p}) == SidsOf(t.flows, done) + (if c.Quic? then {c.sid} else {});
  }
}
