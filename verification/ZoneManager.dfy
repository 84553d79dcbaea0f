// The zone manager's refresh of the name map and the forwarders (client/src/lib.rs) and the
// responder's lookup (client/src/dns.rs).
module ZoneManager {
  import opened Prelude
  import opened DnsResponder

  datatype Zone = Zone(fqdn: string, ip: string, ports: seq<U16>)

  datatype Fetch = Fetched(entries: seq<Zone>) | Denied | Failed

  datatype Endpoint = Endpoint(ip: string, port: U16)

  // Where a forwarder sends its connections.
  datatype Target = Target(fqdn: string, port: U16)

  // ---------- what a refresh should publish ----------

  // The last entry of each lower-case name.
  function Published(entries: seq<Zone>): map<string, string> {
    if entries == [] then map[]
    else
      var last := entries[|entries| - 1];
      Published(entries[..|entries| - 1])[AsciiLower(last.fqdn) := last.ip]
  }

  function WithPorts(want: map<Endpoint, Target>, z: Zone, k: nat): map<Endpoint, Target>
    requires k <= |z.ports|
  {
    if k == 0 then want else WithPorts(want, z, k - 1)[Endpoint(z.ip, z.ports[k - 1]) := Target(z.fqdn, z.ports[k - 1])]
  }

  function Wanted(entries: seq<Zone>): map<Endpoint, Target> {
    if entries == [] then map[]
    else
      var last := entries[|entries| - 1];
      WithPorts(Wanted(entries[..|entries| - 1]), last, |last.ports|)
  }

  // Forwarders no longer wanted stop; wanted ones that are missing start if they can bind; one
  // that is running is left as it is.
  function Forwarders(live: map<Endpoint, Target>, want: map<Endpoint, Target>, binds: Endpoint -> bool)
    : map<Endpoint, Target>
  {
    map e | e in want && (e in live || binds(e)) :: if e in live then live[e] else want[e]
  }

  // The state of the forwarders with the ones in `todo` not tried yet.
  ghost predicate Partly(now: map<Endpoint, Target>, before: map<Endpoint, Target>, want: map<Endpoint, Target>,
                         binds: Endpoint -> bool, todo: set<Endpoint>)
  {
    (forall e :: e in now <==> e in want && (e in before || (e !in todo && binds(e)))) &&
    (forall e :: e in now ==> now[e] == if e in before then before[e] else want[e])
  }

  lemma Kept(before: map<Endpoint, Target>, want: map<Endpoint, Target>, binds: Endpoint -> bool,
             removed: set<Endpoint>, todo: set<Endpoint>)
    requires removed == set e | e in before && e !in want
    requires todo == want.Keys - before.Keys
    ensures Partly(before - removed, before, want, binds, todo)
  {
  }

  lemma Started(now: map<Endpoint, Target>, before: map<Endpoint, Target>, want: map<Endpoint, Target>,
                binds: Endpoint -> bool, todo: set<Endpoint>, e: Endpoint)
    requires Partly(now, before, want, binds, todo) && e in todo && todo <= want.Keys - before.Keys
    ensures Partly(if binds(e) then now[e := want[e]] else now, before, want, binds, todo - {e})
  {
  }

  lemma AllStarted(now: map<Endpoint, Target>, before: map<Endpoint, Target>, want: map<Endpoint, Target>,
                   binds: Endpoint -> bool)
    requires Partly(now, before, want, binds, {})
    ensures now == Forwarders(before, want, binds)
  {
  }

  function Answer(zones: map<string, string>, synced: bool, pkt: seq<Byte>, lossy: seq<Byte> -> string)
    : Option<seq<Byte>>
  {
    match Parse(pkt, lossy)
    case None => None
    case Some(q) => Some(Reply(q, if q.name in zones then Some(zones[q.name]) else None, synced))
  }

  // ---------- the shared table ----------

  class ZoneTable {
    var zones: map<string, string>
    var synced: bool
    var live: map<Endpoint, Target>

    constructor ()
      ensures zones == map[] && !synced && live == map[]
    {
      zones, synced, live := map[], false, map[];
    }

    method Replace(entries: seq<Zone>)
      modifies this`zones
      ensures zones == Published(entries)
    {
      zones := map[];
      for i := 0 to |entries|
        invariant zones == Published(entries[..i])
      {
        zones := zones[AsciiLower(entries[i].fqdn) := entries[i].ip];
        assert entries[..i + 1][..i] == entries[..i];
      }
      assert entries[..|entries|] == entries;
    }

    method CollectWanted(entries: seq<Zone>) returns (want: map<Endpoint, Target>)
      ensures want == Wanted(entries)
    {
      want := map[];
      for i := 0 to |entries|
        invariant want == Wanted(entries[..i])
      {
        var z := entries[i];
        for k := 0 to |z.ports|
          invariant want == WithPorts(Wanted(entries[..i]), z, k)
        {
          want := want[Endpoint(z.ip, z.ports[k]) := Target(z.fqdn, z.ports[k])];
        }
        assert entries[..i + 1][..i] == entries[..i];
      }
      assert entries[..|entries|] == entries;
    }

    // `binds` says which endpoints the listener can bind.
    method AdjustForwarders(want: map<Endpoint, Target>, binds: Endpoint -> bool)
      modifies this`live
      ensures live == Forwarders(old(live), want, binds)
    {
      hide Partly;
      var removed := set e | e in live && e !in want;
      var todo := want.Keys - live.Keys;
      ghost var before := live;
      live := live - removed;
      Kept(before, want, binds, removed, todo);
      while todo != {}
        invariant todo <= want.Keys - before.Keys
        invariant Partly(live, before, want, binds, todo)
        decreases |todo|
      {
        var e :| e in todo;
        Started(live, before, want, binds, todo, e);
        if binds(e) {
          live := live[e := want[e]];
        }
        todo := todo - {e};
      }
      AllStarted(live, before, want, binds);
    }

    // One round of the loop; the result is what the split-DNS reconciler is ticked with.
    method Refresh(fetch: Fetch, binds: Endpoint -> bool) returns (names: set<string>, healthy: bool)
      modifies this
      ensures fetch.Fetched? ==>
                zones == Published(fetch.entries) && synced &&
                live == Forwarders(old(live), Wanted(fetch.entries), binds)
      ensures fetch.Denied? ==> zones == map[] && synced && live == map[]
      ensures fetch.Failed? ==> zones == old(zones) && synced == old(synced) && live == old(live)
      ensures names == zones.Keys && healthy == !fetch.Failed?
    {
      match fetch {
        case Fetched(entries) =>
          var want := CollectWanted(entries);
          AdjustForwarders(want, binds);
          Replace(entries);
          synced := true;
          PublishedKeys(entries);
          names := set z | z in entries :: AsciiLower(z.fqdn);
          healthy := true;
        case Denied =>
          live := map[];
          zones := map[];
          synced := true;
          names, healthy := {}, true;
        case Failed =>
          names, healthy := zones.Keys, false;
      }
    }

    method Cancel()
      modifies this
      ensures zones == map[] && live == map[] && synced == old(synced)
    {
      live := map[];
      zones := map[];
    }

    // The flag is read before the map.
    method AnswerWire(pkt: seq<Byte>, lossy: seq<Byte> -> string) returns (r: Option<seq<Byte>>)
      ensures r == Answer(zones, synced, pkt, lossy)
    {
      var q := ParseQuery(pkt, lossy);
      if q.None? { return None; }
      var isSynced := synced;
      var ip := if q.value.name in zones then Some(zones[q.value.name]) else None;
      var reply := BuildReply(q.value, ip, isSynced);
      return Some(reply);
    }
  }

  // ---------- laws ----------

  lemma {:induction false} PublishedKeys(entries: seq<Zone>)
    ensures Published(entries).Keys == set z | z in entries :: AsciiLower(z.fqdn)
  {
    if entries != [] {
      var n := |entries| - 1;
      PublishedKeys(entries[..n]);
      assert entries == entries[..n] + [entries[n]];
    }
  }

  // A name maps to the address of the last entry that spells it, in any case.
  lemma {:induction false} LastEntryWins(entries: seq<Zone>, i: nat)
    requires i < |entries|
    requires forall j :: i < j < |entries| ==> AsciiLower(entries[j].fqdn) != AsciiLower(entries[i].fqdn)
    ensures AsciiLower(entries[i].fqdn) in Published(entries)
    ensures Published(entries)[AsciiLower(entries[i].fqdn)] == entries[i].ip
  {
    var n := |entries| - 1;
    if i < n {
      assert entries[..n][i] == entries[i];
      LastEntryWins(entries[..n], i);
    }
  }

  // An entry that lists an endpoint's address and port.
  predicate Lists(z: Zone, e: Endpoint) { z.ip == e.ip && e.port in z.ports }

  lemma {:induction false} WithPortsAt(want: map<Endpoint, Target>, z: Zone, k: nat, e: Endpoint)
    requires k <= |z.ports|
    ensures var w := WithPorts(want, z, k);
      if z.ip == e.ip && e.port in z.ports[..k] then e in w && w[e] == Target(z.fqdn, e.port)
      else (e in w <==> e in want) && (e in w ==> w[e] == want[e])
  {
    if k > 0 {
      WithPortsAt(want, z, k - 1, e);
      assert z.ports[..k] == z.ports[..k - 1] + [z.ports[k - 1]];
    }
  }

  // A forwarder is wanted for exactly the listed endpoints, and sends to the name and port of the
  // last entry that lists it.
  lemma {:induction false} WantedIff(entries: seq<Zone>, e: Endpoint)
    ensures e in Wanted(entries) <==> exists i :: 0 <= i < |entries| && Lists(entries[i], e)
    ensures forall i :: 0 <= i < |entries| && Lists(entries[i], e) &&
                        (forall j :: i < j < |entries| ==> !Lists(entries[j], e)) ==>
              e in Wanted(entries) && Wanted(entries)[e] == Target(entries[i].fqdn, e.port)
  {
    hide WithPorts;
    if entries != [] {
      var front, last := entries[..|entries| - 1], entries[|entries| - 1];
      WantedIff(front, e);
      WithPortsAt(Wanted(front), last, |last.ports|, e);
      assert last.ports[..|last.ports|] == last.ports;
      assert forall i :: 0 <= i < |front| ==> entries[i] == front[i];
      if Lists(last, e) {
        assert Lists(entries[|entries| - 1], e);
      }
    }
  }

  // The running forwarders send where the zones say exactly if no forwarder kept running had
  // another target before: an endpoint handed to another name keeps its old target.
  lemma ForwardersFollowIff(live: map<Endpoint, Target>, want: map<Endpoint, Target>, binds: Endpoint -> bool)
    ensures var now := Forwarders(live, want, binds);
      now.Keys <= want.Keys &&
      ((forall e :: e in now ==> now[e] == want[e]) <==> (forall e :: e in live && e in want ==> live[e] == want[e]))
  {
    var now := Forwarders(live, want, binds);
    forall e | e in live && e in want
      ensures e in now && now[e] == live[e]
    {
    }
  }

  // ---------- runs of refreshes ----------

  datatype Round = Round(fetch: Fetch, binds: Endpoint -> bool)

  // The forwarders running and the ones wanted after k rounds.
  function Running(rounds: seq<Round>, k: nat): map<Endpoint, Target>
    requires k <= |rounds|
  {
    if k == 0 then map[]
    else
      match rounds[k - 1].fetch
      case Fetched(entries) => Forwarders(Running(rounds, k - 1), Wanted(entries), rounds[k - 1].binds)
      case Denied => map[]
      case Failed => Running(rounds, k - 1)
  }

  function Want(rounds: seq<Round>, k: nat): map<Endpoint, Target>
    requires k <= |rounds|
  {
    if k == 0 then map[]
    else
      match rounds[k - 1].fetch
      case Fetched(entries) => Wanted(entries)
      case Denied => map[]
      case Failed => Want(rounds, k - 1)
  }

  ghost predicate Follows(rounds: seq<Round>, k: nat)
    requires k <= |rounds|
  {
    forall e :: e in Running(rounds, k) ==> e in Want(rounds, k) && Running(rounds, k)[e] == Want(rounds, k)[e]
  }

  ghost predicate AlwaysFollows(rounds: seq<Round>, k: nat)
    requires k <= |rounds|
  {
    Follows(rounds, k) && (k > 0 ==> AlwaysFollows(rounds, k - 1))
  }

  // A round that hands a running endpoint to another target.
  ghost predicate Moves(rounds: seq<Round>, k: nat)
    requires 0 < k <= |rounds|
  {
    exists e :: e in Running(rounds, k - 1) && e in Want(rounds, k - 1) && e in Want(rounds, k) &&
                Want(rounds, k - 1)[e] != Want(rounds, k)[e]
  }

  ghost predicate NeverMoves(rounds: seq<Round>, k: nat)
    requires k <= |rounds|
  {
    k > 0 ==> !Moves(rounds, k) && NeverMoves(rounds, k - 1)
  }

  lemma RoundFollowsIff(rounds: seq<Round>, k: nat)
    requires 0 < k <= |rounds| && Follows(rounds, k - 1)
    ensures Follows(rounds, k) <==> !Moves(rounds, k)
  {
    hide Wanted, Forwarders;
    var live, was, want := Running(rounds, k - 1), Want(rounds, k - 1), Want(rounds, k);
    if rounds[k - 1].fetch.Fetched? {
      ForwardersFollowIff(live, want, rounds[k - 1].binds);
      assert Follows(rounds, k) <==> forall e :: e in live && e in want ==> live[e] == want[e];
      if e :| e in live && e in want && live[e] != want[e] {
        assert e in was && was[e] != want[e];
      }
      if e :| e in live && e in was && e in want && was[e] != want[e] {
        assert live[e] != want[e];
      }
    }
  }

  // Over every run of refreshes the running forwarders send where the zones say at all times if
  // and only if no refresh hands an endpoint that is running to another name.
  lemma {:induction false} AlwaysFollowsIff(rounds: seq<Round>, k: nat)
    requires k <= |rounds|
    ensures AlwaysFollows(rounds, k) <==> NeverMoves(rounds, k)
  {
    hide Follows, Moves;
    if k > 0 {
      AlwaysFollowsIff(rounds, k - 1);
      if AlwaysFollows(rounds, k - 1) {
        FollowsNow(rounds, k - 1);
        RoundFollowsIff(rounds, k);
      }
    } else {
      NothingRuns(rounds);
    }
  }

  lemma FollowsNow(rounds: seq<Round>, k: nat)
    requires k <= |rounds| && AlwaysFollows(rounds, k)
    ensures Follows(rounds, k)
  {
  }

  lemma NothingRuns(rounds: seq<Round>)
    ensures Follows(rounds, 0)
  {
  }

  // Running in every round from j to k.
  ghost predicate RunsThrough(rounds: seq<Round>, j: nat, k: nat, e: Endpoint)
    requires j <= k <= |rounds|
    decreases k
  {
    e in Running(rounds, k) && (j < k ==> RunsThrough(rounds, j, k - 1, e))
  }

  // Round i does not end a forwarder for `e`: a fetch that lists it, or a failed one.
  predicate Keeps(r: Round, e: Endpoint) { r.fetch.Failed? || (r.fetch.Fetched? && e in Wanted(r.fetch.entries)) }

  // Started in round j, kept in every round from there to k.
  ghost predicate StartedAndKept(rounds: seq<Round>, j: int, k: nat, e: Endpoint)
    requires k <= |rounds|
  {
    0 < j <= k && rounds[j - 1].fetch.Fetched? && rounds[j - 1].binds(e) &&
    forall i :: j - 1 <= i < k ==> Keeps(rounds[i], e)
  }

  // A forwarder runs after a round exactly if in some round it was listed and could bind, and in
  // no round since then was it left out or everything denied.
  lemma {:induction false} RunsIff(rounds: seq<Round>, k: nat, e: Endpoint)
    requires k <= |rounds|
    ensures e in Running(rounds, k) <==> exists j :: StartedAndKept(rounds, j, k, e)
  {
    hide Wanted;
    if k > 0 {
      var r := rounds[k - 1];
      RunsIff(rounds, k - 1, e);
      if e in Running(rounds, k) {
        if e in Running(rounds, k - 1) {
          var j :| StartedAndKept(rounds, j, k - 1, e);
          assert StartedAndKept(rounds, j, k, e);
        } else {
          assert StartedAndKept(rounds, k, k, e);
        }
      }
      if j :| StartedAndKept(rounds, j, k, e) {
        assert Keeps(rounds[k - 1], e);
        assert j < k ==> StartedAndKept(rounds, j, k - 1, e);
      }
    }
  }

  // A forwarder sends, for as long as it runs, where the zones said when it was started.
  lemma {:induction false} KeepsFirstTarget(rounds: seq<Round>, j: nat, k: nat, e: Endpoint)
    requires 0 < j <= k <= |rounds| && e !in Running(rounds, j - 1) && RunsThrough(rounds, j, k, e)
    ensures e in Want(rounds, j) && Running(rounds, k)[e] == Want(rounds, j)[e]
    decreases k
  {
    hide Wanted;
    if j < k {
      KeepsFirstTarget(rounds, j, k - 1, e);
    }
  }
}
