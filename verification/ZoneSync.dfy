// Zone refreshes and DNS queries interleaved (client/src/lib.rs, client/src/dns.rs). The map
// is replaced entry by entry under a write lock; a query loads the flag, then reads the map
// when no writer holds it.
module ZoneSync {
  import opened Prelude
  import opened DnsResponder
  import opened ZoneManager
  import DnsLaws

  // The two orders the code relies on. The code has both.
  datatype Order = Order(flagBeforeMap: bool, storeAfterReplace: bool)

  datatype Manager =
    | Idle
    | Waiting(entries: seq<Zone>, definitive: bool)
    | Filling(entries: seq<Zone>, done: nat, definitive: bool)
    | Storing
    | Stopped

  // `since` and `from` index the list of published maps: the newest when the query arrived and
  // the one its answer was read from.
  datatype Query = Query(q: Question, since: nat, flag: Option<bool>, looked: Option<(Option<string>, nat)>)

  datatype Sent = Sent(q: Question, since: nat, flag: bool, ip: Option<string>, from: nat)

  datatype State = State(
    zones: map<string, string>,
    synced: bool,
    manager: Manager,
    queries: map<nat, Query>,
    sent: seq<Sent>,
    published: seq<map<string, string>>,   // every map that was whole, oldest first
    first: Option<nat>)                    // the first of them from an Ok or Denied refresh

  datatype Event =
    | Begin(fetch: Fetch)   // a fetch came back
    | Cancelled             // the session ends: the map is cleared, the flag left alone
    | Lock
    | Insert
    | Release
    | Store
    | Arrive(task: nat, question: Question)
    | LoadFlag(task: nat)
    | ReadMap(task: nat)
    | Send(task: nat)

  const BOOT := State(map[], false, Idle, map[], [], [map[]], None)

  function Lookup(m: map<string, string>, name: string): Option<string> {
    if name in m then Some(m[name]) else None
  }

  function Newest(s: State): nat { if s.published == [] then 0 else |s.published| - 1 }

  // Steps that are not enabled change nothing.
  function Step(o: Order, s: State, e: Event): State {
    match e
    case Begin(fetch) =>
      if !s.manager.Idle? || fetch.Failed? then s
      else
        var entries := if fetch.Fetched? then fetch.entries else [];
        s.(manager := Waiting(entries, true), synced := if o.storeAfterReplace then s.synced else true)
    case Cancelled => if s.manager.Idle? then s.(manager := Waiting([], false)) else s
    case Lock =>
      if s.manager.Waiting? then
        s.(manager := Filling(s.manager.entries, 0, s.manager.definitive), zones := map[])
      else s
    case Insert =>
      if s.manager.Filling? && s.manager.done < |s.manager.entries| then
        var z := s.manager.entries[s.manager.done];
        s.(zones := s.zones[AsciiLower(z.fqdn) := z.ip], manager := s.manager.(done := s.manager.done + 1))
      else s
    case Release =>
      if s.manager.Filling? && s.manager.done == |s.manager.entries| then
        s.(published := s.published + [s.zones],
           manager := if !s.manager.definitive then Stopped else if o.storeAfterReplace then Storing else Idle,
           first := if s.manager.definitive && s.first.None? then Some(|s.published|) else s.first)
      else s
    case Store => if s.manager.Storing? then s.(synced := true, manager := Idle) else s
    case Arrive(t, question) => s.(queries := s.queries[t := Query(question, Newest(s), None, None)])
    case LoadFlag(t) =>
      if t in s.queries && s.queries[t].flag.None? && (o.flagBeforeMap || s.queries[t].looked.Some?) then
        s.(queries := s.queries[t := s.queries[t].(flag := Some(s.synced))])
      else s
    case ReadMap(t) =>
      if t in s.queries && s.queries[t].looked.None? && !s.manager.Filling? &&
         (!o.flagBeforeMap || s.queries[t].flag.Some?) then
        s.(queries := s.queries[t := s.queries[t].(looked := Some((Lookup(s.zones, s.queries[t].q.name), Newest(s))))])
      else s
    case Send(t) =>
      if t in s.queries && s.queries[t].flag.Some? && s.queries[t].looked.Some? then
        var w := s.queries[t];
        s.(queries := s.queries - {t},
           sent := s.sent + [Sent(w.q, w.since, w.flag.value, w.looked.value.0, w.looked.value.1)])
      else s
  }

  function Run(o: Order, s: State, events: seq<Event>): State
    decreases |events|
  {
    if events == [] then s else Run(o, Step(o, s, events[0]), events[1..])
  }

  // ---------- the invariant ----------

  predicate FromFirst(s: State, from: nat) { s.first.Some? && from >= s.first.value }

  // The answer was read from one whole published map, no older than the query.
  predicate FromWhole(s: State, name: string, ip: Option<string>, since: nat, from: nat) {
    since <= from < |s.published| && ip == Lookup(s.published[from], name)
  }

  predicate QueryOk(s: State, w: Query) {
    w.since < |s.published| &&
    (w.looked.Some? ==> FromWhole(s, w.q.name, w.looked.value.0, w.since, w.looked.value.1))
  }

  // Under the code's order a map read after a set flag is a definitive one.
  predicate Fresh(s: State, w: Query) {
    (w.flag == Some(true) ==> s.first.Some?) &&
    (w.looked.Some? ==> w.flag.Some?) &&
    (w.flag == Some(true) && w.looked.Some? ==> FromFirst(s, w.looked.value.1))
  }

  predicate SentWhole(s: State, m: Sent) { FromWhole(s, m.q.name, m.ip, m.since, m.from) }

  ghost predicate Inv(s: State) {
    s.published != [] &&
    (!s.manager.Filling? ==> s.zones == s.published[|s.published| - 1]) &&
    (s.manager.Filling? ==>
       s.manager.done <= |s.manager.entries| && s.zones == Published(s.manager.entries[..s.manager.done])) &&
    (s.first.Some? ==> s.first.value < |s.published|) &&
    (forall t :: t in s.queries ==> QueryOk(s, s.queries[t])) &&
    (forall i :: 0 <= i < |s.sent| ==> SentWhole(s, s.sent[i]))
  }

  // What the two orders add.
  ghost predicate Ordered(s: State) {
    (s.synced || s.manager.Storing? ==> s.first.Some?) &&
    (forall t :: t in s.queries ==> Fresh(s, s.queries[t])) &&
    (forall i :: 0 <= i < |s.sent| ==> s.sent[i].flag ==> FromFirst(s, s.sent[i].from))
  }

  // Queries and answers stay good while maps are added.
  lemma Later(s: State, s': State)
    requires s.published <= s'.published
    requires forall t :: t in s.queries ==> QueryOk(s, s.queries[t])
    requires forall i :: 0 <= i < |s.sent| ==> SentWhole(s, s.sent[i])
    ensures forall t :: t in s.queries ==> QueryOk(s', s.queries[t])
    ensures forall i :: 0 <= i < |s.sent| ==> SentWhole(s', s.sent[i])
  {
  }

  lemma ManagerKeepsInv(o: Order, s: State, e: Event)
    requires Inv(s)
    requires e.Begin? || e.Cancelled? || e.Lock? || e.Insert? || e.Release? || e.Store?
    ensures Inv(Step(o, s, e))
  {
    hide QueryOk, SentWhole, Lookup;
    var s' := Step(o, s, e);
    Later(s, s');
    if e.Insert? && s.manager.Filling? && s.manager.done < |s.manager.entries| {
      var all := s.manager.entries;
      var n := s.manager.done;
      assert all[..n + 1][..n] == all[..n];
      assert all[..n + 1][n] == all[n];
    }
  }

  lemma QueryKeepsInv(o: Order, s: State, e: Event)
    requires Inv(s)
    requires e.Arrive? || e.LoadFlag? || e.ReadMap? || e.Send?
    ensures Inv(Step(o, s, e))
  {
    hide Published, Lookup;
    var s' := Step(o, s, e);
    Later(s, s');
  }

  lemma ManagerKeepsOrder(s: State, e: Event)
    requires Inv(s) && Ordered(s)
    requires e.Begin? || e.Cancelled? || e.Lock? || e.Insert? || e.Release? || e.Store?
    ensures Ordered(Step(Order(true, true), s, e))
  {
    hide Published, Lookup, QueryOk, SentWhole;
  }

  lemma QueryKeepsOrder(s: State, e: Event)
    requires Inv(s) && Ordered(s)
    requires e.Arrive? || e.LoadFlag? || e.ReadMap? || e.Send?
    ensures Ordered(Step(Order(true, true), s, e))
  {
    hide Published, Lookup, QueryOk, SentWhole;
  }

  lemma {:induction false} RunKeepsInv(o: Order, s: State, events: seq<Event>)
    requires Inv(s)
    ensures Inv(Run(o, s, events))
    ensures o == Order(true, true) && Ordered(s) ==> Ordered(Run(o, s, events))
    decreases |events|
  {
    hide Step, Inv, Ordered;
    if events != [] {
      var e := events[0];
      if e.Arrive? || e.LoadFlag? || e.ReadMap? || e.Send? {
        QueryKeepsInv(o, s, e);
      } else {
        ManagerKeepsInv(o, s, e);
      }
      if o == Order(true, true) && Ordered(s) {
        if e.Arrive? || e.LoadFlag? || e.ReadMap? || e.Send? {
          QueryKeepsOrder(s, e);
        } else {
          ManagerKeepsOrder(s, e);
        }
      }
      RunKeepsInv(o, Step(o, s, e), events[1..]);
    }
  }

  // ---------- the properties ----------

  // In every interleaving, and whatever the order, each answer is read from one whole map no
  // older than the query: never from a half-replaced one, and after a denial never from a map
  // that still held the names.
  lemma AnswersAreWhole(o: Order, events: seq<Event>, i: nat)
    ensures var s := Run(o, BOOT, events);
      i < |s.sent| ==> FromWhole(s, s.sent[i].q.name, s.sent[i].ip, s.sent[i].since, s.sent[i].from)
  {
    hide Run, Step;
    RunKeepsInv(o, BOOT, events);
  }

  // The maps published so far and the one being prepared.
  function Maps(s: State): seq<map<string, string>> {
    s.published + if s.manager.Waiting? || s.manager.Filling? then [Published(s.manager.entries)] else []
  }

  // What a refresh asks to be published: the last entry of each name after a fetch, nothing after a
  // denial or at the session's end.
  function Asks(s: State, e: Event): seq<map<string, string>> {
    if !s.manager.Idle? then []
    else
      match e
      case Begin(Fetched(entries)) => [Published(entries)]
      case Begin(Denied) => [map[]]
      case Cancelled => [map[]]
      case _ => []
  }

  function AllAsked(o: Order, s: State, events: seq<Event>): seq<map<string, string>>
    decreases |events|
  {
    if events == [] then [] else Asks(s, events[0]) + AllAsked(o, Step(o, s, events[0]), events[1..])
  }

  lemma MapsStep(o: Order, s: State, e: Event)
    requires Inv(s)
    ensures Maps(Step(o, s, e)) == Maps(s) + Asks(s, e)
  {
    hide Published, Lookup, QueryOk, SentWhole;
    NothingPublished();
    if e.Release? && s.manager.Filling? && s.manager.done == |s.manager.entries| {
      assert s.manager.entries[..s.manager.done] == s.manager.entries;
    }
  }

  lemma NothingPublished()
    ensures Published([]) == map[]
  {
  }

  // In every interleaving the maps published, and the one under way, are exactly what the refreshes
  // asked for, in their order.
  lemma {:induction false} PublishedAsAsked(o: Order, s: State, events: seq<Event>)
    requires Inv(s)
    ensures Maps(Run(o, s, events)) == Maps(s) + AllAsked(o, s, events)
    decreases |events|
  {
    hide Step, Inv, Maps, Asks;
    if events != [] {
      var e := events[0];
      MapsStep(o, s, e);
      if e.Arrive? || e.LoadFlag? || e.ReadMap? || e.Send? {
        QueryKeepsInv(o, s, e);
      } else {
        ManagerKeepsInv(o, s, e);
      }
      PublishedAsAsked(o, Step(o, s, e), events[1..]);
      Regroup(Maps(s), Asks(s, e), AllAsked(o, Step(o, s, e), events[1..]));
    }
  }

  function Inserts(n: nat): seq<Event> { seq(n, i => Insert) }

  lemma {:induction false} InsertsRun(o: Order, s: State, n: nat)
    requires s.manager.Filling? && s.manager.done + n == |s.manager.entries|
    requires s.zones == Published(s.manager.entries[..s.manager.done])
    ensures Run(o, s, Inserts(n)) ==
            s.(zones := Published(s.manager.entries), manager := s.manager.(done := |s.manager.entries|))
    decreases n
  {
    hide Published;
    var all, k := s.manager.entries, s.manager.done;
    if n == 0 {
      assert all[..k] == all && Inserts(0) == [];
    } else {
      assert Inserts(n)[0] == Insert && Inserts(n)[1..] == Inserts(n - 1);
      PublishedNext(all, k);
      InsertsRun(o, Step(o, s, Insert), n - 1);
    }
  }

  lemma PublishedNext(all: seq<Zone>, k: nat)
    requires k < |all|
    ensures Published(all[..k + 1]) == Published(all[..k])[AsciiLower(all[k].fqdn) := all[k].ip]
  {
    assert all[..k + 1][..k] == all[..k] && all[..k + 1][k] == all[k];
  }

  // A refresh that nothing comes between leaves the map and the flag as the zone manager's does: a
  // fetch its entries and the flag, a denial no entry and the flag.
  lemma UndisturbedRefresh(s: State, fetch: Fetch)
    requires s.manager.Idle? && !fetch.Failed?
    ensures var entries := if fetch.Fetched? then fetch.entries else [];
      var t := Run(Order(true, true), s, [Begin(fetch), Lock] + Inserts(|entries|) + [Release, Store]);
      t.zones == Published(entries) && t.synced && t.manager.Idle?
  {
    hide Published, Run;
    var o := Order(true, true);
    var entries := if fetch.Fetched? then fetch.entries else [];
    var before, after := [Begin(fetch), Lock], [Release, Store];
    TwoSteps(o, s, before);
    var s2 := Step(o, Step(o, s, Begin(fetch)), Lock);
    NothingPublished();
    assert entries[..0] == [];
    InsertsRun(o, s2, |entries|);
    RunConcat(o, s, before, Inserts(|entries|));
    RunConcat(o, s, before + Inserts(|entries|), after);
    TwoSteps(o, Run(o, s2, Inserts(|entries|)), after);
  }

  // The session's end clears the map, leaves the flag alone and ends the refreshes; a failed fetch
  // changes nothing.
  lemma UndisturbedEnd(o: Order, s: State)
    requires s.manager.Idle?
    ensures var t := Run(o, s, [Cancelled, Lock, Release]);
      t.zones == map[] && t.synced == s.synced && t.manager.Stopped?
    ensures Step(o, s, Begin(Failed)) == s
  {
    ThreeSteps(o, s, [Cancelled, Lock, Release]);
  }

  // A reply of the code that is not SERVFAIL is read from a map no older than the first Ok or
  // Denied refresh.
  ghost predicate Definitive(s: State) {
    forall i :: 0 <= i < |s.sent| && Reply(s.sent[i].q, s.sent[i].ip, s.sent[i].flag)[3] != SERVFAIL ==>
      FromFirst(s, s.sent[i].from)
  }

  lemma CodeIsDefinitive(events: seq<Event>)
    ensures Definitive(Run(Order(true, true), BOOT, events))
  {
    hide Run, Step, Reply;
    RunKeepsInv(Order(true, true), BOOT, events);
    var s := Run(Order(true, true), BOOT, events);
    forall i | 0 <= i < |s.sent| {
      DnsLaws.ResponseCode(s.sent[i].q, s.sent[i].ip, s.sent[i].flag);
    }
  }

  const ROOT_QUESTION := Question(0, false, [0], "", 1, 1)

  lemma Indefinite(s: State, i: nat)
    requires i < |s.sent| && s.sent[i].flag && !FromFirst(s, s.sent[i].from)
    ensures !Definitive(s)
  {
    hide Reply;
    DnsLaws.ResponseCode(s.sent[i].q, s.sent[i].ip, s.sent[i].flag);
  }

  // The flag stored first: an answer from the boot map, before any refresh is through.
  const STORED_EARLY :=
    State(map[], true, Waiting([], true), map[0 := Query(ROOT_QUESTION, 0, None, None)], [], [map[]], None)

  lemma EarlyStore(o: Order)
    requires !o.storeAfterReplace
    ensures exists events :: !Definitive(Run(o, BOOT, events))
  {
    hide Definitive, Run;
    var e2 := if o.flagBeforeMap then LoadFlag(0) else ReadMap(0);
    var e3 := if o.flagBeforeMap then ReadMap(0) else LoadFlag(0);
    var before, after := [Begin(Denied), Arrive(0, ROOT_QUESTION)], [e2, e3, Send(0)];
    var s0 := Step(o, BOOT, Begin(Denied));
    assert Step(o, s0, Arrive(0, ROOT_QUESTION)) == STORED_EARLY;
    TwoSteps(o, BOOT, before);
    ThreeSteps(o, STORED_EARLY, after);
    RunConcat(o, BOOT, before, after);
    Answered(o, e2, e3);
  }

  lemma Answered(o: Order, e2: Event, e3: Event)
    requires !o.storeAfterReplace
    requires if o.flagBeforeMap then e2 == LoadFlag(0) && e3 == ReadMap(0) else e2 == ReadMap(0) && e3 == LoadFlag(0)
    ensures !Definitive(Step(o, Step(o, Step(o, STORED_EARLY, e2), e3), Send(0)))
  {
    hide Definitive;
    var s4 := Step(o, Step(o, Step(o, STORED_EARLY, e2), e3), Send(0));
    assert s4.sent == [Sent(ROOT_QUESTION, 0, true, None, 0)] && s4.first.None?;
    Indefinite(s4, 0);
  }

  // The boot map is read for a query, and then a denial replaces it; the flag is not stored yet.
  const EARLY_QUERY := Query(ROOT_QUESTION, 0, None, Some((None, 0)))
  const READ_EARLY := State(map[], false, Storing, map[0 := EARLY_QUERY], [], [map[], map[]], Some(1))

  lemma ReadBoot(o: Order)
    requires !o.flagBeforeMap && o.storeAfterReplace
    ensures Run(o, BOOT, [Arrive(0, ROOT_QUESTION), ReadMap(0), Begin(Denied), Lock, Release]) == READ_EARLY
  {
    hide Run;
    var s0 := Step(o, BOOT, Arrive(0, ROOT_QUESTION));
    var s1 := Step(o, s0, ReadMap(0));
    assert s1 == State(map[], false, Idle, map[0 := EARLY_QUERY], [], [map[]], None);
    var s2 := Step(o, s1, Begin(Denied));
    var s3 := Step(o, s2, Lock);
    var s4 := Step(o, s3, Release);
    assert s4 == READ_EARLY;
    FiveSteps(o, BOOT, [Arrive(0, ROOT_QUESTION), ReadMap(0), Begin(Denied), Lock, Release]);
  }

  // The map read first: the name is looked up in the boot map, then the flag is found set.
  lemma EarlyRead(o: Order)
    requires !o.flagBeforeMap && o.storeAfterReplace
    ensures exists events :: !Definitive(Run(o, BOOT, events))
  {
    hide Definitive, Run;
    var before := [Arrive(0, ROOT_QUESTION), ReadMap(0), Begin(Denied), Lock, Release];
    var after := [Store, LoadFlag(0), Send(0)];
    ReadBoot(o);
    var s5 := Step(o, READ_EARLY, Store);
    var s6 := Step(o, s5, LoadFlag(0));
    var s7 := Step(o, s6, Send(0));
    ThreeSteps(o, READ_EARLY, after);
    RunConcat(o, BOOT, before, after);
    assert s7.sent == [Sent(ROOT_QUESTION, 0, true, None, 0)] && s7.first == Some(1);
    Indefinite(s7, 0);
  }

  lemma TwoSteps(o: Order, s: State, e: seq<Event>)
    requires |e| == 2
    ensures Run(o, s, e) == Step(o, Step(o, s, e[0]), e[1])
  {
    hide Step;
    var a, b := Step(o, s, e[0]), Step(o, Step(o, s, e[0]), e[1]);
    assert Run(o, b, []) == b;
    assert e[1..][0] == e[1] && e[1..][1..] == [];
    assert Run(o, a, e[1..]) == b;
  }

  lemma ThreeSteps(o: Order, s: State, e: seq<Event>)
    requires |e| == 3
    ensures Run(o, s, e) == Step(o, Step(o, Step(o, s, e[0]), e[1]), e[2])
  {
    hide Step;
    TwoSteps(o, Step(o, s, e[0]), e[1..]);
  }

  lemma FiveSteps(o: Order, s: State, e: seq<Event>)
    requires |e| == 5
    ensures Run(o, s, e) == Step(o, Step(o, Step(o, Step(o, Step(o, s, e[0]), e[1]), e[2]), e[3]), e[4])
  {
    hide Step;
    assert e[1..][0] == e[1] && e[1..][1..] == e[2..];
    ThreeSteps(o, Step(o, Step(o, s, e[0]), e[1]), e[2..]);
  }

  lemma {:induction false} RunConcat(o: Order, s: State, a: seq<Event>, b: seq<Event>)
    ensures Run(o, s, a + b) == Run(o, Run(o, s, a), b)
    decreases |a|
  {
    hide Step;
    if a == [] {
      assert a + b == b;
    } else {
      assert (a + b)[0] == a[0] && (a + b)[1..] == a[1..] + b;
      RunConcat(o, Step(o, s, a[0]), a[1..], b);
    }
  }

  // Both orders are needed: every run is definitive exactly if the flag is loaded before the
  // map is read and stored after the map is replaced.
  lemma DefinitiveIff(o: Order)
    ensures (forall events :: Definitive(Run(o, BOOT, events))) <==> o.flagBeforeMap && o.storeAfterReplace
  {
    hide Run, Step, Definitive;
    if o.flagBeforeMap && o.storeAfterReplace {
      forall events
        ensures Definitive(Run(o, BOOT, events))
      {
        CodeIsDefinitive(events);
      }
    } else if !o.storeAfterReplace {
      EarlyStore(o);
    } else {
      EarlyRead(o);
    }
  }
}
