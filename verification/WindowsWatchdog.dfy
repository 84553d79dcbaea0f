// The two-layer Windows cleanup (client/src/splitdns/watchdog.rs): the scheduled task L2
// finds the session by the journalled generation, the companion L1 by the activation's.
//
// The rules are any owned rules of the NRPT; what a client tick does to them is left open,
// so what is proved here holds whatever the reconciler installs.
module WindowsWatchdog {
  import opened Prelude
  import opened Reconcile
  import opened ReconcileLaws
  import LeaseProtocol

  // Rule ids, with the generation tag of the owned ones.
  type Rules = map<string, Option<string>>

  // The named mutex of one activation: held while the client process lives, abandoned or
  // gone once it is dead.
  datatype Session = Session(generation: string, alive: bool)

  datatype Journalled = NoJournal | Generation(generation: string)

  datatype Companion = Watching | Exited

  datatype State = State(
    rules: Rules, heartbeat: Heartbeat, journal: Journalled, session: Option<Session>, generation: string,
    companion: Companion, now: nat)

  predicate Owned(rules: Rules, id: string) { id in rules && rules[id].Some? }

  function Cleaned(rules: Rules): Rules { map id | id in rules && !Owned(rules, id) :: rules[id] }

  predicate Stale(s: State) { LeaseProtocol.HeartbeatStale(s.heartbeat, s.now) }

  // The mutex named by a generation exists and is held.
  predicate HeldBy(s: State, generation: string) {
    s.session.Some? && s.session.value.generation == generation && s.session.value.alive
  }

  // ---------- the steps ----------

  // Activation writes the journal before the session exists, then watches with a companion.
  function Activate(s: State, generation: string): State {
    s.(journal := Generation(generation), session := Some(Session(generation, true)), generation := generation,
       companion := Watching)
  }

  // A tick: a stale one mints a new generation; one that gets past the enumeration writes
  // the journal, if the write succeeds; every one ends with the heartbeat. The mutex keeps
  // its name throughout.
  function Tick(s: State, minted: string, enumerates: bool, journals: bool, after: Rules): State {
    var generation := if StaleAt(s.heartbeat, s.now) then minted else s.generation;
    s.(generation := generation,
       rules := if enumerates then after else s.rules,
       journal := if enumerates && journals then Generation(generation) else s.journal,
       heartbeat := At(s.now))
  }

  // L2: clean unless the journalled generation's mutex is held and the heartbeat is fresh.
  function TaskCheck(s: State): State {
    match s.journal
    case NoJournal => s
    case Generation(g) =>
      if HeldBy(s, g) && !Stale(s) then s else s.(rules := Cleaned(s.rules))
  }

  // What one wait of the companion L1 can return.
  datatype Signal = StandDown | Abandoned | Acquired(stale: bool) | Timeout(stale: bool)

  // Stand-down ends the companion, an abandoned mutex cleans and ends it; a timeout, and a mutex
  // that was free and is the companion's now, clean if the heartbeat is stale and go on watching.
  function Handled(rules: Rules, signal: Signal): (Rules, Companion) {
    match signal
    case StandDown => (rules, Exited)
    case Abandoned => (Cleaned(rules), Exited)
    case Acquired(stale) => (if stale then Cleaned(rules) else rules, Watching)
    case Timeout(stale) => (if stale then Cleaned(rules) else rules, Watching)
  }

  // The stand-down event is waited for first.
  function SignalAt(s: State, standdown: bool): Signal {
    if standdown then StandDown
    else if s.session.Some? && !s.session.value.alive then Abandoned
    else Timeout(Stale(s))
  }

  function CompanionWait(s: State, standdown: bool): State {
    if s.companion == Exited then s
    else
      var (rules, companion) := Handled(s.rules, SignalAt(s, standdown));
      s.(rules := rules, companion := companion)
  }

  // The companion's whole life under the signals it gets.
  function CompanionLife(rules: Rules, signals: seq<Signal>): (Rules, Companion) {
    if signals == [] then (rules, Watching)
    else
      var (after, companion) := Handled(rules, signals[0]);
      if companion == Exited then (after, Exited) else CompanionLife(after, signals[1..])
  }

  // ---------- the rule store and the two execution modes ----------

  class Nrpt {
    var rules: Rules

    method RemoveAllTagged()
      modifies this
      ensures rules == Cleaned(old(rules))
    {
      var owned := set id | id in rules && Owned(rules, id);
      ghost var all := owned;
      ghost var before := rules;
      while owned != {}
        invariant owned <= all && all == set id | id in before && Owned(before, id)
        invariant rules == before - (all - owned)
        decreases |owned|
      {
        var id :| id in owned;
        owned := owned - {id};
        rules := rules - {id};
      }
      assert rules == before - all;
    }

    // L2, from what it reads: the journal, whether that generation's mutex is held, the heartbeat.
    method CheckMain(ghost s: State, journal: Journalled, mutexHeld: bool, heartbeat: Heartbeat, now: nat)
      requires s.rules == rules && s.journal == journal && s.heartbeat == heartbeat && s.now == now
      requires journal.Generation? ==> (mutexHeld <==> HeldBy(s, journal.generation))
      modifies this
      ensures rules == TaskCheck(s).rules
    {
      if journal.NoJournal? {
        return;
      }
      if mutexHeld {
        if LeaseProtocol.HeartbeatStale(heartbeat, now) {
          RemoveAllTagged();
        }
        return;
      }
      RemoveAllTagged();
    }

    // L1. A companion that cannot open the session's objects exits without watching.
    method CompanionMain(opens: bool, signals: seq<Signal>) returns (companion: Companion)
      modifies this
      ensures (rules, companion) == if opens then CompanionLife(old(rules), signals) else (old(rules), Exited)
    {
      if !opens {
        return Exited;
      }
      companion := Watching;
      var i := 0;
      assert signals[0..] == signals;
      while i < |signals|
        invariant 0 <= i <= |signals| && companion == Watching
        invariant CompanionLife(rules, signals[i..]) == CompanionLife(old(rules), signals)
      {
        assert signals[i..][1..] == signals[i + 1..];
        match signals[i] {
          case StandDown =>
            return Exited;
          case Abandoned =>
            RemoveAllTagged();
            return Exited;
          case Acquired(stale) =>
            if stale {
              RemoveAllTagged();
            }
          case Timeout(stale) =>
            if stale {
              RemoveAllTagged();
            }
        }
        i := i + 1;
      }
    }
  }

  // The companion leaves rules in place exactly when it saw no stale timeout and no death
  // before it was stood down: graceful ends never clean.
  lemma {:induction false} CompanionCleansIff(rules: Rules, signals: seq<Signal>)
    requires exists id :: Owned(rules, id)
    ensures CompanionLife(rules, signals).0 != rules <==>
            exists i :: 0 <= i < |signals| && signals[i] in {Abandoned, Acquired(true), Timeout(true)} &&
                        forall j :: 0 <= j < i ==> signals[j] != StandDown
    ensures CompanionLife(rules, signals).0 == rules || CompanionLife(rules, signals).0 == Cleaned(rules)
    decreases |signals|
  {
    var id :| Owned(rules, id);
    assert id !in Cleaned(rules);
    if signals != [] {
      if signals[0] == Timeout(false) || signals[0] == Acquired(false) {
        CompanionCleansIff(rules, signals[1..]);
        if i :| 0 <= i < |signals| && signals[i] in {Abandoned, Acquired(true), Timeout(true)} &&
                forall j :: 0 <= j < i ==> signals[j] != StandDown {
          assert signals[1..][i - 1] == signals[i];
        }
        if i :| 0 <= i < |signals[1..]| && signals[1..][i] in {Abandoned, Acquired(true), Timeout(true)} &&
                forall j :: 0 <= j < i ==> signals[1..][j] != StandDown {
          assert signals[i + 1] == signals[1..][i];
          assert forall j :: 1 <= j < i + 1 ==> signals[j] == signals[1..][j - 1];
        }
      } else if signals[0] != StandDown {
        assert signals[0] in {Abandoned, Acquired(true), Timeout(true)};
        CleanedStays(Cleaned(rules), signals[1..]);
      }
    }
  }

  lemma {:induction false} CleanedStays(rules: Rules, signals: seq<Signal>)
    requires Cleaned(rules) == rules
    ensures CompanionLife(rules, signals).0 == rules
    decreases |signals|
  {
    if signals != [] {
      CleanedStays(rules, signals[1..]);
    }
  }

  // The process dies: its mutex is abandoned.
  function Die(s: State): State {
    s.(session := match s.session case None => None case Some(x) => Some(x.(alive := false)))
  }

  // ---------- no false cleaning ----------

  // With a live session and a fresh heartbeat, the task spares the rules exactly while the
  // journal names the session's generation.
  lemma TaskSparesIffSameGeneration(s: State)
    requires s.session.Some? && s.session.value.alive && !Stale(s)
    requires s.journal.Generation? && exists id :: Owned(s.rules, id)
    ensures TaskCheck(s).rules == s.rules <==> s.journal.generation == s.session.value.generation
  {
    var id :| Owned(s.rules, id);
    assert id !in Cleaned(s.rules);
  }

  // The companion never touches a live client with a fresh heartbeat.
  lemma CompanionSpares(s: State, standdown: bool)
    requires s.session.Some? && s.session.value.alive && !Stale(s)
    ensures CompanionWait(s, standdown).rules == s.rules
  {
  }

  // One wait of the companion: it cleans if and only if it is watching, is not stood down, and the
  // client is dead or its heartbeat stale; it stops watching when stood down or when the client is
  // dead, and for good.
  lemma WaitCleansIff(s: State, standdown: bool, id: string)
    ensures var t := CompanionWait(s, standdown);
      var dead := s.session.Some? && !s.session.value.alive;
      var cleans := s.companion == Watching && !standdown && (dead || Stale(s));
      (id in t.rules <==> id in s.rules && !(cleans && s.rules[id].Some?)) &&
      (id in t.rules ==> t.rules[id] == s.rules[id]) &&
      (t.companion == Watching <==> s.companion == Watching && !standdown && !dead) &&
      t == s.(rules := t.rules, companion := t.companion)
  {
  }

  // One run of the task: it cleans if and only if there is a journal and not both a live client of
  // the journalled generation and a fresh heartbeat.
  lemma TaskCleansIff(s: State, id: string)
    ensures var t := TaskCheck(s);
      var spared := s.session.Some? && s.session.value.alive && s.journal == Generation(s.session.value.generation) &&
                    s.heartbeat.At? && (s.now <= s.heartbeat.micros || s.now - s.heartbeat.micros <= 25_000_000);
      var cleans := s.journal.Generation? && !spared;
      (id in t.rules <==> id in s.rules && !(cleans && s.rules[id].Some?)) &&
      (id in t.rules ==> t.rules[id] == s.rules[id]) && t == s.(rules := t.rules)
  {
  }

  // An activation: journal, mutex and client of one generation, with a companion watching.
  lemma ActivationLeaves(s: State, generation: string)
    ensures var t := Activate(s, generation);
      t.journal == Generation(generation) && t.session == Some(Session(generation, true)) &&
      t.generation == generation && t.companion == Watching && t.rules == s.rules && t.heartbeat == s.heartbeat
  {
  }

  // What a tick leaves behind: the rules as the reconciler left them, or as they were if it got no
  // listing; a minted generation after a stale heartbeat; the journal of that generation if it was
  // listed and written; the heartbeat.
  lemma TickLeaves(s: State, minted: string, enumerates: bool, journals: bool, after: Rules)
    ensures var t := Tick(s, minted, enumerates, journals, after);
      var late := s.heartbeat.At? && s.heartbeat.micros + 26_000_000 <= s.now;
      t.rules == (if enumerates then after else s.rules) && t.generation == (if late then minted else s.generation) &&
      t.journal == (if enumerates && journals then Generation(t.generation) else s.journal) &&
      t.heartbeat == At(s.now) && t.session == s.session && t.companion == s.companion && t.now == s.now
  {
  }

  datatype Event =
    | ClientTicks(minted: string, enumerates: bool, journals: bool, after: Rules)
    | TaskRuns
    | CompanionWakes(standdown: bool)
    | Advance(micros: nat)

  function Step(s: State, e: Event): State {
    match e
    case ClientTicks(minted, enumerates, journals, after) => Tick(s, minted, enumerates, journals, after)
    case TaskRuns => TaskCheck(s)
    case CompanionWakes(standdown) => CompanionWait(s, standdown)
    case Advance(micros) => s.(now := s.now + micros)
  }

  function StateAt(s: State, run: seq<Event>, k: nat): State
    requires k <= |run|
  {
    if k == 0 then s else Step(StateAt(s, run, k - 1), run[k - 1])
  }

  // A tick that engages the lease's hold.
  predicate StaleTick(s: State, e: Event) { e.ClientTicks? && StaleAt(s.heartbeat, s.now) }

  // Some tick of the first k was stale.
  ghost predicate AnyStale(s: State, run: seq<Event>, k: nat)
    requires k <= |run|
  {
    k > 0 && (AnyStale(s, run, k - 1) || StaleTick(StateAt(s, run, k - 1), run[k - 1]))
  }

  // A stale tick, then (the same or later) a tick that wrote the journal.
  ghost predicate Diverged(s: State, run: seq<Event>, k: nat)
    requires k <= |run|
  {
    k > 0 && (Diverged(s, run, k - 1) ||
              (AnyStale(s, run, k) && run[k - 1].ClientTicks? && run[k - 1].enumerates && run[k - 1].journals))
  }

  // In one session, with generations never minted twice: the journal names the session's
  // generation exactly until a tick writes it after a stale tick - and then never again. So
  // one stale tick makes every later task check clean a live, freshly heartbeating client.
  lemma {:induction false} JournalDiverges(s: State, run: seq<Event>, k: nat, generation: string)
    requires k <= |run| && s.generation == generation && s.journal == Generation(generation)
    requires s.session == Some(Session(generation, true))
    requires forall i :: 0 <= i < |run| && run[i].ClientTicks? ==> run[i].minted != generation
    ensures var t := StateAt(s, run, k);
            && t.session == s.session
            && t.journal.Generation?
            && (t.generation == generation <==> !AnyStale(s, run, k))
            && (t.journal.generation == generation <==> !Diverged(s, run, k))
            && (Diverged(s, run, k) ==> AnyStale(s, run, k))
  {
    if k > 0 {
      JournalDiverges(s, run, k - 1, generation);
    }
  }

  lemma TaskSparesUntilDiverged(before: State, run: seq<Event>, k: nat, generation: string)
    requires k <= |run|
    requires forall i :: 0 <= i < |run| && run[i].ClientTicks? ==> run[i].minted != generation
    ensures var s := Activate(before, generation);
            var t := StateAt(s, run, k);
            !Stale(t) && (exists id :: Owned(t.rules, id)) ==>
              (TaskCheck(t).rules == t.rules <==> !Diverged(s, run, k))
  {
    var s := Activate(before, generation);
    var t := StateAt(s, run, k);
    JournalDiverges(s, run, k, generation);
    if !Stale(t) && exists id :: Owned(t.rules, id) {
      TaskSparesIffSameGeneration(t);
    }
  }

  // ---------- cleanup in time ----------

  // The scheduled task runs every minute.
  const TASK_PERIOD := 60 * MICROS

  // A dead client is cleaned by the very next task check, a live one as soon as its
  // heartbeat is more than 25 seconds old; either way nothing owned is left.
  lemma TaskCleansDeadOrHung(s: State)
    requires s.journal.Generation?
    requires (s.session.Some? ==> !s.session.value.alive) || Stale(s)
    ensures forall id :: !Owned(TaskCheck(s).rules, id)
    ensures forall id :: id in s.rules && !Owned(s.rules, id) ==>
              id in TaskCheck(s).rules && TaskCheck(s).rules[id] == s.rules[id]
  {
  }

  // After the client stops stepping, only checks and time follow; `checked` is when the
  // task last ran, and it is never more than its period overdue.
  ghost predicate StoppedRun(s: State, checked: nat, run: seq<Event>, k: nat)
    requires k <= |run|
  {
    k == 0 ||
    (StoppedRun(s, checked, run, k - 1) &&
     match run[k - 1]
     case ClientTicks(_, _, _, _) => false
     case Advance(micros) =>
       StateAt(s, run, k - 1).now + micros <= LastCheck(s, checked, run, k - 1) + TASK_PERIOD
     case _ => true)
  }

  function LastCheck(s: State, checked: nat, run: seq<Event>, k: nat): nat
    requires k <= |run|
  {
    if k == 0 then checked
    else if run[k - 1].TaskRuns? then StateAt(s, run, k - 1).now
    else LastCheck(s, checked, run, k - 1)
  }

  // When the task must clean: at once if the process is dead, else once the heartbeat is stale.
  function Deadline(s: State): nat {
    if s.session.Some? && s.session.value.alive && s.heartbeat.At?
    then Max(s.now, s.heartbeat.micros + LeaseProtocol.STALENESS_MICROS)
    else s.now
  }

  lemma {:induction false} StoppedInvariant(s: State, checked: nat, run: seq<Event>, k: nat)
    requires k <= |run| && StoppedRun(s, checked, run, k) && checked <= s.now <= checked + TASK_PERIOD
    requires s.journal.Generation?
    ensures var t := StateAt(s, run, k);
            && t.heartbeat == s.heartbeat && t.session == s.session && t.journal == s.journal
            && LastCheck(s, checked, run, k) <= t.now <= LastCheck(s, checked, run, k) + TASK_PERIOD
            && (LastCheck(s, checked, run, k) > Deadline(s) ==> forall id :: !Owned(t.rules, id))
  {
    if k > 0 {
      StoppedInvariant(s, checked, run, k - 1);
      var t := StateAt(s, run, k - 1);
      if run[k - 1].TaskRuns? && t.now > Deadline(s) {
        TaskCleansDeadOrHung(t);
      }
    }
  }

  // No owned rule is left one task period after the client's death, or after a hung
  // client's heartbeat turned stale.
  lemma CleanedInTime(s: State, checked: nat, run: seq<Event>, k: nat)
    requires k <= |run| && StoppedRun(s, checked, run, k) && checked <= s.now <= checked + TASK_PERIOD
    requires s.journal.Generation? && StateAt(s, run, k).now > Deadline(s) + TASK_PERIOD
    ensures forall id :: !Owned(StateAt(s, run, k).rules, id)
  {
    StoppedInvariant(s, checked, run, k);
  }

  // The companion cleans a dead client the moment it is signalled.
  lemma CompanionCleansDead(s: State)
    requires s.companion == Watching && s.session.Some?
    ensures var t := CompanionWait(Die(s), false);
            t.companion == Exited && forall id :: !Owned(t.rules, id)
  {
  }
}
