// The client, the macOS watchdog and the passage of time over one rule store
// (client/src/splitdns/reconciler.rs, client/src/splitdns/watchdog_macos.rs).
//
// A client tick is three steps, Start (the lease decision), Work (rules, cache and journal) and
// Beat (the heartbeat), so watchdog checks and time may fall between them. A watchdog check is
// one step, or a Look (the reading it acts on) and any number of Sweeps at any time after it.
module LeaseProtocol {
  import opened Prelude
  import opened ResolverFiles
  import opened Reconcile
  import opened ReconcileLaws

  const STALENESS_MICROS := STALENESS_SECS * MICROS

  // launchd runs the check every 30 seconds.
  const WATCHDOG_PERIOD := 30 * MICROS

  // The watchdog's reading: a missing or unreadable heartbeat is stale, a future one is
  // not, and an age is compared in microseconds.
  predicate HeartbeatStale(heartbeat: Heartbeat, now: nat) {
    match heartbeat
    case At(t) => now > t && now - t > STALENESS_MICROS
    case _ => true
  }

  // One run of the watchdog. What it reads first, it reads again after finding owned rules:
  // a tick may have refreshed the heartbeat in between.
  method CheckMain(dir: ResolverDir, first: Heartbeat, firstNow: nat, home: SvcHome, now: nat,
                   enumerates: bool, faults: map<string, Fault>)
    modifies dir
    ensures dir.files == if HeartbeatStale(first, firstNow)
                         then Checked(old(dir.files), home.heartbeat, now, enumerates, faults) else old(dir.files)
    ensures !HeartbeatStale(home.heartbeat, now) ==> dir.files == old(dir.files)
  {
    if !HeartbeatStale(first, firstNow) {
      return;
    }
    if enumerates {
      var owned := set n | n in dir.files && Listed(n) && Owned(dir.files, n);
      assert forall n :: n in dir.files && Listed(n) && Owned(dir.files, n) ==> n in owned;
      if owned == {} {
        NothingOwned(dir.files, faults);
        return;
      }
      if HeartbeatStale(home.heartbeat, now) {
        var removed := RemoveAllTagged(dir, enumerates, faults);
      }
    }
  }

  function Checked(files: Files, heartbeat: Heartbeat, now: nat, enumerates: bool, faults: map<string, Fault>): Files {
    if HeartbeatStale(heartbeat, now) then RemovedAllTagged(files, enumerates, faults) else files
  }

  lemma NothingOwned(files: Files, faults: map<string, Fault>)
    requires forall n :: n in files ==> !(Listed(n) && Owned(files, n))
    ensures RemovedAllTagged(files, true, faults) == files
  {
    assert Untagged(files, faults, files.Keys) == {};
  }

  // ---------- the system ----------

  datatype Phase = Idle | MidTick | Worked | Down

  // checked is when the watchdog last ran without interruption; armed is what an interrupted
  // check found last, the heartbeat stale or not.
  datatype State = State(client: Client, disk: Disk, now: nat, checked: nat, phase: Phase, armed: bool)

  datatype Event =
    | Start(fetchOk: bool, minted: string)
    | Work(desired: seq<string>, env: Env)
    | Beat
    | Watchdog(enumerates: bool, faults: map<string, Fault>)
    | Look
    | Sweep(enumerates: bool, faults: map<string, Fault>)
    | Advance(micros: nat)
    | ForeignWrite(name: string, line: string)
    | ForeignDelete(name: string)
    | Crash
    | Restart(generation: string)
    | Shutdown(ends: Env, minted: string)

  // Other software leaves our rules alone and does not write our marker.
  predicate Enabled(s: State, e: Event) {
    match e
    case Start(_, _) => s.phase == Idle
    case Work(_, _) => s.phase == MidTick
    case Beat => s.phase == Worked
    case Watchdog(_, _) => true
    case Look => true
    case Sweep(_, _) => true
    case Advance(_) => true
    case ForeignWrite(name, line) => !Owned(s.disk.files, name) && MarkerGeneration(line).None?
    case ForeignDelete(name) => !Owned(s.disk.files, name)
    case Crash => s.phase != Down
    case Restart(_) => s.phase == Down
    case Shutdown(_, _) => s.phase == Idle
  }

  function Step(s: State, e: Event): State {
    match e
    case Start(fetchOk, minted) =>
      s.(client := Begin(s.client, s.disk.heartbeat, s.now, fetchOk, minted), phase := MidTick)
    case Work(desired, env) =>
      var (c, d) := Finish(s.client, s.disk, desired, env, s.now);
      s.(client := c, disk := d.(heartbeat := s.disk.heartbeat), phase := Worked)
    case Beat => s.(disk := s.disk.(heartbeat := At(s.now)), phase := Idle)
    case Watchdog(enumerates, faults) =>
      s.(disk := s.disk.(files := Checked(s.disk.files, s.disk.heartbeat, s.now, enumerates, faults)), checked := s.now)
    case Look => s.(armed := HeartbeatStale(s.disk.heartbeat, s.now))
    case Sweep(enumerates, faults) =>
      if s.armed then s.(disk := s.disk.(files := RemovedAllTagged(s.disk.files, enumerates, faults))) else s
    case Advance(micros) => s.(now := s.now + micros)
    case ForeignWrite(name, line) => s.(disk := s.disk.(files := s.disk.files[name := line]))
    case ForeignDelete(name) => s.(disk := s.disk.(files := s.disk.files - {name}))
    case Crash => s.(phase := Down)
    case Restart(generation) => s.(client := Client(generation, false, map[]), phase := Idle)
    case Shutdown(ends, minted) =>
      s.(client := s.client.(installed := map[]), phase := Down,
         disk := s.disk.(files := RemovedAllTagged(s.disk.files, ends.enumerates, ends.remove),
                         journal := if ends.journals then Some(Journal(minted, map[])) else s.disk.journal))
  }

  // Work and Beat together, with no time between, are the rest of a tick.
  lemma WorkThenBeat(s: State, desired: seq<string>, env: Env)
    ensures var t := Step(Step(s, Work(desired, env)), Beat);
      (t.client, t.disk) == Finish(s.client, s.disk, desired, env, s.now) && t.now == s.now && t.phase == Idle
  {
    hide Wanted, Installs, Removals;
  }

  // A session end whose calls all work leaves no rule of ours, every other file as it was, an empty
  // cache and, written down, a generation that no rule has.
  lemma ShutdownLeavesNothing(s: State, ends: Env, minted: string)
    requires ends.enumerates && ends.journals && forall n :: FaultOf(ends.remove, n) == Clean
    ensures var t := Step(s, Shutdown(ends, minted));
      OwnedRules(t.disk.files) == map[] && t.client.installed == map[] && t.phase == Down &&
      t.disk.journal == Some(Journal(minted, map[])) && t.disk.heartbeat == s.disk.heartbeat &&
      forall n :: Foreign(s.disk.files, n) ==> n in t.disk.files && t.disk.files[n] == s.disk.files[n]
    ensures Step(s, Shutdown(ends.(journals := false), minted)).disk.journal == s.disk.journal
  {
  }

  // A Look and a Sweep, with nothing between, are an undisturbed check.
  lemma LookThenSweep(s: State, enumerates: bool, faults: map<string, Fault>)
    ensures var t, u := Step(Step(s, Look), Sweep(enumerates, faults)), Step(s, Watchdog(enumerates, faults));
      t.disk == u.disk && t.client == u.client && t.now == u.now && t.phase == u.phase
  {
    hide RemovedAllTagged;
  }

  function StateAt(s: State, run: seq<Event>, k: nat): State
    requires k <= |run|
  {
    if k == 0 then s else Step(StateAt(s, run, k - 1), run[k - 1])
  }

  // The first k events of a run can happen.
  ghost predicate Feasible(s: State, run: seq<Event>, k: nat)
    requires k <= |run|
  {
    k == 0 || (Feasible(s, run, k - 1) && Enabled(StateAt(s, run, k - 1), run[k - 1]))
  }

  lemma GoesOn(s: State, run: seq<Event>, k: nat)
    requires k < |run| && Feasible(s, run, k) && Enabled(StateAt(s, run, k), run[k])
    ensures Feasible(s, run, k + 1) && StateAt(s, run, k + 1) == Step(StateAt(s, run, k), run[k])
  {
  }

  // ---------- foreign rules ----------

  // No tick touches a foreign file but one that adds a name whose temporary file it is.
  lemma {:induction false} ForeignSurvivesAdds(files: Files, names: seq<string>, generation: string,
                                               faults: map<string, Fault>, name: string)
    requires Foreign(files, name) && forall n :: n in names ==> TmpName(n) != name
    ensures var after := AddedAll(files, names, generation, faults).0;
            name in after && after[name] == files[name]
  {
    if names != [] {
      var last := names[|names| - 1];
      var front := names[..|names| - 1];
      assert forall n :: n in front ==> n in names;
      ForeignSurvivesAdds(files, front, generation, faults, name);
    }
  }

  lemma ForeignSurvivesFinish(c: Client, d: Disk, desired: seq<string>, env: Env, now: nat, name: string)
    requires Foreign(d.files, name) && forall n :: n in InstallCalls(c, d, desired, env) ==> TmpName(n) != name
    ensures var after := Finish(c, d, desired, env, now).1.files;
            name in after && after[name] == d.files[name]
  {
    hide TmpName;
    var wanted := Wanted(d.files, desired);
    var p := Removals(c, d.files, wanted, env);
    if env.enumerates {
      assert name in p.files && p.files[name] == d.files[name];
      if !c.hold {
        ForeignSurvivesAdds(p.files, Missing(wanted, p.installed), c.generation, env.add, name);
      }
    }
  }

  // Not other software's write or removal of this file, and no add by way of it.
  ghost predicate Leaves(s: State, e: Event, name: string) {
    match e
    case ForeignWrite(n, _) => n != name
    case ForeignDelete(n) => n != name
    case Work(desired, env) => forall n :: n in InstallCalls(s.client, s.disk, desired, env) ==> TmpName(n) != name
    case _ => true
  }

  ghost predicate LeavesAlways(s: State, run: seq<Event>, k: nat, name: string)
    requires k <= |run|
  {
    k == 0 || (LeavesAlways(s, run, k - 1, name) && Leaves(StateAt(s, run, k - 1), run[k - 1], name))
  }

  // A file that is not ours stays as it is, over every run, until other software changes it or
  // a tick adds a name whose temporary file it is: a rule somebody wrote, and a torn temporary
  // file that nobody owns.
  lemma {:induction false} ForeignStays(s: State, run: seq<Event>, k: nat, name: string)
    requires k <= |run| && Foreign(s.disk.files, name) && LeavesAlways(s, run, k, name)
    ensures var files := StateAt(s, run, k).disk.files;
            name in files && files[name] == s.disk.files[name]
  {
    hide Finish, Begin, InstallCalls, TmpName;
    if k > 0 {
      ForeignStays(s, run, k - 1, name);
      var t := StateAt(s, run, k - 1);
      match run[k - 1]
      case Work(desired, env) => ForeignSurvivesFinish(t.client, t.disk, desired, env, t.now, name);
      case _ =>
    }
  }

  // So a foreign rule not named like a temporary file is touched by other software only.
  lemma ForeignSurvives(s: State, run: seq<Event>, k: nat, name: string)
    requires k <= |run| && Foreign(s.disk.files, name) && !IsTmp(name)
    requires forall i :: 0 <= i < |run| ==>
               run[i] != ForeignDelete(name) && !(run[i].ForeignWrite? && run[i].name == name)
    ensures var files := StateAt(s, run, k).disk.files;
            name in files && files[name] == s.disk.files[name]
  {
    NoTmpLeaves(s, run, k, name);
    ForeignStays(s, run, k, name);
  }

  lemma {:induction false} NoTmpLeaves(s: State, run: seq<Event>, k: nat, name: string)
    requires k <= |run| && !IsTmp(name)
    requires forall i :: 0 <= i < |run| ==>
               run[i] != ForeignDelete(name) && !(run[i].ForeignWrite? && run[i].name == name)
    ensures LeavesAlways(s, run, k, name)
  {
    hide InstallCalls, TmpName, IsTmp, Step;
    if k > 0 {
      NoTmpLeaves(s, run, k - 1, name);
      var t := StateAt(s, run, k - 1);
      if run[k - 1].Work? {
        NotATmpName(InstallCalls(t.client, t.disk, run[k - 1].desired, run[k - 1].env), name);
      }
    }
  }

  // ---------- the cache against the rules ----------

  // Every entry of the cache is a rule of the current generation. (An entry for a leftover
  // temporary file is not one the client relies on.)
  ghost predicate Coherent(c: Client, files: Files) {
    forall n :: n in c.installed && !IsTmp(n) ==> OwnerIn(files, n) == Some(c.generation)
  }

  // The next tick, whenever it comes, is stale and clears the cache.
  ghost predicate WillClear(s: State) { StaleAt(s.disk.heartbeat, s.now) }

  // An entry in the cache means the client has written a heartbeat.
  ghost predicate HeartbeatKept(s: State) {
    s.client.installed != map[] ==> s.disk.heartbeat.At? && s.disk.heartbeat.micros <= s.now
  }

  predicate InTick(s: State) { s.phase == MidTick || s.phase == Worked }

  ghost predicate CoherentOrClearing(s: State) {
    && (s.phase == Idle ==> HeartbeatKept(s) && (Coherent(s.client, s.disk.files) || WillClear(s)))
    && (InTick(s) ==> Coherent(s.client, s.disk.files))
  }

  // The watchdog already sees a stale heartbeat that the client still takes for fresh: the
  // client truncates the age to seconds, so ages between 25 and 26 s.
  predicate InWindow(s: State) {
    HeartbeatStale(s.disk.heartbeat, s.now) && s.disk.heartbeat.At? && !StaleAt(s.disk.heartbeat, s.now)
  }

  lemma WindowIsOneSecond(s: State)
    ensures InWindow(s) <==>
            s.disk.heartbeat.At? && s.now > s.disk.heartbeat.micros &&
            25 * MICROS < s.now - s.disk.heartbeat.micros < 26 * MICROS
  {
  }

  // A tick that looks at the directory again because it changed something.
  ghost predicate Rereads(c: Client, files: Files, desired: seq<string>, env: Env) {
    var wanted := Wanted(files, desired);
    var p := Removals(c, files, wanted, env);
    env.enumerates && !c.hold && env.reenumerates &&
    (p.changed || AddedAll(p.files, Missing(wanted, p.installed), c.generation, env.add).1 > 0)
  }

  // A check that goes through the rules: which removals take effect.
  predicate Cleans(s: State, e: Event) {
    (e.Watchdog? && e.enumerates && HeartbeatStale(s.disk.heartbeat, s.now)) || (e.Sweep? && e.enumerates && s.armed)
  }

  // A cached rule whose removal would take effect.
  ghost predicate Hits(c: Client, faults: map<string, Fault>) {
    exists n :: n in c.installed && Listed(n) && !IsTmp(n) && FaultOf(faults, n) in {Clean, Late}
  }

  ghost predicate HitsLate(c: Client, wanted: seq<string>, faults: map<string, Fault>) {
    exists n :: n in c.installed && Listed(n) && !IsTmp(n) && n !in wanted && FaultOf(faults, n) == Late
  }

  // The cache is relied on: in a tick, or between ticks when the next one will not clear it.
  ghost predicate Exposed(s: State) { InTick(s) || (s.phase == Idle && !WillClear(s)) }

  // The steps that take a rule from under a cache that stays: a check that removes a cached rule
  // in a tick, or between ticks when the next one is not stale to the client; and a tick that
  // removes an unwanted cached rule after giving up on it and does not re-read the cache.
  ghost predicate Takes(s: State, e: Event) {
    match e
    case Watchdog(_, faults) => Cleans(s, e) && Exposed(s) && Hits(s.client, faults)
    case Sweep(_, faults) => Cleans(s, e) && Exposed(s) && Hits(s.client, faults)
    case Work(desired, env) =>
      env.enumerates && !Rereads(s.client, s.disk.files, desired, env) &&
      HitsLate(s.client, Wanted(s.disk.files, desired), env.remove)
    case _ => false
  }

  // Adds touch nothing but the names added and temporary files.
  lemma {:induction false} AddsKeepOthers(files: Files, names: seq<string>, generation: string,
                                          faults: map<string, Fault>, name: string)
    requires name !in names && !IsTmp(name)
    ensures OwnerIn(AddedAll(files, names, generation, faults).0, name) == OwnerIn(files, name)
  {
    hide MarkerLine, TmpName, MarkerGeneration, IsTmp;
    if names != [] {
      var last, front := names[|names| - 1], names[..|names| - 1];
      assert forall n :: n in front ==> n in names;
      AddsKeepOthers(files, front, generation, faults, name);
      NotATmpName([last], name);
    }
  }

  lemma RemovalTakes(c: Client, files: Files, enumerates: bool, faults: map<string, Fault>)
    requires Coherent(c, files)
    ensures Coherent(c, RemovedAllTagged(files, enumerates, faults)) <==> !(enumerates && Hits(c, faults))
  {
    hide IsTmp, Listed, FaultOf, MarkerGeneration;
    var after := RemovedAllTagged(files, enumerates, faults);
    if enumerates {
      if n :| n in c.installed && Listed(n) && !IsTmp(n) && FaultOf(faults, n) in {Clean, Late} {
        assert OwnerIn(files, n) == Some(c.generation);
        assert OwnerIn(after, n).None?;
      } else {
        forall n | n in c.installed && !IsTmp(n)
          ensures OwnerIn(after, n) == Some(c.generation)
        {
          assert OwnerIn(files, n) == Some(c.generation);
        }
      }
    }
  }

  lemma FinishKeeps(c: Client, d: Disk, desired: seq<string>, env: Env, now: nat)
    requires env.enumerates && !Rereads(c, d.files, desired, env)
    ensures Finish(c, d, desired, env, now).0.installed ==
            c.installed - Reported(d.files, Wanted(d.files, desired), c.generation, env.remove, d.files.Keys)
  {
    hide Wanted, AddedAll, Reported, Gone;
  }

  // The owner a tick that does not re-read the cache leaves of a name it keeps cached.
  lemma FinishOwner(c: Client, d: Disk, desired: seq<string>, env: Env, now: nat, n: string)
    requires env.enumerates && !Rereads(c, d.files, desired, env) && !IsTmp(n)
    ensures var wanted := Wanted(d.files, desired);
            var (c', d') := Finish(c, d, desired, env, now);
            c'.installed == c.installed - Reported(d.files, wanted, c.generation, env.remove, d.files.Keys) &&
            (n in c'.installed ==>
               OwnerIn(d'.files, n) ==
               if n in Gone(d.files, wanted, c.generation, env.remove, d.files.Keys) then None
               else OwnerIn(d.files, n))
  {
    hide Wanted, AddedAll, MarkerGeneration, IsTmp, Gone, Reported;
    var wanted := Wanted(d.files, desired);
    var p := Removals(c, d.files, wanted, env);
    if n in p.installed {
      AddsKeepOthers(p.files, Missing(wanted, p.installed), c.generation, env.add, n);
    }
  }

  lemma RereadCoherent(c: Client, d: Disk, desired: seq<string>, env: Env, now: nat)
    requires Rereads(c, d.files, desired, env)
    ensures var (c', d') := Finish(c, d, desired, env, now);
            c'.installed == CurrentRules(d'.files, c.generation) && Coherent(c', d'.files)
  {
    hide Wanted, AddedAll, Removals, MarkerGeneration;
  }

  lemma FinishCoherentIff(c: Client, d: Disk, desired: seq<string>, env: Env, now: nat)
    requires Coherent(c, d.files)
    ensures var (c', d') := Finish(c, d, desired, env, now);
      Coherent(c', d'.files) <==>
      !(env.enumerates && !Rereads(c, d.files, desired, env) &&
        HitsLate(c, Wanted(d.files, desired), env.remove))
  {
    hide Wanted, Rereads, MarkerGeneration, IsTmp, Listed, Finish;
    var wanted := Wanted(d.files, desired);
    var (c', d') := Finish(c, d, desired, env, now);
    if !env.enumerates {
      NothingFinished(c, d, desired, env, now);
    } else if Rereads(c, d.files, desired, env) {
      RereadCoherent(c, d, desired, env, now);
    } else {
      forall n | n in c.installed && !IsTmp(n)
        ensures n in c'.installed ==>
                  (OwnerIn(d'.files, n) == Some(c'.generation) <==>
                   !(Listed(n) && n !in wanted && FaultOf(env.remove, n) == Late))
        ensures n !in c'.installed ==> !(FaultOf(env.remove, n) == Late)
      {
        FinishOwner(c, d, desired, env, now, n);
        SameClient(c, d, desired, env, now);
      }
      FinishKeeps(c, d, desired, env, now);
      SameClient(c, d, desired, env, now);
    }
  }

  lemma NothingFinished(c: Client, d: Disk, desired: seq<string>, env: Env, now: nat)
    ensures !env.enumerates ==>
              Finish(c, d, desired, env, now).0 == c && Finish(c, d, desired, env, now).1.files == d.files
  {
  }

  lemma SameClient(c: Client, d: Disk, desired: seq<string>, env: Env, now: nat)
    ensures var c' := Finish(c, d, desired, env, now).0; c'.generation == c.generation && c'.hold == c.hold
  {
    hide Wanted, Installs, Removals;
  }

  // A step keeps the invariant if and only if it does not take a rule.
  lemma StepCoherentIff(s: State, e: Event)
    requires Enabled(s, e) && CoherentOrClearing(s)
    ensures CoherentOrClearing(Step(s, e)) <==> !Takes(s, e)
  {
    hide Finish, IsTmp, Hits, HitsLate, Rereads, RemovedAllTagged;
    match e
    case Work(desired, env) => FinishCoherentIff(s.client, s.disk, desired, env, s.now);
    case Watchdog(enumerates, faults) =>
      if s.phase != Down && Coherent(s.client, s.disk.files) {
        RemovalTakes(s.client, s.disk.files, enumerates, faults);
      }
    case Sweep(enumerates, faults) =>
      if s.phase != Down && Coherent(s.client, s.disk.files) {
        RemovalTakes(s.client, s.disk.files, enumerates, faults);
      }
    case _ =>
  }

  lemma WorkKeepsHeartbeat(s: State, desired: seq<string>, env: Env)
    ensures var t := Step(s, Work(desired, env)); t.disk.heartbeat == s.disk.heartbeat && t.now == s.now
  {
    hide Finish;
  }

  ghost predicate AlwaysBacked(s: State, run: seq<Event>, k: nat)
    requires k <= |run|
  {
    CoherentOrClearing(StateAt(s, run, k)) && (k > 0 ==> AlwaysBacked(s, run, k - 1))
  }

  ghost predicate NeverTakes(s: State, run: seq<Event>, k: nat)
    requires k <= |run|
  {
    k > 0 ==> NeverTakes(s, run, k - 1) && !Takes(StateAt(s, run, k - 1), run[k - 1])
  }

  // In every interleaving of client steps, watchdog checks, time, crashes, restarts and
  // other software: at all times the cache is backed by rules of the current generation or the
  // next tick clears it, if and only if no step takes a rule from under it.
  lemma {:induction false} CacheBackedOrCleared(s: State, run: seq<Event>, k: nat)
    requires k <= |run| && Feasible(s, run, k) && CoherentOrClearing(s)
    ensures AlwaysBacked(s, run, k) <==> NeverTakes(s, run, k)
  {
    hide Step, Enabled, Takes, CoherentOrClearing;
    if k > 0 {
      CacheBackedOrCleared(s, run, k - 1);
      if AlwaysBacked(s, run, k - 1) {
        BackedNow(s, run, k - 1);
        StepCoherentIff(StateAt(s, run, k - 1), run[k - 1]);
      }
    }
  }

  lemma BackedNow(s: State, run: seq<Event>, k: nat)
    requires k <= |run| && AlwaysBacked(s, run, k)
    ensures CoherentOrClearing(StateAt(s, run, k))
  {
  }

  // Three instances. A watchdog check that works, in an idle state with a
  // backed cache, keeps the invariant exactly when it does not fall in the window ...
  lemma WindowRemovalBreaks(s: State, name: string)
    requires s.phase == Idle && HeartbeatKept(s) && Coherent(s.client, s.disk.files)
    requires name in s.client.installed && !IsTmp(name) && Listed(name)
    ensures CoherentOrClearing(Step(s, Watchdog(true, map[]))) <==> !InWindow(s)
  {
    hide IsTmp, Listed;
    StepCoherentIff(s, Watchdog(true, map[]));
    assert FaultOf(map[], name) == Clean;
  }

  // ... one that removes a cached rule in the middle of a tick always breaks it ...
  lemma MidTickRemovalBreaks(s: State, name: string)
    requires InTick(s) && Coherent(s.client, s.disk.files) && HeartbeatStale(s.disk.heartbeat, s.now)
    requires name in s.client.installed && !IsTmp(name) && Listed(name)
    ensures !CoherentOrClearing(Step(s, Watchdog(true, map[])))
  {
    hide IsTmp, Listed;
    StepCoherentIff(s, Watchdog(true, map[]));
    assert FaultOf(map[], name) == Clean;
  }

  // ... and so does a tick's removal that takes effect late, when nothing else changes.
  lemma LateRemovalBreaks(s: State, name: string)
    requires s.phase == MidTick && !s.client.hold
    requires name in s.client.installed && !IsTmp(name) && Listed(name)
    requires OwnerIn(s.disk.files, name) == Some(s.client.generation)
    requires forall n :: n != name ==> !Owned(s.disk.files, n)
    ensures var t := Step(s, Work([], LateRemoval(name)));
      !CoherentOrClearing(t) && Wiped(t) && t.client == s.client
  {
    hide IsTmp;
    var env := LateRemoval(name);
    var files := s.disk.files;
    var p := Removals(s.client, files, [], env);
    assert Wanted(files, []) == [];
    assert Gone(files, [], s.client.generation, env.remove, files.Keys) == {name};
    assert Reported(files, [], s.client.generation, env.remove, files.Keys) == {};
    assert p.installed == s.client.installed && p.files == files - {name} && !p.changed;
    NothingMissing(p.installed);
    var t := Step(s, Work([], env));
    assert t.client == s.client && t.disk.files == p.files;
    forall n
      ensures !Owned(t.disk.files, n)
    {
      assert n != name ==> !Owned(files, n);
    }
  }

  function LateRemoval(name: string): Env { Env(true, map[name := Late], map[], true, true) }

  lemma NothingMissing(installed: map<string, string>)
    ensures Missing([], installed) == []
  {
  }

  // ---------- a wiped cache is a fixed point ----------

  // No owned rule is left, yet the client believes in its cache.
  ghost predicate Wiped(s: State) {
    s.phase != Down && !s.client.hold && forall n :: !Owned(s.disk.files, n)
  }

  // A working check of a stale heartbeat leads there, in mid-tick as well.
  lemma CheckWipes(s: State)
    requires s.phase != Down && !s.client.hold && HeartbeatStale(s.disk.heartbeat, s.now)
    requires forall n :: Owned(s.disk.files, n) ==> Listed(n)
    ensures var t := Step(s, Watchdog(true, map[])); Wiped(t) && t.client == s.client
  {
    var after := Step(s, Watchdog(true, map[])).disk.files;
    forall n ensures !Owned(after, n) {
      if Owned(s.disk.files, n) {
        assert n in Untagged(s.disk.files, map[], s.disk.files.Keys);
      }
    }
  }

  // A step of a healthy client with nothing new to do: no stale tick, only cached names desired.
  ghost predicate Healthy(s: State, e: Event) {
    && Enabled(s, e)
    && match e
       case Start(_, _) => !StaleAt(s.disk.heartbeat, s.now)
       case Work(desired, _) => forall n :: n in desired ==> n in s.client.installed
       case Crash => false
       case Shutdown(_, _) => false
       case _ => true
  }

  ghost predicate HealthyRun(s: State, run: seq<Event>, k: nat)
    requires k <= |run|
  {
    k == 0 || (HealthyRun(s, run, k - 1) && Healthy(StateAt(s, run, k - 1), run[k - 1]))
  }

  lemma WipedFinish(c: Client, d: Disk, desired: seq<string>, env: Env, now: nat)
    requires !c.hold && (forall n :: !Owned(d.files, n)) && forall n :: n in desired ==> n in c.installed
    ensures Finish(c, d, desired, env, now).0 == c && Finish(c, d, desired, env, now).1.files == d.files
  {
    if env.enumerates {
      var wanted := Wanted(d.files, desired);
      assert Gone(d.files, wanted, c.generation, env.remove, d.files.Keys) == {};
      assert Reported(d.files, wanted, c.generation, env.remove, d.files.Keys) == {};
      var p := Removals(c, d.files, wanted, env);
      assert p.files == d.files && p.installed == c.installed;
      NoneMissing(wanted, c.installed);
    }
  }

  lemma WipedStep(s: State, e: Event)
    requires Wiped(s) && Healthy(s, e)
    ensures Wiped(Step(s, e)) && Step(s, e).client == s.client
  {
    hide Finish;
    match e
    case Work(desired, env) => WipedFinish(s.client, s.disk, desired, env, s.now);
    case Watchdog(_, faults) =>
      assert Untagged(s.disk.files, faults, s.disk.files.Keys) == {};
      assert s.disk.files - {} == s.disk.files;
    case Sweep(_, faults) =>
      assert Untagged(s.disk.files, faults, s.disk.files.Keys) == {};
      assert s.disk.files - {} == s.disk.files;
    case ForeignWrite(name, line) =>
      forall n ensures !Owned(Step(s, e).disk.files, n) {
        assert !Owned(s.disk.files, n);
      }
    case ForeignDelete(name) =>
      forall n ensures !Owned(Step(s, e).disk.files, n) {
        assert !Owned(s.disk.files, n);
      }
    case _ =>
  }

  // However long a healthy client runs after its rules were taken in the window, not one
  // of them comes back: the cache says they are installed.
  lemma {:induction false} WipedForGood(s: State, run: seq<Event>, k: nat)
    requires k <= |run| && HealthyRun(s, run, k) && Wiped(s)
    ensures Wiped(StateAt(s, run, k)) && StateAt(s, run, k).client == s.client
  {
    if k > 0 {
      WipedForGood(s, run, k - 1);
      WipedStep(StateAt(s, run, k - 1), run[k - 1]);
    }
  }

  // ---------- when a lost rule is noticed ----------

  // A cached name whose rule is gone.
  ghost predicate Lost(s: State, name: string) { name in s.client.installed && !Owned(s.disk.files, name) }

  // What makes the client look again: a lease stale in its own eyes, a tick that re-reads the
  // cache because it reported some rule added or removed, the session's end, a new process.
  ghost predicate Recovers(s: State, e: Event) {
    match e
    case Start(_, _) => StaleAt(s.disk.heartbeat, s.now)
    case Work(desired, env) => Rereads(s.client, s.disk.files, desired, env)
    case Restart(_) => true
    case Shutdown(_, _) => true
    case _ => false
  }

  // A step that takes a rule leaves a name lost.
  lemma TakenIsLost(s: State, e: Event)
    requires Enabled(s, e) && CoherentOrClearing(s) && Takes(s, e)
    ensures exists n :: !IsTmp(n) && Lost(Step(s, e), n)
  {
    hide Finish, IsTmp, Rereads, Wanted, Listed, MarkerGeneration;
    if e.Work? {
      var wanted := Wanted(s.disk.files, e.desired);
      var n :| n in s.client.installed && Listed(n) && !IsTmp(n) && n !in wanted && FaultOf(e.env.remove, n) == Late;
      FinishOwner(s.client, s.disk, e.desired, e.env, s.now, n);
      assert OwnerIn(s.disk.files, n) == Some(s.client.generation);
      assert Lost(Step(s, e), n);
    } else {
      var n :| n in s.client.installed && Listed(n) && !IsTmp(n) && FaultOf(e.faults, n) in {Clean, Late};
      assert Lost(Step(s, e), n);
    }
  }

  lemma NoReread(c: Client, files: Files, desired: seq<string>, env: Env)
    ensures !env.enumerates || c.hold ==> !Rereads(c, files, desired, env)
  {
  }

  // A re-read cache does not hold the name, since nothing put its rule back.
  lemma RereadForgets(s: State, desired: seq<string>, env: Env, name: string)
    requires Lost(s, name) && !IsTmp(name) && Rereads(s.client, s.disk.files, desired, env)
    ensures name !in Finish(s.client, s.disk, desired, env, s.now).0.installed
  {
    hide IsTmp, Wanted, AddedAll, MarkerGeneration;
    var c, files := s.client, s.disk.files;
    var wanted := Wanted(files, desired);
    var p := Removals(c, files, wanted, env);
    assert name in p.installed && OwnerIn(p.files, name).None?;
    AddsKeepOthers(p.files, Missing(wanted, p.installed), c.generation, env.add, name);
    RereadCoherent(c, s.disk, desired, env, s.now);
  }

  lemma LostWork(s: State, desired: seq<string>, env: Env, name: string)
    requires Lost(s, name) && !IsTmp(name)
    ensures Lost(Step(s, Work(desired, env)), name) <==> !Rereads(s.client, s.disk.files, desired, env)
  {
    hide Finish, IsTmp, Wanted, Rereads, MarkerGeneration;
    if !env.enumerates {
      NothingFinished(s.client, s.disk, desired, env, s.now);
      NoReread(s.client, s.disk.files, desired, env);
    } else if Rereads(s.client, s.disk.files, desired, env) {
      RereadForgets(s, desired, env, name);
    } else {
      FinishOwner(s.client, s.disk, desired, env, s.now, name);
    }
  }

  lemma LostStepIff(s: State, e: Event, name: string)
    requires Enabled(s, e) && Lost(s, name) && !IsTmp(name)
    ensures Lost(Step(s, e), name) <==> !Recovers(s, e)
  {
    hide Finish, IsTmp, Rereads, MarkerGeneration;
    match e
    case Work(desired, env) => LostWork(s, desired, env, name);
    case _ =>
  }

  ghost predicate StaysLost(s: State, run: seq<Event>, k: nat, name: string)
    requires k <= |run|
  {
    Lost(StateAt(s, run, k), name) && (k > 0 ==> StaysLost(s, run, k - 1, name))
  }

  ghost predicate NeverRecovers(s: State, run: seq<Event>, k: nat)
    requires k <= |run|
  {
    k > 0 ==> NeverRecovers(s, run, k - 1) && !Recovers(StateAt(s, run, k - 1), run[k - 1])
  }

  // Over every run a lost rule stays lost, cached and not there, exactly until the client looks
  // again, however often its name is wanted.
  lemma {:induction false} LostUntilRecovery(s: State, run: seq<Event>, k: nat, name: string)
    requires k <= |run| && Feasible(s, run, k) && Lost(s, name) && !IsTmp(name)
    ensures StaysLost(s, run, k, name) <==> NeverRecovers(s, run, k)
  {
    hide Step, Enabled, Recovers, Lost, IsTmp;
    if k > 0 {
      LostUntilRecovery(s, run, k - 1, name);
      if StaysLost(s, run, k - 1, name) {
        LostNow(s, run, k - 1, name);
        LostStepIff(StateAt(s, run, k - 1), run[k - 1], name);
      }
    }
  }

  lemma LostNow(s: State, run: seq<Event>, k: nat, name: string)
    requires k <= |run| && StaysLost(s, run, k, name)
    ensures Lost(StateAt(s, run, k), name)
  {
  }

  // Looking again mends the whole cache, from any state.
  lemma RecoveryMends(s: State, e: Event)
    requires Enabled(s, e) && Recovers(s, e)
    ensures Coherent(Step(s, e).client, Step(s, e).disk.files)
  {
    hide Finish, IsTmp, Rereads, MarkerGeneration;
    match e
    case Work(desired, env) => RereadCoherent(s.client, s.disk, desired, env, s.now);
    case _ =>
  }

  // ---------- runs that end there ----------

  const CLEAN := Env(true, map[], map[], true, true)

  // Nothing on disk, no client.
  ghost predicate Blank(s: State) { s.phase == Down && s.disk.files == map[] && s.disk.heartbeat == Absent }

  // One name served: its rule is there, the cache names it, the heartbeat is `beat`.
  ghost predicate Serves(s: State, name: string, generation: string, beat: nat) {
    && s.client == Client(generation, false, map[name := name])
    && s.disk.files == map[name := MarkerLine(generation)]
    && s.disk.heartbeat == At(beat)
  }

  // A tick that installs its one name.
  lemma InstallsOne(c: Client, d: Disk, name: string, now: nat)
    requires Ordinary([name]) && !c.hold && c.installed == map[] && d.files == map[]
    ensures var (c', d') := Finish(c, d, [name], CLEAN, now);
      c' == c.(installed := map[name := name]) && d'.files == map[name := MarkerLine(c.generation)] &&
      d'.heartbeat == At(now)
  {
    hide MarkerGeneration, MarkerLine, TmpName, IsTmp, Listed;
    var files: Files := map[];
    var g := c.generation;
    assert name in [name];
    OwnedByMarker(g);
    assert ForeignNames(files) == {};
    KeepsOne(name);
    assert Gone(files, [name], g, map[], files.Keys) == {} == Reported(files, [name], g, map[], files.Keys);
    OneAdded(name, g);
    var after := map[name := MarkerLine(g)];
    assert CurrentRules(after, g) == map[name := name];
  }

  lemma KeepsOne(name: string)
    ensures Without([name], {}) == [name]
  {
    assert Without([name][1..], {}) == [];
  }

  lemma OneAdded(name: string, generation: string)
    ensures AddedAll(map[], [name], generation, map[]) == (map[name := MarkerLine(generation)], 1)
  {
    hide MarkerLine, TmpName;
    assert AddedAll(map[], [name][..0], generation, map[]) == (map[], 0);
    var none: Files := map[];
    assert (none - {TmpName(name)})[name := MarkerLine(generation)] == map[name := MarkerLine(generation)];
  }

  // A client starts on a blank disk and installs a name.
  function Opening(name: string, generation: string): seq<Event> {
    [Restart(generation), Start(true, generation), Work([name], CLEAN), Beat]
  }

  lemma OpeningServes(s: State, name: string, generation: string, run: seq<Event>)
    requires Blank(s) && Ordinary([name]) && Opening(name, generation) <= run
    ensures Feasible(s, run, 4)
    ensures var t := StateAt(s, run, 3);
      t.phase == Worked && t.client == Client(generation, false, map[name := name]) && t.now == s.now &&
      t.disk.files == map[name := MarkerLine(generation)] && t.disk.heartbeat == Absent
    ensures var t := StateAt(s, run, 4); Serves(t, name, generation, s.now) && t.phase == Idle && t.now == s.now
  {
    hide Finish, MarkerLine;
    assert run[0] == Restart(generation) && run[1] == Start(true, generation);
    assert run[2] == Work([name], CLEAN) && run[3] == Beat;
    assert StateAt(s, run, 0) == s && Feasible(s, run, 0);
    GoesOn(s, run, 0);
    var s1 := StateAt(s, run, 1);
    assert s1 == s.(client := Client(generation, false, map[]), phase := Idle);
    GoesOn(s, run, 1);
    var s2 := StateAt(s, run, 2);
    assert s2 == s1.(phase := MidTick);
    GoesOn(s, run, 2);
    GoesOn(s, run, 3);
    InstallsOne(s2.client, s2.disk, name, s2.now);
  }

  // Half a second past the 25: the watchdog takes the rule, and the client, at no time stale in
  // its own eyes, keeps the name in its cache. From here WipedForGood applies.
  lemma WindowRun(s: State, name: string, generation: string)
    requires Blank(s) && Ordinary([name])
    ensures var run := Opening(name, generation) + [Advance(25_500_000), Watchdog(true, map[])];
      var t := StateAt(s, run, 6);
      Feasible(s, run, 6) && InWindow(StateAt(s, run, 5)) && !StaleAt(t.disk.heartbeat, t.now) &&
      !CoherentOrClearing(t) && Wiped(t) && t.client.installed == map[name := name]
  {
    hide Step, MarkerLine, IsTmp, Listed, CoherentOrClearing, Wiped;
    var run := Opening(name, generation) + [Advance(25_500_000), Watchdog(true, map[])];
    OpeningServes(s, name, generation, run);
    ServingAdvances(StateAt(s, run, 4), name, generation, s.now, 25_500_000);
    GoesOn(s, run, 4);
    var u := StateAt(s, run, 5);
    WindowOpen(u, s.now);
    GoesOn(s, run, 5);
    RuleTaken(u, name, generation, s.now);
  }

  // However long it runs on, healthy in its own eyes, the rule is never put back.
  lemma WindowLosesForGood(s: State, name: string, generation: string, more: seq<Event>, k: nat)
    requires Blank(s) && Ordinary([name]) && k <= |more|
    requires var run := Opening(name, generation) + [Advance(25_500_000), Watchdog(true, map[])];
      HealthyRun(StateAt(s, run, 6), more, k)
    ensures var t := StateAt(s, Opening(name, generation) + [Advance(25_500_000), Watchdog(true, map[])], 6);
      !Owned(StateAt(t, more, k).disk.files, name) && name in StateAt(t, more, k).client.installed
  {
    hide Step, MarkerLine, IsTmp, Listed, CoherentOrClearing, HealthyRun;
    WindowRun(s, name, generation);
    WipedForGood(StateAt(s, Opening(name, generation) + [Advance(25_500_000), Watchdog(true, map[])], 6), more, k);
  }

  lemma ServingAdvances(s: State, name: string, generation: string, beat: nat, micros: nat)
    requires Serves(s, name, generation, beat)
    ensures var t := Step(s, Advance(micros));
      Serves(t, name, generation, beat) && t.now == s.now + micros && t.phase == s.phase && Enabled(s, Advance(micros))
  {
  }

  lemma WindowOpen(s: State, beat: nat)
    requires s.disk.heartbeat == At(beat) && s.now == beat + 25_500_000
    ensures InWindow(s)
  {
    assert 25_500_000 / MICROS == 25;
  }

  // A working check while the heartbeat is stale to it takes the one rule there is.
  lemma RuleTaken(s: State, name: string, generation: string, beat: nat)
    requires Serves(s, name, generation, beat) && Ordinary([name]) && s.phase != Down
    requires HeartbeatStale(At(beat), s.now) && beat <= s.now
    ensures var t := Step(s, Watchdog(true, map[]));
      Wiped(t) && t.client == s.client && t.phase == s.phase && t.disk.heartbeat == At(beat) && t.now == s.now
    ensures InTick(s) || !StaleAt(At(beat), s.now) ==> !CoherentOrClearing(Step(s, Watchdog(true, map[])))
  {
    hide IsTmp, MarkerLine, Listed;
    assert name in [name];
    OwnedByMarker(generation);
    CheckWipes(s);
    var t := Step(s, Watchdog(true, map[]));
    assert !Owned(t.disk.files, name);
    if InTick(s) || !StaleAt(At(beat), s.now) {
      assert name in t.client.installed && OwnerIn(t.disk.files, name).None?;
      assert !Coherent(t.client, t.disk.files);
    }
  }

  // A tick that starts at ten seconds and hangs for twenty: the check takes the rule, the tick
  // goes on and puts nothing back.
  lemma MidTickRun(s: State, name: string, generation: string)
    requires Blank(s) && Ordinary([name])
    ensures var run := Opening(name, generation) +
                       [Advance(10_000_000), Start(true, generation), Advance(20_000_000), Watchdog(true, map[]),
                        Work([name], CLEAN), Beat];
      Feasible(s, run, 10) && !CoherentOrClearing(StateAt(s, run, 8)) && !CoherentOrClearing(StateAt(s, run, 10)) &&
      Wiped(StateAt(s, run, 10)) && StateAt(s, run, 10).client.installed == map[name := name]
  {
    hide Step, MarkerLine, IsTmp, Listed, CoherentOrClearing, Wiped;
    var run := Opening(name, generation) +
      [Advance(10_000_000), Start(true, generation), Advance(20_000_000), Watchdog(true, map[]),
       Work([name], CLEAN), Beat];
    OpeningServes(s, name, generation, run);
    ServingAdvances(StateAt(s, run, 4), name, generation, s.now, 10_000_000);
    GoesOn(s, run, 4);
    ServingStarts(StateAt(s, run, 5), name, generation, s.now);
    GoesOn(s, run, 5);
    ServingAdvances(StateAt(s, run, 6), name, generation, s.now, 20_000_000);
    GoesOn(s, run, 6);
    RuleTaken(StateAt(s, run, 7), name, generation, s.now);
    GoesOn(s, run, 7);
    WorkPutsNothingBack(StateAt(s, run, 8), name);
    GoesOn(s, run, 8);
    BeatPutsNothingBack(StateAt(s, run, 9), name);
    GoesOn(s, run, 9);
  }

  // The very first tick: until it has written a heartbeat every check finds none, however often
  // it looks, and takes the rule just installed. The client then beats on over an empty store.
  lemma FirstTickRun(s: State, name: string, generation: string)
    requires Blank(s) && Ordinary([name])
    ensures var run := [Restart(generation), Start(true, generation), Work([name], CLEAN), Watchdog(true, map[]), Beat];
      Feasible(s, run, 5) && !CoherentOrClearing(StateAt(s, run, 5)) && Wiped(StateAt(s, run, 5)) &&
      StateAt(s, run, 5).client.installed == map[name := name]
  {
    hide Step, MarkerLine, IsTmp, Listed, CoherentOrClearing, Wiped;
    var first := Opening(name, generation);
    var run := [Restart(generation), Start(true, generation), Work([name], CLEAN), Watchdog(true, map[]), Beat];
    OpeningServes(s, name, generation, first);
    SameStart(s, first, run, 3);
    JustInstalledTaken(StateAt(s, run, 3), name, generation);
    GoesOn(s, run, 3);
    BeatPutsNothingBack(StateAt(s, run, 4), name);
    GoesOn(s, run, 4);
  }

  // Reading the heartbeat once more before removing does not help: a check that finds none after
  // the first installs takes the rule although the heartbeat is written before it gets there.
  lemma StraddlingCheckRun(s: State, name: string, generation: string)
    requires Blank(s) && Ordinary([name])
    ensures var run := [Restart(generation), Start(true, generation), Work([name], CLEAN),
                        Look, Beat, Sweep(true, map[])];
      Feasible(s, run, 6) && !HeartbeatStale(StateAt(s, run, 5).disk.heartbeat, StateAt(s, run, 5).now) &&
      !CoherentOrClearing(StateAt(s, run, 6)) && Lost(StateAt(s, run, 6), name)
  {
    hide Step, MarkerLine, IsTmp, Listed, CoherentOrClearing, Lost;
    var first := Opening(name, generation);
    var run := [Restart(generation), Start(true, generation), Work([name], CLEAN), Look, Beat, Sweep(true, map[])];
    OpeningServes(s, name, generation, first);
    SameStart(s, first, run, 3);
    LooksThenBeats(StateAt(s, run, 3));
    GoesOn(s, run, 3);
    GoesOn(s, run, 4);
    SweepTakes(StateAt(s, run, 5), name, generation);
    GoesOn(s, run, 5);
  }

  lemma LooksThenBeats(s: State)
    requires s.phase == Worked && s.disk.heartbeat == Absent
    ensures Enabled(s, Look) && Enabled(Step(s, Look), Beat)
    ensures Step(Step(s, Look), Beat) == s.(armed := true, disk := s.disk.(heartbeat := At(s.now)), phase := Idle)
  {
  }

  lemma SweepTakes(s: State, name: string, generation: string)
    requires Serves(s, name, generation, s.now) && s.phase == Idle && s.armed && Ordinary([name])
    ensures var e := Sweep(true, map[]); Enabled(s, e) && Lost(Step(s, e), name) && !CoherentOrClearing(Step(s, e))
  {
    hide MarkerLine, IsTmp, Listed;
    assert name in [name];
    OwnedByMarker(generation);
    assert FaultOf(map[], name) == Clean;
    StepCoherentIff(s, Sweep(true, map[]));
  }

  lemma {:induction false} SameStart(s: State, x: seq<Event>, y: seq<Event>, k: nat)
    requires k <= |x| && k <= |y| && x[..k] == y[..k]
    ensures StateAt(s, x, k) == StateAt(s, y, k) && (Feasible(s, x, k) <==> Feasible(s, y, k))
  {
    hide Step, Enabled;
    if k > 0 {
      assert x[..k - 1] == x[..k][..k - 1] == y[..k][..k - 1] == y[..k - 1];
      assert x[k - 1] == x[..k][k - 1] == y[..k][k - 1] == y[k - 1];
      SameStart(s, x, y, k - 1);
    }
  }

  lemma JustInstalledTaken(s: State, name: string, generation: string)
    requires s.phase == Worked && s.client == Client(generation, false, map[name := name]) && Ordinary([name])
    requires s.disk.files == map[name := MarkerLine(generation)] && s.disk.heartbeat == Absent
    ensures var t := Step(s, Watchdog(true, map[])); Wiped(t) && t.client == s.client && t.phase == Worked
    ensures Enabled(s, Watchdog(true, map[]))
  {
    hide MarkerLine, Listed, IsTmp;
    assert name in [name];
    CheckWipes(s);
  }

  lemma ServingStarts(s: State, name: string, generation: string, beat: nat)
    requires Serves(s, name, generation, beat) && s.phase == Idle && s.now == beat + 10_000_000
    ensures var t := Step(s, Start(true, generation));
      Serves(t, name, generation, beat) && t.phase == MidTick && t.now == s.now && Enabled(s, Start(true, generation))
  {
    assert 10_000_000 / MICROS == 10;
  }

  lemma WorkPutsNothingBack(s: State, name: string)
    requires s.phase == MidTick && Wiped(s) && s.client.installed == map[name := name] && Ordinary([name])
    ensures var t := Step(s, Work([name], CLEAN));
      Enabled(s, Work([name], CLEAN)) && Wiped(t) && t.client == s.client && t.phase == Worked
  {
    hide Finish, IsTmp, Listed;
    assert name in [name];
    WipedFinish(s.client, s.disk, [name], CLEAN, s.now);
  }

  lemma BeatPutsNothingBack(s: State, name: string)
    requires s.phase == Worked && Wiped(s) && s.client.installed == map[name := name] && Ordinary([name])
    ensures var t := Step(s, Beat);
      Enabled(s, Beat) && Wiped(t) && t.client == s.client && !CoherentOrClearing(t)
  {
    hide IsTmp, Listed;
    assert name in [name];
    var t := Step(s, Beat);
    assert !Owned(t.disk.files, name);
    assert !Coherent(t.client, t.disk.files);
    assert !WillClear(t);
  }

  // The last name is withdrawn, and its removal takes effect after it was given up on: the rule
  // is gone, the cache keeps the name, and should it be wanted again it is never installed.
  lemma LateRemovalRun(s: State, name: string, generation: string)
    requires Blank(s) && Ordinary([name])
    ensures var run := Opening(name, generation) +
                       [Advance(10_000_000), Start(true, generation), Work([], LateRemoval(name)), Beat];
      Feasible(s, run, 8) && !CoherentOrClearing(StateAt(s, run, 7)) && !CoherentOrClearing(StateAt(s, run, 8)) &&
      Wiped(StateAt(s, run, 8)) && StateAt(s, run, 8).client.installed == map[name := name]
  {
    hide Step, MarkerLine, IsTmp, Listed, CoherentOrClearing, Wiped;
    var run := Opening(name, generation) +
      [Advance(10_000_000), Start(true, generation), Work([], LateRemoval(name)), Beat];
    OpeningServes(s, name, generation, run);
    ServingAdvances(StateAt(s, run, 4), name, generation, s.now, 10_000_000);
    GoesOn(s, run, 4);
    ServingStarts(StateAt(s, run, 5), name, generation, s.now);
    GoesOn(s, run, 5);
    var t := StateAt(s, run, 6);
    assert name in [name];
    OwnsOnly(t, name, generation, s.now);
    WorkEnabled(t, [], LateRemoval(name));
    GoesOn(s, run, 6);
    LateRemovalBreaks(t, name);
    BeatPutsNothingBack(StateAt(s, run, 7), name);
    GoesOn(s, run, 7);
  }

  lemma WorkEnabled(s: State, desired: seq<string>, env: Env)
    requires s.phase == MidTick
    ensures Enabled(s, Work(desired, env)) && Step(s, Work(desired, env)).phase == Worked
  {
    hide Finish;
  }

  lemma OwnsOnly(s: State, name: string, generation: string, beat: nat)
    requires Serves(s, name, generation, beat) && beat <= s.now
    ensures OwnerIn(s.disk.files, name) == Some(generation)
    ensures forall n :: n != name ==> !Owned(s.disk.files, n)
  {
    OwnedByMarker(generation);
  }

  // ---------- the first tick and the hold ----------

  // The heartbeat file outlives the process, so the first tick after a start is stale exactly
  // like any other.
  lemma FirstTickStaleIff(s: State, generation: string, fetchOk: bool, minted: string)
    ensures Step(Step(s, Restart(generation)), Start(fetchOk, minted)).client.hold <==> StaleAt(s.disk.heartbeat, s.now)
  {
  }

  // While the hold is on the cache is empty.
  lemma HeldStep(s: State, e: Event)
    requires Enabled(s, e) && (s.client.hold ==> s.client.installed == map[])
    ensures var t := Step(s, e); t.client.hold ==> t.client.installed == map[]
  {
  }

  lemma {:induction false} HeldCacheEmpty(s: State, run: seq<Event>, k: nat)
    requires k <= |run| && Feasible(s, run, k) && (s.client.hold ==> s.client.installed == map[])
    ensures var t := StateAt(s, run, k); t.client.hold ==> t.client.installed == map[]
  {
    hide Step, Enabled;
    if k > 0 {
      HeldCacheEmpty(s, run, k - 1);
      HeldStep(StateAt(s, run, k - 1), run[k - 1]);
    }
  }

  // ---------- cleanup in time ----------

  // The client has stopped stepping; the watchdog's calls work and it is never overdue.
  ghost predicate Stopped(s: State, e: Event, period: nat) {
    && Enabled(s, e)
    && match e
       case Watchdog(enumerates, faults) => enumerates && forall n :: FaultOf(faults, n) in {Clean, Late}
       case Advance(micros) => s.now + micros <= s.checked + period
       case Look => true
       case Sweep(_, _) => true
       case ForeignWrite(_, _) => true
       case ForeignDelete(_) => true
       case _ => false
  }

  ghost predicate StoppedRun(s: State, run: seq<Event>, k: nat, period: nat)
    requires k <= |run|
  {
    k == 0 || (StoppedRun(s, run, k - 1, period) && Stopped(StateAt(s, run, k - 1), run[k - 1], period))
  }

  // The moment after which a watchdog check must clean.
  function Deadline(s: State): nat {
    match s.disk.heartbeat
    case At(t) => Max(s.now, t + STALENESS_MICROS)
    case _ => s.now
  }

  lemma CheckCleans(files: Files, heartbeat: Heartbeat, now: nat, faults: map<string, Fault>)
    requires HeartbeatStale(heartbeat, now) && forall n :: FaultOf(faults, n) in {Clean, Late}
    ensures OwnedRules(Checked(files, heartbeat, now, true, faults)) == map[]
  {
  }

  lemma SweepKeepsClean(files: Files, enumerates: bool, faults: map<string, Fault>)
    requires OwnedRules(files) == map[]
    ensures OwnedRules(RemovedAllTagged(files, enumerates, faults)) == map[]
  {
    forall n
      ensures n !in OwnedRules(RemovedAllTagged(files, enumerates, faults))
    {
      assert n !in OwnedRules(files);
    }
  }

  lemma ForeignKeepsClean(files: Files, name: string, line: string)
    requires OwnedRules(files) == map[] && !Owned(files, name)
    ensures MarkerGeneration(line).None? ==> OwnedRules(files[name := line]) == map[]
    ensures OwnedRules(files - {name}) == map[]
  {
    forall n
      ensures MarkerGeneration(line).None? ==> n !in OwnedRules(files[name := line])
      ensures n !in OwnedRules(files - {name})
    {
      assert n !in OwnedRules(files);
    }
  }

  lemma {:induction false} StoppedInvariant(s: State, run: seq<Event>, k: nat, period: nat)
    requires k <= |run| && StoppedRun(s, run, k, period) && s.checked <= s.now <= s.checked + period
    ensures var t := StateAt(s, run, k);
            && t.disk.heartbeat == s.disk.heartbeat
            && t.checked <= t.now <= t.checked + period
            && (t.checked > Deadline(s) ==> OwnedRules(t.disk.files) == map[])
  {
    hide OwnedRules, Checked;
    if k > 0 {
      StoppedInvariant(s, run, k - 1, period);
      var t := StateAt(s, run, k - 1);
      match run[k - 1]
      case Watchdog(_, faults) =>
        if t.now > Deadline(s) {
          CheckCleans(t.disk.files, t.disk.heartbeat, t.now, faults);
        }
      case Sweep(enumerates, faults) =>
        if t.checked > Deadline(s) {
          SweepKeepsClean(t.disk.files, enumerates, faults);
        }
      case ForeignWrite(name, line) =>
        if t.checked > Deadline(s) {
          ForeignKeepsClean(t.disk.files, name, line);
        }
      case ForeignDelete(name) =>
        if t.checked > Deadline(s) {
          ForeignKeepsClean(t.disk.files, name, "");
        }
      case _ =>
    }
  }

  // Once the client stops, dead or hung, no owned rule is left later than one watchdog
  // period after the stop or the heartbeat's 25 seconds, whichever comes last.
  lemma CleanedInTime(s: State, run: seq<Event>, k: nat)
    requires k <= |run| && StoppedRun(s, run, k, WATCHDOG_PERIOD)
    requires s.checked <= s.now <= s.checked + WATCHDOG_PERIOD
    requires StateAt(s, run, k).now > Deadline(s) + WATCHDOG_PERIOD
    ensures OwnedRules(StateAt(s, run, k).disk.files) == map[]
  {
    StoppedInvariant(s, run, k, WATCHDOG_PERIOD);
  }

  // ---------- no false cleaning ----------

  // Time never passes beyond 25 seconds after the last heartbeat.
  ghost predicate LiveRun(s: State, run: seq<Event>, k: nat)
    requires k <= |run|
  {
    k == 0 ||
    (LiveRun(s, run, k - 1) && Enabled(StateAt(s, run, k - 1), run[k - 1]) &&
     (run[k - 1].Advance? ==>
        var t := StateAt(s, run, k - 1);
        t.disk.heartbeat.At? && t.now + run[k - 1].micros <= t.disk.heartbeat.micros + STALENESS_MICROS))
  }

  // A client whose heartbeat is kept within 25 seconds never loses a rule to the watchdog,
  // whatever the interleaving.
  lemma {:induction false} LiveClientNeverCleaned(s: State, run: seq<Event>, k: nat)
    requires k <= |run| && LiveRun(s, run, k)
    requires s.disk.heartbeat.At? && s.now <= s.disk.heartbeat.micros + STALENESS_MICROS && !s.armed
    ensures var t := StateAt(s, run, k);
            t.disk.heartbeat.At? && t.now <= t.disk.heartbeat.micros + STALENESS_MICROS && !t.armed
    ensures k < |run| && (run[k].Watchdog? || run[k].Sweep?) ==>
              Step(StateAt(s, run, k), run[k]).disk.files == StateAt(s, run, k).disk.files
  {
    hide Begin;
    if k > 0 {
      LiveClientNeverCleaned(s, run, k - 1);
      var t := StateAt(s, run, k - 1);
      match run[k - 1]
      case Work(desired, env) => WorkKeepsHeartbeat(t, desired, env);
      case _ =>
    }
  }
}
