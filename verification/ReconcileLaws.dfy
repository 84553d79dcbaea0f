// What one reconcile cycle achieves, and what the no-install hold guarantees over histories.
module ReconcileLaws {
  import opened Prelude
  import opened ResolverFiles
  import opened Reconcile

  // The owned rules and their generations.
  function OwnedRules(files: Files): map<string, string> {
    map n | n in files && Listed(n) && Owned(files, n) :: OwnerIn(files, n).value
  }

  // Every channel call of the tick works.
  ghost predicate ErrorFree(env: Env) {
    && env.enumerates && env.reenumerates
    && forall n :: FaultOf(env.remove, n) == Clean && FaultOf(env.add, n) == Clean
  }

  // Names that the directory lists and that no temporary file shares.
  ghost predicate Ordinary(names: seq<string>) { forall n :: n in names ==> Listed(n) && !IsTmp(n) }

  ghost function TmpNames(names: seq<string>): set<string> { set n | n in names :: TmpName(n) }

  ghost function Marked(names: seq<string>, generation: string): Files {
    map n | n in names :: MarkerLine(generation)
  }

  lemma OwnedByMarker(generation: string)
    ensures MarkerGeneration(MarkerLine(generation)) == Some(generation)
  {
    MarkerIdentifies(MarkerLine(generation), generation);
  }

  // ---------- adding ----------

  // Adding ordinary, unrefused names: each becomes a rule of the generation, and what goes
  // is exactly the files named like their temporary files.
  lemma {:induction false} AddedAllResult(
    files: Files, names: seq<string>, generation: string, faults: map<string, Fault>)
    requires forall n :: FaultOf(faults, n) == Clean
    requires Ordinary(names) && forall n :: n in names ==> !Foreign(files, n)
    ensures AddedAll(files, names, generation, faults) ==
            ((files - TmpNames(names)) + Marked(names, generation), |names|)
  {
    hide Added, Marked, TmpNames, MarkerLine, IsTmp, Listed;
    if names == [] {
      NothingAdded(files, generation);
    } else {
      var front, last := names[..|names| - 1], names[|names| - 1];
      FrontOrdinary(files, names);
      AddedAllResult(files, front, generation, faults);
      AddOneMore(files, front, last, generation);
    }
  }

  lemma NothingAdded(files: Files, generation: string)
    ensures (files - TmpNames([])) + Marked([], generation) == files
  {
    assert TmpNames([]) == {} && Marked([], generation) == map[];
    assert (files - {}) + map[] == files;
  }

  lemma FrontOrdinary(files: Files, names: seq<string>)
    requires names != [] && Ordinary(names) && forall n :: n in names ==> !Foreign(files, n)
    ensures var front := names[..|names| - 1];
      names == front + [names[|names| - 1]] && Ordinary(front) && names[|names| - 1] in names &&
      forall n :: n in front ==> !Foreign(files, n)
  {
    assert forall n :: n in names[..|names| - 1] ==> n in names;
  }

  lemma AddOneMore(files: Files, front: seq<string>, last: string, generation: string)
    requires Ordinary(front + [last]) && !Foreign(files, last)
    ensures var before := (files - TmpNames(front)) + Marked(front, generation);
            Added(before, last, generation, Clean) ==
            ((files - TmpNames(front + [last])) + Marked(front + [last], generation), true)
  {
    hide MarkerGeneration, MarkerLine, TmpName, TmpNames, IsTmp;
    var before := (files - TmpNames(front)) + Marked(front, generation);
    OwnedByMarker(generation);
    TmpNamesAppend(front, last);
    assert last in front + [last];
    NotATmpName(front, last);
    NotATmpName([last], last);
    forall n | n in front ensures n != TmpName(last) {
      assert n in front + [last];
      NotATmpName([last], n);
    }
    var after := (files - TmpNames(front + [last])) + Marked(front + [last], generation);
    assert (before - {TmpName(last)})[last := MarkerLine(generation)] == after;
  }

  lemma TmpNamesAppend(front: seq<string>, last: string)
    ensures TmpNames(front + [last]) == TmpNames(front) + {TmpName(last)}
    ensures forall n :: n in front + [last] <==> n in front || n == last
  {
  }

  // ---------- convergence ----------

  // Every wanted name in the cache still has an owned rule, of whatever generation.
  ghost predicate Backed(c: Client, files: Files, wanted: seq<string>) {
    forall n :: n in wanted && n in c.installed ==> Owned(files, n)
  }

  ghost function Tagged(names: seq<string>, generation: string): map<string, string> {
    map n | n in names :: generation
  }

  lemma RemovalsResult(c: Client, files: Files, wanted: seq<string>, env: Env)
    requires ErrorFree(env)
    ensures var p := Removals(c, files, wanted, env);
            && p.files == files - (set n | n in files && Doomed(files, wanted, c.generation, n))
            && (forall n :: n in p.installed <==> n in c.installed && !Doomed(files, wanted, c.generation, n))
            && (forall n :: n in p.installed ==> p.installed[n] == c.installed[n])
            && (p.changed <==> exists n :: Doomed(files, wanted, c.generation, n))
  {
    var gone := Gone(files, wanted, c.generation, env.remove, files.Keys);
    assert gone == set n | n in files && Doomed(files, wanted, c.generation, n);
    assert gone == Reported(files, wanted, c.generation, env.remove, files.Keys);
    if n :| Doomed(files, wanted, c.generation, n) {
      assert n in gone;
    }
  }

  // The directory after an error-free pass that may install.
  ghost function Converged(c: Client, files: Files, wanted: seq<string>, missing: seq<string>): Files {
    ((files - (set n | n in files && Doomed(files, wanted, c.generation, n))) - TmpNames(missing))
    + Marked(missing, c.generation)
  }

  lemma WantedNotForeign(files: Files, desired: seq<string>)
    requires Ordinary(desired)
    ensures var wanted := Wanted(files, desired);
            Ordinary(wanted) && forall n :: n in wanted ==> !Foreign(files, n)
  {
  }

  lemma PassResult(c: Client, files: Files, desired: seq<string>, env: Env)
    requires ErrorFree(env) && !c.hold && Ordinary(desired)
    ensures var wanted := Wanted(files, desired);
            var p := Removals(c, files, wanted, env);
            var missing := Missing(wanted, p.installed);
            var q := Installs(c, p, wanted, env);
            && q.files == Converged(c, files, wanted, missing)
            && (q.changed <==> p.changed || missing != [])
            && q.installed == if q.changed then CurrentRules(q.files, c.generation) else p.installed
  {
    hide Wanted, Doomed, AddedAll;
    var wanted := Wanted(files, desired);
    WantedNotForeign(files, desired);
    RemovalsResult(c, files, wanted, env);
    var p := Removals(c, files, wanted, env);
    var missing := Missing(wanted, p.installed);
    AddedAllResult(p.files, missing, c.generation, env.add);
  }

  // Which rules the pass leaves owned.
  lemma ConvergedOwned(c: Client, files: Files, wanted: seq<string>, missing: seq<string>, n: string)
    requires Ordinary(wanted) && forall m :: m in missing ==> m in wanted
    ensures n in OwnedRules(Converged(c, files, wanted, missing)) <==>
            n in missing || (n in wanted && OwnerIn(files, n) == Some(c.generation))
    ensures n in OwnedRules(Converged(c, files, wanted, missing)) ==>
            OwnedRules(Converged(c, files, wanted, missing))[n] == c.generation
  {
    OwnedByMarker(c.generation);
    if n in wanted {
      NotATmpName(missing, n);
    }
  }

  lemma NotATmpName(names: seq<string>, n: string)
    requires !IsTmp(n)
    ensures n !in TmpNames(names)
    ensures forall m :: m in names ==> n != TmpName(m)
  {
    forall m | m in names ensures n != TmpName(m) {
      TmpNameIsTmp(m);
    }
  }

  // One error-free tick that may install leaves the owned rules equal to the wanted names
  // under the current generation - exactly when the cache is backed. The tick trusts the
  // cache, so a cached name whose rule is gone is not put back.
  lemma TickConvergesIffBacked(c: Client, d: Disk, desired: seq<string>, env: Env, now: nat)
    requires ErrorFree(env) && !c.hold && Ordinary(desired)
    ensures var wanted := Wanted(d.files, desired);
            OwnedRules(Finish(c, d, desired, env, now).1.files) == Tagged(wanted, c.generation)
            <==> Backed(c, d.files, wanted)
  {
    hide Wanted, CurrentRules, Installs, Converged, OwnedRules, Removals;
    var wanted := Wanted(d.files, desired);
    WantedNotForeign(d.files, desired);
    RemovalsResult(c, d.files, wanted, env);
    PassResult(c, d.files, desired, env);
    var missing := Missing(wanted, Removals(c, d.files, wanted, env).installed);
    var after := Converged(c, d.files, wanted, missing);
    forall n
      ensures n in OwnedRules(after) <==> n in missing || (n in wanted && OwnerIn(d.files, n) == Some(c.generation))
      ensures n in OwnedRules(after) ==> OwnedRules(after)[n] == c.generation
      ensures n in missing <==> n in wanted && !(n in c.installed && !Doomed(d.files, wanted, c.generation, n))
    {
      ConvergedOwned(c, d.files, wanted, missing, n);
    }
    BackedMeansCovered(c, d.files, wanted);
    if Backed(c, d.files, wanted) {
      assert OwnedRules(after).Keys == Tagged(wanted, c.generation).Keys;
      assert OwnedRules(after) == Tagged(wanted, c.generation);
    } else {
      var n :| n in wanted && n in c.installed && !Owned(d.files, n);
      assert n !in OwnedRules(after) && n in Tagged(wanted, c.generation);
    }
  }

  lemma BackedMeansCovered(c: Client, files: Files, wanted: seq<string>)
    requires Ordinary(wanted)
    ensures Backed(c, files, wanted) <==>
            forall n :: n in wanted ==>
              !(n in c.installed && !Doomed(files, wanted, c.generation, n)) ||
              OwnerIn(files, n) == Some(c.generation)
  {
  }

  // Foreign files survive the tick unless they are named like a missing name's temporary file,
  // and then they are gone: written over and renamed away.
  lemma TickSparesForeign(c: Client, d: Disk, desired: seq<string>, env: Env, now: nat, name: string)
    requires ErrorFree(env) && !c.hold && Ordinary(desired) && Foreign(d.files, name)
    ensures var wanted := Wanted(d.files, desired);
            var missing := Missing(wanted, Removals(c, d.files, wanted, env).installed);
            var after := Finish(c, d, desired, env, now).1.files;
            ((name in after && after[name] == d.files[name]) <==> name !in TmpNames(missing)) &&
            (name in after <==> name !in TmpNames(missing))
  {
    hide Removals, Installs;
    PassResult(c, d.files, desired, env);
    WantedNotForeign(d.files, desired);
    OwnedByMarker(c.generation);
  }

  // So an error-free tick removes a torn temporary file, or somebody's rule of that name, if and
  // only if it adds a name that goes by way of it.
  lemma TornFileSwept(c: Client, d: Disk, desired: seq<string>, env: Env, now: nat, fqdn: string)
    requires ErrorFree(env) && !c.hold && Ordinary(desired) && Foreign(d.files, TmpName(fqdn))
    ensures TmpName(fqdn) !in Finish(c, d, desired, env, now).1.files <==>
            exists n :: n in InstallCalls(c, d, desired, env) && TmpName(n) == TmpName(fqdn)
  {
    hide Finish, TmpName, Removals, Wanted;
    TickSparesForeign(c, d, desired, env, now, TmpName(fqdn));
  }

  // The cache names exactly rules of the current generation.
  ghost predicate CacheExact(c: Client, files: Files) {
    forall n :: n in c.installed ==>
      c.installed[n] == n && n in files && Listed(n) && OwnerIn(files, n) == Some(c.generation)
  }

  // From an exact cache the tick also leaves the cache equal to the wanted names, and a
  // second tick on the same inputs calls neither add nor remove.
  lemma TickSettles(c: Client, d: Disk, desired: seq<string>, env: Env, now: nat)
    requires ErrorFree(env) && !c.hold && Ordinary(desired) && CacheExact(c, d.files)
    ensures var (c', d') := Finish(c, d, desired, env, now);
            var wanted := Wanted(d.files, desired);
            && OwnedRules(d'.files) == Tagged(wanted, c.generation)
            && c' == c.(installed := map n | n in wanted :: n)
  {
    hide Wanted, CurrentRules, Installs, Converged, Removals;
    var wanted := Wanted(d.files, desired);
    TickConvergesIffBacked(c, d, desired, env, now);
    RemovalsResult(c, d.files, wanted, env);
    PassResult(c, d.files, desired, env);
    var p := Removals(c, d.files, wanted, env);
    var q := Installs(c, p, wanted, env);
    assert Backed(c, d.files, wanted);
    if q.changed {
      CurrentAreOwned(q.files, c.generation, wanted);
    } else {
      NothingChanged(c, d.files, wanted, p);
    }
  }

  lemma CurrentAreOwned(files: Files, generation: string, wanted: seq<string>)
    requires OwnedRules(files) == Tagged(wanted, generation)
    ensures CurrentRules(files, generation) == map n | n in wanted :: n
  {
    forall n ensures n in CurrentRules(files, generation) <==> n in wanted {
      assert n in OwnedRules(files) <==> n in Tagged(wanted, generation);
    }
  }

  lemma NothingChanged(c: Client, files: Files, wanted: seq<string>, p: Pass)
    requires CacheExact(c, files) && Missing(wanted, p.installed) == []
    requires forall n :: !Doomed(files, wanted, c.generation, n)
    requires forall n :: n in p.installed <==> n in c.installed && !Doomed(files, wanted, c.generation, n)
    requires forall n :: n in p.installed ==> p.installed[n] == c.installed[n]
    ensures p.installed == map n | n in wanted :: n
  {
    forall n ensures n in p.installed <==> n in wanted {
      assert n in Missing(wanted, p.installed) <==> n in wanted && n !in p.installed;
    }
  }

  lemma SecondTickIdle(c: Client, d: Disk, desired: seq<string>, env: Env, env2: Env, now: nat, later: nat)
    requires ErrorFree(env) && ErrorFree(env2) && !c.hold && Ordinary(desired) && CacheExact(c, d.files)
    ensures var (c', d') := Finish(c, d, desired, env, now);
            && InstallCalls(c', d', desired, env2) == []
            && Finish(c', d', desired, env2, later).1.files == d'.files
            && Finish(c', d', desired, env2, later).0 == c'
  {
    hide Finish, Wanted, Installs, Removals;
    TickSettles(c, d, desired, env, now);
    var (c', d') := Finish(c, d, desired, env, now);
    WantedStable(c, d, desired, env, now);
    IdleWhenSettled(c', d', desired, env2, later);
  }

  // The names a second tick wants: no ordinary foreign rule came or went.
  lemma WantedStable(c: Client, d: Disk, desired: seq<string>, env: Env, now: nat)
    requires ErrorFree(env) && !c.hold && Ordinary(desired)
    ensures Wanted(Finish(c, d, desired, env, now).1.files, desired) == Wanted(d.files, desired)
  {
    hide Removals, Installs;
    var after := Finish(c, d, desired, env, now).1.files;
    PassResult(c, d.files, desired, env);
    WantedNotForeign(d.files, desired);
    OwnedByMarker(c.generation);
    var missing := Missing(Wanted(d.files, desired), Removals(c, d.files, Wanted(d.files, desired), env).installed);
    forall n | n in desired ensures n in ForeignNames(after) <==> n in ForeignNames(d.files) {
      NotATmpName(missing, n);
    }
    WithoutSame(desired, ForeignNames(after), ForeignNames(d.files));
  }

  lemma {:induction false} WithoutSame(s: seq<string>, a: set<string>, b: set<string>)
    requires forall n :: n in s ==> (n in a <==> n in b)
    ensures Without(s, a) == Without(s, b)
  {
    if s != [] {
      assert s[0] in s;
      WithoutSame(s[1..], a, b);
    }
  }

  lemma IdleWhenSettled(c: Client, d: Disk, desired: seq<string>, env: Env, now: nat)
    requires ErrorFree(env) && !c.hold
    requires var wanted := Wanted(d.files, desired);
             OwnedRules(d.files) == Tagged(wanted, c.generation) && c.installed == map n | n in wanted :: n
    ensures InstallCalls(c, d, desired, env) == []
    ensures Finish(c, d, desired, env, now).1.files == d.files
    ensures Finish(c, d, desired, env, now).0 == c
  {
    hide Wanted;
    var wanted := Wanted(d.files, desired);
    RemovalsResult(c, d.files, wanted, env);
    var p := Removals(c, d.files, wanted, env);
    forall n ensures !Doomed(d.files, wanted, c.generation, n) {
      assert n in OwnedRules(d.files) <==> n in Tagged(wanted, c.generation);
    }
    assert p.files == d.files && p.installed == c.installed && !p.changed;
    NoneMissing(wanted, c.installed);
  }

  lemma NoneMissing(wanted: seq<string>, installed: map<string, string>)
    requires forall n :: n in wanted ==> n in installed
    ensures Missing(wanted, installed) == []
  {
    HeadIsMember(Missing(wanted, installed));
  }

  // ---------- the no-install hold ----------

  predicate StaleAt(heartbeat: Heartbeat, now: nat) {
    var prev := PrevHeartbeatSecs(heartbeat, now);
    prev.Some? && prev.value > STALENESS_SECS
  }

  // An error-free stale tick leaves no owned rule at all: its generation is new, so every
  // owned rule is doomed, and the hold installs none.
  lemma StaleTickEmpties(
    c: Client, d: Disk, started: nat, fetchOk: bool, minted: string, desired: seq<string>, env: Env, now: nat)
    requires StaleAt(d.heartbeat, started) && ErrorFree(env)
    requires forall n :: OwnerIn(d.files, n) != Some(minted)
    ensures var begun := Begin(c, d.heartbeat, started, fetchOk, minted);
            && begun.hold && begun.generation == minted
            && InstallCalls(begun, d, desired, env) == []
            && OwnedRules(Finish(begun, d, desired, env, now).1.files) == map[]
            && Finish(begun, d, desired, env, now).0.installed == map[]
  {
    hide Wanted;
    var begun := Begin(c, d.heartbeat, started, fetchOk, minted);
    var wanted := Wanted(d.files, desired);
    RemovalsResult(begun, d.files, wanted, env);
    var p := Removals(begun, d.files, wanted, env);
    forall n ensures n !in OwnedRules(p.files) {
      assert n in d.files && Listed(n) && Owned(d.files, n) ==> Doomed(d.files, wanted, minted, n);
    }
    assert p.installed == map[];
  }

  // One cycle of a history. The disk before it is arbitrary: watchdogs and other software
  // may have acted since the last cycle.
  datatype Cycle = Cycle(
    started: nat, fetchOk: bool, minted: string, disk: Disk, desired: seq<string>, env: Env, finished: nat)

  // The client as cycle k's lease decision leaves it.
  function BegunAt(c: Client, history: seq<Cycle>, k: nat): Client
    requires k < |history|
  {
    var x := history[k];
    Begin(ClientAt(c, history, k), x.disk.heartbeat, x.started, x.fetchOk, x.minted)
  }

  function ClientAt(c: Client, history: seq<Cycle>, k: nat): Client
    requires k <= |history|
    decreases k, 0
  {
    if k == 0 then c
    else
      var x := history[k - 1];
      Finish(Begin(ClientAt(c, history, k - 1), x.disk.heartbeat, x.started, x.fetchOk, x.minted),
             x.disk, x.desired, x.env, x.finished).0
  }

  predicate StaleCycle(x: Cycle) { StaleAt(x.disk.heartbeat, x.started) }

  // A cycle that may lift a hold: its previous heartbeat is not stale (or is unknown) and
  // its fetch succeeded.
  predicate Heals(x: Cycle) { !StaleCycle(x) && x.fetchOk }

  // Cycle j was stale and no cycle after it, up to k, heals.
  ghost predicate UnhealedSince(history: seq<Cycle>, j: int, k: nat)
    requires k < |history|
  {
    0 <= j <= k && StaleCycle(history[j]) && forall i :: j < i <= k ==> !Heals(history[i])
  }

  // Over every history of a client: the hold is on in cycle k exactly when some stale cycle
  // has not been healed since. So a fresh heartbeat alone never lifts it.
  lemma {:induction false} HoldIffUnhealed(c: Client, history: seq<Cycle>, k: nat)
    requires k < |history| && !c.hold
    ensures BegunAt(c, history, k).hold <==> exists j :: UnhealedSince(history, j, k)
  {
    hide StaleCycle, Finish;
    var x := history[k];
    LeaseStep(ClientAt(c, history, k), x);
    if k > 0 {
      var prior: nat := k - 1;
      HoldIffUnhealed(c, history, prior);
      FinishKeepsLease(BegunAt(c, history, prior), history[prior]);
      if j :| UnhealedSince(history, j, prior) {
        assert !Heals(x) ==> UnhealedSince(history, j, k);
      }
    }
    assert StaleCycle(x) ==> UnhealedSince(history, k, k);
    if j :| UnhealedSince(history, j, k) {
      assert j < k ==> UnhealedSince(history, j, k - 1);
    }
  }

  lemma LeaseStep(c: Client, x: Cycle)
    ensures Begin(c, x.disk.heartbeat, x.started, x.fetchOk, x.minted).hold <==>
            StaleCycle(x) || (c.hold && !Heals(x))
  {
  }

  lemma FinishKeepsLease(c: Client, x: Cycle)
    ensures var after := Finish(c, x.disk, x.desired, x.env, x.finished).0;
            after.hold == c.hold && after.generation == c.generation
  {
  }

  // While a stale cycle is unhealed, no cycle calls add.
  lemma NoInstallWhileHeld(c: Client, history: seq<Cycle>, j: nat, k: nat)
    requires k < |history| && !c.hold && UnhealedSince(history, j, k)
    ensures InstallCalls(BegunAt(c, history, k), history[k].disk, history[k].desired, history[k].env) == []
  {
    HoldIffUnhealed(c, history, k);
  }
}
