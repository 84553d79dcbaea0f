// One reconcile cycle told name by name, from the files, the desired names, the cache and the
// fate of each call (client/src/splitdns/reconciler.rs).
module TickByName {
  import opened Prelude
  import opened ResolverFiles
  import opened Reconcile
  import opened ReconcileLaws

  // Somebody else's rule under this name.
  predicate Held(files: Files, n: string) {
    n in files && (n == "" || n[0] != '.') && MarkerGeneration(files[n]).None?
  }

  predicate Asked(files: Files, desired: seq<string>, n: string) { n in desired && !Held(files, n) }

  // A rule of ours that is not asked for, or is another generation's.
  predicate Unwanted(c: Client, files: Files, desired: seq<string>, n: string) {
    n in files && (n == "" || n[0] != '.') && MarkerGeneration(files[n]).Some? &&
    !(Asked(files, desired, n) && files[n] == MarkerLine(c.generation))
  }

  // Names that add is called for: asked for, and not in the cache or just reported removed.
  predicate CalledFor(c: Client, files: Files, desired: seq<string>, env: Env, n: string) {
    env.enumerates && !c.hold && Asked(files, desired, n) &&
    (n !in c.installed || (Unwanted(c, files, desired, n) && FaultOf(env.remove, n) == Clean))
  }

  // Some call of the cycle reported success.
  ghost predicate Changes(c: Client, files: Files, desired: seq<string>, env: Env) {
    exists n :: (Unwanted(c, files, desired, n) && FaultOf(env.remove, n) == Clean) ||
                (CalledFor(c, files, desired, env, n) && FaultOf(env.add, n) == Clean)
  }

  // ---------- the parts of a cycle by name ----------

  // The names a cycle wants are the desired ones, in their order, that nobody else's rule holds.
  lemma {:induction false} WantedAre(files: Files, desired: seq<string>, more: string)
    ensures Wanted(files, []) == []
    ensures Wanted(files, desired + [more]) == Wanted(files, desired) + if Held(files, more) then [] else [more]
    ensures forall n :: n in Wanted(files, desired) <==> Asked(files, desired, n)
  {
    if desired != [] {
      assert (desired + [more])[0] == desired[0] && (desired + [more])[1..] == desired[1..] + [more];
      WantedAre(files, desired[1..], more);
    } else {
      assert desired + [more] == [more] && [more][1..] == [] && Wanted(files, [more][1..]) == [];
    }
  }

  lemma DoomedAre(c: Client, files: Files, desired: seq<string>, n: string)
    ensures Doomed(files, Wanted(files, desired), c.generation, n) <==> Unwanted(c, files, desired, n)
  {
    hide Wanted, MarkerGeneration, MarkerLine;
    WantedAre(files, desired, "");
    if n in files {
      MarkerIdentifies(files[n], c.generation);
    }
  }

  lemma {:induction false} AddedByName(
    files: Files, names: seq<string>, generation: string, faults: map<string, Fault>, n: string)
    requires Ordinary(names) && !IsTmp(n) && forall m :: m in names ==> !Foreign(files, m)
    ensures var after := AddedAll(files, names, generation, faults).0;
      if n in names && FaultOf(faults, n) in {Clean, Late} then n in after && after[n] == MarkerLine(generation)
      else (n in after <==> n in files) && (n in after ==> after[n] == files[n])
    ensures AddedAll(files, names, generation, faults).1 > 0 <==> exists m :: m in names && FaultOf(faults, m) == Clean
  {
    hide MarkerLine, MarkerGeneration, IsTmp, Listed, TmpName, FaultOf;
    if names != [] {
      var front, last := names[..|names| - 1], names[|names| - 1];
      FrontOrdinary(files, names);
      assert last in names;
      AddedByName(files, front, generation, faults, n);
      AddedByName(files, front, generation, faults, last);
      OwnedByMarker(generation);
      NotATmpName([last], n);
      NotATmpName([last], last);
    }
  }

  lemma RemovedByName(c: Client, files: Files, desired: seq<string>, env: Env, n: string)
    ensures var p := Removals(c, files, Wanted(files, desired), env);
      var unwanted := Unwanted(c, files, desired, n);
      (n in p.files <==> n in files && !(unwanted && FaultOf(env.remove, n) in {Clean, Late})) &&
      (n in p.files ==> p.files[n] == files[n]) &&
      (n in p.installed <==> n in c.installed && !(unwanted && FaultOf(env.remove, n) == Clean)) &&
      (n in p.installed ==> p.installed[n] == c.installed[n])
    ensures Removals(c, files, Wanted(files, desired), env).changed <==>
            exists m :: Unwanted(c, files, desired, m) && FaultOf(env.remove, m) == Clean
  {
    hide Wanted, Doomed, Unwanted;
    var reported := Reported(files, Wanted(files, desired), c.generation, env.remove, files.Keys);
    DoomedAre(c, files, desired, n);
    DoomedInFiles(c, files, desired, n);
    if m :| Unwanted(c, files, desired, m) && FaultOf(env.remove, m) == Clean {
      DoomedAre(c, files, desired, m);
      DoomedInFiles(c, files, desired, m);
      assert m in reported;
    }
    if reported != {} {
      var m :| m in reported;
      DoomedAre(c, files, desired, m);
    }
  }

  lemma DoomedInFiles(c: Client, files: Files, desired: seq<string>, n: string)
    ensures Unwanted(c, files, desired, n) ==> n in files
  {
  }

  // The names of a cycle's add calls.
  lemma CallsByName(c: Client, d: Disk, desired: seq<string>, env: Env, n: string)
    ensures n in InstallCalls(c, d, desired, env) <==> CalledFor(c, d.files, desired, env, n)
  {
    hide Wanted, Removals, Unwanted;
    WantedAre(d.files, desired, "");
    RemovedByName(c, d.files, desired, env, n);
  }

  lemma MissingNotForeign(c: Client, files: Files, desired: seq<string>, env: Env)
    requires Ordinary(desired)
    ensures var wanted := Wanted(files, desired); var p := Removals(c, files, wanted, env);
      var missing := Missing(wanted, p.installed);
      Ordinary(missing) && forall m :: m in missing ==> !Foreign(p.files, m)
  {
    hide Wanted;
    WantedNotForeign(files, desired);
  }

  // ---------- the cycle ----------

  // What becomes of each file that is no temporary file: written with this generation's marker
  // if add is called for it and takes effect, gone if it was unwanted and its removal takes
  // effect, otherwise as it was.
  lemma FileAfterTick(c: Client, d: Disk, desired: seq<string>, env: Env, now: nat, n: string)
    requires Ordinary(desired) && !IsTmp(n)
    ensures var after := Finish(c, d, desired, env, now).1.files;
      if CalledFor(c, d.files, desired, env, n) && FaultOf(env.add, n) in {Clean, Late} then
        n in after && after[n] == MarkerLine(c.generation)
      else if env.enumerates && Unwanted(c, d.files, desired, n) && FaultOf(env.remove, n) in {Clean, Late} then
        n !in after
      else (n in after <==> n in d.files) && (n in after ==> after[n] == d.files[n])
  {
    hide Wanted, Removals, Unwanted, Held, AddedAll, MarkerLine, IsTmp, Missing;
    if env.enumerates {
      var wanted := Wanted(d.files, desired);
      var p := Removals(c, d.files, wanted, env);
      RemovedByName(c, d.files, desired, env, n);
      if !c.hold {
        CallsByName(c, d, desired, env, n);
        MissingNotForeign(c, d.files, desired, env);
        AddedByName(p.files, Missing(wanted, p.installed), c.generation, env.add, n);
      }
    }
  }

  lemma AddsReported(c: Client, d: Disk, desired: seq<string>, env: Env)
    requires Ordinary(desired) && env.enumerates && !c.hold
    ensures var wanted := Wanted(d.files, desired); var p := Removals(c, d.files, wanted, env);
      AddedAll(p.files, Missing(wanted, p.installed), c.generation, env.add).1 > 0 <==>
      exists n :: CalledFor(c, d.files, desired, env, n) && FaultOf(env.add, n) == Clean
  {
    hide Wanted, Removals, AddedAll, Missing, CalledFor;
    var wanted := Wanted(d.files, desired);
    var p := Removals(c, d.files, wanted, env);
    var missing := Missing(wanted, p.installed);
    MissingNotForeign(c, d.files, desired, env);
    forall n
      ensures n in missing <==> CalledFor(c, d.files, desired, env, n)
    {
      CallsByName(c, d, desired, env, n);
    }
    NotTmp();
    AddedByName(p.files, missing, c.generation, env.add, "");
  }

  lemma NotTmp()
    ensures !IsTmp("")
  {
  }

  lemma RereadsIff(c: Client, d: Disk, desired: seq<string>, env: Env)
    requires Ordinary(desired) && env.enumerates && !c.hold
    ensures var wanted := Wanted(d.files, desired); var p := Removals(c, d.files, wanted, env);
      (p.changed || AddedAll(p.files, Missing(wanted, p.installed), c.generation, env.add).1 > 0) <==>
      Changes(c, d.files, desired, env)
  {
    hide Wanted, Removals, AddedAll, Missing, CalledFor, Unwanted;
    AddsReported(c, d, desired, env);
    RemovedByName(c, d.files, desired, env, "");
  }

  // What becomes of the cache: read anew from the rules of this generation if some call reported
  // success and the second listing works, otherwise without the names reported removed. The hold
  // and the generation are as they were.
  lemma CacheAfterTick(c: Client, d: Disk, desired: seq<string>, env: Env, now: nat, n: string)
    requires Ordinary(desired)
    ensures var (c', d') := Finish(c, d, desired, env, now);
      c'.generation == c.generation && c'.hold == c.hold &&
      if env.enumerates && env.reenumerates && !c.hold && Changes(c, d.files, desired, env) then
        (n in c'.installed <==>
           n in d'.files && (n == "" || n[0] != '.') && d'.files[n] == MarkerLine(c.generation)) &&
        (n in c'.installed ==> c'.installed[n] == n)
      else
        (n in c'.installed <==>
           n in c.installed &&
           !(env.enumerates && Unwanted(c, d.files, desired, n) && FaultOf(env.remove, n) == Clean)) &&
        (n in c'.installed ==> c'.installed[n] == c.installed[n])
  {
    hide Wanted, Removals, AddedAll, Missing, CalledFor, Unwanted, Changes, MarkerGeneration, MarkerLine;
    var d' := Finish(c, d, desired, env, now).1;
    RemovedByName(c, d.files, desired, env, n);
    if env.enumerates && !c.hold {
      RereadsIff(c, d, desired, env);
    }
    if n in d'.files {
      MarkerIdentifies(d'.files[n], c.generation);
    }
  }

  // What a cycle writes down: the heartbeat always; the journal, if its write succeeds, with the
  // generation and the cache as they are then, and only in a cycle that got past its listing.
  lemma RecordsAfterTick(c: Client, d: Disk, desired: seq<string>, env: Env, now: nat)
    ensures var (c', d') := Finish(c, d, desired, env, now);
      d'.heartbeat == At(now) &&
      d'.journal == if env.enumerates && env.journals then Some(Journal(c'.generation, c'.installed)) else d.journal
  {
    hide Wanted, Removals, Installs;
  }

  // The lease decision: a heartbeat 26 seconds old or more, to the microsecond, makes the client
  // start over under a new generation with an empty cache and the hold on; any other heartbeat
  // leaves it alone, but that a fetch that succeeded lifts the hold.
  lemma ClientAfterLease(c: Client, heartbeat: Heartbeat, now: nat, fetchOk: bool, minted: string)
    ensures Begin(c, heartbeat, now, fetchOk, minted) ==
            if heartbeat.At? && heartbeat.micros + 26_000_000 <= now then Client(minted, true, map[])
            else Client(c.generation, c.hold && !fetchOk, c.installed)
  {
  }

  // The session's end and the watchdogs: a rule of ours, of any generation, goes exactly if its
  // removal takes effect, and everything else is as it was.
  lemma FileAfterCleaning(files: Files, enumerates: bool, faults: map<string, Fault>, n: string)
    ensures var after := RemovedAllTagged(files, enumerates, faults);
      (n in after <==>
         n in files &&
         !(enumerates && (n == "" || n[0] != '.') && MarkerGeneration(files[n]).Some? &&
           FaultOf(faults, n) in {Clean, Late})) &&
      (n in after ==> after[n] == files[n])
  {
  }

  // The removals that count are those of our rules that take effect and are reported.
  lemma CountedRemovals(files: Files, faults: map<string, Fault>, n: string)
    ensures n in Confirmed(files, faults, files.Keys) <==>
            n in files && (n == "" || n[0] != '.') && MarkerGeneration(files[n]).Some? && FaultOf(faults, n) == Clean
  {
  }

  // An error-free cycle without a hold, from an exact cache: the rules that are ours and the
  // cache are then exactly the desired names that nobody else's rule holds.
  lemma TickServesDesired(c: Client, d: Disk, desired: seq<string>, env: Env, now: nat, n: string)
    requires ErrorFree(env) && !c.hold && Ordinary(desired) && CacheExact(c, d.files)
    ensures var (c', d') := Finish(c, d, desired, env, now);
      var served := n in desired &&
                    !(n in d.files && (n == "" || n[0] != '.') && MarkerGeneration(d.files[n]).None?);
      (n in OwnedRules(d'.files) <==> served) && (n in c'.installed <==> served) &&
      (served ==> n in d'.files && d'.files[n] == MarkerLine(c.generation))
  {
    hide Finish, Wanted, MarkerGeneration, MarkerLine;
    WantedAre(d.files, desired, "");
    TickSettles(c, d, desired, env, now);
    var d' := Finish(c, d, desired, env, now).1;
    if n in OwnedRules(d'.files) {
      assert OwnedRules(d'.files)[n] == Tagged(Wanted(d.files, desired), c.generation)[n] == c.generation;
      MarkerIdentifies(d'.files[n], c.generation);
    }
  }
}
