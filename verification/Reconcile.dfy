// The split-DNS reconciler (client/src/splitdns/reconciler.rs) on the macOS rule store.
//
// Begin and Finish are what one tick does to the client and to the disk: Begin is the
// lease decision, Finish everything from the enumeration on. The clock, the fresh
// generation and the fate of each channel call are parameters.
module Reconcile {
  import opened Prelude
  import opened ResolverFiles
  import NamePolicy

  const STALENESS_SECS := 25
  const MICROS := 1_000_000

  datatype Heartbeat = Absent | Garbled | At(micros: nat)

  datatype Journal = Journal(generation: string, installed: map<string, string>)

  datatype Client = Client(generation: string, hold: bool, installed: map<string, string>)

  datatype Disk = Disk(files: Files, heartbeat: Heartbeat, journal: Option<Journal>)

  // How the channel calls and the journal write of one tick turn out.
  datatype Env = Env(
    enumerates: bool, remove: map<string, Fault>, add: map<string, Fault>, reenumerates: bool, journals: bool)

  function FaultOf(faults: map<string, Fault>, name: string): Fault {
    if name in faults then faults[name] else Clean
  }

  // ---------- the lease ----------

  // The age of the previous heartbeat in whole seconds; unknown when there is none, when it
  // does not parse, and when it lies in the future.
  function PrevHeartbeatSecs(heartbeat: Heartbeat, now: nat): Option<nat> {
    match heartbeat
    case At(t) => if t > now then None else Some((now - t) / MICROS)
    case _ => None
  }

  datatype LeaseDecision = LeaseDecision(stale: bool, clearHold: bool)

  function Lease(prevAge: Option<nat>, fetchOk: bool, hold: bool): LeaseDecision {
    var stale := prevAge.Some? && prevAge.value > STALENESS_SECS;
    LeaseDecision(stale, hold && !stale && fetchOk)
  }

  function Begin(c: Client, heartbeat: Heartbeat, now: nat, fetchOk: bool, minted: string): Client {
    var d := Lease(PrevHeartbeatSecs(heartbeat, now), fetchOk, c.hold);
    if d.stale then Client(minted, true, map[])
    else if d.clearHold then c.(hold := false)
    else c
  }

  // ---------- one pass over the rules ----------

  function Without(s: seq<string>, bad: set<string>): (r: seq<string>)
    ensures forall n :: n in r <==> n in s && n !in bad
  {
    if s == [] then [] else (if s[0] in bad then [] else [s[0]]) + Without(s[1..], bad)
  }

  function ForeignNames(files: Files): set<string> { set n | n in files && Listed(n) && Foreign(files, n) }

  // The desired names that no foreign rule holds.
  function Wanted(files: Files, desired: seq<string>): seq<string> { Without(desired, ForeignNames(files)) }

  // An owned rule to remove: not wanted, or of another generation.
  predicate Doomed(files: Files, wanted: seq<string>, generation: string, name: string) {
    && name in files && Listed(name) && Owned(files, name)
    && (name !in wanted || OwnerIn(files, name) != Some(generation))
  }

  // The doomed rules among `names` that go, and those whose removal is also reported.
  function Gone(files: Files, wanted: seq<string>, generation: string, faults: map<string, Fault>, names: set<string>)
    : set<string>
  {
    set n | n in names && Doomed(files, wanted, generation, n) && FaultOf(faults, n) in {Clean, Late}
  }

  function Reported(
    files: Files, wanted: seq<string>, generation: string, faults: map<string, Fault>, names: set<string>)
    : set<string>
  {
    set n | n in names && Doomed(files, wanted, generation, n) && FaultOf(faults, n) == Clean
  }

  function Missing(wanted: seq<string>, installed: map<string, string>): seq<string> {
    Without(wanted, installed.Keys)
  }

  // Adding the names in order; the count is of the calls that report success.
  function AddedAll(files: Files, names: seq<string>, generation: string, faults: map<string, Fault>): (Files, nat) {
    if names == [] then (files, 0)
    else
      var last := names[|names| - 1];
      var before := AddedAll(files, names[..|names| - 1], generation, faults);
      var step := Added(before.0, last, generation, FaultOf(faults, last));
      (step.0, before.1 + if step.1 then 1 else 0)
  }

  // The rules of a generation, as the re-enumeration records them.
  function CurrentRules(files: Files, generation: string): map<string, string> {
    map n | n in files && Listed(n) && OwnerIn(files, n) == Some(generation) :: n
  }

  datatype Pass = Pass(files: Files, installed: map<string, string>, changed: bool)

  function Removals(c: Client, files: Files, wanted: seq<string>, env: Env): Pass {
    var reported := Reported(files, wanted, c.generation, env.remove, files.Keys);
    Pass(files - Gone(files, wanted, c.generation, env.remove, files.Keys), c.installed - reported, reported != {})
  }

  function Installs(c: Client, p: Pass, wanted: seq<string>, env: Env): Pass {
    if c.hold then p
    else
      var (files, count) := AddedAll(p.files, Missing(wanted, p.installed), c.generation, env.add);
      var changed := p.changed || count > 0;
      Pass(files, if changed && env.reenumerates then CurrentRules(files, c.generation) else p.installed, changed)
  }

  function Finish(c: Client, d: Disk, desired: seq<string>, env: Env, now: nat): (Client, Disk) {
    if !env.enumerates then (c, d.(heartbeat := At(now)))
    else
      var wanted := Wanted(d.files, desired);
      var p := Installs(c, Removals(c, d.files, wanted, env), wanted, env);
      (c.(installed := p.installed),
       Disk(p.files, At(now), if env.journals then Some(Journal(c.generation, p.installed)) else d.journal))
  }

  // The names a tick calls the channel's add for.
  function InstallCalls(c: Client, d: Disk, desired: seq<string>, env: Env): seq<string> {
    if !env.enumerates || c.hold then []
    else
      var wanted := Wanted(d.files, desired);
      Missing(wanted, Removals(c, d.files, wanted, env).installed)
  }

  // All owned rules, of any generation, whose removal takes effect.
  function Untagged(files: Files, faults: map<string, Fault>, names: set<string>): set<string> {
    set n | n in names && n in files && Listed(n) && Owned(files, n) && FaultOf(faults, n) in {Clean, Late}
  }

  // Those whose removal is also reported.
  function Confirmed(files: Files, faults: map<string, Fault>, names: set<string>): set<string> {
    set n | n in names && n in files && Listed(n) && Owned(files, n) && FaultOf(faults, n) == Clean
  }

  function RemovedAllTagged(files: Files, enumerates: bool, faults: map<string, Fault>): Files {
    if enumerates then files - Untagged(files, faults, files.Keys) else files
  }

  // ---------- the objects ----------

  // The service's home directory.
  class SvcHome {
    var heartbeat: Heartbeat
    var journal: Option<Journal>
  }

  ghost function DiskOf(dir: ResolverDir, home: SvcHome): Disk
    reads dir, home
  {
    Disk(dir.files, home.heartbeat, home.journal)
  }

  // Removes every owned rule of any generation, counting the removals reported.
  method RemoveAllTagged(dir: ResolverDir, enumerates: bool, faults: map<string, Fault>) returns (removed: nat)
    modifies dir
    ensures dir.files == RemovedAllTagged(old(dir.files), enumerates, faults)
    ensures removed == if enumerates then |Confirmed(old(dir.files), faults, old(dir.files).Keys)| else 0
  {
    hide Untagged, Confirmed, OwnerIn, Removed, FaultOf, IsListing, Namespaces;
    removed := 0;
    if enumerates {
      var rules := dir.Enumerate();
      ghost var files := dir.files;
      var i := 0;
      NamesUpTo(rules);
      NothingUntagged(files, faults);
      while i < |rules|
        invariant 0 <= i <= |rules|
        invariant dir.files == files - Untagged(files, faults, Namespaces(rules[..i]))
        invariant removed == |Confirmed(files, faults, Namespaces(rules[..i]))|
      {
        var r := rules[i];
        NamesStep(rules, i, files);
        UntaggedStep(files, faults, Namespaces(rules[..i]), r.namespace);
        if r.generation.Some? {
          RemoveOwned(files, Untagged(files, faults, Namespaces(rules[..i])), r.id, FaultOf(faults, r.id));
          var ok := dir.Remove(r.id, FaultOf(faults, r.id));
          if ok {
            removed := removed + 1;
          }
        }
        i := i + 1;
      }
      assert rules[..i] == rules;
      UntaggedListed(files, faults, rules);
    }
  }

  lemma NamesUpTo(rules: seq<Rule>)
    ensures Namespaces(rules[..0]) == {}
  {
    assert rules[..0] == [];
  }

  // The i-th rule of a listing is new, and describes its file.
  lemma NamesStep(rules: seq<Rule>, i: nat, files: Files)
    requires i < |rules| && IsListing(rules, files, files.Keys)
    ensures Namespaces(rules[..i + 1]) == Namespaces(rules[..i]) + {rules[i].namespace}
    ensures rules[i].namespace !in Namespaces(rules[..i])
    ensures rules[i] == RuleFor(files, rules[i].namespace)
    ensures rules[i].namespace in files && Listed(rules[i].namespace)
  {
    assert rules[..i + 1] == rules[..i] + [rules[i]];
    NamespacesAppend(rules[..i], rules[i]);
    assert rules[i].namespace in Namespaces(rules);
  }

  lemma UntaggedStep(files: Files, faults: map<string, Fault>, names: set<string>, name: string)
    requires name in files && Listed(name)
    ensures Untagged(files, faults, names + {name}) ==
            Untagged(files, faults, names) +
            if Owned(files, name) && FaultOf(faults, name) in {Clean, Late} then {name} else {}
    ensures Confirmed(files, faults, names + {name}) ==
            Confirmed(files, faults, names) +
            if Owned(files, name) && FaultOf(faults, name) == Clean then {name} else {}
    ensures name !in names ==> name !in Confirmed(files, faults, names) && name !in Untagged(files, faults, names)
  {
  }

  // Removing an owned file that is still there.
  lemma RemoveOwned(files: Files, gone: set<string>, name: string, fault: Fault)
    requires name in files && name !in gone && Owned(files, name)
    ensures Removed(files - gone, name, fault) ==
            (files - (gone + if fault in {Clean, Late} then {name} else {}), fault == Clean)
  {
    assert OwnerIn(files - gone, name) == OwnerIn(files, name);
    assert files - gone - {name} == files - (gone + {name});
    assert gone + {} == gone;
  }

  lemma NothingUntagged(files: Files, faults: map<string, Fault>)
    ensures files - Untagged(files, faults, {}) == files && Confirmed(files, faults, {}) == {}
  {
    assert Untagged(files, faults, {}) == {};
  }

  lemma UntaggedListed(files: Files, faults: map<string, Fault>, rules: seq<Rule>)
    requires IsListing(rules, files, files.Keys)
    ensures Untagged(files, faults, Namespaces(rules)) == Untagged(files, faults, files.Keys)
    ensures Confirmed(files, faults, Namespaces(rules)) == Confirmed(files, faults, files.Keys)
  {
  }

  class Reconciler {
    const active: bool
    const lib: NamePolicy.Lib
    const allowlist: seq<string>
    var generation: string
    var hold: bool
    var installed: map<string, string>

    constructor (active: bool, lib: NamePolicy.Lib, allowlist: seq<string>, generation: string)
      ensures this.active == active && this.lib == lib && this.allowlist == allowlist
      ensures AsClient() == Client(generation, false, map[])
    {
      this.active, this.lib, this.allowlist := active, lib, allowlist;
      this.generation, this.hold, this.installed := generation, false, map[];
    }

    ghost function AsClient(): Client
      reads this
    {
      Client(generation, hold, installed)
    }

    // Refuses the desired names that a foreign rule holds.
    static method DropConflicts(ground: seq<Rule>, ghost files: Files, desired: seq<string>)
      returns (wanted: seq<string>)
      requires IsListing(ground, files, files.Keys)
      ensures wanted == Wanted(files, desired)
    {
      hide Without, ForeignAmong, IsListing, Namespaces, OwnerIn;
      wanted := desired;
      var i := 0;
      NamesUpTo(ground);
      NoneForeign(files, desired);
      while i < |ground|
        invariant 0 <= i <= |ground|
        invariant wanted == Without(desired, ForeignAmong(files, Namespaces(ground[..i])))
      {
        var r := ground[i];
        NamesStep(ground, i, files);
        ForeignStep(files, desired, Namespaces(ground[..i]), r.namespace);
        if r.generation.None? && r.namespace in wanted {
          wanted := Without(wanted, {r.namespace});
        }
        i := i + 1;
      }
      assert ground[..i] == ground;
      ForeignListed(files, ground);
    }

    // Removes the owned rules that are not wanted or are of another generation.
    method RemoveDoomed(ground: seq<Rule>, wanted: seq<string>, dir: ResolverDir, faults: map<string, Fault>)
      returns (removed: nat)
      requires IsListing(ground, dir.files, dir.files.Keys)
      modifies this`installed, dir
      ensures var files := old(dir.files);
              var reported := Reported(files, wanted, generation, faults, files.Keys);
              && dir.files == files - Gone(files, wanted, generation, faults, files.Keys)
              && installed == old(installed) - reported
              && (removed > 0 <==> reported != {})
    {
      hide Gone, Reported, IsListing, Namespaces;
      removed := 0;
      ghost var files := dir.files;
      var i := 0;
      NamesUpTo(ground);
      NothingGone(files, wanted, generation, faults);
      while i < |ground|
        invariant 0 <= i <= |ground|
        invariant dir.files == files - Gone(files, wanted, generation, faults, Namespaces(ground[..i]))
        invariant installed == old(installed) - Reported(files, wanted, generation, faults, Namespaces(ground[..i]))
        invariant removed > 0 <==> Reported(files, wanted, generation, faults, Namespaces(ground[..i])) != {}
      {
        var r := ground[i];
        NamesStep(ground, i, files);
        GoneStep(files, wanted, generation, faults, Namespaces(ground[..i]), r.namespace);
        if r.generation.Some? && (r.namespace !in wanted || r.generation != Some(generation)) {
          var ok := dir.Remove(r.id, FaultOf(faults, r.id));
          if ok {
            removed := removed + 1;
            installed := installed - {r.namespace};
          }
        }
        i := i + 1;
      }
      assert ground[..i] == ground;
      GoneListed(files, wanted, generation, faults, ground);
    }

    // The cache as a fresh listing gives it.
    static method OfGeneration(rules: seq<Rule>, ghost files: Files, generation: string)
      returns (current: map<string, string>)
      requires IsListing(rules, files, files.Keys)
      ensures current == CurrentRules(files, generation)
    {
      hide IsListing, Namespaces, OwnerIn;
      current := map[];
      var i := 0;
      NamesUpTo(rules);
      while i < |rules|
        invariant 0 <= i <= |rules|
        invariant current == CurrentAmong(files, generation, Namespaces(rules[..i]))
      {
        var r := rules[i];
        NamesStep(rules, i, files);
        if r.generation == Some(generation) {
          current := current[r.namespace := r.id];
        }
        i := i + 1;
      }
      assert rules[..i] == rules;
      CurrentListed(files, generation, rules);
    }

    // Adds the wanted names that the cache does not hold, and refreshes the cache when
    // anything changed.
    method InstallMissing(wanted: seq<string>, dir: ResolverDir, removed: nat, env: Env)
      requires !hold
      modifies this`installed, dir
      ensures var p := Installs(old(AsClient()), Pass(old(dir.files), old(installed), removed > 0), wanted, env);
              dir.files == p.files && installed == p.installed
    {
      hide CurrentRules, Without, Added;
      var missing := Missing(wanted, installed);
      ghost var files := dir.files;
      var count := 0;
      var i := 0;
      while i < |missing|
        invariant 0 <= i <= |missing|
        invariant (dir.files, count) == AddedAll(files, missing[..i], generation, env.add)
        invariant installed == old(installed)
      {
        assert missing[..i + 1][..i] == missing[..i];
        var ok := dir.Add(missing[i], generation, FaultOf(env.add, missing[i]));
        if ok {
          count := count + 1;
        }
        i := i + 1;
      }
      assert missing[..i] == missing;
      if count > 0 || removed > 0 {
        if env.reenumerates {
          var rules := dir.Enumerate();
          installed := OfGeneration(rules, dir.files, generation);
        }
      }
    }

    // One reconcile cycle. The desired set is the one the name policy determines.
    method Tick(zone: seq<string>, fetchOk: bool, dir: ResolverDir, home: SvcHome, env: Env,
                started: nat, finished: nat, minted: string)
      returns (ghost desired: seq<string>)
      modifies this, dir, home
      ensures NamePolicy.StrictlySorted(desired)
      ensures active ==> forall n :: n in desired <==> NamePolicy.IsDesired(lib, zone, allowlist, n)
      ensures if active
              then (AsClient(), DiskOf(dir, home)) ==
                   Finish(Begin(old(AsClient()), old(home.heartbeat), started, fetchOk, minted),
                          old(DiskOf(dir, home)), desired, env, finished)
              else AsClient() == old(AsClient()) && DiskOf(dir, home) == old(DiskOf(dir, home))
    {
      desired := [];
      if !active {
        return;
      }
      var prev := PrevHeartbeatSecs(home.heartbeat, started);
      var dec := Lease(prev, fetchOk, hold);
      if dec.stale {
        hold := true;
        generation := minted;
        installed := map[];
      } else if dec.clearHold {
        hold := false;
      }
      var names, rejected := NamePolicy.DesiredNamespaces(lib, zone, allowlist);
      desired := names;
      if !env.enumerates {
        home.heartbeat := At(finished);
        return;
      }
      ghost var begun := AsClient();
      var ground := dir.Enumerate();
      ghost var files := dir.files;
      var wanted := DropConflicts(ground, files, names);
      var removed := RemoveDoomed(ground, wanted, dir, env.remove);
      if !hold {
        InstallMissing(wanted, dir, removed, env);
      }
      if env.journals {
        home.journal := Some(Journal(generation, installed));
      }
      home.heartbeat := At(finished);
    }

    // Session end: remove all owned rules and reset the journal.
    method Shutdown(dir: ResolverDir, home: SvcHome, env: Env, minted: string)
      modifies this`installed, dir, home
      ensures active ==>
                && dir.files == RemovedAllTagged(old(dir.files), env.enumerates, env.remove)
                && installed == map[]
                && home.heartbeat == old(home.heartbeat)
                && home.journal == if env.journals then Some(Journal(minted, map[])) else old(home.journal)
      ensures !active ==> installed == old(installed) && DiskOf(dir, home) == old(DiskOf(dir, home))
    {
      if !active {
        return;
      }
      var removed := RemoveAllTagged(dir, env.enumerates, env.remove);
      installed := map[];
      if env.journals {
        home.journal := Some(Journal(minted, map[]));
      }
    }
  }

  // ---------- what the loops build up ----------

  ghost function ForeignAmong(files: Files, names: set<string>): set<string> { ForeignNames(files) * names }

  lemma NoneForeign(files: Files, desired: seq<string>)
    ensures Without(desired, ForeignAmong(files, {})) == desired
  {
    WithoutNothing(desired);
    assert ForeignAmong(files, {}) == {};
  }

  // Dropping one listed rule's name, if the rule is foreign and the name still there.
  lemma ForeignStep(files: Files, desired: seq<string>, names: set<string>, name: string)
    requires name in files && Listed(name)
    ensures var before := Without(desired, ForeignAmong(files, names));
            Without(desired, ForeignAmong(files, names + {name})) ==
            if OwnerIn(files, name).None? && name in before then Without(before, {name}) else before
  {
    hide OwnerIn;
    var before := Without(desired, ForeignAmong(files, names));
    if OwnerIn(files, name).None? {
      assert ForeignAmong(files, names + {name}) == ForeignAmong(files, names) + {name};
      WithoutWithout(desired, ForeignAmong(files, names), {name});
      if name !in before {
        WithoutAbsent(before, {name});
      }
    } else {
      assert ForeignAmong(files, names + {name}) == ForeignAmong(files, names);
    }
  }

  lemma ForeignListed(files: Files, rules: seq<Rule>)
    requires IsListing(rules, files, files.Keys)
    ensures ForeignAmong(files, Namespaces(rules)) == ForeignNames(files)
  {
  }

  lemma WithoutNothing(s: seq<string>)
    ensures Without(s, {}) == s
  {
    if s != [] {
      WithoutNothing(s[1..]);
      assert [s[0]] + s[1..] == s;
    }
  }

  lemma {:induction false} WithoutWithout(s: seq<string>, a: set<string>, b: set<string>)
    ensures Without(Without(s, a), b) == Without(s, a + b)
  {
    if s != [] {
      WithoutWithout(s[1..], a, b);
      var rest := Without(s[1..], a);
      if s[0] !in a {
        assert ([s[0]] + rest)[1..] == rest;
      } else {
        assert [] + rest == rest;
      }
    }
  }

  lemma WithoutAbsent(s: seq<string>, a: set<string>)
    requires forall n :: n in a ==> n !in s
    ensures Without(s, a) == s
  {
    if s != [] {
      assert s[0] in s;
      WithoutAbsent(s[1..], a);
      assert [s[0]] + s[1..] == s;
    }
  }

  lemma NothingGone(files: Files, wanted: seq<string>, generation: string, faults: map<string, Fault>)
    ensures Gone(files, wanted, generation, faults, {}) == {}
    ensures Reported(files, wanted, generation, faults, {}) == {}
    ensures files - {} == files
  {
  }

  lemma GoneStep(
    files: Files, wanted: seq<string>, generation: string, faults: map<string, Fault>, names: set<string>, name: string)
    ensures Gone(files, wanted, generation, faults, names + {name}) ==
            Gone(files, wanted, generation, faults, names) +
            if Doomed(files, wanted, generation, name) && FaultOf(faults, name) in {Clean, Late} then {name} else {}
    ensures Reported(files, wanted, generation, faults, names + {name}) ==
            Reported(files, wanted, generation, faults, names) +
            if Doomed(files, wanted, generation, name) && FaultOf(faults, name) == Clean then {name} else {}
    ensures Gone(files, wanted, generation, faults, names) <= names
  {
  }

  lemma GoneListed(files: Files, wanted: seq<string>, generation: string, faults: map<string, Fault>, rules: seq<Rule>)
    requires IsListing(rules, files, files.Keys)
    ensures Gone(files, wanted, generation, faults, Namespaces(rules)) ==
            Gone(files, wanted, generation, faults, files.Keys)
    ensures Reported(files, wanted, generation, faults, Namespaces(rules)) ==
            Reported(files, wanted, generation, faults, files.Keys)
  {
  }

  ghost function CurrentAmong(files: Files, generation: string, names: set<string>): map<string, string> {
    map n | n in names && n in files && Listed(n) && OwnerIn(files, n) == Some(generation) :: n
  }

  lemma CurrentListed(files: Files, generation: string, rules: seq<Rule>)
    requires IsListing(rules, files, files.Keys)
    ensures CurrentAmong(files, generation, Namespaces(rules)) == CurrentRules(files, generation)
  {
  }
}
