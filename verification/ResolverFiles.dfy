// The macOS rule store: one file per scoped resolver, owned when its first line is our
// marker (client/src/splitdns/resolver_files.rs, with the marker helpers of mod.rs).
module ResolverFiles {
  import opened Prelude

  // File name to first line.
  type Files = map<string, string>

  datatype Rule = Rule(namespace: string, id: string, generation: Option<string>)

  // What becomes of a privileged channel call with its retry: it works, it fails without
  // effect, it times out after taking effect, or (adding only) the final rename fails or the
  // write of the temporary file stops after `kept` characters.
  datatype Fault = Clean | Fails | Late | HalfDone | Torn(kept: nat)

  // ---------- ownership markers ----------

  const TAG_PREFIX := "aztna:w43:"

  function CommentFor(generation: string): string { TAG_PREFIX + generation }

  function GenerationOf(comment: string): Option<string> { StripPrefix(comment, TAG_PREFIX) }

  function MarkerLine(generation: string): string { "# " + CommentFor(generation) + " managed" }

  function MarkerGeneration(firstLine: string): Option<string> {
    match StripPrefix(firstLine, "# ")
    case None => None
    case Some(rest) =>
      match StripSuffix(rest, " managed")
      case None => None
      case Some(body) => GenerationOf(body)
  }

  lemma MarkerText(generation: string)
    ensures MarkerLine(generation) == "# aztna:w43:" + generation + " managed"
  {
  }

  // A first line carries a generation exactly when it is that generation's marker, so
  // nothing else is ever taken for ours and no two generations share a marker.
  lemma MarkerIdentifies(line: string, generation: string)
    ensures MarkerGeneration(line) == Some(generation) <==> line == MarkerLine(generation)
  {
    if line == MarkerLine(generation) {
      assert line[..2] == "# " && line[2..] == CommentFor(generation) + " managed";
      var rest := line[2..];
      assert rest[|rest| - 8..] == " managed" && rest[..|rest| - 8] == CommentFor(generation);
      assert CommentFor(generation)[|TAG_PREFIX|..] == generation;
    }
    if MarkerGeneration(line) == Some(generation) {
      var rest := StripPrefix(line, "# ").value;
      var body := StripSuffix(rest, " managed").value;
      assert line == "# " + rest && rest == body + " managed" && body == TAG_PREFIX + generation;
    }
  }

  // ---------- the directory ----------

  function OwnerIn(files: Files, name: string): Option<string> {
    if name in files then MarkerGeneration(files[name]) else None
  }

  predicate Owned(files: Files, name: string) { OwnerIn(files, name).Some? }

  predicate Foreign(files: Files, name: string) { name in files && !Owned(files, name) }

  // Dotfiles are not resolver scopes.
  predicate Listed(name: string) { name == "" || name[0] != '.' }

  function RuleFor(files: Files, name: string): Rule { Rule(name, name, OwnerIn(files, name)) }

  // Path::with_extension: the temporary file replaces what follows the last dot.
  const TMP_SUFFIX := ".aztna-tmp"

  function Stem(name: string): string { if LastDot(name) <= 0 then name else name[..LastDot(name)] }

  function LastDot(s: string): (d: int)
    ensures -1 <= d < |s|
  {
    if s == "" then -1 else if s[|s| - 1] == '.' then |s| - 1 else LastDot(s[..|s| - 1])
  }

  function TmpName(fqdn: string): string { Stem(fqdn) + TMP_SUFFIX }

  // A name's temporary file: what follows its last dot gives way to the suffix; a name without a
  // dot, or with none but a leading one, keeps all of it.
  lemma {:induction false} TmpNameText(stem: string, ext: string)
    requires '.' !in ext
    ensures stem != "" ==> TmpName(stem + "." + ext) == stem + ".aztna-tmp"
    ensures TmpName(ext) == ext + ".aztna-tmp" && TmpName("." + ext) == "." + ext + ".aztna-tmp"
  {
    LastDotIs(stem, ext);
    LastDotIs("", ext);
    NoDot(ext);
    assert (stem + "." + ext)[..|stem|] == stem && "" + "." + ext == "." + ext;
  }

  lemma {:induction false} NoDot(ext: string)
    requires '.' !in ext
    ensures LastDot(ext) == -1
  {
    if ext != "" {
      NoDot(ext[..|ext| - 1]);
    }
  }

  lemma {:induction false} LastDotIs(stem: string, ext: string)
    requires '.' !in ext
    ensures LastDot(stem + "." + ext) == |stem|
    decreases |ext|
  {
    var s := stem + "." + ext;
    if ext != "" {
      assert s[..|s| - 1] == stem + "." + ext[..|ext| - 1];
      LastDotIs(stem, ext[..|ext| - 1]);
    }
  }

  predicate IsTmp(name: string) { StripSuffix(name, TMP_SUFFIX).Some? }

  lemma TmpNameIsTmp(fqdn: string)
    ensures IsTmp(TmpName(fqdn))
  {
    var t := TmpName(fqdn);
    assert t[|t| - |TMP_SUFFIX|..] == TMP_SUFFIX;
  }

  function Cut(line: string, kept: nat): string { line[..Min(kept, |line|)] }

  // The directory and reply after adding `fqdn` for `generation`.
  function Added(files: Files, fqdn: string, generation: string, fault: Fault): (Files, bool) {
    if Foreign(files, fqdn) then (files, false)
    else
      var done := (files - {TmpName(fqdn)})[fqdn := MarkerLine(generation)];
      match fault
      case Clean => (done, true)
      case Late => (done, false)
      case Fails => (files, false)
      case HalfDone => (files[TmpName(fqdn) := MarkerLine(generation)], false)
      case Torn(kept) => (files[TmpName(fqdn) := Cut(MarkerLine(generation), kept)], false)
  }

  // The directory and reply after removing `fqdn`.
  function Removed(files: Files, fqdn: string, fault: Fault): (Files, bool) {
    if fault !in {Clean, Late} || Foreign(files, fqdn) then (files, false)
    else (files - {fqdn}, fault == Clean)
  }

  // An add reports success exactly if nobody else's file has the name and every call works. It
  // touches no file but that name's and its temporary one, and neither if it is refused.
  lemma AddOutcome(files: Files, fqdn: string, generation: string, fault: Fault, n: string)
    ensures var (after, ok) := Added(files, fqdn, generation, fault);
      var refused := fqdn in files && MarkerGeneration(files[fqdn]).None?;
      (ok <==> !refused && fault == Clean) &&
      (if refused || fault == Fails || (n != fqdn && n != TmpName(fqdn)) then
         (n in after <==> n in files) && (n in after ==> after[n] == files[n])
       else if fault == Clean || fault == Late then
         (n in after <==> n == fqdn) && (n in after ==> after[n] == MarkerLine(generation))
       else if n == TmpName(fqdn) then
         n in after && after[n] <= MarkerLine(generation) && (fault == HalfDone ==> after[n] == MarkerLine(generation))
       else (n in after <==> n in files) && (n in after ==> after[n] == files[n]))
  {
    hide MarkerGeneration, MarkerLine, TmpName;
  }

  // A removal reports success exactly if nobody else's file has the name and the call works; a file
  // that is missing is as good as removed.
  lemma RemoveOutcome(files: Files, fqdn: string, fault: Fault, n: string)
    ensures var (after, ok) := Removed(files, fqdn, fault);
      var refused := fqdn in files && MarkerGeneration(files[fqdn]).None?;
      (ok <==> !refused && fault == Clean) &&
      (n in after <==> n in files && !(n == fqdn && !refused && (fault == Clean || fault == Late))) &&
      (n in after ==> after[n] == files[n])
  {
    hide MarkerGeneration;
  }

  class ResolverDir {
    var files: Files

    // Every listed file once, in whatever order the directory gives them.
    method Enumerate() returns (rules: seq<Rule>)
      ensures IsListing(rules, files, files.Keys)
    {
      hide IsListing, RuleFor, Listed;
      rules := [];
      var rest := files.Keys;
      ghost var seen := {};
      EmptyListing(files);
      while rest != {}
        invariant rest + seen == files.Keys && rest !! seen
        invariant IsListing(rules, files, seen)
        decreases |rest|
      {
        var name :| name in rest;
        rest := rest - {name};
        ListOneMore(rules, files, seen, name);
        seen := seen + {name};
        if Listed(name) {
          rules := rules + [RuleFor(files, name)];
        }
      }
      assert seen == files.Keys;
    }

    // Refuses a file that is not ours; otherwise writes beside it and renames over it.
    method Add(fqdn: string, generation: string, fault: Fault) returns (ok: bool)
      modifies this
      ensures (files, ok) == Added(old(files), fqdn, generation, fault)
    {
      if fqdn in files {
        if MarkerGeneration(files[fqdn]).None? {
          return false;
        }
      }
      if fault == Fails {
        return false;
      }
      var tmp := TmpName(fqdn);
      if fault.Torn? {
        files := files[tmp := Cut(MarkerLine(generation), fault.kept)];
        return false;
      }
      assert files[tmp := MarkerLine(generation)] - {tmp} == files - {tmp};
      files := files[tmp := MarkerLine(generation)];
      if fault == HalfDone {
        return false;
      }
      files := (files - {tmp})[fqdn := MarkerLine(generation)];
      return fault == Clean;
    }

    method Remove(fqdn: string, fault: Fault) returns (ok: bool)
      modifies this
      ensures (files, ok) == Removed(old(files), fqdn, fault)
    {
      if fault != Clean && fault != Late {
        return false;
      }
      if fqdn !in files {
        assert files - {fqdn} == files;
        return fault == Clean;
      }
      if MarkerGeneration(files[fqdn]).None? {
        return false;
      }
      files := files - {fqdn};
      return fault == Clean;
    }
  }

  // `rules` has one rule for each listed file among `seen`.
  ghost predicate IsListing(rules: seq<Rule>, files: Files, seen: set<string>) {
    && (forall i :: 0 <= i < |rules| ==> rules[i] == RuleFor(files, rules[i].namespace))
    && (forall i, j :: 0 <= i < j < |rules| ==> rules[i].namespace != rules[j].namespace)
    && Namespaces(rules) == set n | n in seen && Listed(n)
  }

  ghost function Namespaces(rules: seq<Rule>): set<string> {
    set i | 0 <= i < |rules| :: rules[i].namespace
  }

  lemma NamespacesAppend(rules: seq<Rule>, r: Rule)
    ensures Namespaces(rules + [r]) == Namespaces(rules) + {r.namespace}
  {
    var more := rules + [r];
    assert more[|rules|] == r;
    assert forall i :: 0 <= i < |rules| ==> more[i] == rules[i];
  }

  lemma EmptyListing(files: Files)
    ensures IsListing([], files, {})
  {
  }

  lemma ListOneMore(rules: seq<Rule>, files: Files, seen: set<string>, name: string)
    requires IsListing(rules, files, seen) && name !in seen
    ensures IsListing(if Listed(name) then rules + [RuleFor(files, name)] else rules, files, seen + {name})
  {
    hide OwnerIn;
    if Listed(name) {
      assert forall i :: 0 <= i < |rules| ==> rules[i].namespace in Namespaces(rules);
      NamespacesAppend(rules, RuleFor(files, name));
    }
  }

  // A write that stops leaves a file nobody owns if and only if it stops inside the marker line
  // (for a generation without spaces; it is made of hex digits and a dash).
  lemma TornWriteIsForeign(files: Files, fqdn: string, generation: string, kept: nat)
    requires !Foreign(files, fqdn) && ' ' !in generation
    ensures Foreign(Added(files, fqdn, generation, Torn(kept)).0, TmpName(fqdn)) <==> kept < |MarkerLine(generation)|
  {
    var line := MarkerLine(generation);
    if kept < |line| {
      CutIsNoMarker(generation, kept);
    } else {
      assert Cut(line, kept) == line;
      MarkerIdentifies(line, generation);
    }
  }

  lemma CutIsNoMarker(generation: string, kept: nat)
    requires kept < |MarkerLine(generation)| && ' ' !in generation
    ensures MarkerGeneration(Cut(MarkerLine(generation), kept)).None?
  {
    var line := MarkerLine(generation);
    var cut := Cut(line, kept);
    MarkerSpaces(generation);
    assert line[8] == line[..12][8] == 'w';
    assert " managed"[0] == ' ' && " managed"[7] == 'd';
    assert kept >= 8 ==> cut[kept - 8..][0] == line[kept - 8] && cut[kept - 8..][7] == line[kept - 1];
    NotAMarker(cut);
  }

  // The marker line has two spaces, after the hash and before its last word.
  lemma MarkerSpaces(generation: string)
    requires ' ' !in generation
    ensures var line := MarkerLine(generation);
      |line| == |generation| + 20 && line[..12] == "# aztna:w43:" &&
      forall i :: 0 <= i < |line| - 8 && line[i] == ' ' ==> i == 1
  {
    var line := MarkerLine(generation);
    assert line == "# aztna:w43:" + generation + " managed";
    assert line[..12] == "# aztna:w43:";
    forall i | 0 <= i < 12
      ensures line[i] == ' ' ==> i == 1
    {
      assert line[i] == "# aztna:w43:"[i];
    }
    forall i | 12 <= i < |line| - 8
      ensures line[i] != ' '
    {
      assert line[i] == generation[i - 12];
      assert generation[i - 12] in generation;
    }
  }

  lemma NotAMarker(line: string)
    ensures |line| < 8 || line[|line| - 8..] != " managed" ==> MarkerGeneration(line).None?
  {
    if |line| >= 2 && line[..2] == "# " {
      var rest := line[2..];
      assert |rest| >= 8 ==> rest[|rest| - 8..] == line[|line| - 8..];
    }
  }

  // Adding a rule destroys a foreign file exactly when it is the temporary file's name.
  lemma AddSparesForeign(files: Files, fqdn: string, generation: string, name: string)
    requires Foreign(files, name) && !Foreign(files, fqdn)
    ensures var after := Added(files, fqdn, generation, Clean).0;
            (name in after && after[name] == files[name]) <==> name != TmpName(fqdn)
  {
    MarkerIdentifies(MarkerLine(generation), generation);
  }
}
