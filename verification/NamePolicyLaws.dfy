// What the name policy promises: label-aligned matching, a determined rule set, normal forms.
module NamePolicyLaws {
  import opened Prelude
  import opened NamePolicy
  import Punycode
  import PunycodeLaws

  // ---------- labels ----------

  predicate NoDots(ls: seq<string>) { forall i :: 0 <= i < |ls| ==> '.' !in ls[i] }

  lemma {:induction false} LabelsHaveNoDots(s: string)
    ensures NoDots(Labels(s))
  {
    if s != "" {
      LabelsHaveNoDots(s[1..]);
    }
  }

  lemma {:induction false} JoinLabels(s: string)
    ensures Join(Labels(s)) == s
  {
    if s != "" {
      JoinLabels(s[1..]);
      var rest := Labels(s[1..]);
      if s[0] == '.' {
        assert ([""] + rest)[1..] == rest;
      } else if |rest| > 1 {
        assert ([[s[0]] + rest[0]] + rest[1..])[1..] == rest[1..];
      }
    }
  }

  lemma {:induction false} LabelsConcat(a: string, b: string)
    ensures Labels(a + "." + b) == Labels(a) + Labels(b)
  {
    var s := a + "." + b;
    if a == "" {
      assert s[1..] == b;
    } else {
      LabelsConcat(a[1..], b);
      assert s[1..] == a[1..] + "." + b;
      LabelsFirst(a, Labels(b));
    }
  }

  lemma LabelsFirst(a: string, tail: seq<string>)
    requires a != ""
    ensures var rest := Labels(a[1..]);
            Labels(a) + tail ==
            if a[0] == '.' then [""] + (rest + tail) else [[a[0]] + (rest + tail)[0]] + (rest + tail)[1..]
  {
  }

  lemma {:induction false} LabelsJoin(ls: seq<string>)
    requires |ls| >= 1 && NoDots(ls)
    ensures Labels(Join(ls)) == ls
  {
    if |ls| == 1 {
      LabelsOfLabel(ls[0]);
    } else {
      LabelsJoin(ls[1..]);
      LabelsOfLabel(ls[0]);
      LabelsConcat(ls[0], Join(ls[1..]));
    }
  }

  lemma {:induction false} LabelsOfLabel(l: string)
    requires '.' !in l
    ensures Labels(l) == [l]
  {
    if l != "" {
      LabelsOfLabel(l[1..]);
      assert [l[0]] + l[1..] == l;
    }
  }

  lemma {:induction false} JoinConcat(x: seq<string>, y: seq<string>)
    requires |x| >= 1 && |y| >= 1
    ensures Join(x + y) == Join(x) + "." + Join(y)
  {
    if |x| == 1 {
      assert (x + y)[1..] == y;
    } else {
      JoinConcat(x[1..], y);
      assert (x + y)[1..] == x[1..] + y;
    }
  }

  ghost predicate EndsWith(a: seq<string>, b: seq<string>) { |b| <= |a| && a[|a| - |b|..] == b }

  // The string test is label-aligned: a name is under a suffix exactly when the suffix's
  // labels are the last labels of the name.
  lemma SuffixMatchIsLabelAligned(name: string, suffix: string)
    ensures SuffixMatches(name, suffix) <==> EndsWith(Labels(name), Labels(suffix))
  {
    hide Labels;
    if name == suffix {
      assert Labels(name)[0..] == Labels(name);
    } else if SuffixMatches(name, suffix) {
      var front := StripSuffix(name, "." + suffix).value;
      assert name == front + "." + suffix;
      LabelsConcat(front, suffix);
    }
    if EndsWith(Labels(name), Labels(suffix)) {
      AlignedMatches(name, suffix);
    }
  }

  lemma AlignedMatches(name: string, suffix: string)
    requires EndsWith(Labels(name), Labels(suffix))
    ensures SuffixMatches(name, suffix)
  {
    hide Labels;
    JoinLabels(name);
    JoinLabels(suffix);
    var cut := |Labels(name)| - |Labels(suffix)|;
    if cut == 0 {
      assert Labels(name)[0..] == Labels(name);
    } else {
      var front := Labels(name)[..cut];
      assert Labels(name) == front + Labels(suffix);
      JoinConcat(front, Labels(suffix));
      assert name == Join(front) + ("." + suffix);
    }
  }

  // ---------- the desired set ----------

  // The order in which the zone names come (a hash map's, when a fetch fails) does not
  // matter: a strictly sorted list is determined by its members.
  lemma {:induction false} SortedListsEqual(a: seq<string>, b: seq<string>)
    requires StrictlySorted(a) && StrictlySorted(b)
    requires forall n :: n in a <==> n in b
    ensures a == b
  {
    HeadIsMember(b);
    if a == [] {
      assert b == [];
    } else {
      assert a[0] in b;
      var j :| 0 <= j < |b| && b[j] == a[0];
      var i :| 0 <= i < |a| && a[i] == b[0];
      StringOrder(a[0], b[0], a[0]);
      assert a[0] == b[0];
      TailMembers(a, b);
      SortedListsEqual(a[1..], b[1..]);
    }
  }

  lemma TailMembers(a: seq<string>, b: seq<string>)
    requires StrictlySorted(a) && StrictlySorted(b) && a != [] && b != [] && a[0] == b[0]
    requires forall n :: n in a <==> n in b
    ensures forall n :: n in a[1..] <==> n in b[1..]
  {
    TailSubset(a, b);
    TailSubset(b, a);
  }

  lemma TailSubset(a: seq<string>, b: seq<string>)
    requires StrictlySorted(a) && a != [] && b != [] && a[0] == b[0]
    requires forall n :: n in a ==> n in b
    ensures forall n :: n in a[1..] ==> n in b[1..]
  {
    forall n | n in a[1..] ensures n in b[1..] {
      var i :| 0 <= i < |a[1..]| && a[1..][i] == n;
      assert StringLess(a[0], a[i + 1]);
      StringOrder(n, n, n);
      assert n in a;
      var j :| 0 <= j < |b| && b[j] == n;
      assert n == b[1..][j - 1];
    }
  }

  // Every zone name is either represented in the desired set or rejected, never both.
  lemma {:induction false} EveryNameAccounted(lib: Lib, zone: seq<string>, allow: seq<string>, i: nat)
    requires i < |zone|
    ensures match Normalized(lib, zone[i])
            case Err(_) => (zone[i], InvalidSuffix) in Rejections(lib, zone, allow)
            case Ok(n) =>
              if IsDesired(lib, zone, allow, n)
              then forall r :: (zone[i], r) !in Rejections(lib, zone, allow)
              else (zone[i], NotAllowlisted) in Rejections(lib, zone, allow)
  {
    hide Normalized, Allowed;
    RejectedFor(lib, zone, allow, zone[i]);
    assert zone[i] in zone;
  }

  lemma {:induction false} RejectedFor(lib: Lib, zone: seq<string>, allow: seq<string>, name: string)
    ensures forall r :: (name, r) in Rejections(lib, zone, allow) <==>
                        name in zone && Rejection(lib, allow, name) == Some(r)
  {
    hide Rejection;
    if zone != [] {
      var front := zone[..|zone| - 1];
      assert zone == front + [zone[|zone| - 1]];
      RejectedFor(lib, front, allow, name);
    }
  }

  // ---------- normal forms ----------

  predicate NoUpper(s: string) { forall i :: 0 <= i < |s| ==> !('A' <= s[i] <= 'Z') }

  // What the model asks of the library functions: lowercasing leaves no ASCII capital and
  // leaves lowercase ASCII alone; an IPv6 literal has no letter x, and x is a letter.
  ghost predicate LibOk(lib: Lib) {
    && (forall s :: NoUpper(lib.lower(s)))
    && (forall s :: IsAscii(s) && NoUpper(s) ==> lib.lower(s) == s)
    && (forall s :: lib.isIpv6(s) ==> 'x' !in s)
    && lib.isAlphabetic('x')
  }

  // The characters of a normalised name.
  predicate IsPlain(s: string) { IsAscii(s) && NoUpper(s) && '*' !in s }

  lemma {:induction false} AsciiOfSubset(l: string)
    ensures forall c :: c in Punycode.AsciiOf(l) ==> c in l && c as int < 0x80
  {
    if l != "" {
      AsciiOfSubset(l[1..]);
    }
  }

  lemma EncodedLabelShape(l: string)
    requires l != "" && '.' !in l && '*' !in l && NoUpper(l) && EncodeLabel(l).Ok?
    ensures var e := EncodeLabel(l).value; e != "" && '.' !in e && IsPlain(e)
    ensures EncodeLabel(l).value == l || (!IsAscii(l) && 'x' in EncodeLabel(l).value)
  {
    var e := EncodeLabel(l).value;
    if !IsAscii(l) {
      hide Punycode.Encode, Punycode.AsciiOf;
      PunycodeLaws.EncodeCharacters(l);
      AsciiOfSubset(l);
      var ascii := Punycode.Encode(l).ascii;
      assert e[0] == 'x';
      forall i | 0 <= i < |e| ensures e[i] as int < 0x80 && !('A' <= e[i] <= 'Z') && e[i] != '.' && e[i] != '*' {
        if i >= 4 {
          assert e[i] == ascii[i - 4];
        } else {
          assert e[i] == "xn--"[i];
        }
      }
    }
  }

  lemma {:induction false} LabelCharacters(s: string, i: nat)
    requires i < |Labels(s)|
    ensures forall c :: c in Labels(s)[i] ==> c in s
  {
    if s != "" {
      var rest := Labels(s[1..]);
      if s[0] == '.' {
        if i > 0 {
          LabelCharacters(s[1..], i - 1);
        }
      } else {
        LabelCharacters(s[1..], i);
      }
    }
  }

  lemma {:induction false} JoinPlain(ls: seq<string>)
    requires |ls| >= 1 && forall i :: 0 <= i < |ls| ==> IsPlain(ls[i])
    ensures IsPlain(Join(ls))
  {
    if |ls| > 1 {
      JoinPlain(ls[1..]);
      PlainConcat(ls[0], ".");
      PlainConcat(ls[0] + ".", Join(ls[1..]));
    }
  }

  lemma PlainConcat(a: string, b: string)
    requires IsPlain(a) && IsPlain(b)
    ensures IsPlain(a + b)
  {
  }

  lemma {:induction false} JoinContains(ls: seq<string>, i: nat, c: char)
    requires i < |ls| && c in ls[i]
    ensures c in Join(ls)
  {
    if |ls| > 1 {
      if i > 0 {
        JoinContains(ls[1..], i - 1, c);
      }
    }
  }

  lemma {:induction false} EncodeLabelsOfPlain(ls: seq<string>)
    requires forall i :: 0 <= i < |ls| ==> IsAscii(ls[i])
    ensures EncodeLabels(ls) == Ok(ls)
  {
    if ls != [] {
      EncodeLabelsOfPlain(ls[1..]);
      assert [ls[0]] + ls[1..] == ls;
    }
  }

  lemma CharsNoUpper(s: string, t: string)
    requires NoUpper(s) && forall c :: c in t ==> c in s
    ensures NoUpper(t)
  {
    forall i | 0 <= i < |t| ensures !('A' <= t[i] <= 'Z') {
      assert t[i] in s;
    }
  }

  // A normalised name is plain ASCII, none of its labels is empty, and it either is the
  // cleaned input or carries an encoded label.
  lemma NormalFormShape(lib: Lib, raw: string)
    requires LibOk(lib) && Normalized(lib, raw).Ok?
    ensures var n := Normalized(lib, raw).value;
            && n != "" && IsPlain(n) && "" !in Labels(n) && n[0] != '.' && n[|n| - 1] != '.'
            && (n == Cleaned(lib, raw) || 'x' in n)
  {
    hide Labels, Join, EncodeLabel, LooksLikeIp;
    var s := Cleaned(lib, raw);
    var ls := Labels(s);
    var es := EncodeLabels(ls).value;
    var n := Join(es);
    assert NoUpper(s);
    LabelsHaveNoDots(s);
    JoinLabels(s);
    forall i | 0 <= i < |ls|
      ensures es[i] != "" && '.' !in es[i] && IsPlain(es[i])
      ensures es[i] == ls[i] || 'x' in es[i]
    {
      LabelCharacters(s, i);
      CharsNoUpper(s, ls[i]);
      assert ls[i] in ls;
      EncodedLabelShape(ls[i]);
    }
    JoinPlain(es);
    LabelsJoin(es);
    if es != ls {
      var i :| 0 <= i < |ls| && es[i] != ls[i];
      JoinContains(es, i, 'x');
    }
    JoinEnds(es);
  }

  lemma {:induction false} JoinEnds(ls: seq<string>)
    requires |ls| >= 1 && forall i :: 0 <= i < |ls| ==> ls[i] != "" && '.' !in ls[i]
    ensures Join(ls) != "" && Join(ls)[0] != '.' && Join(ls)[|Join(ls)| - 1] != '.'
  {
    if |ls| > 1 {
      JoinEnds(ls[1..]);
    }
  }

  lemma {:induction false} StripKeeps(s: string, c: char, x: char)
    requires x in s && x != c
    ensures x in StripFront(s, c) && x in StripBack(s, c)
    decreases |s|
  {
    if s != "" && s[0] == c {
      StripKeeps(s[1..], c, x);
    }
    if s != "" && s[|s| - 1] == c {
      StripKeeps(s[..|s| - 1], c, x);
    }
  }

  // A name with an x in it is no IP literal.
  lemma XIsNoIp(lib: Lib, n: string)
    requires LibOk(lib) && 'x' in n
    ensures !LooksLikeIp(lib, n)
  {
    StripKeeps(n, '[', 'x');
    StripKeeps(StripFront(n, '['), ']', 'x');
    var i :| 0 <= i < |n| && n[i] == 'x';
    if IsIpv4(n) {
      JoinLabels(n);
      Ipv4Characters(Labels(n));
    }
  }

  lemma {:induction false} Ipv4Characters(ls: seq<string>)
    requires |ls| >= 1 && forall i :: 0 <= i < |ls| ==> IsDecimal(ls[i])
    ensures 'x' !in Join(ls)
  {
    if |ls| > 1 {
      Ipv4Characters(ls[1..]);
    }
  }

  lemma PlainSlice(s: string, i: nat, j: nat)
    requires i <= j <= |s|
    ensures IsPlain(s) ==> IsPlain(s[i..j])
  {
    assert forall c :: c in s[i..j] ==> c in s;
  }

  lemma {:induction false} TrimShortens(s: string)
    ensures |TrimStart(s)| <= |s| && |TrimEnd(s)| <= |s|
    ensures TrimStart(s) != s ==> |TrimStart(s)| < |s|
    ensures TrimEnd(s) != s ==> |TrimEnd(s)| < |s|
    ensures IsPlain(s) ==> IsPlain(TrimStart(s)) && IsPlain(TrimEnd(s))
    decreases |s|
  {
    if s != "" {
      hide IsWhite, IsPlain;
      if IsWhite(s[0]) {
        PlainSlice(s, 1, |s|);
        assert s[1..|s|] == s[1..];
        TrimShortens(s[1..]);
      }
      if IsWhite(s[|s| - 1]) {
        PlainSlice(s, 0, |s| - 1);
        assert s[0..|s| - 1] == s[..|s| - 1];
        TrimShortens(s[..|s| - 1]);
      }
    }
  }

  // Normalising again changes nothing exactly if trimming the result does not.
  lemma FixedIffTrimmed(lib: Lib, raw: string)
    requires LibOk(lib) && Normalized(lib, raw).Ok?
    ensures var n := Normalized(lib, raw).value;
            Normalized(lib, n) == Ok(n) <==> Trim(n) == n
  {
    hide Labels, Join, EncodeLabels, LooksLikeIp, IsIpv4;
    var n := Normalized(lib, raw).value;
    NormalFormShape(lib, raw);
    JoinLabels(n);
    if Trim(n) == n {
      assert Cleaned(lib, n) == n;
      if 'x' in n {
        XIsNoIp(lib, n);
      }
      PlainLabels(n);
    } else {
      TrimShortens(n);
      TrimShortens(TrimStart(n));
      ShorterNormalForm(lib, n);
    }
  }

  lemma PlainLabels(n: string)
    requires IsPlain(n)
    ensures EncodeLabels(Labels(n)) == Ok(Labels(n))
  {
    forall i | 0 <= i < |Labels(n)| ensures IsAscii(Labels(n)[i]) {
      LabelCharacters(n, i);
      forall j | 0 <= j < |Labels(n)[i]| ensures Labels(n)[i][j] as int < 0x80 {
        assert Labels(n)[i][j] in n;
      }
    }
    EncodeLabelsOfPlain(Labels(n));
  }

  lemma ShorterNormalForm(lib: Lib, n: string)
    requires LibOk(lib) && IsPlain(n) && IsPlain(Trim(n)) && |Trim(n)| < |n|
    ensures Normalized(lib, n) != Ok(n)
  {
    hide Labels, Join, EncodeLabels, LooksLikeIp;
    var s := Cleaned(lib, n);
    assert |s| <= |Trim(n)|;
    assert IsPlain(s);
    PlainLabels(s);
    JoinLabels(s);
  }

  // ---------- idempotence, from the input ----------

  predicate EndsBlank(s: string) { s != "" && IsAscii(s) && IsWhite(s[|s| - 1]) }

  predicate StartsBlank(s: string) { s != "" && IsAscii(s) && IsWhite(s[0]) }

  lemma TrimFixed(s: string)
    ensures Trim(s) == s <==> s == "" || (!IsWhite(s[0]) && !IsWhite(s[|s| - 1]))
  {
    hide IsWhite;
    TrimShortens(s);
    if s != "" && IsWhite(s[0]) {
      TrimShortens(s[1..]);
      TrimShortens(TrimStart(s));
    } else if s != "" && IsWhite(s[|s| - 1]) {
      TrimShortens(s[..|s| - 1]);
    }
  }

  lemma {:induction false} JoinFirstLast(ls: seq<string>)
    requires |ls| >= 1 && forall i :: 0 <= i < |ls| ==> ls[i] != ""
    ensures var s := Join(ls); var last := ls[|ls| - 1];
      s != "" && s[0] == ls[0][0] && s[|s| - 1] == last[|last| - 1]
  {
    if |ls| > 1 {
      JoinFirstLast(ls[1..]);
    }
  }

  // An encoded label starts with a letter and ends with a letter or a digit.
  lemma EncodedLabelEnds(l: string)
    requires l != "" && EncodeLabel(l).Ok?
    ensures var e := EncodeLabel(l).value;
      e != "" && (IsWhite(e[0]) <==> StartsBlank(l)) && (IsWhite(e[|e| - 1]) <==> EndsBlank(l))
  {
    if !IsAscii(l) {
      var i :| 0 <= i < |l| && l[i] as int >= 0x80;
      assert Punycode.CodePoints(l)[i] >= Punycode.INITIAL_N;
      PunycodeLaws.EncodeEndsInDigit(l);
      var a := Punycode.Encode(l).ascii;
      var e := "xn--" + a;
      assert e[|e| - 1] == a[|a| - 1] && e[0] == 'x';
    }
  }

  // Normalising again changes nothing if and only if the cleaned input's last label is not plain
  // ASCII ending in white space, nor its first plain ASCII starting with it. Only a trailing
  // dot with white space in front of it, which is trimmed too early, comes to that.
  lemma NormalizeIdempotent(lib: Lib, raw: string)
    requires LibOk(lib) && Normalized(lib, raw).Ok?
    ensures var n := Normalized(lib, raw).value; var ls := Labels(Cleaned(lib, raw));
      Normalized(lib, n) == Ok(n) <==> !EndsBlank(ls[|ls| - 1]) && !StartsBlank(ls[0])
  {
    hide Labels, EncodeLabel, LooksLikeIp, Trim, IsWhite, EndsBlank, StartsBlank;
    var ls := Labels(Cleaned(lib, raw));
    var es := EncodeLabels(ls).value;
    FixedIffTrimmed(lib, raw);
    forall i | 0 <= i < |ls|
      ensures es[i] != "" && (IsWhite(es[i][0]) <==> StartsBlank(ls[i])) &&
              (IsWhite(es[i][|es[i]| - 1]) <==> EndsBlank(ls[i]))
    {
      assert ls[i] in ls;
      EncodedLabelEnds(ls[i]);
    }
    JoinFirstLast(es);
    TrimFixed(Join(es));
  }

  // Lowercasing text without white space at its ends puts none there.
  ghost predicate KeepsEnds(lib: Lib) { forall s :: Trim(s) == s ==> Trim(lib.lower(s)) == lib.lower(s) }

  lemma {:induction false} TrimTrims(s: string)
    ensures Trim(Trim(s)) == Trim(s)
    decreases |s|
  {
    hide IsWhite;
    if s != "" && IsWhite(s[0]) {
      TrimTrims(s[1..]);
    } else if s != "" && IsWhite(s[|s| - 1]) {
      var t := s[..|s| - 1];
      TrimTrims(t);
      assert t != "" ==> t[0] == s[0];
    }
  }

  // So it is idempotent on every input with no white space in front of a stripped trailing dot.
  lemma IdempotentWithoutBlankDot(lib: Lib, raw: string)
    requires LibOk(lib) && KeepsEnds(lib) && Normalized(lib, raw).Ok?
    requires var t := lib.lower(Trim(raw)); |t| >= 2 && t[|t| - 1] == '.' ==> !IsWhite(t[|t| - 2])
    ensures var n := Normalized(lib, raw).value; Normalized(lib, n) == Ok(n)
  {
    hide Labels, EncodeLabel, LooksLikeIp, Trim, IsWhite;
    var t := lib.lower(Trim(raw));
    var s := Cleaned(lib, raw);
    TrimTrims(raw);
    TrimFixed(t);
    JoinLabels(s);
    forall i | 0 <= i < |Labels(s)|
      ensures Labels(s)[i] != ""
    {
      assert Labels(s)[i] in Labels(s);
    }
    JoinFirstLast(Labels(s));
    NormalizeIdempotent(lib, raw);
  }

  // Where it fails.
  lemma IdempotenceFails(lib: Lib)
    requires LibOk(lib)
    ensures Normalized(lib, "x .") == Ok("x ") && Normalized(lib, "x ") == Ok("x")
  {
    hide LooksLikeIp, Labels, EncodeLabels, Trim, IsAscii, NoUpper;
    TrimmedExamples(lib);
    XIsNoIp(lib, "x ");
    XIsNoIp(lib, "x");
    OneLabel("x ");
    OneLabel("x");
  }

  lemma TrimmedExamples(lib: Lib)
    requires LibOk(lib)
    ensures Cleaned(lib, "x .") == "x " && Cleaned(lib, "x ") == "x" && IsAscii("x ") && IsAscii("x")
  {
    assert IsAscii("x .") && NoUpper("x .") && NoUpper("x");
    TrimFixed("x .");
    assert lib.lower("x .") == "x ." && "x ."[..2] == "x ";
    assert TrimStart("x ") == "x " && "x "[..1] == "x" && TrimEnd("x ") == TrimEnd("x") == "x";
  }

  lemma OneLabel(l: string)
    requires IsAscii(l) && '.' !in l
    ensures Labels(l) == [l] && EncodeLabels(Labels(l)) == Ok([l])
  {
    LabelsOfLabel(l);
    assert EncodeLabel(l) == Ok(l);
    assert [l] + [] == [l];
  }
}
