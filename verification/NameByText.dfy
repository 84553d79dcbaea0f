// What normalisation makes of a name and why it refuses one, told from the text
// (client/src/splitdns/mod.rs).
module NameByText {
  import opened Prelude
  import opened NamePolicy
  import opened NamePolicyLaws
  import opened Decimals
  import Punycode
  import PunycodeLaws
  import Rfc3492

  // ---------- trimming ----------

  // The 25 code points of Unicode's White_Space property.
  const WHITE_SPACE: set<int> :=
    {9, 10, 11, 12, 13, 32, 133, 160, 5760, 8192, 8193, 8194, 8195, 8196, 8197, 8198, 8199, 8200, 8201, 8202,
     8232, 8233, 8239, 8287, 12288}

  lemma WhiteIs(c: char)
    ensures IsWhite(c) <==> c as int in WHITE_SPACE
  {
  }

  predicate AllWhite(s: string) { forall i :: 0 <= i < |s| ==> IsWhite(s[i]) }

  // No white space at either end.
  predicate Tight(s: string) { s == "" || (!IsWhite(s[0]) && !IsWhite(s[|s| - 1])) }

  lemma {:induction false} StartTrimmed(w: string, t: string)
    requires AllWhite(w)
    ensures TrimStart(w + t) == TrimStart(t)
  {
    hide IsWhite;
    if w != "" {
      assert (w + t)[0] == w[0] && (w + t)[1..] == w[1..] + t;
      StartTrimmed(w[1..], t);
    } else {
      assert w + t == t;
    }
  }

  lemma {:induction false} EndTrimmed(t: string, w: string)
    requires AllWhite(w)
    ensures TrimEnd(t + w) == TrimEnd(t)
    decreases |w|
  {
    hide IsWhite;
    if w != "" {
      assert (t + w)[|t + w| - 1] == w[|w| - 1] && (t + w)[..|t + w| - 1] == t + w[..|w| - 1];
      EndTrimmed(t, w[..|w| - 1]);
    } else {
      assert t + w == t;
    }
  }

  // White space around a name is taken off, all of it and nothing else.
  lemma TrimIs(before: string, t: string, after: string)
    requires AllWhite(before) && AllWhite(after) && Tight(t)
    ensures Trim(before + t + after) == t
  {
    hide IsWhite;
    Regroup(before, t, after);
    StartTrimmed(before, t + after);
    if t == "" {
      assert t + after == after + "";
      StartTrimmed(after, "");
      EndTrimmed("", "");
    } else {
      assert (t + after)[0] == t[0];
      EndTrimmed(t, after);
    }
  }

  // The cleaned text: lower-cased, one trailing dot gone.
  lemma CleanedIs(lib: Lib, before: string, t: string, after: string)
    requires AllWhite(before) && AllWhite(after) && Tight(t)
    ensures var l := lib.lower(t);
      Cleaned(lib, before + t + after) == if l != "" && l[|l| - 1] == '.' then l[..|l| - 1] else l
  {
    hide Trim, IsWhite;
    TrimIs(before, t, after);
  }

  // ---------- refusals ----------

  // Two dots together, or one at the end.
  predicate Gap(s: string) {
    (exists i :: 0 <= i < |s| - 1 && s[i] == '.' && s[i + 1] == '.') || (s != "" && s[|s| - 1] == '.')
  }

  lemma GapStep(s: string)
    requires s != ""
    ensures Gap(s) <==> Gap(s[1..]) || (s[0] == '.' && (|s| == 1 || s[1] == '.'))
  {
    var rest := s[1..];
    if i :| 0 <= i < |s| - 1 && s[i] == '.' && s[i + 1] == '.' {
      assert i > 0 ==> rest[i - 1] == '.' && rest[i] == '.';
    }
    if i :| 0 <= i < |rest| - 1 && rest[i] == '.' && rest[i + 1] == '.' {
      assert s[i + 1] == '.' && s[i + 2] == '.';
    }
  }

  // A label is empty exactly if the text is, or starts with a dot, or has such a gap.
  lemma {:induction false} EmptyLabelIff(s: string)
    ensures Labels(s)[0] == "" <==> s == "" || s[0] == '.'
    ensures "" in Labels(s)[1..] <==> Gap(s)
    ensures "" in Labels(s) <==> s == "" || s[0] == '.' || Gap(s)
  {
    hide Gap;
    HeadOrTail(Labels(s));
    if s == "" {
      NoGap();
    } else {
      EmptyLabelIff(s[1..]);
      GapStep(s);
      var rest := Labels(s[1..]);
      HeadOrTail(rest);
      assert Labels(s)[1..] == if s[0] == '.' then rest else rest[1..];
    }
  }

  lemma HeadOrTail(ls: seq<string>)
    requires ls != []
    ensures "" in ls <==> ls[0] == "" || "" in ls[1..]
  {
    assert ls == [ls[0]] + ls[1..];
  }

  lemma NoGap()
    ensures !Gap("")
  {
  }

  // ---------- address literals ----------

  lemma {:induction false} OctetIff(s: string, v: Byte)
    ensures IsOctet(s) && DecimalValue(s) == v <==> s == Dec(v)
  {
    hide Dec, DecimalValue;
    DecReads(v);
    DecLength(v, 1, Power10(1));
    DecLength(v, 2, Power10(2));
    DecLength(v, 3, Power10(3));
    Powers();
    if IsOctet(s) && DecimalValue(s) == v {
      DecimalShape(s);
      assert s == Zeros(|s| - |Dec(v)|) + Dec(v);
    }
  }

  lemma Powers()
    ensures Power10(1) == 10 && Power10(2) == 100 && Power10(3) == 1000
  {
    assert Power10(0) == 1;
  }

  // A text is taken for an IPv4 literal exactly if it is four numbers up to 255 with dots between.
  lemma Ipv4Iff(s: string)
    ensures IsIpv4(s) <==> exists b: seq<Byte> :: |b| == 4 && s == Quad(b)
  {
    hide Labels, Join, IsOctet, Dec, DecimalValue;
    var parts := Labels(s);
    JoinLabels(s);
    if IsIpv4(s) {
      var b := [OctetOf(parts[0]), OctetOf(parts[1]), OctetOf(parts[2]), OctetOf(parts[3])];
      OctetIff(parts[0], b[0]);
      OctetIff(parts[1], b[1]);
      OctetIff(parts[2], b[2]);
      OctetIff(parts[3], b[3]);
      JoinFour(parts);
      assert s == Quad(b);
    }
    if b: seq<Byte> :| |b| == 4 && s == Quad(b) {
      var ds := [Dec(b[0]), Dec(b[1]), Dec(b[2]), Dec(b[3])];
      JoinFour(ds);
      OctetReads(b[0]);
      OctetReads(b[1]);
      OctetReads(b[2]);
      OctetReads(b[3]);
      LabelsJoin(ds);
      OctetIff(ds[0], b[0]);
      OctetIff(ds[1], b[1]);
      OctetIff(ds[2], b[2]);
      OctetIff(ds[3], b[3]);
    }
  }

  function OctetOf(s: string): Byte
    requires IsOctet(s)
  {
    DecimalValue(s)
  }

  function Brackets(c: char, k: nat): string { seq(k, i => c) }

  lemma {:induction false} FrontStripped(k: nat, c: char, t: string)
    requires t == "" || t[0] != c
    ensures StripFront(Brackets(c, k) + t, c) == t
  {
    var s := Brackets(c, k) + t;
    if k > 0 {
      assert s[1..] == Brackets(c, k - 1) + t;
      FrontStripped(k - 1, c, t);
    } else {
      assert s == t;
    }
  }

  lemma {:induction false} BackStripped(t: string, c: char, k: nat)
    requires t == "" || t[|t| - 1] != c
    ensures StripBack(t + Brackets(c, k), c) == t
  {
    var s := t + Brackets(c, k);
    if k > 0 {
      assert s[..|s| - 1] == t + Brackets(c, k - 1);
      BackStripped(t, c, k - 1);
    } else {
      assert s == t;
    }
  }

  // A text is taken for an address exactly if it is four numbers with dots, or, brackets around it
  // aside, an IPv6 literal, or has a colon and no letter.
  lemma AddressIff(lib: Lib, before: nat, t: string, after: nat)
    requires t != "" && t[0] !in "[]" && t[|t| - 1] !in "[]"
    ensures var s := Brackets('[', before) + t + Brackets(']', after);
      LooksLikeIp(lib, s) <==>
      (exists b: seq<Byte> :: |b| == 4 && s == Quad(b)) || lib.isIpv6(t) ||
      (':' in t && forall i :: 0 <= i < |t| ==> !lib.isAlphabetic(t[i]))
  {
    hide IsIpv4, Quad;
    var s := Brackets('[', before) + t + Brackets(']', after);
    Ipv4Iff(s);
    Regroup(Brackets('[', before), t, Brackets(']', after));
    FrontStripped(before, '[', t + Brackets(']', after));
    BackStripped(t, ']', after);
  }

  // ---------- the normal form ----------

  // Why a name is refused before any label is encoded, in this order.
  lemma RefusedIff(lib: Lib, raw: string)
    ensures var r, s := Normalized(lib, raw), Cleaned(lib, raw);
      (r == Err(Empty) <==> s == "") &&
      (r == Err(Wildcard) <==> '*' in s) &&
      (r == Err(LeadingDot) <==> s != "" && '*' !in s && s[0] == '.') &&
      (r == Err(EmptyLabel) <==> s != "" && '*' !in s && s[0] != '.' && Gap(s)) &&
      (r == Err(IpLiteral) <==> s != "" && '*' !in s && s[0] != '.' && !Gap(s) && LooksLikeIp(lib, s))
  {
    hide Labels, LooksLikeIp, Cleaned, Gap, EncodeLabel;
    EmptyLabelIff(Cleaned(lib, raw));
    EncodingErrors(Labels(Cleaned(lib, raw)));
  }

  lemma {:induction false} EncodingErrors(ls: seq<string>)
    ensures EncodeLabels(ls).Err? ==> EncodeLabels(ls).error in {InvalidIdn, EncoderOverflow}
    ensures EncodeLabels(ls).Err? ==> exists i :: 0 <= i < |ls| && EncodeLabel(ls[i]).Err?
  {
    if ls != [] {
      EncodingErrors(ls[1..]);
      if EncodeLabel(ls[0]).Ok? && EncodeLabels(ls[1..]).Err? {
        var i :| 0 <= i < |ls[1..]| && EncodeLabel(ls[1..][i]).Err?;
        assert EncodeLabel(ls[i + 1]).Err?;
      }
    }
  }

  // Labels of at most 3855 characters are always encoded.
  lemma ShortNamesEncode(lib: Lib, raw: string)
    requires forall l :: l in Labels(Cleaned(lib, raw)) ==> |l| <= 3855
    ensures var r := Normalized(lib, raw);
      r.Ok? || r.error in {Empty, Wildcard, LeadingDot, EmptyLabel, IpLiteral}
  {
    hide Labels, LooksLikeIp, Cleaned;
    var ls := Labels(Cleaned(lib, raw));
    EncodingErrors(ls);
    if i :| 0 <= i < |ls| && EncodeLabel(ls[i]).Err? {
      PunycodeLaws.ShortLabelsEncode(ls[i]);
    }
  }

  // Each label of a normal form is the cleaned text's, if that is ASCII, and otherwise "xn--" and
  // what the decoder of RFC 3492 reads as that label.
  lemma LabelsDecode(lib: Lib, raw: string, i: nat)
    requires LibOk(lib) && Normalized(lib, raw).Ok?
    ensures var ls, es := Labels(Cleaned(lib, raw)), Labels(Normalized(lib, raw).value);
      |es| == |ls| &&
      (i < |ls| ==>
         if forall j :: 0 <= j < |ls[i]| ==> ls[i][j] as int < 128 then es[i] == ls[i]
         else |es[i]| >= 4 && es[i][..4] == "xn--" && Rfc3492.Decode(es[i][4..]) == Some(Punycode.CodePoints(ls[i])))
  {
    hide Labels, Join, LooksLikeIp, EncodeLabel, Cleaned, IsPlain;
    var ls := Labels(Cleaned(lib, raw));
    var es := EncodeLabels(ls).value;
    CleanedPlain(lib, raw);
    LabelsHaveNoDots(Cleaned(lib, raw));
    JoinLabels(Cleaned(lib, raw));
    forall k | 0 <= k < |ls|
      ensures '.' !in es[k]
    {
      assert ls[k] in ls;
      LabelCharacters(Cleaned(lib, raw), k);
      CharsNoUpper(Cleaned(lib, raw), ls[k]);
      EncodedLabelShape(ls[k]);
    }
    LabelsJoin(es);
    if i < |ls| {
      LabelDecodes(ls[i]);
    }
  }

  lemma CleanedPlain(lib: Lib, raw: string)
    requires LibOk(lib)
    ensures NoUpper(Cleaned(lib, raw))
  {
  }

  lemma LabelDecodes(l: string)
    requires EncodeLabel(l).Ok?
    ensures var e := EncodeLabel(l).value;
      if forall j :: 0 <= j < |l| ==> l[j] as int < 128 then e == l
      else |e| >= 4 && e[..4] == "xn--" && Rfc3492.Decode(e[4..]) == Some(Punycode.CodePoints(l))
  {
    hide Rfc3492.Decode, Punycode.Encode;
    if !IsAscii(l) {
      PunycodeLaws.DecodeEncode(l);
      var a := Punycode.Encode(l).ascii;
      assert ("xn--" + a)[4..] == a && ("xn--" + a)[..4] == "xn--";
    }
  }

  // A name of lower-case ASCII that is fit to be one is its own normal form, with white space
  // around it or a dot behind it or neither.
  lemma PlainNameStays(lib: Lib, before: string, t: string, dot: bool, after: string)
    requires LibOk(lib) && AllWhite(before) && AllWhite(after) && Tight(t)
    requires IsPlain(t) && t != "" && t[0] != '.' && !Gap(t) && !LooksLikeIp(lib, t)
    ensures Normalized(lib, before + (if dot then t + "." else t) + after) == Ok(t)
  {
    hide Labels, LooksLikeIp, IsWhite, Gap, Cleaned;
    var u := if dot then t + "." else t;
    DotTight(t);
    CleanedIs(lib, before, u, after);
    PlainDot(t);
    assert u[..|t|] == t;
    GapEnd(t);
    EmptyLabelIff(t);
    PlainLabels(t);
    JoinLabels(t);
  }

  lemma DotTight(t: string)
    ensures Tight(t) && t != "" ==> Tight(t + ".")
  {
  }

  lemma PlainDot(t: string)
    requires IsPlain(t)
    ensures IsPlain(t + ".")
  {
  }

  lemma GapEnd(t: string)
    ensures !Gap(t) && t != "" ==> t[|t| - 1] != '.'
  {
  }

  // ---------- the desired list ----------

  // Names are in the order of their characters: at the first place they differ, or the shorter
  // one first.
  lemma {:induction false} OrderIff(a: string, b: string)
    ensures StringLess(a, b) <==>
            exists k :: 0 <= k <= |a| && k < |b| && a[..k] == b[..k] && (k == |a| || a[k] < b[k])
    decreases |a|
  {
    if a != "" && b != "" && a[0] == b[0] {
      OrderIff(a[1..], b[1..]);
      if k :| 0 <= k <= |a| - 1 && k < |b| - 1 && a[1..][..k] == b[1..][..k] &&
              (k == |a| - 1 || a[1..][k] < b[1..][k]) {
        SameFront(a, b, k);
        assert k + 1 == |a| || a[k + 1] < b[k + 1];
      }
      if k :| 0 <= k <= |a| && k < |b| && a[..k] == b[..k] && (k == |a| || a[k] < b[k]) {
        assert k > 0;
        SameFront(a, b, k - 1);
        assert k == |a| || a[1..][k - 1] < b[1..][k - 1];
      }
    } else if b != "" && (a == "" || a[0] < b[0]) {
      assert a[..0] == b[..0];
    }
  }

  lemma SameFront(a: string, b: string, k: nat)
    requires a != "" && b != "" && a[0] == b[0] && k < |a| && k < |b|
    ensures a[..k + 1] == b[..k + 1] <==> a[1..][..k] == b[1..][..k]
  {
    assert a[..k + 1] == [a[0]] + a[1..][..k] && b[..k + 1] == [b[0]] + b[1..][..k];
    assert a[..k + 1][1..] == a[1..][..k] && b[..k + 1][1..] == b[1..][..k];
  }

  // The rejected names come in the order of the zone, each with its reason: one that cannot be
  // normalised, or one whose normal form is under no entry of the allowlist that can.
  lemma RejectedInOrder(lib: Lib, zone: seq<string>, name: string, allow: seq<string>)
    ensures Rejections(lib, [], allow) == []
    ensures Rejections(lib, zone + [name], allow) ==
            Rejections(lib, zone, allow) +
            match Normalized(lib, name)
            case Err(_) => [(name, InvalidSuffix)]
            case Ok(n) =>
              if exists i :: 0 <= i < |allow| && Under(lib, n, allow[i]) then [] else [(name, NotAllowlisted)]
  {
    hide Normalized, SuffixMatches;
    var all := zone + [name];
    assert all[..|all| - 1] == zone;
    if Normalized(lib, name).Ok? {
      AllowedIsUnder(lib, allow, Normalized(lib, name).value);
    }
  }

  // The labels of `n` end with those of the entry's normal form.
  predicate Under(lib: Lib, n: string, entry: string) {
    match Normalized(lib, entry)
    case Err(_) => false
    case Ok(suffix) => |Labels(suffix)| <= |Labels(n)| && Labels(n)[|Labels(n)| - |Labels(suffix)|..] == Labels(suffix)
  }

  lemma AllowedIsUnder(lib: Lib, allow: seq<string>, n: string)
    ensures Allowed(lib, allow, n) <==> exists i :: 0 <= i < |allow| && Under(lib, n, allow[i])
  {
    hide Normalized, SuffixMatches, Labels;
    forall i | 0 <= i < |allow|
      ensures Under(lib, n, allow[i]) <==>
              Normalized(lib, allow[i]).Ok? && SuffixMatches(n, Normalized(lib, allow[i]).value)
    {
      if Normalized(lib, allow[i]).Ok? {
        SuffixMatchIsLabelAligned(n, Normalized(lib, allow[i]).value);
      }
    }
  }
}
