// Name normalisation and the operator's suffix policy (client/src/splitdns/mod.rs).
module NamePolicy {
  import opened Prelude
  import Punycode

  // What the standard library supplies: Unicode lowercasing, the IPv6 literal parser and
  // the alphabetic test.
  datatype Lib = Lib(lower: string -> string, isIpv6: string -> bool, isAlphabetic: char -> bool)

  // EncoderOverflow stands for the encoder's unchecked addition overflowing.
  datatype SuffixError = Empty | Wildcard | LeadingDot | EmptyLabel | IpLiteral | InvalidIdn | EncoderOverflow

  datatype RejectReason = InvalidSuffix | NotAllowlisted

  // ---------- strings ----------

  predicate IsWhite(c: char) {
    var n := c as int;
    9 <= n <= 13 || n == 0x20 || n == 0x85 || n == 0xA0 || n == 0x1680 || 0x2000 <= n <= 0x200A ||
    n == 0x2028 || n == 0x2029 || n == 0x202F || n == 0x205F || n == 0x3000
  }

  function TrimStart(s: string): string {
    if s != "" && IsWhite(s[0]) then TrimStart(s[1..]) else s
  }

  function TrimEnd(s: string): string {
    if s != "" && IsWhite(s[|s| - 1]) then TrimEnd(s[..|s| - 1]) else s
  }

  function Trim(s: string): string { TrimEnd(TrimStart(s)) }

  function StripFront(s: string, c: char): string {
    if s != "" && s[0] == c then StripFront(s[1..], c) else s
  }

  function StripBack(s: string, c: char): string {
    if s != "" && s[|s| - 1] == c then StripBack(s[..|s| - 1], c) else s
  }

  // The dot-separated labels of a name; the empty string has one empty label.
  function Labels(s: string): (ls: seq<string>)
    ensures |ls| >= 1
  {
    if s == "" then [""]
    else
      var rest := Labels(s[1..]);
      if s[0] == '.' then [""] + rest else [[s[0]] + rest[0]] + rest[1..]
  }

  function Join(ls: seq<string>): string
    requires |ls| >= 1
  {
    if |ls| == 1 then ls[0] else ls[0] + "." + Join(ls[1..])
  }

  predicate IsAscii(s: string) { forall i :: 0 <= i < |s| ==> s[i] as int < 0x80 }

  // ---------- IP literals ----------

  predicate IsDecimal(s: string) { forall i :: 0 <= i < |s| ==> '0' <= s[i] <= '9' }

  function DecimalValue(s: string): nat
    requires IsDecimal(s)
  {
    if s == "" then 0 else 10 * DecimalValue(s[..|s| - 1]) + (s[|s| - 1] - '0') as int
  }

  // One octet of an IPv4 literal: one to three digits, no leading zero, at most 255.
  predicate IsOctet(s: string) {
    1 <= |s| <= 3 && IsDecimal(s) && (|s| > 1 ==> s[0] != '0') && DecimalValue(s) <= 255
  }

  predicate IsIpv4(s: string) {
    var parts := Labels(s);
    |parts| == 4 && forall i :: 0 <= i < 4 ==> IsOctet(parts[i])
  }

  predicate LooksLikeIp(lib: Lib, s: string) {
    IsIpv4(s) ||
    var t := StripBack(StripFront(s, '['), ']');
    lib.isIpv6(t) || (':' in t && (forall i :: 0 <= i < |t| ==> !lib.isAlphabetic(t[i])) && t != "")
  }

  // ---------- normalisation ----------

  function EncodeLabel(l: string): Result<string, SuffixError> {
    if IsAscii(l) then Ok(l)
    else
      match Punycode.Encode(l)
      case Encoded(ascii) => Ok("xn--" + ascii)
      case Refused => Err(InvalidIdn)
      case Overflowed => Err(EncoderOverflow)
  }

  function EncodeLabels(ls: seq<string>): (r: Result<seq<string>, SuffixError>)
    ensures r.Ok? ==> |r.value| == |ls| && forall i :: 0 <= i < |ls| ==> EncodeLabel(ls[i]) == Ok(r.value[i])
  {
    if ls == [] then Ok([])
    else
      match EncodeLabel(ls[0])
      case Err(e) => Err(e)
      case Ok(l) =>
        match EncodeLabels(ls[1..])
        case Err(e) => Err(e)
        case Ok(rest) => Ok([l] + rest)
  }

  // Trimmed, lowercased, one trailing dot stripped.
  function Cleaned(lib: Lib, raw: string): string {
    var s := lib.lower(Trim(raw));
    if s != "" && s[|s| - 1] == '.' then s[..|s| - 1] else s
  }

  function Normalized(lib: Lib, raw: string): Result<string, SuffixError> {
    var s := Cleaned(lib, raw);
    if s == "" then Err(Empty)
    else if '*' in s then Err(Wildcard)
    else if s[0] == '.' then Err(LeadingDot)
    else if "" in Labels(s) then Err(EmptyLabel)
    else if LooksLikeIp(lib, s) then Err(IpLiteral)
    else
      match EncodeLabels(Labels(s))
      case Err(e) => Err(e)
      case Ok(ls) => Ok(Join(ls))
  }

  method NormalizeName(lib: Lib, raw: string) returns (r: Result<string, SuffixError>)
    ensures r == Normalized(lib, raw)
  {
    hide Labels, LooksLikeIp, EncodeLabel, Join, Trim, WithPrefix, EncodeLabels;
    var s := lib.lower(Trim(raw));
    if s != "" && s[|s| - 1] == '.' {
      s := s[..|s| - 1];
    }
    if s == "" { return Err(Empty); }
    if '*' in s { return Err(Wildcard); }
    if s[0] == '.' { return Err(LeadingDot); }
    var parts := Labels(s);
    if "" in parts { return Err(EmptyLabel); }
    if LooksLikeIp(lib, s) { return Err(IpLiteral); }
    var labels: seq<string> := [];
    var i := 0;
    assert parts[0..] == parts;
    NothingBefore(EncodeLabels(parts));
    while i < |parts|
      invariant 0 <= i <= |parts| && |labels| == i
      invariant EncodeLabels(parts) == WithPrefix(labels, EncodeLabels(parts[i..]))
    {
      OneMoreLabel(parts, i, labels);
      match EncodeLabel(parts[i])
      case Err(e) => return Err(e);
      case Ok(l) =>
        labels := labels + [l];
        i := i + 1;
    }
    assert parts[i..] == [];
    NoLabelsLeft(labels);
    return Ok(Join(labels));
  }

  ghost function WithPrefix(ls: seq<string>, r: Result<seq<string>, SuffixError>): Result<seq<string>, SuffixError> {
    if r.Ok? then Ok(ls + r.value) else r
  }

  lemma NothingBefore(r: Result<seq<string>, SuffixError>)
    ensures WithPrefix([], r) == r
  {
    assert r.Ok? ==> [] + r.value == r.value;
  }

  lemma NoLabelsLeft(labels: seq<string>)
    ensures WithPrefix(labels, EncodeLabels([])) == Ok(labels)
  {
    assert labels + [] == labels;
  }

  lemma OneMoreLabel(parts: seq<string>, i: nat, labels: seq<string>)
    requires i < |parts|
    ensures var r := WithPrefix(labels, EncodeLabels(parts[i..]));
      match EncodeLabel(parts[i])
      case Err(e) => r == Err(e)
      case Ok(l) => r == WithPrefix(labels + [l], EncodeLabels(parts[i + 1..]))
  {
    assert parts[i..][0] == parts[i] && parts[i..][1..] == parts[i + 1..];
    if EncodeLabel(parts[i]).Ok? {
      WithPrefixStep(labels, EncodeLabel(parts[i]).value, EncodeLabels(parts[i + 1..]));
    }
  }

  lemma WithPrefixStep(ls: seq<string>, l: string, r: Result<seq<string>, SuffixError>)
    ensures WithPrefix(ls + [l], r) == WithPrefix(ls, WithPrefix([l], r))
  {
    if r.Ok? {
      assert ls + ([l] + r.value) == (ls + [l]) + r.value;
    }
  }

  // ---------- the desired set ----------

  predicate SuffixMatches(name: string, suffix: string) {
    name == suffix || StripSuffix(name, "." + suffix).Some?
  }

  // `n` is under an allowlist entry that normalises.
  predicate Allowed(lib: Lib, allow: seq<string>, n: string) {
    exists i :: 0 <= i < |allow| &&
                Normalized(lib, allow[i]).Ok? && SuffixMatches(n, Normalized(lib, allow[i]).value)
  }

  // Why a zone name does not become a rule, if it does not.
  function Rejection(lib: Lib, allow: seq<string>, name: string): Option<RejectReason> {
    match Normalized(lib, name)
    case Err(_) => Some(InvalidSuffix)
    case Ok(n) => if Allowed(lib, allow, n) then None else Some(NotAllowlisted)
  }

  function Rejections(lib: Lib, zone: seq<string>, allow: seq<string>): seq<(string, RejectReason)> {
    if zone == [] then []
    else
      var last := zone[|zone| - 1];
      Rejections(lib, zone[..|zone| - 1], allow) +
      match Rejection(lib, allow, last) case None => [] case Some(r) => [(last, r)]
  }

  // `n` is the normal form of an allowed zone name.
  ghost predicate IsDesired(lib: Lib, zone: seq<string>, allow: seq<string>, n: string) {
    Allowed(lib, allow, n) && exists i :: 0 <= i < |zone| && Normalized(lib, zone[i]) == Ok(n)
  }

  // Code point order, which on these strings is byte order.
  predicate StringLess(a: string, b: string) {
    b != "" && (a == "" || a[0] < b[0] || (a[0] == b[0] && StringLess(a[1..], b[1..])))
  }

  predicate StrictlySorted(s: seq<string>) {
    forall i, j :: 0 <= i < j < |s| ==> StringLess(s[i], s[j])
  }

  // The library's sort.
  function Insert(s: seq<string>, x: string): seq<string> {
    if s == [] || StringLess(x, s[0]) then [x] + s else [s[0]] + Insert(s[1..], x)
  }

  function Sorted(s: seq<string>): seq<string> {
    if s == [] then [] else Insert(Sorted(s[1..]), s[0])
  }

  predicate Distinct(s: seq<string>) { forall i, j :: 0 <= i < j < |s| ==> s[i] != s[j] }

  lemma {:induction false} StringOrder(a: string, b: string, c: string)
    ensures !StringLess(a, a)
    ensures a == b || StringLess(a, b) || StringLess(b, a)
    ensures StringLess(a, b) && StringLess(b, c) ==> StringLess(a, c)
    decreases |a| + |b| + |c|
  {
    if a != "" && b != "" {
      if c != "" {
        StringOrder(a[1..], b[1..], c[1..]);
      } else {
        StringOrder(a[1..], b[1..], c);
      }
      assert a == [a[0]] + a[1..] && b == [b[0]] + b[1..];
    } else if a != "" {
      StringOrder(a[1..], b, c);
    }
  }

  lemma {:induction false} InsertSorted(s: seq<string>, x: string)
    requires StrictlySorted(s) && x !in s
    ensures StrictlySorted(Insert(s, x))
    ensures forall y :: y in Insert(s, x) <==> y == x || y in s
  {
    if s != [] && !StringLess(x, s[0]) {
      StringOrder(x, s[0], s[0]);
      InsertSorted(s[1..], x);
      var rest := Insert(s[1..], x);
      forall j | 0 <= j < |rest| ensures StringLess(s[0], rest[j]) {
        assert rest[j] in rest;
        if rest[j] != x {
          var i :| 0 <= i < |s[1..]| && s[1..][i] == rest[j];
          assert s[i + 1] == rest[j];
        }
      }
    } else if s != [] {
      forall j | 0 <= j < |s| ensures StringLess(x, s[j]) {
        StringOrder(x, s[0], s[j]);
      }
    }
  }

  lemma {:induction false} SortedSorts(s: seq<string>)
    requires Distinct(s)
    ensures StrictlySorted(Sorted(s))
    ensures forall y :: y in Sorted(s) <==> y in s
  {
    if s != [] {
      SortedSorts(s[1..]);
      assert s[0] !in s[1..];
      InsertSorted(Sorted(s[1..]), s[0]);
    }
  }

  // The desired rule set: strictly sorted, hence without duplicates; exactly the normal
  // forms of allowed zone names; and every other zone name rejected, in order, with its reason.
  method DesiredNamespaces(lib: Lib, zone: seq<string>, allow: seq<string>)
    returns (desired: seq<string>, rejected: seq<(string, RejectReason)>)
    ensures StrictlySorted(desired)
    ensures forall n :: n in desired <==> IsDesired(lib, zone, allow, n)
    ensures rejected == Rejections(lib, zone, allow)
  {
    hide Normalized, SuffixMatches;
    var normalizedAllow: seq<string> := [];
    var i := 0;
    while i < |allow|
      invariant 0 <= i <= |allow|
      invariant forall s :: s in normalizedAllow <==> exists j :: 0 <= j < i && Normalized(lib, allow[j]) == Ok(s)
    {
      var r := NormalizeName(lib, allow[i]);
      if r.Ok? {
        normalizedAllow := normalizedAllow + [r.value];
      }
      i := i + 1;
    }
    desired, rejected := [], [];
    i := 0;
    while i < |zone|
      invariant 0 <= i <= |zone| && Distinct(desired)
      invariant forall n :: n in desired <==> IsDesired(lib, zone[..i], allow, n)
      invariant rejected == Rejections(lib, zone[..i], allow)
    {
      assert zone[..i + 1][..i] == zone[..i];
      var r := NormalizeName(lib, zone[i]);
      DesiredStep(lib, zone, allow, i);
      match r {
        case Err(_) =>
          rejected := rejected + [(zone[i], InvalidSuffix)];
        case Ok(n) =>
          AllowedIff(lib, allow, normalizedAllow, n);
          if exists s :: s in normalizedAllow && SuffixMatches(n, s) {
            if n !in desired {
              desired := desired + [n];
            }
          } else {
            rejected := rejected + [(zone[i], NotAllowlisted)];
          }
      }
      i := i + 1;
    }
    assert zone[..i] == zone;
    SortedSorts(desired);
    desired := Sorted(desired);
  }

  lemma DesiredStep(lib: Lib, zone: seq<string>, allow: seq<string>, i: nat)
    requires i < |zone|
    ensures forall n ::
              IsDesired(lib, zone[..i + 1], allow, n) <==>
              IsDesired(lib, zone[..i], allow, n) || (Normalized(lib, zone[i]) == Ok(n) && Allowed(lib, allow, n))
  {
    hide Normalized, Allowed;
    forall n
      ensures IsDesired(lib, zone[..i + 1], allow, n) <==>
              IsDesired(lib, zone[..i], allow, n) || (Normalized(lib, zone[i]) == Ok(n) && Allowed(lib, allow, n))
    {
      assert zone[..i + 1] == zone[..i] + [zone[i]];
      if IsDesired(lib, zone[..i], allow, n) {
        var j :| 0 <= j < i && Normalized(lib, zone[..i][j]) == Ok(n);
        assert zone[..i + 1][j] == zone[..i][j];
      }
      if Normalized(lib, zone[i]) == Ok(n) && Allowed(lib, allow, n) {
        assert zone[..i + 1][i] == zone[i];
      }
    }
  }

  lemma AllowedIff(lib: Lib, allow: seq<string>, normalized: seq<string>, n: string)
    requires forall s :: s in normalized <==> exists j :: 0 <= j < |allow| && Normalized(lib, allow[j]) == Ok(s)
    ensures Allowed(lib, allow, n) <==> exists s :: s in normalized && SuffixMatches(n, s)
  {
    hide Normalized, SuffixMatches;
    if Allowed(lib, allow, n) {
      var i :| 0 <= i < |allow| && Normalized(lib, allow[i]).Ok? && SuffixMatches(n, Normalized(lib, allow[i]).value);
      assert Normalized(lib, allow[i]).value in normalized;
    }
  }
}
