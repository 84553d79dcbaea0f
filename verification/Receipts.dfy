// Dates read from update receipts (client/src/posture_collector.rs).
module Receipts {
  import opened Prelude
  import opened NamePolicy
  import opened Calendar
  import Decimals

  // ---------- text ----------

  // i64::from_str on short texts: an optional sign, then digits.
  function ParseInt(s: string): Option<int> {
    var signed := s != "" && (s[0] == '+' || s[0] == '-');
    var t := if signed then s[1..] else s;
    if t == "" || !IsDecimal(t) then None
    else Some(if signed && s[0] == '-' then -(DecimalValue(t) as int) else DecimalValue(t))
  }

  // Whether `pat` starts at position `at`.
  predicate At(s: string, pat: string, at: nat) { at + |pat| <= |s| && s[at..at + |pat|] == pat }

  function Find(s: string, pat: string, from: nat): (r: Option<nat>)
    requires from <= |s|
    ensures r.Some? ==> from <= r.value && At(s, pat, r.value)
    decreases |s| - from
  {
    if At(s, pat, from) then Some(from) else if from == |s| then None else Find(s, pat, from + 1)
  }

  function SplitOn(s: string, sep: string): (parts: seq<string>)
    requires sep != ""
    ensures |parts| >= 1
  {
    match Find(s, sep, 0)
    case None => [s]
    case Some(i) => [s[..i]] + SplitOn(s[i + |sep|..], sep)
  }

  // ---------- one date ----------

  function IsoDateToUnix(iso: string): Option<int> {
    var s := Trim(iso);
    if |s| < 10 || s[4] != '-' || s[7] != '-' then None
    else
      match (ParseInt(s[0..4]), ParseInt(s[5..7]), ParseInt(s[8..10]))
      case (Some(y), Some(m), Some(d)) =>
        if !(1 <= m <= 12) || !(1 <= d <= 31) then None else Some(CivilToUnix(y, m, d))
      case _ => None
  }

  function DigitsPrefix(s: string): string {
    if s != "" && '0' <= s[0] <= '9' then [s[0]] + DigitsPrefix(s[1..]) else ""
  }

  // The Windows reading of an InstalledOn field.
  function HotfixDateToUnix(installedOn: string): Option<int> {
    var d := DigitsPrefix(installedOn);
    if |d| < 8 then None
    else
      match (ParseInt(d[0..4]), ParseInt(d[4..6]), ParseInt(d[6..8]))
      case (Some(y), Some(m), Some(day)) => Some(DateToUnix(y, m, day))
      case _ => None
  }

  // ---------- the newest receipt ----------

  // The date of an update package's receipt, if the chunk is one.
  function ReceiptDate(dict: string): Option<string> {
    if Find(dict, "com.apple.pkg.update", 0).None? then None
    else
      match Find(dict, "<key>date</key>", 0)
      case None => None
      case Some(k) =>
        var after := dict[k + 15..];
        match Find(after, "<date>", 0)
        case None => None
        case Some(o) =>
          var rest := after[o + 6..];
          match Find(rest, "</date>", 0)
          case None => None
          case Some(c) => Some(rest[..c])
  }

  function ReceiptUnix(dict: string): Option<int> {
    match ReceiptDate(dict)
    case None => None
    case Some(text) => IsoDateToUnix(text)
  }

  // `newest` is the largest readable date of an update receipt, or None if there is none.
  ghost predicate IsNewest(dicts: seq<string>, newest: Option<int>) {
    match newest
    case None => forall i :: 0 <= i < |dicts| ==> ReceiptUnix(dicts[i]).None?
    case Some(n) =>
      (exists i :: 0 <= i < |dicts| && ReceiptUnix(dicts[i]) == Some(n)) &&
      (forall i :: 0 <= i < |dicts| && ReceiptUnix(dicts[i]).Some? ==> ReceiptUnix(dicts[i]).value <= n)
  }

  method NewestUpdateReceipt(plist: string) returns (newest: Option<int>)
    ensures IsNewest(SplitOn(plist, "</dict>"), newest)
  {
    hide ReceiptDate, IsoDateToUnix, IsNewest;
    newest := None;
    NoneYet();
    var dicts := SplitOn(plist, "</dict>");
    for k := 0 to |dicts|
      invariant IsNewest(dicts[..k], newest)
    {
      OneMore(dicts[..k], dicts[k], newest);
      assert dicts[..k + 1] == dicts[..k] + [dicts[k]];
      var date := ReceiptDate(dicts[k]);
      if date.None? { continue; }
      var unix := IsoDateToUnix(date.value);
      if unix.Some? {
        newest := Some(if newest.None? then unix.value else Max(newest.value, unix.value));
      }
    }
    assert dicts[..|dicts|] == dicts;
  }

  lemma NoneYet()
    ensures IsNewest([], None)
  {
  }

  lemma OneMore(dicts: seq<string>, dict: string, newest: Option<int>)
    requires IsNewest(dicts, newest)
    ensures IsNewest(dicts + [dict],
                     var read := ReceiptUnix(dict);
                     if read.None? then newest
                     else Some(if newest.None? then read.value else Max(newest.value, read.value)))
  {
    hide ReceiptUnix;
    var all := dicts + [dict];
    assert all[|dicts|] == dict;
    if newest.Some? {
      var i :| 0 <= i < |dicts| && ReceiptUnix(dicts[i]) == Some(newest.value);
      assert all[i] == dicts[i];
    }
  }

  // ---------- reading a date's own text ----------

  function Digit(n: nat): char
    requires n < 10
  {
    '0' + n as char
  }

  function Two(n: nat): string
    requires n < 100
  {
    [Digit(n / 10), Digit(n % 10)]
  }

  function Four(n: nat): string
    requires n < 10_000
  {
    Two(n / 100) + Two(n % 100)
  }

  predicate Printable(d: Date) { Valid(d) && 0 <= d.year < 10_000 }

  // YYYY-MM-DD and YYYYMMDD.
  function IsoText(d: Date): string
    requires Printable(d)
  {
    Four(d.year) + "-" + Two(d.month) + "-" + Two(d.day)
  }

  function PlainText(d: Date): string
    requires Printable(d)
  {
    Four(d.year) + Two(d.month) + Two(d.day)
  }

  lemma TwoReads(n: nat)
    requires n < 100
    ensures IsDecimal(Two(n)) && DecimalValue(Two(n)) == n && ParseInt(Two(n)) == Some(n)
  {
    var s := Two(n);
    var ten := s[..1];
    assert ten == [Digit(n / 10)] && ten[..0] == "";
    assert DecimalValue(ten) == n / 10;
    assert s[1] == Digit(n % 10) && (s[1] - '0') as int == n % 10;
  }

  lemma AppendDigit(s: string, n: nat)
    requires n < 10 && IsDecimal(s)
    ensures IsDecimal(s + [Digit(n)]) && DecimalValue(s + [Digit(n)]) == 10 * DecimalValue(s) + n
  {
    var t := s + [Digit(n)];
    assert t[..|t| - 1] == s && (t[|t| - 1] - '0') as int == n;
  }

  lemma FourReads(n: nat)
    requires n < 10_000
    ensures IsDecimal(Four(n)) && DecimalValue(Four(n)) == n && ParseInt(Four(n)) == Some(n)
  {
    hide IsDecimal, DecimalValue;
    var front, b := Two(n / 100), n % 100;
    TwoReads(n / 100);
    AppendDigit(front, b / 10);
    AppendDigit(front + [Digit(b / 10)], b % 10);
    assert Four(n) == front + [Digit(b / 10)] + [Digit(b % 10)];
    PlainInt(Four(n));
  }

  lemma PlainInt(s: string)
    requires s != "" && IsDecimal(s)
    ensures ParseInt(s) == Some(DecimalValue(s))
  {
  }

  // Trimming the end stops at a character that is no white space.
  lemma {:induction false} TrimEndKeeps(s: string, k: nat)
    requires 1 <= k <= |s| && !IsWhite(s[k - 1])
    ensures k <= |TrimEnd(s)| <= |s| && TrimEnd(s)[..k] == s[..k]
  {
    if IsWhite(s[|s| - 1]) {
      TrimEndKeeps(s[..|s| - 1], k);
    }
  }

  // A date's own text, whatever follows it, reads as that date.
  lemma IsoTextReads(d: Date, tail: string)
    requires Printable(d)
    ensures IsoDateToUnix(IsoText(d) + tail) == Some(DateToUnix(d.year, d.month, d.day))
  {
    hide DateToUnix, CivilToUnix, IsWhite, Four, Two, ParseInt;
    var text := IsoText(d) + tail;
    FourReads(d.year);
    TwoReads(d.month);
    TwoReads(d.day);
    TextShape(d, tail);
    TrimEndKeeps(text, 10);
    var s := Trim(text);
    assert s[..10] == IsoText(d);
    assert s[0..4] == s[..10][0..4] && s[5..7] == s[..10][5..7] && s[8..10] == s[..10][8..10];
    assert s[4] == s[..10][4] && s[7] == s[..10][7];
    FormulasAgree(d.year, d.month, d.day);
  }

  lemma TextShape(d: Date, tail: string)
    requires Printable(d)
    ensures var t := IsoText(d); var text := t + tail;
      |t| == 10 && t[0..4] == Four(d.year) && t[4] == '-' && t[5..7] == Two(d.month) && t[7] == '-' &&
      t[8..10] == Two(d.day) &&
      text[..10] == t && !IsWhite(text[0]) && !IsWhite(text[9])
  {
  }

  // The two platforms' readings of a date agree.
  lemma PlainTextReads(d: Date, tail: string)
    requires Printable(d) && (tail == "" || !('0' <= tail[0] <= '9'))
    ensures HotfixDateToUnix(PlainText(d) + tail) == Some(DateToUnix(d.year, d.month, d.day))
  {
    hide DateToUnix, Four, Two, ParseInt;
    FourReads(d.year);
    TwoReads(d.month);
    TwoReads(d.day);
    PlainShape(d);
    AllDigits(PlainText(d), tail);
  }

  lemma PlainShape(d: Date)
    requires Printable(d)
    ensures var t := PlainText(d);
      |t| == 8 && t[0..4] == Four(d.year) && t[4..6] == Two(d.month) && t[6..8] == Two(d.day) && IsDecimal(t)
  {
  }

  lemma {:induction false} AllDigits(s: string, tail: string)
    requires IsDecimal(s) && (tail == "" || !('0' <= tail[0] <= '9'))
    ensures DigitsPrefix(s + tail) == s
  {
    if s == "" {
      assert s + tail == tail;
    } else {
      assert (s + tail)[1..] == s[1..] + tail;
      AllDigits(s[1..], tail);
    }
  }

  // Any year, month and day of four, two and two digits: read if the month is 1 to 12 and the day
  // 1 to 31, whatever white space stands in front and whatever follows.
  lemma IsoTextReadIff(y: nat, m: nat, d: nat, tail: string)
    requires y < 10_000 && m < 100 && d < 100
    ensures IsoDateToUnix(Four(y) + "-" + Two(m) + "-" + Two(d) + tail) ==
            if 1 <= m <= 12 && 1 <= d <= 31 then Some(CivilToUnix(y, m, d)) else None
  {
    hide CivilToUnix, IsWhite, Four, Two, ParseInt;
    var front := Four(y) + "-" + Two(m) + "-" + Two(d);
    var text := front + tail;
    FourReads(y);
    TwoReads(m);
    TwoReads(d);
    DashedShape(y, m, d, tail);
    TrimEndKeeps(text, 10);
    var s := Trim(text);
    assert s[..10] == front;
    assert s[0..4] == s[..10][0..4] && s[5..7] == s[..10][5..7] && s[8..10] == s[..10][8..10];
    assert s[4] == s[..10][4] && s[7] == s[..10][7];
  }

  lemma DashedShape(y: nat, m: nat, d: nat, tail: string)
    requires y < 10_000 && m < 100 && d < 100
    ensures var t := Four(y) + "-" + Two(m) + "-" + Two(d); var text := t + tail;
      |t| == 10 && t[0..4] == Four(y) && t[4] == '-' && t[5..7] == Two(m) && t[7] == '-' && t[8..10] == Two(d) &&
      text[..10] == t && !IsWhite(text[0]) && !IsWhite(text[9])
  {
  }

  // The number, with any zeros and at most one sign in front.
  ghost predicate Spells(s: string, v: int) {
    (v >= 0 && Decimals.Writes(s, v)) ||
    (s != "" && s[0] == '+' && v >= 0 && Decimals.Writes(s[1..], v)) ||
    (s != "" && s[0] == '-' && v <= 0 && Decimals.Writes(s[1..], -v))
  }

  lemma IntReadIff(s: string, v: int)
    ensures ParseInt(s) == Some(v) <==> Spells(s, v)
  {
    hide Decimals.Writes, DecimalValue;
    SpellsPlain(s, if v >= 0 then v else -v);
    if s != "" {
      Decimals.WritesIff(s[1..], if v >= 0 then v else -v);
    }
  }

  lemma SpellsPlain(s: string, v: nat)
    ensures Decimals.Writes(s, v) <==> s != "" && s[0] != '+' && s[0] != '-' && IsDecimal(s) && DecimalValue(s) == v
  {
    Decimals.WritesIff(s, v);
  }

  // A text is read as a date exactly if, white space around it aside, it has numbers before, between
  // and behind hyphens at the fifth and eighth places, the month 1 to 12 and the day 1 to 31;
  // whatever follows the tenth place is left out of account.
  lemma IsoReadIff(iso: string, unix: int)
    ensures IsoDateToUnix(iso) == Some(unix) <==>
            var s := Trim(iso);
            |s| >= 10 && s[4] == '-' && s[7] == '-' &&
            exists y, m, d :: Spells(s[0..4], y) && Spells(s[5..7], m) && Spells(s[8..10], d) &&
                              1 <= m <= 12 && 1 <= d <= 31 && unix == CivilToUnix(y, m, d)
  {
    hide Trim, CivilToUnix, ParseInt, Spells;
    var s := Trim(iso);
    if |s| >= 10 {
      forall v
        ensures ParseInt(s[0..4]) == Some(v) <==> Spells(s[0..4], v)
        ensures ParseInt(s[5..7]) == Some(v) <==> Spells(s[5..7], v)
        ensures ParseInt(s[8..10]) == Some(v) <==> Spells(s[8..10], v)
      {
        IntReadIff(s[0..4], v);
        IntReadIff(s[5..7], v);
        IntReadIff(s[8..10], v);
      }
    }
  }

  // ---------- finding the date in a receipt ----------

  // The characters of `pat` stand in `s` from `at` on.
  predicate Stands(s: string, pat: string, at: nat) {
    at + |pat| <= |s| && forall i :: 0 <= i < |pat| ==> s[at + i] == pat[i]
  }

  lemma AtStands(s: string, pat: string, at: nat)
    ensures At(s, pat, at) <==> Stands(s, pat, at)
  {
    if at + |pat| <= |s| {
      var part := s[at..at + |pat|];
      assert forall i :: 0 <= i < |pat| ==> part[i] == s[at + i];
    }
  }

  // `pat` stands at `at` and nowhere before.
  ghost predicate FirstAt(s: string, pat: string, at: nat) {
    Stands(s, pat, at) && forall i :: 0 <= i < at ==> !Stands(s, pat, i)
  }

  ghost predicate Mentions(s: string, pat: string) { exists i :: 0 <= i <= |s| && Stands(s, pat, i) }

  lemma {:induction false} FindFirst(s: string, pat: string, from: nat)
    requires from <= |s| && forall i :: 0 <= i < from ==> !Stands(s, pat, i)
    ensures match Find(s, pat, from) case None => !Mentions(s, pat) case Some(k) => FirstAt(s, pat, k)
    decreases |s| - from
  {
    hide At, Stands;
    AtStands(s, pat, from);
    if !At(s, pat, from) && from < |s| {
      FindFirst(s, pat, from + 1);
    }
  }

  lemma FoundIff(s: string, pat: string, k: nat)
    ensures Find(s, pat, 0) == Some(k) <==> FirstAt(s, pat, k)
    ensures Find(s, pat, 0).None? <==> !Mentions(s, pat)
  {
    FindFirst(s, pat, 0);
    AtInside(s, pat, k);
    if Find(s, pat, 0).Some? {
      AtInside(s, pat, Find(s, pat, 0).value);
    }
  }

  lemma AtInside(s: string, pat: string, k: nat)
    ensures At(s, pat, k) || Stands(s, pat, k) ==> k + |pat| <= |s|
  {
    AtStands(s, pat, k);
  }

  // The three tags stand at k, o and c of the chunk, each the first after the one before.
  ghost predicate TagsAt(dict: string, k: nat, o: nat, c: nat) {
    FirstAt(dict, "<key>date</key>", k) && k + 15 <= o && FirstAt(dict[k + 15..], "<date>", o - k - 15) &&
    o + 6 <= c && FirstAt(dict[o + 6..], "</date>", c - o - 6)
  }

  // A chunk is an update's receipt of the date `text` exactly if it mentions an update package and
  // `text` is what stands between the first date tag after the first date key and the next closing
  // tag.
  lemma ReceiptDateIff(dict: string, text: string)
    ensures ReceiptDate(dict) == Some(text) <==>
            Mentions(dict, "com.apple.pkg.update") &&
            exists k: nat, o: nat, c: nat :: TagsAt(dict, k, o, c) && c <= |dict| && text == dict[o + 6..c]
  {
    hide FirstAt, Mentions, Find, At;
    FoundIff(dict, "com.apple.pkg.update", 0);
    if ReceiptDate(dict).Some? {
      var k := Find(dict, "<key>date</key>", 0).value;
      FoundIff(dict, "<key>date</key>", k);
      AtInside(dict, "<key>date</key>", k);
      var after := dict[k + 15..];
      var o := Find(after, "<date>", 0).value;
      FoundIff(after, "<date>", o);
      AtInside(after, "<date>", o);
      var rest := after[o + 6..];
      assert rest == dict[k + 15 + o + 6..];
      var c := Find(rest, "</date>", 0).value;
      FoundIff(rest, "</date>", c);
      AtInside(rest, "</date>", c);
      assert TagsAt(dict, k, k + 15 + o, k + 15 + o + 6 + c);
      assert rest[..c] == dict[k + 15 + o + 6..k + 15 + o + 6 + c];
    }
    if k: nat, o: nat, c: nat :| TagsAt(dict, k, o, c) && c <= |dict| && text == dict[o + 6..c] {
      FoundIff(dict, "<key>date</key>", k);
      var after := dict[k + 15..];
      FoundIff(after, "<date>", o - k - 15);
      var rest := after[o - k - 15 + 6..];
      assert rest == dict[o + 6..];
      FoundIff(rest, "</date>", c - o - 6);
      assert rest[..c - o - 6] == dict[o + 6..c];
    }
  }

  // The chunks are what stands between the separators, in order.
  lemma ChunksAre(chunk: string, sep: string, rest: string)
    requires sep != "" && FirstAt(chunk + sep + rest, sep, |chunk|)
    ensures SplitOn(chunk + sep + rest, sep) == [chunk] + SplitOn(rest, sep)
  {
    var s := chunk + sep + rest;
    FoundIff(s, sep, |chunk|);
    assert s[..|chunk|] == chunk && s[|chunk| + |sep|..] == rest;
  }

  lemma OneChunk(s: string, sep: string)
    requires sep != "" && !Mentions(s, sep)
    ensures SplitOn(s, sep) == [s]
  {
    FoundIff(s, sep, 0);
  }

  // So receipts are ordered as their dates are: the newest is the chronologically latest.
  lemma ReceiptsOrderedByDate(one: string, two: string, a: Date, b: Date, x: string, y: string)
    requires Printable(a) && Printable(b)
    requires ReceiptDate(one) == Some(IsoText(a) + x) && ReceiptDate(two) == Some(IsoText(b) + y)
    ensures ReceiptUnix(one).Some? && ReceiptUnix(two).Some?
    ensures ReceiptUnix(one).value < ReceiptUnix(two).value <==> Earlier(a, b)
  {
    hide IsoDateToUnix, ReceiptDate, DateToUnix, IsoText;
    IsoTextReads(a, x);
    IsoTextReads(b, y);
    StrictlyMonotone(a, b);
  }
}
