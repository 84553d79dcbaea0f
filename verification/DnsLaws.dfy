// What the DNS parser accepts and what a reply says (client/src/dns.rs).
module DnsLaws {
  import opened Prelude
  import opened DnsResponder
  import NamePolicy
  import NamePolicyLaws

  // ---------- names ----------

  lemma {:induction false} NameShape(pkt: seq<Byte>, pos: nat, jumps: nat, raw: seq<Byte>)
    requires |raw| <= 255 && jumps <= 16 && Whole(raw)
    ensures var r := ParseName(pkt, pos, jumps, raw);
      r.Some? ==> IsName(r.value.0) && |r.value.0| <= 256 && raw <= r.value.0
    decreases 255 - |raw|, 16 - jumps
  {
    hide ParseName, Whole;
    NameStep(pkt, pos, jumps, raw);
    if pos < |pkt| {
      var l: nat := pkt[pos];
      if l == 0 {
        assert (raw + [0])[..|raw|] == raw;
      } else if l >= 0xC0 {
        if |pkt| >= pos + 2 && jumps < 16 && Target(pkt[pos], pkt[pos + 1]) < pos {
          NameShape(pkt, Target(pkt[pos], pkt[pos + 1]), jumps + 1, raw);
        }
      } else if |pkt| >= pos + 1 + l && |raw| + l + 1 <= 255 {
        var text := pkt[pos + 1..pos + 1 + l];
        assert pkt[pos..pos + 1 + l] == [l] + text;
        LabelAppend(raw, l, text, EmptyText);
        Regroup(raw, [l], text);
        NameShape(pkt, pos + 1 + l, jumps, raw + pkt[pos..pos + 1 + l]);
      }
    }
  }

  function EmptyText(s: seq<Byte>): string { "" }

  // Whatever bytes arrive, an accepted query's name is whole labels and the root, at most 256
  // bytes long, and the lookup key is its text without trailing dots or capitals.
  lemma ParsedShape(pkt: seq<Byte>, lossy: seq<Byte> -> string)
    ensures var r := Parse(pkt, lossy);
      r.Some? ==>
        IsName(r.value.rawName) && |r.value.rawName| <= 256 && r.value.name == LookupName(r.value.rawName, lossy) &&
        (forall i :: 0 <= i < |r.value.name| ==> !('A' <= r.value.name[i] <= 'Z')) &&
        (r.value.name == "" || r.value.name[|r.value.name| - 1] != '.')
  {
    NameShape(pkt, 12, 0, []);
    var r := Parse(pkt, lossy);
    if r.Some? {
      LowerShape(NamePolicy.StripBack(Dotted(r.value.rawName, lossy), '.'));
      StrippedEnd(Dotted(r.value.rawName, lossy));
    }
  }

  lemma {:induction false} LowerShape(s: string)
    ensures var t := AsciiLower(s);
      |t| == |s| && (forall i :: 0 <= i < |t| ==> !('A' <= t[i] <= 'Z')) &&
      forall i :: 0 <= i < |t| ==> (t[i] == '.' <==> s[i] == '.')
  {
    if s != "" {
      LowerShape(s[1..]);
    }
  }

  // Capitals, code points 65 to 90, become the small letters 32 above, and nothing else changes.
  lemma {:induction false} LowerIs(s: string, i: nat)
    ensures |AsciiLower(s)| == |s|
    ensures i < |s| ==> AsciiLower(s)[i] as int == s[i] as int + if 65 <= s[i] as int <= 90 then 32 else 0
  {
    if s != "" {
      LowerIs(s[1..], if i == 0 then 0 else i - 1);
    }
  }

  lemma {:induction false} StrippedEnd(s: string)
    ensures var t := NamePolicy.StripBack(s, '.'); t == "" || t[|t| - 1] != '.'
  {
    if s != "" && s[|s| - 1] == '.' {
      StrippedEnd(s[..|s| - 1]);
    }
  }

  lemma SplitSlice(b: seq<Byte>, at: nat, x: seq<Byte>, y: seq<Byte>)
    requires at + |x| + |y| <= |b| && b[at..at + |x| + |y|] == x + y
    ensures b[at..at + |x|] == x && b[at + |x|..at + |x| + |y|] == y
  {
    assert b[at..at + |x|] == b[at..at + |x| + |y|][..|x|];
    assert b[at + |x|..at + |x| + |y|] == b[at..at + |x| + |y|][|x|..];
  }

  // An uncompressed name reads back as itself.
  lemma {:induction false} ReadBack(pkt: seq<Byte>, pos: nat, jumps: nat, was: seq<Byte>, rest: seq<Byte>)
    requires Whole(rest) && |was| + |rest| <= 255 && jumps <= 16
    requires pos + |rest| + 1 <= |pkt| && pkt[pos..pos + |rest| + 1] == rest + [0]
    ensures ParseName(pkt, pos, jumps, was) == Some((was + rest + [0], pos + |rest| + 1))
    decreases |rest|
  {
    hide ParseName, Whole;
    NameStep(pkt, pos, jumps, was);
    assert pkt[pos] == (rest + [0])[0];
    if rest == [] {
      assert was + rest == was;
    } else {
      var l, text, tail := SplitHead(rest);
      var one: seq<Byte> := [l] + text;
      Regroup(one, tail, [0]);
      SplitSlice(pkt, pos, one, tail + [0]);
      ReadBack(pkt, pos + 1 + l, jumps, was + one, tail);
      Regroup(was, one, tail);
    }
  }

  lemma NameAt(pkt: seq<Byte>, pos: nat, jumps: nat, raw: seq<Byte>)
    requires IsName(raw) && |raw| <= 256 && jumps <= 16
    requires pos + |raw| <= |pkt| && pkt[pos..pos + |raw|] == raw
    ensures ParseName(pkt, pos, jumps, []) == Some((raw, pos + |raw|))
  {
    var labels := raw[..|raw| - 1];
    assert raw == labels + [0];
    ReadBack(pkt, pos, jumps, [], labels);
    assert [] + labels + [0] == raw;
  }

  // The names a query can carry are exactly the whole names of at most 256 bytes: one more than
  // section 2.3.4 of RFC 1035 allows, since the root's byte is not counted.
  lemma NamesAccepted(raw: seq<Byte>)
    ensures IsName(raw) && |raw| <= 256 <==>
            exists pkt :: ParseName(pkt, 12, 0, []).Some? && ParseName(pkt, 12, 0, []).value.0 == raw
  {
    hide ParseName, IsName;
    if IsName(raw) && |raw| <= 256 {
      var h: seq<Byte> := seq(12, i => 0);
      assert (h + raw)[12..12 + |raw|] == raw;
      NameAt(h + raw, 12, 0, raw);
    }
    if pkt: seq<Byte> :| ParseName(pkt, 12, 0, []).Some? && ParseName(pkt, 12, 0, []).value.0 == raw {
      NameShape(pkt, 12, 0, []);
    }
  }

  // Which packets are questions, and what is read of them besides the name, by their bytes.
  lemma ParseReads(pkt: seq<Byte>, lossy: seq<Byte> -> string)
    ensures Parse(pkt, lossy).Some? <==>
            |pkt| >= 12 && pkt[2] < 128 && (pkt[4] > 0 || pkt[5] > 0) && ParseName(pkt, 12, 0, []).Some? &&
            ParseName(pkt, 12, 0, []).value.1 + 4 <= |pkt|
    ensures Parse(pkt, lossy).Some? ==>
              var q, (raw, end) := Parse(pkt, lossy).value, ParseName(pkt, 12, 0, []).value;
              q.id == (pkt[0] as int) * 256 + pkt[1] && (q.rd <==> pkt[2] % 2 == 1) && q.rawName == raw &&
              q.qtype == (pkt[end] as int) * 256 + pkt[end + 1] &&
              q.qclass == (pkt[end + 2] as int) * 256 + pkt[end + 3]
  {
    hide ParseName, LookupName;
    if |pkt| >= 12 {
      TopBit(pkt[2], pkt[3]);
    }
  }

  lemma TopBit(hi: Byte, lo: Byte)
    ensures var w := (hi as int) * 256 + lo; w / 256 == hi && (w >= 0x8000 <==> hi >= 128)
  {
  }

  // A run of labels and a pointer: the labels, then what stands at the pointer's fourteen bits.
  lemma {:induction false} LabelsThenPointer(
    pkt: seq<Byte>, pos: nat, jumps: nat, was: seq<Byte>, front: seq<Byte>, target: nat)
    requires Whole(front) && |was| + |front| <= 255 && jumps < 16 && target < 0x4000 && target < pos + |front|
    requires pos + |front| + 2 <= |pkt| && pkt[pos..pos + |front|] == front
    requires pkt[pos + |front|] == 0xC0 + target / 256 && pkt[pos + |front| + 1] == target % 256
    ensures ParseName(pkt, pos, jumps, was) == ParseName(pkt, target, jumps + 1, was + front)
    decreases |front|
  {
    hide ParseName, Whole;
    NameStep(pkt, pos, jumps, was);
    if front == [] {
      assert was + front == was;
      TargetBits(target);
    } else {
      var l, text, rest := SplitHead(front);
      var one: seq<Byte> := [l] + text;
      assert front == one + rest && pkt[pos] == front[0];
      SplitSlice(pkt, pos, one, rest);
      LabelsThenPointer(pkt, pos + 1 + l, jumps, was + one, rest, target);
      Regroup(was, one, rest);
    }
  }

  lemma TargetBits(target: nat)
    requires target < 0x4000
    ensures Target(0xC0 + target / 256, target % 256) == target
  {
  }

  // A name that ends in a pointer to a plain name reads as its labels followed by that name.
  lemma CompressedNameReads(pkt: seq<Byte>, pos: nat, front: seq<Byte>, target: nat, rest: seq<Byte>)
    requires Whole(front) && IsName(rest) && |front| + |rest| <= 256 && target < 0x4000 && target < pos + |front|
    requires pos + |front| + 2 <= |pkt| && pkt[pos..pos + |front|] == front
    requires pkt[pos + |front|] == 0xC0 + target / 256 && pkt[pos + |front| + 1] == target % 256
    requires target + |rest| <= |pkt| && pkt[target..target + |rest|] == rest
    ensures ParseName(pkt, pos, 0, []) == Some((front + rest, target + |rest|))
  {
    hide ParseName, Whole;
    LabelsThenPointer(pkt, pos, 0, [], front, target);
    var labels := rest[..|rest| - 1];
    assert rest == labels + [0] && [] + front == front;
    ReadBack(pkt, target, 1, front, labels);
    Regroup(front, labels, [0]);
  }

  // Each of the k pointers from `pos` down leads to the one two bytes before it, and the last to
  // a zero byte.
  predicate Chain(pkt: seq<Byte>, pos: nat, k: nat) {
    pos + 1 < |pkt| && pos < 0x4000 &&
    if k == 0 then pkt[pos] == 0
    else pos >= 2 && pkt[pos] == 0xC0 + (pos - 2) / 256 && pkt[pos + 1] == (pos - 2) % 256 && Chain(pkt, pos - 2, k - 1)
  }

  // Sixteen pointers are followed, the seventeenth is refused.
  lemma {:induction false} PointerLimit(pkt: seq<Byte>, pos: nat, k: nat, jumps: nat)
    requires Chain(pkt, pos, k) && jumps <= 16
    ensures ParseName(pkt, pos, jumps, []).Some? <==> jumps + k <= 16
    decreases k
  {
    hide ParseName;
    NameStep(pkt, pos, jumps, []);
    if k > 0 {
      TargetBits(pos - 2);
      if jumps < 16 {
        PointerLimit(pkt, pos - 2, k - 1, jumps + 1);
      }
    }
  }

  // The first pointer of the name at `pos`, if labels lead to one before the root.
  function FirstPointer(pkt: seq<Byte>, pos: nat): (p: Option<nat>)
    ensures p.Some? ==> pos <= p.value < |pkt| && pkt[p.value] >= 0xC0
    decreases |pkt| - pos
  {
    if pos >= |pkt| || pkt[pos] == 0 then None
    else
      var l: nat := pkt[pos];
      if l >= 0xC0 then Some(pos) else FirstPointer(pkt, pos + 1 + l)
  }

  // Where section 4.1.4 of RFC 1035 has the name end: after the root or after the first pointer.
  function WireEnd(pkt: seq<Byte>, pos: nat): nat
    decreases |pkt| - pos
  {
    if pos >= |pkt| then pos
    else
      var l: nat := pkt[pos];
      if l == 0 then pos + 1 else if l >= 0xC0 then pos + 2 else WireEnd(pkt, pos + 1 + l)
  }

  lemma {:induction false} WireEndAtPointer(pkt: seq<Byte>, pos: nat)
    ensures FirstPointer(pkt, pos).Some? ==> WireEnd(pkt, pos) == FirstPointer(pkt, pos).value + 2
    decreases |pkt| - pos
  {
    if pos < |pkt| && 0 < pkt[pos] < 0xC0 {
      var l: nat := pkt[pos];
      WireEndAtPointer(pkt, pos + 1 + l);
    }
  }

  // Reading always ends just behind a zero byte; without a pointer, where the name ends.
  lemma {:induction false} ReadingEnds(pkt: seq<Byte>, pos: nat, jumps: nat, raw: seq<Byte>)
    requires |raw| <= 255 && jumps <= 16
    ensures var r := ParseName(pkt, pos, jumps, raw);
      r.Some? ==> 1 <= r.value.1 <= |pkt| && pkt[r.value.1 - 1] == 0 &&
                  (FirstPointer(pkt, pos).None? ==> r.value.1 == WireEnd(pkt, pos))
    decreases 255 - |raw|, 16 - jumps
  {
    hide ParseName;
    NameStep(pkt, pos, jumps, raw);
    if pos < |pkt| {
      var l: nat := pkt[pos];
      if l >= 0xC0 {
        if |pkt| >= pos + 2 && jumps < 16 && Target(pkt[pos], pkt[pos + 1]) < pos {
          ReadingEnds(pkt, Target(pkt[pos], pkt[pos + 1]), jumps + 1, raw);
        }
      } else if l > 0 && |pkt| >= pos + 1 + l && |raw| + l + 1 <= 255 {
        ReadingEnds(pkt, pos + 1 + l, jumps, raw + pkt[pos..pos + 1 + l]);
      }
    }
  }

  // Where the labels after the last pointer followed from `pos` begin.
  function LastTarget(pkt: seq<Byte>, pos: nat, jumps: nat): nat
    requires jumps <= 16
    decreases 16 - jumps
  {
    var p := FirstPointer(pkt, pos);
    if p.None? || jumps == 16 || p.value + 1 >= |pkt| then pos
    else LastTarget(pkt, Target(pkt[p.value], pkt[p.value + 1]), jumps + 1)
  }

  lemma TargetOfLabel(pkt: seq<Byte>, pos: nat, jumps: nat)
    requires pos < |pkt| && 0 < pkt[pos] < 0xC0 && jumps <= 16
    ensures var l: nat := pkt[pos];
      FirstPointer(pkt, pos) == FirstPointer(pkt, pos + 1 + l) && WireEnd(pkt, pos) == WireEnd(pkt, pos + 1 + l) &&
      WireEnd(pkt, LastTarget(pkt, pos, jumps)) == WireEnd(pkt, LastTarget(pkt, pos + 1 + l, jumps))
  {
  }

  // Reading ends where the labels after the last pointer do.
  lemma {:induction false} ReadingEndsAtLast(pkt: seq<Byte>, pos: nat, jumps: nat, raw: seq<Byte>)
    requires |raw| <= 255 && jumps <= 16
    ensures var r := ParseName(pkt, pos, jumps, raw);
      r.Some? ==> r.value.1 == WireEnd(pkt, LastTarget(pkt, pos, jumps))
    decreases 255 - |raw|, 16 - jumps
  {
    hide ParseName, LastTarget;
    NameStep(pkt, pos, jumps, raw);
    if pos < |pkt| {
      var l: nat := pkt[pos];
      if l >= 0xC0 {
        if |pkt| >= pos + 2 && jumps < 16 && Target(pkt[pos], pkt[pos + 1]) < pos {
          TargetOfPointer(pkt, pos, jumps);
          ReadingEndsAtLast(pkt, Target(pkt[pos], pkt[pos + 1]), jumps + 1, raw);
        }
      } else if l == 0 {
        TargetOfRoot(pkt, pos, jumps);
      } else if |pkt| >= pos + 1 + l && |raw| + l + 1 <= 255 {
        TargetOfLabel(pkt, pos, jumps);
        ReadingEndsAtLast(pkt, pos + 1 + l, jumps, raw + pkt[pos..pos + 1 + l]);
      }
    }
  }

  lemma TargetOfPointer(pkt: seq<Byte>, pos: nat, jumps: nat)
    requires pos + 1 < |pkt| && pkt[pos] >= 0xC0 && jumps < 16
    ensures LastTarget(pkt, pos, jumps) == LastTarget(pkt, Target(pkt[pos], pkt[pos + 1]), jumps + 1)
  {
    assert FirstPointer(pkt, pos) == Some(pos);
  }

  lemma TargetOfRoot(pkt: seq<Byte>, pos: nat, jumps: nat)
    requires pos < |pkt| && pkt[pos] == 0 && jumps <= 16
    ensures LastTarget(pkt, pos, jumps) == pos && WireEnd(pkt, pos) == pos + 1
  {
  }

  // The labels after the last pointer run over the first one and end on its second byte, a zero.
  predicate RunsOver(pkt: seq<Byte>, pointer: nat) {
    pointer + 1 < |pkt| && pkt[pointer + 1] == 0 && WireEnd(pkt, LastTarget(pkt, 12, 0)) == pointer + 2
  }

  // Type and class of an accepted query are read where section 4.1.4 of RFC 1035 has them if and
  // only if the name holds no pointer, or labels run over its first pointer by accident; that
  // takes a pointer whose second byte is zero.
  lemma TypeReadInPlaceIff(pkt: seq<Byte>, lossy: seq<Byte> -> string)
    requires Parse(pkt, lossy).Some?
    ensures var end := ParseName(pkt, 12, 0, []).value.1;
      Parse(pkt, lossy).value.qtype == Word(pkt, end) && Parse(pkt, lossy).value.qclass == Word(pkt, end + 2) &&
      (end == WireEnd(pkt, 12) <==> FirstPointer(pkt, 12).None? || RunsOver(pkt, FirstPointer(pkt, 12).value))
  {
    hide ParseName, LastTarget;
    ReadingEnds(pkt, 12, 0, []);
    ReadingEndsAtLast(pkt, 12, 0, []);
    WireEndAtPointer(pkt, 12);
  }

  // They are the right ones all the same if and only if the same four bytes stand in both places.
  lemma TypeAgreesIff(pkt: seq<Byte>, lossy: seq<Byte> -> string)
    requires Parse(pkt, lossy).Some? && WireEnd(pkt, 12) + 4 <= |pkt|
    ensures var end, wire := WireEnd(pkt, LastTarget(pkt, 12, 0)), WireEnd(pkt, 12);
      end + 4 <= |pkt| &&
      (Parse(pkt, lossy).value.qtype == Word(pkt, wire) && Parse(pkt, lossy).value.qclass == Word(pkt, wire + 2)
       <==> pkt[end..end + 4] == pkt[wire..wire + 4])
  {
    hide ParseName, LastTarget, WireEnd, LookupName;
    ReadingEndsAtLast(pkt, 12, 0, []);
    var end, wire := WireEnd(pkt, LastTarget(pkt, 12, 0)), WireEnd(pkt, 12);
    SameWord(pkt, end, wire);
    SameWord(pkt, end + 2, wire + 2);
    FourBytes(pkt, end, wire);
  }

  lemma SameWord(b: seq<Byte>, x: nat, y: nat)
    requires x + 1 < |b| && y + 1 < |b|
    ensures Word(b, x) == Word(b, y) <==> b[x] == b[y] && b[x + 1] == b[y + 1]
  {
  }

  lemma FourBytes(b: seq<Byte>, x: nat, y: nat)
    requires x + 4 <= |b| && y + 4 <= |b|
    ensures b[x..x + 4] == b[y..y + 4] <==>
            b[x] == b[y] && b[x + 1] == b[y + 1] && b[x + 2] == b[y + 2] && b[x + 3] == b[y + 3]
  {
    var s, t := b[x..x + 4], b[y..y + 4];
    assert forall i :: 0 <= i < 4 ==> s[i] == b[x + i] && t[i] == b[y + i];
    if b[x] == b[y] && b[x + 1] == b[y + 1] && b[x + 2] == b[y + 2] && b[x + 3] == b[y + 3] {
      forall i | 0 <= i < 4
        ensures s[i] == t[i]
      {
        assert i == 0 || i == 1 || i == 2 || i == 3;
      }
      assert s == t;
    } else {
      assert s[0] != t[0] || s[1] != t[1] || s[2] != t[2] || s[3] != t[3];
    }
  }

  // The plainest case: a name that is one pointer to a zero byte of the header.
  lemma CompressedTypeIsReadAtTarget(pkt: seq<Byte>, target: nat, lossy: seq<Byte> -> string)
    requires |pkt| >= 18 && target < 12 && pkt[12] == 0xC0 && pkt[13] == target && pkt[target] == 0
    requires Word(pkt, 2) < 0x8000 && Word(pkt, 4) >= 1
    ensures Parse(pkt, lossy).Some? && Parse(pkt, lossy).value.rawName == [0]
    ensures Parse(pkt, lossy).value.qtype == Word(pkt, target + 1)
    ensures Parse(pkt, lossy).value.qclass == Word(pkt, target + 3)
  {
    hide ParseName;
    NameStep(pkt, 12, 0, []);
    NameStep(pkt, target, 1, []);
    assert [] + [0] == [0 as Byte];
  }

  // Such an accident: the pointer leads to a label that runs over it.
  lemma PointerUnderLabel(pkt: seq<Byte>)
    requires |pkt| >= 18 && pkt[0] == 12 && pkt[12] == 0xC0 && pkt[13] == 0
    ensures var r := ParseName(pkt, 12, 0, []);
      r.Some? && r.value.0 != [0] && r.value.1 == 14 == WireEnd(pkt, 12) && FirstPointer(pkt, 12) == Some(12) &&
      RunsOver(pkt, 12)
  {
    hide ParseName;
    NameStep(pkt, 12, 0, []);
    NameStep(pkt, 0, 1, []);
    NameStep(pkt, 13, 1, [] + pkt[0..13]);
    ReadingEndsAtLast(pkt, 12, 0, []);
  }

  // ---------- replies ----------

  ghost predicate WellFormed(q: Question, lossy: seq<Byte> -> string) {
    IsName(q.rawName) && |q.rawName| <= 256 && q.name == LookupName(q.rawName, lossy)
  }

  // The reply as a query: its top bit cleared.
  function ClearQr(b: seq<Byte>): seq<Byte>
    requires |b| > 2 && b[2] >= 0x80
  {
    b[2 := b[2] - 0x80]
  }

  // Words of a packet lie where its parts put them.
  lemma WordIn(b: seq<Byte>, from: nat, part: seq<Byte>, at: nat)
    requires from + |part| <= |b| && b[from..from + |part|] == part && at + 1 < |part|
    ensures Word(b, from + at) == Word(part, at)
  {
    assert b[from + at] == part[at] && b[from + at + 1] == part[at + 1];
  }

  lemma EchoWords(q: Question)
    ensures var e := Echo(q); var n := |q.rawName|;
      |e| == n + 4 && e[..n] == q.rawName && Word(e, n) == q.qtype && Word(e, n + 2) == q.qclass
  {
  }

  // A question in wire form is parsed back, whatever follows it.
  lemma QuestionParsesBack(h: seq<Byte>, q: Question, tail: seq<Byte>, lossy: seq<Byte> -> string)
    requires |h| == 12 && WellFormed(q, lossy)
    requires Word(h, 0) == q.id && Word(h, 2) < 0x8000 && Word(h, 4) >= 1
    requires q.rd <==> Word(h, 2) / 256 % 2 == 1
    ensures Parse(h + Echo(q) + tail, lossy) == Some(q)
  {
    hide Whole, ParseName, LookupName, Echo, Word;
    var pkt := h + Echo(q) + tail;
    var n := |q.rawName|;
    EchoWords(q);
    assert pkt[0..12] == h && pkt[12..16 + n] == Echo(q);
    WordIn(pkt, 0, h, 0);
    WordIn(pkt, 0, h, 2);
    WordIn(pkt, 0, h, 4);
    WordIn(pkt, 12, Echo(q), n);
    WordIn(pkt, 12, Echo(q), n + 2);
    NameAt(pkt, 12, 0, q.rawName);
  }

  // The reply as header, question and answer record.
  function ReplyHeader(q: Question, ip: Option<string>, synced: bool): seq<Byte> {
    var known := AnswerOctets(ip).Some?;
    Header(q, Rcode(known, synced), if synced && WantsAddress(q) && known then 1 else 0)
  }

  function Answer(q: Question, ip: Option<string>, synced: bool): seq<Byte> {
    if synced && WantsAddress(q) && AnswerOctets(ip).Some? then AddressRecord(AnswerOctets(ip).value) else []
  }

  lemma ReplyParts(q: Question, ip: Option<string>, synced: bool)
    ensures Reply(q, ip, synced) == ReplyHeader(q, ip, synced) + Echo(q) + Answer(q, ip, synced)
  {
  }

  // The header says: same id, a reply, recursion flag copied, the response code, one question.
  lemma HeaderWords(q: Question, rcode: nat, answers: nat)
    requires rcode < 16 && answers < 2
    ensures var h := Header(q, rcode, answers);
      |h| == 12 && h[2] >= 0x80 && h[3] == rcode && Word(h, 0) == q.id &&
      Word(h, 2) == 0x8000 + (if q.rd then 0x100 else 0) + rcode &&
      Word(h, 4) == 1 && Word(h, 6) == answers && Word(h, 8) == 0 && Word(h, 10) == 0
  {
  }

  lemma ClearedWords(h: seq<Byte>)
    requires |h| == 12 && h[2] >= 0x80
    ensures var c := ClearQr(h);
      |c| == 12 && Word(c, 0) == Word(h, 0) && Word(c, 2) == Word(h, 2) - 0x8000 && Word(c, 4) == Word(h, 4)
  {
  }

  lemma ClearConcat(h: seq<Byte>, e: seq<Byte>, t: seq<Byte>)
    requires |h| == 12 && h[2] >= 0x80
    ensures ClearQr(h + e + t) == ClearQr(h) + e + t
  {
  }

  lemma RecursionBit(rd: bool, rcode: nat)
    requires rcode < 16
    ensures ((if rd then 0x100 else 0) + rcode) / 256 % 2 == (if rd then 1 else 0)
  {
  }

  // Every reply, with its reply bit cleared, parses back to the question it answers.
  lemma ReplyEchoesQuestion(q: Question, ip: Option<string>, synced: bool, lossy: seq<Byte> -> string)
    requires WellFormed(q, lossy)
    ensures |Reply(q, ip, synced)| > 2 && Reply(q, ip, synced)[2] >= 0x80
    ensures Parse(ClearQr(Reply(q, ip, synced)), lossy) == Some(q)
  {
    hide Reply, Whole, IsName, Parse, LookupName, Echo, Header, Answer, Word, ClearQr;
    ReplyParts(q, ip, synced);
    var h := ReplyHeader(q, ip, synced);
    var rcode := Rcode(AnswerOctets(ip).Some?, synced);
    HeaderWords(q, rcode, if synced && WantsAddress(q) && AnswerOctets(ip).Some? then 1 else 0);
    ClearedWords(h);
    RecursionBit(q.rd, rcode);
    QuestionParsesBack(ClearQr(h), q, Answer(q, ip, synced), lossy);
    ClearConcat(h, Echo(q), Answer(q, ip, synced));
  }

  // The response code: 2 until synced, then 0 exactly for known names, and 3.
  lemma ResponseCode(q: Question, ip: Option<string>, synced: bool)
    ensures var r := Reply(q, ip, synced);
      |r| >= 12 && r[3] == (if !synced then 2 else if AnswerOctets(ip).Some? then 0 else 3) &&
      Word(r, 6) == (if synced && WantsAddress(q) && AnswerOctets(ip).Some? then 1 else 0)
  {
    hide Reply, Echo, Header, Answer, AnswerOctets, WantsAddress, Word;
    ReplyParts(q, ip, synced);
    var h := ReplyHeader(q, ip, synced);
    HeaderWords(q, Rcode(AnswerOctets(ip).Some?, synced),
                if synced && WantsAddress(q) && AnswerOctets(ip).Some? then 1 else 0);
    Parts(h, Echo(q), Answer(q, ip, synced));
    var r := Reply(q, ip, synced);
    WordIn(r, 0, h, 6);
    assert r[3] == r[0..12][3];
  }

  // No reply exceeds 288 bytes, well inside the 512 of section 4.2.1 of RFC 1035.
  lemma ReplyFits(q: Question, ip: Option<string>, synced: bool)
    requires |q.rawName| <= 256
    ensures |Reply(q, ip, synced)| <= 288
  {
  }

  // A reply carries an address exactly when the state is synced, the question asks for one and
  // the name is known; then it is an address record of class IN, to be kept five seconds, whose
  // name pointer leads back to the question's name.
  lemma AddressReply(q: Question, ip: Option<string>, synced: bool)
    requires IsName(q.rawName) && |q.rawName| <= 256
    ensures var r := Reply(q, ip, synced); var n := |q.rawName|;
      if synced && WantsAddress(q) && AnswerOctets(ip).Some? then
        |r| == n + 32 && r[n + 28..] == AnswerOctets(ip).value &&
        Word(r, n + 18) == TYPE_A && Word(r, n + 20) == CLASS_IN &&
        Word(r, n + 22) == 0 && Word(r, n + 24) == 5 && Word(r, n + 26) == 4 &&
        ParseName(r, n + 16, 0, []) == Some((q.rawName, n + 12))
      else |r| == n + 16
  {
    hide Reply, Whole, IsName, ParseName, Echo, Header, Word, AnswerOctets, WantsAddress, AddressRecord;
    ReplyParts(q, ip, synced);
    EchoWords(q);
    var r := Reply(q, ip, synced);
    var n := |q.rawName|;
    HeaderWords(q, Rcode(AnswerOctets(ip).Some?, synced),
                if synced && WantsAddress(q) && AnswerOctets(ip).Some? then 1 else 0);
    Parts(ReplyHeader(q, ip, synced), Echo(q), Answer(q, ip, synced));
    if synced && WantsAddress(q) && AnswerOctets(ip).Some? {
      RecordIn(r, n + 16, AnswerOctets(ip).value);
      NameStep(r, n + 16, 0, []);
      Nested(r, 12, Echo(q), n);
      NameAt(r, 12, 1, q.rawName);
    }
  }

  lemma Parts<T>(a: seq<T>, b: seq<T>, c: seq<T>)
    ensures var s := a + b + c;
      |s| == |a| + |b| + |c| && s[0..|a|] == a && s[|a|..|a| + |b|] == b && s[|a| + |b|..] == c
  {
  }

  lemma Nested<T>(s: seq<T>, at: nat, part: seq<T>, n: nat)
    requires at + |part| <= |s| && s[at..at + |part|] == part && n <= |part|
    ensures s[at..at + n] == part[..n]
  {
  }

  // The words of an address record at the end of a packet.
  lemma RecordIn(r: seq<Byte>, at: nat, octets: seq<Byte>)
    requires at <= |r| && |octets| == 4 && r[at..] == AddressRecord(octets)
    ensures |r| == at + 16 && r[at] == 0xC0 && r[at + 1] == 12 && r[at + 12..] == octets
    ensures Word(r, at + 2) == TYPE_A && Word(r, at + 4) == CLASS_IN
    ensures Word(r, at + 6) == 0 && Word(r, at + 8) == 5 && Word(r, at + 10) == 4
  {
    hide AddressRecord, Word;
    var a := AddressRecord(octets);
    RecordWords(octets);
    assert r[at..at + 16] == r[at..];
    WordIn(r, at, a, 2);
    WordIn(r, at, a, 4);
    WordIn(r, at, a, 6);
    WordIn(r, at, a, 8);
    WordIn(r, at, a, 10);
    assert r[at] == a[0] && r[at + 1] == a[1];
    assert r[at + 12..] == a[12..];
  }

  lemma RecordWords(octets: seq<Byte>)
    requires |octets| == 4
    ensures var a := AddressRecord(octets);
      |a| == 16 && a[0] == 0xC0 && a[1] == 12 && Word(a, 2) == TYPE_A && Word(a, 4) == CLASS_IN &&
      Word(a, 6) == 0 && Word(a, 8) == 5 && Word(a, 10) == 4 && a[12..] == octets
  {
  }

  // A dotted quad is answered with its four numbers.
  lemma DottedQuadAnswered(parts: seq<string>, bytes: seq<Byte>)
    requires |parts| == 4 && |bytes| == 4
    requires forall i :: 0 <= i < 4 ==> '.' !in parts[i] && ParseOctet(parts[i]) == Some(bytes[i])
    ensures AnswerOctets(Some(NamePolicy.Join(parts))) == Some(bytes)
  {
    NamePolicyLaws.LabelsJoin(parts);
    OctetsAll(parts, bytes);
  }

  lemma {:induction false} OctetsAll(parts: seq<string>, bytes: seq<Byte>)
    requires |parts| == |bytes|
    requires forall i :: 0 <= i < |parts| ==> ParseOctet(parts[i]) == Some(bytes[i])
    ensures Octets(parts) == bytes
  {
    if parts != [] {
      OctetsAll(parts[1..], bytes[1..]);
    }
  }

  // Parts that are no numbers are dropped, so "10.0.x.0.1" is served as 10.0.0.1.
  lemma {:induction false} JunkPartsAreDropped(parts: seq<string>, i: nat)
    requires i < |parts| && ParseOctet(parts[i]).None?
    ensures Octets(parts) == Octets(parts[..i] + parts[i + 1..])
  {
    if i == 0 {
      assert parts[..0] + parts[1..] == parts[1..];
    } else {
      JunkPartsAreDropped(parts[1..], i - 1);
      var less := parts[..i] + parts[i + 1..];
      assert less[0] == parts[0] && less[1..] == parts[1..][..i - 1] + parts[1..][i..];
    }
  }

  // ---------- lookups ----------

  function AsciiBytes(s: string): seq<Byte>
    requires NamePolicy.IsAscii(s)
  {
    seq(|s|, i requires 0 <= i < |s| => s[i] as int)
  }

  // A name as sent: non-empty ASCII labels of at most 191 bytes, letters in any case.
  predicate Sendable(ls: seq<string>) {
    |ls| >= 1 &&
    forall i :: 0 <= i < |ls| ==>
      1 <= |ls[i]| < 0xC0 && NamePolicy.IsAscii(ls[i]) && '.' !in ls[i]
  }

  function Packed(ls: seq<string>): seq<Byte>
    requires ls == [] || Sendable(ls)
  {
    if ls == [] then []
    else [|ls[0]|] + AsciiBytes(ls[0]) + Packed(ls[1..])
  }

  ghost predicate KeepsAscii(lossy: seq<Byte> -> string) {
    forall s :: NamePolicy.IsAscii(s) ==> lossy(AsciiBytes(s)) == s
  }

  lemma {:induction false} PackedText(ls: seq<string>, lossy: seq<Byte> -> string)
    requires Sendable(ls) && KeepsAscii(lossy)
    ensures Whole(Packed(ls)) && Dotted(Packed(ls), lossy) == NamePolicy.Join(ls) + "."
    decreases |ls|
  {
    hide Whole, Dotted;
    var l: nat := |ls[0]|;
    var text := AsciiBytes(ls[0]);
    HeadLabel(l, text, Packed(ls[1..]), lossy);
    if |ls| == 1 {
      NoLabels(lossy);
    } else {
      PackedText(ls[1..], lossy);
      Regroup(ls[0] + ".", NamePolicy.Join(ls[1..]), ".");
    }
  }

  lemma {:induction false} JoinShape(ls: seq<string>)
    requires Sendable(ls)
    ensures var n := NamePolicy.Join(ls); n != "" && n[|n| - 1] != '.'
    decreases |ls|
  {
    if |ls| > 1 {
      JoinShape(ls[1..]);
    }
  }

  // A query for a name, its letters in any case, is looked up under its lower-case text.
  lemma LookupIgnoresCase(ls: seq<string>, lossy: seq<Byte> -> string)
    requires Sendable(ls) && KeepsAscii(lossy)
    ensures LookupName(Packed(ls) + [0], lossy) == AsciiLower(NamePolicy.Join(ls))
  {
    hide Whole, Dotted;
    PackedText(ls, lossy);
    DottedRoot(Packed(ls), lossy);
    JoinShape(ls);
    var n := NamePolicy.Join(ls);
    assert (n + ".")[..|n|] == n;
    assert NamePolicy.StripBack(n, '.') == n;
  }
}
