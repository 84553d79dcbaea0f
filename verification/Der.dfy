// The DER builders (client/src/identity.rs, client/src/tpmtls.rs) and a strict reader.
module Der {
  import opened Prelude

  const INTEGER: Byte := 0x02
  const BIT_STRING: Byte := 0x03
  const OID: Byte := 0x06
  const UTF8_STRING: Byte := 0x0C
  const SEQUENCE: Byte := 0x30
  const SET: Byte := 0x31
  const ATTRIBUTES: Byte := 0xA0

  // ---------- lengths and values ----------

  // The long form keeps the low sixteen bits only.
  function Len(n: nat): seq<Byte> {
    if n < 0x80 then [n]
    else if n <= 0xFF then [0x81, n]
    else [0x82, n / 0x100 % 0x100, n % 0x100]
  }

  function Tlv(tag: Byte, content: seq<Byte>): seq<Byte> { [tag] + Len(|content|) + content }

  method DerLen(n: nat, buf: seq<Byte>) returns (out: seq<Byte>)
    ensures out == buf + Len(n)
  {
    if n < 0x80 {
      out := buf + [n];
    } else if n <= 0xFF {
      out := buf + [0x81];
      out := out + [n];
    } else {
      out := buf + [0x82];
      out := out + [n / 0x100 % 0x100];
      out := out + [n % 0x100];
    }
  }

  method BuildTlv(tag: Byte, content: seq<Byte>) returns (out: seq<Byte>)
    ensures out == Tlv(tag, content)
  {
    out := DerLen(|content|, [tag]);
    out := out + content;
  }

  // ---------- the strict reader ----------

  // A length in the fewest bytes (section 10.1 of X.690), of at most two bytes.
  function ReadLen(b: seq<Byte>): Option<(nat, seq<Byte>)> {
    if b == [] then None
    else if b[0] < 0x80 then Some((b[0], b[1..]))
    else if b[0] == 0x81 then if |b| >= 2 && b[1] >= 0x80 then Some((b[1], b[2..])) else None
    else if b[0] == 0x82 then
      if |b| >= 3 && FromBe16(b[1], b[2]) > 0xFF then Some((FromBe16(b[1], b[2]), b[3..])) else None
    else None
  }

  function ReadTlv(b: seq<Byte>): Option<(Byte, seq<Byte>, seq<Byte>)> {
    if b == [] then None
    else
      match ReadLen(b[1..])
      case None => None
      case Some((n, rest)) => if |rest| < n then None else Some((b[0], rest[..n], rest[n..]))
  }

  lemma ReadLenOfLen(n: nat, rest: seq<Byte>)
    ensures n < 0x1_0000 ==> ReadLen(Len(n) + rest) == Some((n, rest))
    ensures n >= 0x1_0000 ==> ReadLen(Len(n) + rest).Some? ==> ReadLen(Len(n) + rest).value.0 < n
  {
    var b := Len(n) + rest;
    assert b[|Len(n)|..] == rest;
  }

  // The reader inverts the builder exactly on contents under 65536 bytes, whatever follows.
  lemma ReadTlvOfTlv(tag: Byte, content: seq<Byte>, rest: seq<Byte>)
    ensures ReadTlv(Tlv(tag, content) + rest) == Some((tag, content, rest)) <==> |content| < 0x1_0000
  {
    hide Len, ReadLen;
    var b := Tlv(tag, content) + rest;
    assert b[0] == tag && b[1..] == Len(|content|) + (content + rest);
    ReadLenOfLen(|content|, content + rest);
    assert (content + rest)[..|content|] == content && (content + rest)[|content|..] == rest;
  }

  lemma LenOfReadLen(b: seq<Byte>)
    ensures ReadLen(b).Some? ==> ReadLen(b).value.0 < 0x1_0000 && b == Len(ReadLen(b).value.0) + ReadLen(b).value.1
  {
    if ReadLen(b).Some? {
      var (n, rest) := ReadLen(b).value;
      var k := |Len(n)|;
      assert b[..k] == Len(n) && b[k..] == rest;
      assert b == b[..k] + b[k..];
    }
  }

  // What the reader accepts is what the builder writes, so encodings are unique.
  lemma TlvOfReadTlv(b: seq<Byte>)
    ensures ReadTlv(b).Some? ==>
              var (tag, content, rest) := ReadTlv(b).value;
              |content| < 0x1_0000 && b == Tlv(tag, content) + rest
  {
    hide Len, ReadLen;
    if ReadTlv(b).Some? {
      LenOfReadLen(b[1..]);
      var (n, rest) := ReadLen(b[1..]).value;
      assert rest == rest[..n] + rest[n..];
      assert b == [b[0]] + b[1..];
    }
  }

  // ---------- integers ----------

  // The number a big-endian byte string stands for.
  function Value(b: seq<Byte>): nat {
    if b == [] then 0 else Value(b[..|b| - 1]) * 0x100 + b[|b| - 1]
  }

  function Stripped(b: seq<Byte>): (s: seq<Byte>)
    requires |b| >= 1
    ensures |s| >= 1 && |s| <= |b|
  {
    if |b| > 1 && b[0] == 0 then Stripped(b[1..]) else b
  }

  // The content of the INTEGER for a byte string.
  function UintContent(b: seq<Byte>): seq<Byte>
    requires |b| >= 1
  {
    var s := Stripped(b);
    if s[0] >= 0x80 then [0] + s else s
  }

  function Uint(b: seq<Byte>): seq<Byte>
    requires |b| >= 1
  {
    Tlv(INTEGER, UintContent(b))
  }

  method DerUintBe(bytes: seq<Byte>) returns (out: seq<Byte>)
    requires |bytes| >= 1
    ensures out == Uint(bytes)
  {
    var b := bytes;
    while |b| > 1 && b[0] == 0
      invariant |b| >= 1 && Stripped(b) == Stripped(bytes)
      decreases |b|
    {
      b := b[1..];
    }
    var v: seq<Byte> := [];
    if b[0] >= 0x80 {
      v := v + [0];
    }
    v := v + b;
    out := BuildTlv(INTEGER, v);
  }

  // A non-negative integer in the fewest bytes (section 8.3.2 of X.690).
  predicate IsUint(c: seq<Byte>) {
    |c| >= 1 && c[0] < 0x80 && (|c| > 1 && c[0] == 0 ==> c[1] >= 0x80)
  }

  lemma {:induction false} LeadingZero(b: seq<Byte>)
    ensures Value([0] + b) == Value(b)
  {
    var z := [0 as Byte] + b;
    if b == [] {
      assert z[..0] == [];
    } else {
      assert z[..|z| - 1] == [0 as Byte] + b[..|b| - 1];
      LeadingZero(b[..|b| - 1]);
    }
  }

  lemma {:induction false} StrippedShape(b: seq<Byte>)
    requires |b| >= 1
    ensures var s := Stripped(b); Value(s) == Value(b) && (|s| == 1 || s[0] != 0)
  {
    if |b| > 1 && b[0] == 0 {
      assert b == [0] + b[1..];
      LeadingZero(b[1..]);
      StrippedShape(b[1..]);
    }
  }

  // The INTEGER is minimal, non-negative and keeps the value.
  lemma UintKeepsValue(b: seq<Byte>)
    requires |b| >= 1
    ensures IsUint(UintContent(b)) && Value(UintContent(b)) == Value(b)
  {
    StrippedShape(b);
    LeadingZero(Stripped(b));
  }

  predicate NoLead(b: seq<Byte>) { b == [] || b[0] != 0 }

  lemma {:induction false} NoLeadPositive(b: seq<Byte>)
    requires NoLead(b) && b != []
    ensures Value(b) >= 1
  {
    if |b| > 1 {
      NoLeadPositive(b[..|b| - 1]);
    } else {
      assert b[..0] == [];
    }
  }

  lemma {:induction false} NoLeadUnique(a: seq<Byte>, b: seq<Byte>)
    requires NoLead(a) && NoLead(b) && Value(a) == Value(b)
    ensures a == b
    decreases |a|
  {
    if a == [] {
      if b != [] {
        NoLeadPositive(b);
      }
    } else if b == [] {
      NoLeadPositive(a);
    } else {
      var p, q := a[..|a| - 1], b[..|b| - 1];
      DivModUnique(Value(a), 0x100, Value(p), a[|a| - 1]);
      DivModUnique(Value(b), 0x100, Value(q), b[|b| - 1]);
      NoLeadUnique(p, q);
      assert a == p + [a[|a| - 1]] && b == q + [b[|b| - 1]];
    }
  }

  // Each number has one minimal encoding.
  lemma UintUnique(a: seq<Byte>, b: seq<Byte>)
    requires IsUint(a) && IsUint(b) && Value(a) == Value(b)
    ensures a == b
  {
    var x, y := if a[0] == 0 then a[1..] else a, if b[0] == 0 then b[1..] else b;
    WithoutZero(a);
    WithoutZero(b);
    NoLeadUnique(x, y);
    assert a[0] == 0 ==> a == [0] + x;
    assert b[0] == 0 ==> b == [0] + y;
  }

  lemma WithoutZero(a: seq<Byte>)
    requires IsUint(a)
    ensures var x := if a[0] == 0 then a[1..] else a;
      NoLead(x) && Value(x) == Value(a) && (a[0] == 0 <==> x == [] || x[0] >= 0x80)
  {
    if a[0] == 0 {
      assert a == [0] + a[1..];
      LeadingZero(a[1..]);
    }
  }

  // ---------- the second copy of the INTEGER builder ----------

  // Its length is one byte, after 0x81 from 128 on.
  function ShortLen(n: nat): seq<Byte> { (if n >= 0x80 then [0x81] else []) + [n % 0x100] }

  lemma ShortLenAgreesIff(n: nat)
    ensures ShortLen(n) == Len(n) <==> n < 0x100
  {
  }

  method WriteShortLen(buf: seq<Byte>, n: nat) returns (out: seq<Byte>)
    ensures out == buf + ShortLen(n)
  {
    out := buf;
    if n >= 0x80 {
      out := out + [0x81];
    }
    out := out + [n % 0x100];
  }

  method ShortUint(bytes: seq<Byte>) returns (out: seq<Byte>)
    requires |bytes| >= 1
    ensures out == [INTEGER] + ShortLen(|UintContent(bytes)|) + UintContent(bytes)
  {
    hide ShortLen;
    var b := bytes;
    while |b| > 1 && b[0] == 0
      invariant |b| >= 1 && Stripped(b) == Stripped(bytes)
      decreases |b|
    {
      b := b[1..];
    }
    var v: seq<Byte> := [];
    if b[0] >= 0x80 {
      v := v + [0];
    }
    v := v + b;
    assert b == Stripped(bytes) && v == UintContent(bytes);
    hide UintContent, Stripped;
    out := WriteShortLen([INTEGER], |v|);
    out := out + v;
  }

  function Signature(r: seq<Byte>, s: seq<Byte>): seq<Byte>
    requires |r| >= 1 && |s| >= 1
  {
    Tlv(SEQUENCE, Uint(r) + Uint(s))
  }

  // On every 64-byte signature the copy builds what the first builder does.
  method RawToDer(raw: seq<Byte>) returns (out: seq<Byte>)
    requires |raw| == 64
    ensures out == Signature(raw[..32], raw[32..])
  {
    hide Stripped, Value;
    var body := ShortUint(raw[..32]);
    var second := ShortUint(raw[32..]);
    ContentSize(raw[..32]);
    ContentSize(raw[32..]);
    ShortLenAgreesIff(|UintContent(raw[..32])|);
    ShortLenAgreesIff(|UintContent(raw[32..])|);
    body := body + second;
    ShortLenAgreesIff(|body|);
    out := WriteShortLen([SEQUENCE], |body|);
    out := out + body;
  }

  lemma ContentSize(b: seq<Byte>)
    requires |b| >= 1
    ensures 1 <= |UintContent(b)| <= |b| + 1
  {
  }
}
