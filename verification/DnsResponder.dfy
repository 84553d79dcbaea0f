// The split-horizon DNS responder (client/src/dns.rs): query parser and reply builder.
module DnsResponder {
  import opened Prelude
  import NamePolicy

  const TYPE_A := 1
  const CLASS_IN := 1

  // rawName has compression resolved, labels length-prefixed, zero-terminated.
  datatype Question = Question(id: U16, rd: bool, rawName: seq<Byte>, name: string, qtype: U16, qclass: U16)

  function Word(b: seq<Byte>, at: nat): U16
    requires at + 1 < |b|
  {
    FromBe16(b[at], b[at + 1])
  }

  // ---------- parsing ----------

  // The offset in a compression pointer.
  function Target(hi: Byte, lo: Byte): nat { hi % 0x40 * 256 + lo }

  // The parser's loop: the raw name read so far, and where reading goes on. A pointer moves
  // reading to its target for good, so what follows the name is read there too.
  function ParseName(pkt: seq<Byte>, pos: nat, jumps: nat, raw: seq<Byte>): (r: Option<(seq<Byte>, nat)>)
    requires |raw| <= 255 && jumps <= 16
    ensures r.Some? ==> r.value.1 <= |pkt|
    decreases 255 - |raw|, 16 - jumps
  {
    if pos >= |pkt| then None
    else if pkt[pos] == 0 then Some((raw + [0], pos + 1))
    else if pkt[pos] >= 0xC0 then
      if |pkt| < pos + 2 || jumps >= 16 then None
      else
        var target := Target(pkt[pos], pkt[pos + 1]);
        if target >= pos then None else ParseName(pkt, target, jumps + 1, raw)
    else
      var l: nat := pkt[pos];
      if |pkt| < pos + 1 + l || |raw| + l + 1 > 255 then None
      else ParseName(pkt, pos + 1 + l, jumps, raw + pkt[pos..pos + 1 + l])
  }

  // One turn of the parser's loop.
  lemma NameStep(pkt: seq<Byte>, pos: nat, jumps: nat, raw: seq<Byte>)
    requires |raw| <= 255 && jumps <= 16
    ensures pos >= |pkt| ==> ParseName(pkt, pos, jumps, raw).None?
    ensures pos < |pkt| && pkt[pos] == 0 ==> ParseName(pkt, pos, jumps, raw) == Some((raw + [0], pos + 1))
    ensures pos < |pkt| && pkt[pos] >= 0xC0 ==>
      if |pkt| < pos + 2 || jumps >= 16 || Target(pkt[pos], pkt[pos + 1]) >= pos then
        ParseName(pkt, pos, jumps, raw).None?
      else
        ParseName(pkt, pos, jumps, raw) == ParseName(pkt, Target(pkt[pos], pkt[pos + 1]), jumps + 1, raw)
    ensures pos < |pkt| && 0 < pkt[pos] < 0xC0 ==>
      var l: nat := pkt[pos];
      if |pkt| < pos + 1 + l || |raw| + l + 1 > 255 then
        ParseName(pkt, pos, jumps, raw).None?
      else
        ParseName(pkt, pos, jumps, raw) == ParseName(pkt, pos + 1 + l, jumps, raw + pkt[pos..pos + 1 + l])
  {
  }

  // The labels of a raw name, decoded lossily and joined with dots after each.
  function Dotted(raw: seq<Byte>, lossy: seq<Byte> -> string): string {
    if raw == [] then ""
    else
      var l: nat := raw[0];
      if l == 0 || |raw| < 1 + l then "" else lossy(raw[1..1 + l]) + "." + Dotted(raw[1 + l..], lossy)
  }

  function AsciiLower(s: string): string {
    if s == "" then "" else [if 'A' <= s[0] <= 'Z' then s[0] - 'A' + 'a' else s[0]] + AsciiLower(s[1..])
  }

  function LookupName(raw: seq<Byte>, lossy: seq<Byte> -> string): string {
    AsciiLower(NamePolicy.StripBack(Dotted(raw, lossy), '.'))
  }

  function Parse(pkt: seq<Byte>, lossy: seq<Byte> -> string): Option<Question> {
    if |pkt| < 12 || Word(pkt, 2) >= 0x8000 || Word(pkt, 4) < 1 then None
    else
      match ParseName(pkt, 12, 0, [])
      case None => None
      case Some((raw, pos)) =>
        if |pkt| < pos + 4 then None
        else Some(Question(Word(pkt, 0), Word(pkt, 2) / 256 % 2 == 1, raw, LookupName(raw, lossy),
                           Word(pkt, pos), Word(pkt, pos + 2)))
  }

  // The name of a query, as raw bytes and as text; `lossy` is the library's lossy UTF-8 decoding.
  method ReadName(pkt: seq<Byte>, lossy: seq<Byte> -> string) returns (r: Option<(seq<Byte>, string, nat)>)
    ensures r.None? <==> ParseName(pkt, 12, 0, []).None?
    ensures r.Some? ==>
              ParseName(pkt, 12, 0, []) == Some((r.value.0, r.value.2)) && r.value.1 == Dotted(r.value.0, lossy)
  {
    var raw: seq<Byte> := [];
    var name := "";
    var pos: nat := 12;
    var jumps: nat := 0;
    while true
      invariant |raw| <= 255 && jumps <= 16
      invariant ParseName(pkt, pos, jumps, raw) == ParseName(pkt, 12, 0, [])
      invariant Whole(raw) && name == Dotted(raw, lossy)
      decreases 255 - |raw|, 16 - jumps
    {
      hide Dotted, Whole, ParseName, Target;
      if pos >= |pkt| {
        NameStep(pkt, pos, jumps, raw);
        return None;
      }
      var l: nat := pkt[pos];
      if l == 0 {
        NameStep(pkt, pos, jumps, raw);
        DottedRoot(raw, lossy);
        return Some((raw + [0], name, pos + 1));
      } else if l >= 0xC0 {
        NameStep(pkt, pos, jumps, raw);
        if |pkt| < pos + 2 || jumps >= 16 { return None; }
        var target := Target(pkt[pos], pkt[pos + 1]);
        if target >= pos { return None; }
        pos := target;
        jumps := jumps + 1;
      } else {
        if |pkt| < pos + 1 + l || |raw| + l + 1 > 255 {
          NameStep(pkt, pos, jumps, raw);
          return None;
        }
        var text := pkt[pos + 1..pos + 1 + l];
        LabelStep(pkt, pos, jumps, raw, l, text, lossy);
        raw := raw + [l] + text;
        name := name + lossy(text) + ".";
        pos := pos + 1 + l;
      }
    }
  }

  method ParseQuery(pkt: seq<Byte>, lossy: seq<Byte> -> string) returns (r: Option<Question>)
    ensures r == Parse(pkt, lossy)
  {
    if |pkt| < 12 { return None; }
    var id := Word(pkt, 0);
    var flags := Word(pkt, 2);
    if flags >= 0x8000 { return None; }
    if Word(pkt, 4) < 1 { return None; }
    var read := ReadName(pkt, lossy);
    if read.None? { return None; }
    var (raw, name, pos) := read.value;
    if |pkt| < pos + 4 { return None; }
    return Some(Question(id, flags / 256 % 2 == 1, raw, AsciiLower(NamePolicy.StripBack(name, '.')),
                         Word(pkt, pos), Word(pkt, pos + 2)));
  }

  // ---------- raw names ----------

  // A run of length-prefixed labels. Lengths 64 to 191 are taken as labels, too.
  predicate Whole(raw: seq<Byte>) {
    raw == [] ||
    (var l: nat := raw[0]; 1 <= l < 0xC0 && |raw| >= 1 + l && Whole(raw[1 + l..]))
  }

  // A well-formed raw name: whole labels and the root.
  predicate IsName(raw: seq<Byte>) {
    |raw| >= 1 && raw[|raw| - 1] == 0 && Whole(raw[..|raw| - 1])
  }

  // The head label comes off.
  lemma HeadLabel(l: nat, text: seq<Byte>, rest: seq<Byte>, lossy: seq<Byte> -> string)
    requires 1 <= l < 0xC0 && |text| == l
    ensures Dotted([l] + text + rest, lossy) == lossy(text) + "." + Dotted(rest, lossy)
    ensures Whole([l] + text + rest) == Whole(rest)
  {
    var s: seq<Byte> := [l] + text + rest;
    assert s[1..1 + l] == text && s[1 + l..] == rest;
  }

  lemma SplitHead(raw: seq<Byte>) returns (l: nat, text: seq<Byte>, rest: seq<Byte>)
    requires Whole(raw) && raw != []
    ensures 1 <= l < 0xC0 && |text| == l && raw == [l] + text + rest && Whole(rest)
  {
    l := raw[0];
    text, rest := raw[1..1 + l], raw[1 + l..];
  }

  lemma {:induction false} DottedStep(raw: seq<Byte>, tail: seq<Byte>, lossy: seq<Byte> -> string)
    requires Whole(raw)
    ensures Dotted(raw + tail, lossy) == Dotted(raw, lossy) + Dotted(tail, lossy)
    ensures Whole(tail) ==> Whole(raw + tail)
    decreases |raw|
  {
    if raw == [] {
      assert raw + tail == tail;
    } else {
      hide Dotted, Whole;
      var l, text, rest := SplitHead(raw);
      DottedStep(rest, tail, lossy);
      HeadLabel(l, text, rest, lossy);
      HeadLabel(l, text, rest + tail, lossy);
      Regroup([l] + text, rest, tail);
      Regroup(lossy(text) + ".", Dotted(rest, lossy), Dotted(tail, lossy));
    }
  }

  lemma DottedRoot(raw: seq<Byte>, lossy: seq<Byte> -> string)
    requires Whole(raw)
    ensures Dotted(raw + [0], lossy) == Dotted(raw, lossy)
  {
    DottedStep(raw, [0], lossy);
  }

  // One label read: what the loop has then is what the parser goes on with.
  lemma LabelStep(
    pkt: seq<Byte>, pos: nat, jumps: nat, raw: seq<Byte>, l: nat, text: seq<Byte>, lossy: seq<Byte> -> string)
    requires |raw| + l + 1 <= 255 && jumps <= 16 && Whole(raw)
    requires pos + 1 + l <= |pkt| && pkt[pos] == l && 1 <= l < 0xC0 && text == pkt[pos + 1..pos + 1 + l]
    ensures ParseName(pkt, pos, jumps, raw) == ParseName(pkt, pos + 1 + l, jumps, raw + [l] + text)
    ensures Whole(raw + [l] + text)
    ensures Dotted(raw + [l] + text, lossy) == Dotted(raw, lossy) + lossy(text) + "."
  {
    hide ParseName, Whole, Dotted;
    NameStep(pkt, pos, jumps, raw);
    assert pkt[pos..pos + 1 + l] == [l] + text;
    Regroup(raw, [l], text);
    LabelAppend(raw, l, text, lossy);
  }

  lemma LabelAppend(raw: seq<Byte>, l: nat, text: seq<Byte>, lossy: seq<Byte> -> string)
    requires Whole(raw) && 1 <= l < 0xC0 && |text| == l
    ensures Whole(raw + [l] + text)
    ensures Dotted(raw + [l] + text, lossy) == Dotted(raw, lossy) + lossy(text) + "."
  {
    NoLabels(lossy);
    hide Whole, Dotted;
    var one: seq<Byte> := [l] + text;
    HeadLabel(l, text, [], lossy);
    assert one + [] == one;
    DottedStep(raw, one, lossy);
    Regroup(raw, [l], text);
    Regroup(Dotted(raw, lossy), lossy(text), ".");
    assert lossy(text) + "." + "" == lossy(text) + ".";
  }

  lemma NoLabels(lossy: seq<Byte> -> string)
    ensures Whole([]) && Dotted([], lossy) == ""
  {
  }

  // ---------- replies ----------

  // u8::from_str: an optional plus sign, then digits, any number of leading zeros.
  function ParseOctet(s: string): Option<Byte> {
    var t := if s != "" && s[0] == '+' then s[1..] else s;
    if t != "" && NamePolicy.IsDecimal(t) && NamePolicy.DecimalValue(t) <= 255 then Some(NamePolicy.DecimalValue(t))
    else None
  }

  // The parts that are numbers up to 255; the others are dropped.
  function Octets(parts: seq<string>): seq<Byte> {
    if parts == [] then []
    else
      match ParseOctet(parts[0])
      case None => Octets(parts[1..])
      case Some(o) => [o] + Octets(parts[1..])
  }

  function AnswerOctets(ip: Option<string>): (r: Option<seq<Byte>>)
    ensures r.Some? ==> |r.value| == 4
  {
    if ip.None? then None
    else
      var o := Octets(NamePolicy.Labels(ip.value));
      if |o| == 4 then Some(o) else None
  }

  const NOERROR := 0
  const SERVFAIL := 2
  const NXDOMAIN := 3

  predicate WantsAddress(q: Question) { q.qtype == TYPE_A && q.qclass == CLASS_IN }

  function Rcode(known: bool, synced: bool): (r: nat)
    ensures r < 16
  {
    if !synced then SERVFAIL else if known then NOERROR else NXDOMAIN
  }

  // The header of a reply with `answers` answer records.
  function Header(q: Question, rcode: nat, answers: nat): seq<Byte>
    requires rcode < 16 && answers < 2
  {
    [q.id / 256, q.id % 256, 0x80 + (if q.rd then 1 else 0), rcode, 0, 1, 0, answers, 0, 0, 0, 0]
  }

  // An address record: a pointer to the question's name, type, class, five seconds, four bytes.
  function AddressRecord(octets: seq<Byte>): seq<Byte> {
    Be16(0xC00C) + Be16(TYPE_A) + Be16(CLASS_IN) + Be16(0) + Be16(5) + Be16(4) + octets
  }

  function Echo(q: Question): seq<Byte> { q.rawName + Be16(q.qtype) + Be16(q.qclass) }

  function Reply(q: Question, ip: Option<string>, synced: bool): seq<Byte> {
    var o := AnswerOctets(ip);
    var answered := synced && WantsAddress(q) && o.Some?;
    Header(q, Rcode(o.Some?, synced), if answered then 1 else 0) + Echo(q) +
    if answered then AddressRecord(o.value) else []
  }

  lemma HeaderBytes(q: Question, rcode: nat, answers: nat)
    requires rcode < 16 && answers < 2
    ensures var flags := 0x8000 + (if q.rd then 0x100 else 0) + rcode;
      Be16(q.id) + Be16(flags) + Be16(1) + Be16(answers) + Be16(0) + Be16(0) == Header(q, rcode, answers)
  {
  }

  method WriteHeader(q: Question, rcode: nat, answers: nat) returns (out: seq<Byte>)
    requires rcode < 16 && answers < 2
    ensures out == Header(q, rcode, answers)
  {
    hide Be16, Header;
    out := Be16(q.id);
    var flags: U16 := 0x8000 + (if q.rd then 0x100 else 0) + rcode;
    out := out + Be16(flags);
    out := out + Be16(1);
    out := out + Be16(answers);
    out := out + Be16(0);
    out := out + Be16(0);
    HeaderBytes(q, rcode, answers);
  }

  method WriteAnswer(buf: seq<Byte>, octets: seq<Byte>) returns (out: seq<Byte>)
    ensures out == buf + AddressRecord(octets)
  {
    out := buf + Be16(0xC00C);
    out := out + Be16(TYPE_A);
    out := out + Be16(CLASS_IN);
    out := out + Be16(0) + Be16(5);
    out := out + Be16(4);
    out := out + octets;
  }

  method BuildReply(q: Question, ip: Option<string>, synced: bool) returns (out: seq<Byte>)
    ensures out == Reply(q, ip, synced)
  {
    hide Be16, Header, AddressRecord;
    var octets := AnswerOctets(ip);
    var rcode, answers := SERVFAIL, 0;
    if synced {
      if q.qtype == TYPE_A && q.qclass == CLASS_IN {
        match octets {
          case Some(_) => rcode, answers := 0, 1;
          case None => rcode, answers := 3, 0;
        }
      } else if octets.Some? {
        rcode, answers := 0, 0;
      } else {
        rcode, answers := 3, 0;
      }
    }
    out := WriteHeader(q, rcode, answers);
    ghost var header := out;
    out := out + q.rawName;
    out := out + Be16(q.qtype);
    out := out + Be16(q.qclass);
    assert out == header + Echo(q);
    if answers == 1 {
      out := WriteAnswer(out, octets.value);
    } else {
      assert header + Echo(q) + [] == header + Echo(q);
    }
  }
}
