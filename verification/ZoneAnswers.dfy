// What the responder sends for a packet, byte by byte, and the interleaved responder against it
// (client/src/dns.rs).
module ZoneAnswers {
  import opened Prelude
  import opened DnsResponder
  import opened ZoneManager
  import ZoneSync
  import DnsLaws
  import Decimals
  import NamePolicy

  // The map has the name, with an address that reads.
  predicate Known(zones: map<string, string>, name: string) {
    name in zones && AnswerOctets(Some(zones[name])).Some?
  }

  // For every map, flag and packet that parses: the fourth byte is 2 until the state is synced,
  // then 0 exactly if the map knows the name and 3 otherwise; and a question of type 1 and class 1
  // for a name it knows is answered with the mapped address in the last four bytes.
  lemma AnswerBytes(zones: map<string, string>, synced: bool, pkt: seq<Byte>, lossy: seq<Byte> -> string)
    requires Parse(pkt, lossy).Some?
    ensures var q := Parse(pkt, lossy).value; var r := Answer(zones, synced, pkt, lossy);
      var known := Known(zones, q.name); var sent := synced && known && q.qtype == 1 && q.qclass == 1;
      r.Some? && |r.value| >= 12 && r.value[3] == (if !synced then 2 else if known then 0 else 3) &&
      r.value[6] == 0 && r.value[7] == (if sent then 1 else 0) &&
      (sent ==> r.value[|r.value| - 4..] == AnswerOctets(Some(zones[q.name])).value)
  {
    hide Parse, Reply, AnswerOctets, IsName;
    NoAddress();
    DnsLaws.ParsedShape(pkt, lossy);
    ReplyBytes(Parse(pkt, lossy).value, MappedTo(zones, Parse(pkt, lossy).value.name), synced);
  }

  function MappedTo(zones: map<string, string>, name: string): Option<string> {
    if name in zones then Some(zones[name]) else None
  }

  lemma ReplyBytes(q: Question, ip: Option<string>, synced: bool)
    requires IsName(q.rawName) && |q.rawName| <= 256
    ensures var r := Reply(q, ip, synced); var known := AnswerOctets(ip).Some?;
      var sent := synced && known && q.qtype == 1 && q.qclass == 1;
      |r| >= 12 && r[3] == (if !synced then 2 else if known then 0 else 3) &&
      r[6] == 0 && r[7] == (if sent then 1 else 0) && (sent ==> r[|r| - 4..] == AnswerOctets(ip).value)
  {
    hide Reply, AnswerOctets, IsName, Word, Whole, ParseName;
    DnsLaws.ResponseCode(q, ip, synced);
    DnsLaws.AddressReply(q, ip, synced);
    WordBytes(Reply(q, ip, synced), 6);
  }

  lemma NoAddress()
    ensures AnswerOctets(None).None?
  {
  }

  lemma WordBytes(b: seq<Byte>, at: nat)
    requires at + 1 < |b| && Word(b, at) < 256
    ensures b[at] == 0 && b[at + 1] == Word(b, at)
  {
  }

  // An entry in dotted form is answered with its four numbers.
  lemma QuadIsSent(zones: map<string, string>, pkt: seq<Byte>, lossy: seq<Byte> -> string, b: seq<Byte>)
    requires Parse(pkt, lossy).Some? && |b| == 4
    requires var q := Parse(pkt, lossy).value; q.name in zones && zones[q.name] == Decimals.Quad(b)
    ensures var q := Parse(pkt, lossy).value; var r := Answer(zones, true, pkt, lossy);
      r.Some? && |r.value| >= 12 && r.value[3] == 0 &&
      (q.qtype == 1 && q.qclass == 1 ==> r.value[|r.value| - 4..] == b)
  {
    hide Parse, Reply, AnswerOctets, Answer, Decimals.Dec;
    QuadReads(b);
    AnswerBytes(zones, true, pkt, lossy);
  }

  lemma QuadReads(b: seq<Byte>)
    requires |b| == 4
    ensures AnswerOctets(Some(Decimals.Quad(b))) == Some(b)
  {
    hide AnswerOctets, ParseOctet, Decimals.Dec;
    var parts := [Decimals.Dec(b[0]), Decimals.Dec(b[1]), Decimals.Dec(b[2]), Decimals.Dec(b[3])];
    Decimals.OctetReads(b[0]);
    Decimals.OctetReads(b[1]);
    Decimals.OctetReads(b[2]);
    Decimals.OctetReads(b[3]);
    DnsLaws.DottedQuadAnswered(parts, b);
    Decimals.JoinFour(parts);
  }

  // A part that is a number up to 255, with any zeros and at most one plus sign in front.
  ghost predicate Readable(part: string, v: Byte) {
    Decimals.Writes(part, v) || (part != "" && part[0] == '+' && Decimals.Writes(part[1..], v))
  }

  // An entry's bytes are its readable parts in order; the others are passed over. It has an
  // address exactly if there are four of them.
  lemma {:induction false} PartsRead(parts: seq<string>, more: string)
    ensures Octets([]) == []
    ensures forall v: Byte :: Readable(more, v) ==> Octets(parts + [more]) == Octets(parts) + [v]
    ensures (forall v: Byte :: !Readable(more, v)) ==> Octets(parts + [more]) == Octets(parts)
    ensures AnswerOctets(Some(more)) ==
            if |Octets(NamePolicy.Labels(more))| == 4 then Some(Octets(NamePolicy.Labels(more))) else None
  {
    hide ParseOctet, Decimals.Writes;
    forall v: Byte
      ensures ParseOctet(more) == Some(v) <==> Readable(more, v)
    {
      Decimals.OctetReadIff(more, v);
    }
    if ParseOctet(more).Some? {
      assert Readable(more, ParseOctet(more).value);
    }
    if parts == [] {
      assert parts + [more] == [more] && [more][1..] == [] && Octets([more][1..]) == [];
    } else {
      assert (parts + [more])[0] == parts[0] && (parts + [more])[1..] == parts[1..] + [more];
      PartsRead(parts[1..], more);
    }
  }

  // A packet that does not parse is dropped, and no other.
  lemma DroppedIff(zones: map<string, string>, synced: bool, pkt: seq<Byte>, lossy: seq<Byte> -> string)
    ensures Answer(zones, synced, pkt, lossy).None? <==> Parse(pkt, lossy).None?
  {
  }

  // ---------- the interleaved responder ----------

  // What goes out for an answer of the interleaved responder.
  function Bytes(m: ZoneSync.Sent): seq<Byte> { Reply(m.q, m.ip, m.flag) }

  // In every interleaving each reply is the one that AnswerWire gives on the flag that was loaded
  // and the published map that was read.
  lemma SentIsAnswer(o: ZoneSync.Order, events: seq<ZoneSync.Event>, i: nat, pkt: seq<Byte>, lossy: seq<Byte> -> string)
    ensures var s := ZoneSync.Run(o, ZoneSync.BOOT, events);
      i < |s.sent| && Parse(pkt, lossy) == Some(s.sent[i].q) ==>
        s.sent[i].from < |s.published| &&
        Answer(s.published[s.sent[i].from], s.sent[i].flag, pkt, lossy) == Some(Bytes(s.sent[i]))
  {
    hide ZoneSync.Run, Parse, Reply;
    ZoneSync.AnswersAreWhole(o, events, i);
  }

  // With nothing between a query's steps, no writer at work and no other packet of its task, what
  // is sent is AnswerWire's reply on the state as it is.
  lemma UndisturbedAnswer(s: ZoneSync.State, task: nat, pkt: seq<Byte>, lossy: seq<Byte> -> string)
    requires Parse(pkt, lossy).Some? && !s.manager.Filling?
    ensures var events := [ZoneSync.Event.Arrive(task, Parse(pkt, lossy).value), ZoneSync.Event.LoadFlag(task),
                           ZoneSync.Event.ReadMap(task), ZoneSync.Event.Send(task)];
      var t := ZoneSync.Run(ZoneSync.Order(true, true), s, events);
      |t.sent| == |s.sent| + 1 && t.zones == s.zones && t.synced == s.synced &&
      Some(Bytes(t.sent[|s.sent|])) == Answer(s.zones, s.synced, pkt, lossy)
  {
    hide Parse, Reply, ZoneSync.Step;
    var o := ZoneSync.Order(true, true);
    var q := Parse(pkt, lossy).value;
    var events := [ZoneSync.Event.Arrive(task, q), ZoneSync.Event.LoadFlag(task), ZoneSync.Event.ReadMap(task),
                   ZoneSync.Event.Send(task)];
    Looked(o, s, task, q);
    FourSteps(o, s, events);
    var s1 := ZoneSync.Step(o, s, events[0]);
    var s2 := ZoneSync.Step(o, s1, events[1]);
    SendsIt(o, ZoneSync.Step(o, s2, events[2]), task);
  }

  lemma SendsIt(o: ZoneSync.Order, s: ZoneSync.State, task: nat)
    requires task in s.queries && s.queries[task].flag.Some? && s.queries[task].looked.Some?
    ensures var t, w := ZoneSync.Step(o, s, ZoneSync.Event.Send(task)), s.queries[task];
      t.zones == s.zones && t.synced == s.synced && |t.sent| == |s.sent| + 1 &&
      t.sent[|s.sent|] == ZoneSync.Sent(w.q, w.since, w.flag.value, w.looked.value.0, w.looked.value.1)
  {
  }

  lemma Looked(o: ZoneSync.Order, s: ZoneSync.State, task: nat, q: Question)
    requires o == ZoneSync.Order(true, true) && !s.manager.Filling?
    ensures var s1 := ZoneSync.Step(o, s, ZoneSync.Event.Arrive(task, q));
      var s2 := ZoneSync.Step(o, s1, ZoneSync.Event.LoadFlag(task));
      var s3 := ZoneSync.Step(o, s2, ZoneSync.Event.ReadMap(task));
      s3.zones == s.zones && s3.synced == s.synced && s3.sent == s.sent && task in s3.queries &&
      s3.queries[task] == ZoneSync.Query(q, ZoneSync.Newest(s), Some(s.synced),
                                         Some((ZoneSync.Lookup(s.zones, q.name), ZoneSync.Newest(s))))
  {
  }

  lemma FourSteps(o: ZoneSync.Order, s: ZoneSync.State, e: seq<ZoneSync.Event>)
    requires |e| == 4
    ensures ZoneSync.Run(o, s, e) ==
            ZoneSync.Step(o, ZoneSync.Step(o, ZoneSync.Step(o, ZoneSync.Step(o, s, e[0]), e[1]), e[2]), e[3])
  {
    hide ZoneSync.Step;
    ZoneSync.ThreeSteps(o, ZoneSync.Step(o, s, e[0]), e[1..]);
  }
}
