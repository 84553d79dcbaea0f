// The hand-built certification request (client/src/identity.rs) against a strict reader
// (section 4 of RFC 2986).
module Csr {
  import opened Prelude
  import opened Der
  import opened Pkcs10

  const EC_PUBLIC_KEY: seq<Byte> := [0x2A, 0x86, 0x48, 0xCE, 0x3D, 0x02, 0x01]
  const PRIME256V1: seq<Byte> := [0x2A, 0x86, 0x48, 0xCE, 0x3D, 0x03, 0x01, 0x07]
  const COMMON_NAME: seq<Byte> := [0x55, 0x04, 0x03]
  const ECDSA_SHA256: seq<Byte> := [0x2A, 0x86, 0x48, 0xCE, 0x3D, 0x04, 0x03, 0x02]

  // ---------- the request ----------

  function KeyAlgorithm(): seq<Byte> { Tlv(SEQUENCE, Tlv(OID, EC_PUBLIC_KEY) + Tlv(OID, PRIME256V1)) }

  function Spki(point: seq<Byte>): seq<Byte> { Tlv(SEQUENCE, KeyAlgorithm() + Tlv(BIT_STRING, [0] + point)) }

  function Name(host: seq<Byte>): seq<Byte> {
    Tlv(SEQUENCE, Tlv(SET, Tlv(SEQUENCE, Tlv(OID, COMMON_NAME) + Tlv(UTF8_STRING, host))))
  }

  function Info(host: seq<Byte>, point: seq<Byte>): seq<Byte> {
    Tlv(SEQUENCE, Tlv(INTEGER, [0]) + Name(host) + Spki(point) + Tlv(ATTRIBUTES, []))
  }

  function SignatureAlgorithm(): seq<Byte> { Tlv(SEQUENCE, Tlv(OID, ECDSA_SHA256)) }

  // What is inside the outer SEQUENCE.
  function Content(host: seq<Byte>, point: seq<Byte>, sig: seq<Byte>): seq<Byte>
    requires |sig| == 64
  {
    Info(host, point) + SignatureAlgorithm() + Tlv(BIT_STRING, [0] + Signature(sig[..32], sig[32..]))
  }

  method SpkiFromPoint(point: seq<Byte>) returns (out: seq<Byte>)
    ensures out == Spki(point)
  {
    var ecKey := BuildTlv(OID, EC_PUBLIC_KEY);
    var curve := BuildTlv(OID, PRIME256V1);
    var alg := BuildTlv(SEQUENCE, ecKey + curve);
    var bits: seq<Byte> := [0];
    bits := bits + point;
    var key := BuildTlv(BIT_STRING, bits);
    out := BuildTlv(SEQUENCE, alg + key);
  }

  // `digest` is SHA-256 and `sign` the TPM, which may fail; the result is the DER that the
  // source goes on to wrap as PEM.
  method BuildTpmCsr<E>(host: seq<Byte>, point: seq<Byte>, digest: seq<Byte> -> seq<Byte>,
                        sign: seq<Byte> -> Result<seq<Byte>, E>)
    returns (r: Result<seq<Byte>, E>)
    requires forall d :: sign(d).Ok? ==> |sign(d).value| == 64
    ensures var s := sign(digest(Info(host, point)));
      r == if s.Ok? then Ok(Tlv(SEQUENCE, Content(host, point, s.value))) else Err(s.error)
  {
    hide Tlv, Uint;
    var version := BuildTlv(INTEGER, [0]);
    var cnOid := BuildTlv(OID, COMMON_NAME);
    var cnVal := BuildTlv(UTF8_STRING, host);
    var pair := BuildTlv(SEQUENCE, cnOid + cnVal);
    var rdn := BuildTlv(SET, pair);
    var name := BuildTlv(SEQUENCE, rdn);
    var spki := SpkiFromPoint(point);
    var attrs := BuildTlv(ATTRIBUTES, []);
    var info := BuildTlv(SEQUENCE, version + name + spki + attrs);
    var signed := sign(digest(info));
    if signed.Err? { return Err(signed.error); }
    var sig := signed.value;
    var first := DerUintBe(sig[..32]);
    var second := DerUintBe(sig[32..]);
    var derSig := BuildTlv(SEQUENCE, first + second);
    var alg := BuildTlv(OID, ECDSA_SHA256);
    var sigAlg := BuildTlv(SEQUENCE, alg);
    var bits: seq<Byte> := [0];
    bits := bits + derSig;
    var bitString := BuildTlv(BIT_STRING, bits);
    var csr := BuildTlv(SEQUENCE, info + sigAlg + bitString);
    return Ok(csr);
  }

  // ---------- the round trip ----------

  lemma ExpectTlv(tag: Byte, content: seq<Byte>, rest: seq<Byte>)
    ensures Expect(tag, Tlv(tag, content) + rest) == Some((content, rest)) <==> |content| < 0x1_0000
  {
    hide Tlv, ReadTlv;
    ReadTlvOfTlv(tag, content, rest);
  }

  lemma OnlyTlv(tag: Byte, content: seq<Byte>)
    ensures |content| < 0x1_0000 ==> Only(tag, Tlv(tag, content)) == Some(content)
    ensures |content| >= 0x1_0000 ==> Only(tag, Tlv(tag, content)).None?
  {
    hide ReadTlv;
    ReadTlvOfTlv(tag, content, []);
    assert Tlv(tag, content) + [] == Tlv(tag, content);
    if |content| >= 0x1_0000 && Only(tag, Tlv(tag, content)).Some? {
      TlvOfReadTlv(Tlv(tag, content));
      TlvShorter(tag, content);
    }
  }

  // An overlong content leaves bytes behind: no accepted element is as long.
  lemma TlvShorter(tag: Byte, content: seq<Byte>)
    requires |content| >= 0x1_0000
    ensures forall c: seq<Byte> :: |c| < 0x1_0000 ==> |Tlv(tag, c)| < |Tlv(tag, content)|
  {
  }

  lemma TlvSize(tag: Byte, content: seq<Byte>)
    ensures |content| + 2 <= |Tlv(tag, content)| <= |content| + 4
  {
  }

  lemma BitsOfTlv(content: seq<Byte>)
    requires |content| < 0xFFFF
    ensures Bits(Tlv(BIT_STRING, [0] + content)) == Some(content)
  {
    hide Tlv, Only;
    OnlyTlv(BIT_STRING, [0] + content);
    assert ([0 as Byte] + content)[1..] == content;
  }

  lemma SignatureReads(r: seq<Byte>, s: seq<Byte>)
    requires 1 <= |r| <= 32 && 1 <= |s| <= 32
    ensures ReadSignature(Signature(r, s)) == Some((Value(r), Value(s)))
    ensures |Signature(r, s)| <= 78
  {
    hide Tlv, ReadTlv, UintContent, Value, IsUint;
    ContentSize(r);
    ContentSize(s);
    UintKeepsValue(r);
    UintKeepsValue(s);
    TlvSize(INTEGER, UintContent(r));
    TlvSize(INTEGER, UintContent(s));
    TlvSize(SEQUENCE, Uint(r) + Uint(s));
    OnlyTlv(SEQUENCE, Uint(r) + Uint(s));
    ExpectTlv(INTEGER, UintContent(r), Uint(s));
    ExpectTlv(INTEGER, UintContent(s), []);
    assert Uint(s) + [] == Uint(s);
  }

  lemma NameReads(host: seq<Byte>)
    requires |Name(host)| < 0x1_0000
    ensures Expect(SEQUENCE, Name(host)).Some? && Expect(SEQUENCE, Name(host)).value.1 == []
    ensures ReadName(Expect(SEQUENCE, Name(host)).value.0) == Some(host)
  {
    hide Tlv, ReadTlv, Expect, Only;
    var value := Tlv(UTF8_STRING, host);
    var pair := Tlv(OID, COMMON_NAME) + value;
    var rdn := Tlv(SEQUENCE, pair);
    var name := Tlv(SET, rdn);
    TlvSize(UTF8_STRING, host);
    TlvSize(SEQUENCE, pair);
    TlvSize(SET, rdn);
    TlvSize(SEQUENCE, name);
    ExpectTlv(SEQUENCE, name, []);
    assert Name(host) + [] == Name(host);
    OnlyTlv(SET, rdn);
    OnlyTlv(SEQUENCE, pair);
    ExpectTlv(OID, COMMON_NAME, value);
    OnlyTlv(UTF8_STRING, host);
  }

  lemma SpkiReads(point: seq<Byte>)
    requires |Spki(point)| < 0x1_0000
    ensures Expect(SEQUENCE, Spki(point)).Some? && Expect(SEQUENCE, Spki(point)).value.1 == []
    ensures ReadSpki(Expect(SEQUENCE, Spki(point)).value.0) == Some(point)
  {
    hide Tlv, ReadTlv, Expect, Only, Bits;
    var alg := Tlv(OID, EC_PUBLIC_KEY) + Tlv(OID, PRIME256V1);
    var key := Tlv(BIT_STRING, [0] + point);
    TlvSize(OID, EC_PUBLIC_KEY);
    TlvSize(OID, PRIME256V1);
    TlvSize(BIT_STRING, [0] + point);
    TlvSize(SEQUENCE, KeyAlgorithm() + key);
    ExpectTlv(SEQUENCE, KeyAlgorithm() + key, []);
    assert Spki(point) + [] == Spki(point);
    ExpectTlv(SEQUENCE, alg, key);
    ExpectTlv(OID, EC_PUBLIC_KEY, Tlv(OID, PRIME256V1));
    OnlyTlv(OID, PRIME256V1);
    BitsOfTlv(point);
  }

  lemma InfoReads(host: seq<Byte>, point: seq<Byte>)
    requires |Info(host, point)| < 0x1_0000
    ensures Expect(SEQUENCE, Info(host, point)).Some? && Expect(SEQUENCE, Info(host, point)).value.1 == []
    ensures ReadInfo(Expect(SEQUENCE, Info(host, point)).value.0) == Some((host, point))
  {
    hide Tlv, ReadTlv, Expect, Only, Name, Spki, ReadName, ReadSpki;
    var version, attributes := Tlv(INTEGER, [0]), Tlv(ATTRIBUTES, []);
    var all := version + Name(host) + Spki(point) + attributes;
    TlvSize(INTEGER, [0]);
    TlvSize(ATTRIBUTES, []);
    TlvSize(SEQUENCE, all);
    ExpectTlv(SEQUENCE, all, []);
    assert Info(host, point) + [] == Info(host, point);
    Regroup(version + Name(host), Spki(point), attributes);
    Regroup(version, Name(host), Spki(point) + attributes);
    ExpectTlv(INTEGER, [0], Name(host) + (Spki(point) + attributes));
    NameReads(host);
    SpkiReads(point);
    Peel(SEQUENCE, Name(host), Spki(point) + attributes);
    Peel(SEQUENCE, Spki(point), attributes);
    OnlyTlv(ATTRIBUTES, []);
  }

  // Reading does not depend on what follows an element.
  lemma Peel(tag: Byte, element: seq<Byte>, rest: seq<Byte>)
    requires Expect(tag, element).Some? && Expect(tag, element).value.1 == []
    ensures Expect(tag, element + rest) == Some((Expect(tag, element).value.0, rest))
    ensures element == Tlv(tag, Expect(tag, element).value.0)
  {
    hide ReadTlv, Tlv;
    TlvOfReadTlv(element);
    var content := Expect(tag, element).value.0;
    assert element == Tlv(tag, content) + [] == Tlv(tag, content);
    ReadTlvOfTlv(tag, content, rest);
  }

  // A request whose content is under 65536 bytes, and no other, reads back as its host name,
  // key point, signed part and the two numbers of its signature.
  lemma CsrReadsBackIff(host: seq<Byte>, point: seq<Byte>, sig: seq<Byte>)
    requires |sig| == 64
    ensures var c := Content(host, point, sig);
      ReadCsr(Tlv(SEQUENCE, c)) == Some(Request(host, point, Info(host, point), Value(sig[..32]), Value(sig[32..])))
      <==> |c| < 0x1_0000
  {
    hide Tlv, ReadTlv, Only, Expect, Content, ReadInfo, ReadSignature;
    var c := Content(host, point, sig);
    OnlyTlv(SEQUENCE, c);
    if |c| < 0x1_0000 {
      ContentReads(host, point, sig);
    }
  }

  lemma ContentReads(host: seq<Byte>, point: seq<Byte>, sig: seq<Byte>)
    requires |sig| == 64 && |Content(host, point, sig)| < 0x1_0000
    ensures ReadCsr(Tlv(SEQUENCE, Content(host, point, sig)))
         == Some(Request(host, point, Info(host, point), Value(sig[..32]), Value(sig[32..])))
  {
    hide Tlv, ReadTlv, Only, Expect, Info, ReadInfo, Signature, ReadSignature, Bits;
    var c := Content(host, point, sig);
    var der := Signature(sig[..32], sig[32..]);
    var key := Tlv(BIT_STRING, [0] + der);
    OnlyTlv(SEQUENCE, c);
    InfoReads(host, point);
    Regroup(Info(host, point), SignatureAlgorithm(), key);
    Peel(SEQUENCE, Info(host, point), SignatureAlgorithm() + key);
    TlvSize(OID, ECDSA_SHA256);
    ExpectTlv(SEQUENCE, Tlv(OID, ECDSA_SHA256), key);
    OnlyTlv(OID, ECDSA_SHA256);
    assert c[..|c| - |SignatureAlgorithm() + key|] == Info(host, point);
    SignatureReads(sig[..32], sig[32..]);
    BitsOfTlv(der);
  }

  // Every host name and key point of at most 65000 bytes together fit.
  lemma OrdinaryRequestsFit(host: seq<Byte>, point: seq<Byte>, sig: seq<Byte>)
    requires |sig| == 64 && |host| + |point| <= 65000
    ensures |Content(host, point, sig)| < 0x1_0000
  {
    hide Tlv, Signature;
    var pair := Tlv(OID, COMMON_NAME) + Tlv(UTF8_STRING, host);
    TlvSize(OID, COMMON_NAME);
    TlvSize(UTF8_STRING, host);
    TlvSize(SEQUENCE, pair);
    TlvSize(SET, Tlv(SEQUENCE, pair));
    TlvSize(SEQUENCE, Tlv(SET, Tlv(SEQUENCE, pair)));
    TlvSize(OID, EC_PUBLIC_KEY);
    TlvSize(OID, PRIME256V1);
    TlvSize(SEQUENCE, Tlv(OID, EC_PUBLIC_KEY) + Tlv(OID, PRIME256V1));
    TlvSize(BIT_STRING, [0] + point);
    TlvSize(SEQUENCE, KeyAlgorithm() + Tlv(BIT_STRING, [0] + point));
    TlvSize(INTEGER, [0]);
    TlvSize(ATTRIBUTES, []);
    TlvSize(SEQUENCE, Tlv(INTEGER, [0]) + Name(host) + Spki(point) + Tlv(ATTRIBUTES, []));
    TlvSize(OID, ECDSA_SHA256);
    TlvSize(SEQUENCE, Tlv(OID, ECDSA_SHA256));
    SignatureReads(sig[..32], sig[32..]);
    TlvSize(BIT_STRING, [0] + Signature(sig[..32], sig[32..]));
  }
}
