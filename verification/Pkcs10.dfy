// A strict reader for certification requests with P-256 keys (section 4 of RFC 2986, RFC 5480,
// RFC 5758): it has its own tags and object identifiers and shares none with the builder.
module Pkcs10 {
  import opened Prelude
  import Der

  // 1.2.840.10045.2.1, 1.2.840.10045.3.1.7, 1.2.840.10045.4.3.2 and 2.5.4.3
  const PUBLIC_KEY: seq<Byte> := [42, 134, 72, 206, 61, 2, 1]
  const P256: seq<Byte> := [42, 134, 72, 206, 61, 3, 1, 7]
  const ECDSA_WITH_SHA256: seq<Byte> := [42, 134, 72, 206, 61, 4, 3, 2]
  const COMMON_NAME_TYPE: seq<Byte> := [85, 4, 3]

  // One element with the given tag at the front.
  function Expect(tag: Byte, b: seq<Byte>): Option<(seq<Byte>, seq<Byte>)> {
    match Der.ReadTlv(b)
    case None => None
    case Some((t, content, rest)) => if t == tag then Some((content, rest)) else None
  }

  // An element that fills the input.
  function Only(tag: Byte, b: seq<Byte>): Option<seq<Byte>> {
    match Expect(tag, b)
    case None => None
    case Some((content, rest)) => if rest == [] then Some(content) else None
  }

  // A bit string of whole bytes.
  function Bits(b: seq<Byte>): Option<seq<Byte>> {
    match Only(3, b)
    case None => None
    case Some(c) => if c != [] && c[0] == 0 then Some(c[1..]) else None
  }

  function ReadUint(b: seq<Byte>): Option<(nat, seq<Byte>)> {
    match Expect(2, b)
    case None => None
    case Some((c, rest)) => if Der.IsUint(c) then Some((Der.Value(c), rest)) else None
  }

  function ReadSignature(b: seq<Byte>): Option<(nat, nat)> {
    match Only(48, b)
    case None => None
    case Some(c) =>
      match ReadUint(c)
      case None => None
      case Some((r, rest)) =>
        match ReadUint(rest)
        case None => None
        case Some((s, tail)) => if tail == [] then Some((r, s)) else None
  }

  function ReadName(b: seq<Byte>): Option<seq<Byte>> {
    match Only(49, b)
    case None => None
    case Some(rdn) =>
      match Only(48, rdn)
      case None => None
      case Some(pair) =>
        match Expect(6, pair)
        case None => None
        case Some((oid, value)) => if oid == COMMON_NAME_TYPE then Only(12, value) else None
  }

  // An elliptic-curve key on P-256.
  predicate IsKeyAlgorithm(b: seq<Byte>) {
    match Expect(6, b)
    case None => false
    case Some((oid, curve)) => oid == PUBLIC_KEY && Only(6, curve) == Some(P256)
  }

  function ReadSpki(b: seq<Byte>): Option<seq<Byte>> {
    match Expect(48, b)
    case None => None
    case Some((alg, key)) => if IsKeyAlgorithm(alg) then Bits(key) else None
  }

  // The subject and the public key, of a request of version 1 without attributes.
  function ReadInfo(b: seq<Byte>): Option<(seq<Byte>, seq<Byte>)> {
    match Expect(2, b)
    case None => None
    case Some((version, afterVersion)) =>
      match Expect(48, afterVersion)
      case None => None
      case Some((name, afterName)) =>
        match Expect(48, afterName)
        case None => None
        case Some((spki, attributes)) =>
          if version != [0] || Only(160, attributes) != Some([]) then None
          else
            match (ReadName(name), ReadSpki(spki))
            case (Some(host), Some(point)) => Some((host, point))
            case _ => None
  }

  // `signed` is the whole element the signature is over.
  datatype Request = Request(host: seq<Byte>, point: seq<Byte>, signed: seq<Byte>, r: nat, s: nat)

  function ReadCsr(b: seq<Byte>): Option<Request> {
    match Only(48, b)
    case None => None
    case Some(c) =>
      match Expect(48, c)
      case None => None
      case Some((info, afterInfo)) =>
        match Expect(48, afterInfo)
        case None => None
        case Some((alg, key)) =>
          if Only(6, alg) != Some(ECDSA_WITH_SHA256) || Bits(key).None? then None
          else
            match (ReadInfo(info), ReadSignature(Bits(key).value))
            case (Some(subject), Some(rs)) =>
              Some(Request(subject.0, subject.1, c[..|c| - |afterInfo|], rs.0, rs.1))
            case _ => None
  }
}
