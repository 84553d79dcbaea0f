// The datagram frame codec and the fragmenter (crates/aztna-common/src/udp_frag.rs).
module UdpFrag {
  import opened Prelude

  const UDP_QUIC_MAX_DGRAM := 65_507
  const HDR := 10

  datatype Frame = Frame(
    sessionId: U32,
    dgramId: U16,
    fragOffset: U16,
    totalLen: U16,
    payload: seq<Byte>)

  function Be32(x: U32): seq<Byte> { Be16(x / 0x1_0000) + Be16(x % 0x1_0000) }

  // The wire layout: session id, datagram id, offset, total length, payload.
  function Wire(f: Frame): seq<Byte> {
    Be32(f.sessionId) + Be16(f.dgramId) + Be16(f.fragOffset) + Be16(f.totalLen) + f.payload
  }

  method Encode(buf: seq<Byte>, f: Frame) returns (out: seq<Byte>)
    ensures out == buf + Wire(f)
  {
    out := buf + Be32(f.sessionId);
    out := out + Be16(f.dgramId);
    out := out + Be16(f.fragOffset);
    out := out + Be16(f.totalLen);
    out := out + f.payload;
  }

  function Decode(b: seq<Byte>): (r: Option<Frame>)
    ensures r.None? <==> |b| < HDR
  {
    if |b| < HDR then None
    else
      Some(Frame(
             FromBe16(b[0], b[1]) * 0x1_0000 + FromBe16(b[2], b[3]),
             FromBe16(b[4], b[5]),
             FromBe16(b[6], b[7]),
             FromBe16(b[8], b[9]),
             b[HDR..]))
  }

  lemma DecodeWire(f: Frame)
    ensures Decode(Wire(f)) == Some(f)
  {
    var w := Wire(f);
    assert w[HDR..] == f.payload;
    assert w[0..4] == Be32(f.sessionId);
    assert w[0] == w[0..4][0] && w[1] == w[0..4][1] && w[2] == w[0..4][2] && w[3] == w[0..4][3];
  }

  // The ten header bytes, most significant first: four of session id, two each of datagram id,
  // offset and total length; then the payload.
  lemma WireLayout(f: Frame)
    ensures var w := Wire(f);
      |w| == 10 + |f.payload| && w[10..] == f.payload &&
      (w[0] as int) * 0x100_0000 + (w[1] as int) * 0x1_0000 + (w[2] as int) * 0x100 + w[3] == f.sessionId &&
      (w[4] as int) * 0x100 + w[5] == f.dgramId && (w[6] as int) * 0x100 + w[7] == f.fragOffset &&
      (w[8] as int) * 0x100 + w[9] == f.totalLen
  {
    var w := Wire(f);
    assert w[0..4] == Be32(f.sessionId);
    assert w[0] == w[0..4][0] && w[1] == w[0..4][1] && w[2] == w[0..4][2] && w[3] == w[0..4][3];
  }

  lemma WireDecode(b: seq<Byte>)
    requires |b| >= HDR
    ensures Wire(Decode(b).value) == b
  {
    hide Be16, FromBe16;
    var f := Decode(b).value;
    SessionBytes(b[0], b[1], b[2], b[3]);
    WordBytes(b[4], b[5]);
    WordBytes(b[6], b[7]);
    WordBytes(b[8], b[9]);
    assert Wire(f) == [b[0], b[1], b[2], b[3]] + [b[4], b[5]] + [b[6], b[7]] + [b[8], b[9]] + b[HDR..];
  }

  lemma SessionBytes(a: Byte, b: Byte, c: Byte, d: Byte)
    ensures Be32(FromBe16(a, b) * 0x1_0000 + FromBe16(c, d)) == [a, b, c, d]
  {
    Words32(FromBe16(a, b), FromBe16(c, d));
    WordBytes(a, b);
    WordBytes(c, d);
  }

  lemma WordBytes(hi: Byte, lo: Byte)
    ensures Be16(FromBe16(hi, lo)) == [hi, lo]
  {
  }

  lemma Words32(hi: U16, lo: U16)
    ensures Be32(hi * 0x1_0000 + lo) == Be16(hi) + Be16(lo)
  {
  }

  // The bytes of `data` that a fragment of `chunk` bytes starting at `off` carries.
  function Chunk(data: seq<Byte>, off: nat, chunk: nat): seq<Byte>
    requires off <= |data|
  {
    data[off..Min(off + chunk, |data|)]
  }

  predicate Aligned(o: nat, chunk: nat)
    requires chunk > 0
  {
    o % chunk == 0
  }

  // `f` is one fragment of `data` cut into pieces of `chunk` bytes.
  ghost predicate IsFragment(f: Frame, id: U16, data: seq<Byte>, chunk: nat)
    requires chunk > 0
  {
    && f.dgramId == id
    && f.totalLen == |data|
    && f.fragOffset < |data|
    && Aligned(f.fragOffset, chunk)
    && f.payload == Chunk(data, f.fragOffset, chunk)
  }

  // The offsets of all fragments of `data`.
  ghost function Offsets(data: seq<Byte>, chunk: nat): (s: set<int>)
    requires chunk > 0
  {
    set o | 0 <= o < |data| && Aligned(o, chunk)
  }

  // Where the k-th piece of `chunk` bytes starts.
  ghost function Start(k: nat, chunk: nat): nat {
    if k == 0 then 0 else Start(k - 1, chunk) + chunk
  }

  lemma {:induction false} StartIsProduct(k: nat, chunk: nat)
    ensures Start(k, chunk) == k * chunk
  {
    if k > 0 {
      StartIsProduct(k - 1, chunk);
      assert k * chunk == (k - 1) * chunk + chunk;
    }
  }

  // `frames` is `data` cut into consecutive pieces of `chunk` bytes: frame k carries the
  // k-th piece, and the pieces reach the end of the data.
  ghost predicate IsCut(frames: seq<seq<Byte>>, sid: U32, id: U16, data: seq<Byte>, chunk: nat) {
    && |data| <= 0xFFFF
    && Start(|frames|, chunk) >= |data|
    && forall k :: 0 <= k < |frames| ==> IsPiece(frames[k], k, sid, id, data, chunk)
  }

  ghost predicate IsPiece(w: seq<Byte>, k: nat, sid: U32, id: U16, data: seq<Byte>, chunk: nat) {
    && |data| <= 0xFFFF
    && Start(k, chunk) < |data|
    && |w| <= HDR + chunk
    && Decode(w) == Some(Frame(sid, id, Start(k, chunk), |data|, Chunk(data, Start(k, chunk), chunk)))
  }

  lemma NextPiece(w: seq<Byte>, k: nat, off: nat, sid: U32, id: U16, data: seq<Byte>, chunk: nat)
    requires |data| <= 0xFFFF && off == Start(k, chunk) < |data|
    requires w == [] + Wire(Frame(sid, id, off, |data|, Chunk(data, off, chunk)))
    ensures IsPiece(w, k, sid, id, data, chunk)
  {
    var f := Frame(sid, id, off, |data|, Chunk(data, off, chunk));
    assert w == Wire(f);
    DecodeWire(f);
  }

  // Splits one datagram into frames no longer than maxFrame, and refuses exactly the
  // inputs that the frame layout cannot express. Empty data yields no frame at all.
  method Fragment(sid: U32, id: U16, data: seq<Byte>, maxFrame: nat)
    returns (r: Option<seq<seq<Byte>>>)
    ensures r.None? <==> |data| > 0xFFFF || maxFrame <= HDR + 1
    ensures r.Some? ==> IsCut(r.value, sid, id, data, maxFrame - HDR)
    ensures r.Some? && data == [] ==> r.value == []
  {
    hide IsPiece, Wire;
    if |data| > 0xFFFF || maxFrame <= HDR + 1 {
      return None;
    }
    var chunk := maxFrame - HDR;
    var out: seq<seq<Byte>> := [];
    var off := 0;
    while off < |data|
      invariant 0 <= off <= |data|
      invariant off == Min(Start(|out|, chunk), |data|)
      invariant data == [] ==> out == []
      invariant forall k :: 0 <= k < |out| ==> IsPiece(out[k], k, sid, id, data, chunk)
    {
      var end := Min(off + chunk, |data|);
      var f := Encode([], Frame(sid, id, off, |data|, data[off..end]));
      NextPiece(f, |out|, off, sid, id, data, chunk);
      out := out + [f];
      off := end;
    }
    return Some(out);
  }

  // The frame that carries offset `o`, if the cut has one.
  ghost predicate Carries(frames: seq<seq<Byte>>, o: int) {
    exists k :: 0 <= k < |frames| && Decode(frames[k]).Some? && Decode(frames[k]).value.fragOffset == o
  }

  // A cut is exactly the fragments of the datagram: each frame is a fragment ...
  lemma PieceIsFragment(w: seq<Byte>, k: nat, sid: U32, id: U16, data: seq<Byte>, chunk: nat)
    requires chunk > 0 && IsPiece(w, k, sid, id, data, chunk)
    ensures IsFragment(Decode(w).value, id, data, chunk)
  {
    StartIsProduct(k, chunk);
    MultipleMod(k, chunk);
  }

  // ... and every offset is carried by one of them.
  lemma CutCarriesEveryOffset(frames: seq<seq<Byte>>, sid: U32, id: U16, data: seq<Byte>, chunk: nat, o: int)
    requires chunk > 0 && IsCut(frames, sid, id, data, chunk)
    requires o in Offsets(data, chunk)
    ensures Carries(frames, o)
  {
    var k := o / chunk;
    assert o == k * chunk;
    StartIsProduct(k, chunk);
    StartIsProduct(|frames|, chunk);
    MulMonotone(|frames|, k, chunk);
    assert IsPiece(frames[k], k, sid, id, data, chunk);
  }

  // Two cuts of different size are still slices of the same datagram.
  ghost predicate IsSlice(f: Frame, data: seq<Byte>) {
    && f.totalLen == |data|
    && f.fragOffset + |f.payload| <= |data|
    && f.payload == data[f.fragOffset..f.fragOffset + |f.payload|]
  }

  lemma FragmentIsSlice(f: Frame, id: U16, data: seq<Byte>, chunk: nat)
    requires chunk > 0 && IsFragment(f, id, data, chunk)
    ensures IsSlice(f, data)
  {
  }

  // ---------- sending ----------

  // What the connection does with one frame.
  datatype Sending = Sent | TooLarge | Lost

  // `w` carries a slice of the datagram for this session and id.
  ghost predicate CarriesSlice(w: seq<Byte>, sid: U32, id: U16, data: seq<Byte>) {
    Decode(w).Some? && Decode(w).value.sessionId == sid && Decode(w).value.dgramId == id &&
    IsSlice(Decode(w).value, data)
  }

  lemma PieceCarriesSlice(w: seq<Byte>, k: nat, sid: U32, id: U16, data: seq<Byte>, chunk: nat)
    requires chunk > 0 && IsPiece(w, k, sid, id, data, chunk)
    ensures CarriesSlice(w, sid, id, data)
  {
    PieceIsFragment(w, k, sid, id, data, chunk);
    FragmentIsSlice(Decode(w).value, id, data, chunk);
  }

  // The frames of a cut that went out before the k-th.
  function GoneOut(cut: seq<seq<Byte>>, first: nat -> Sending, k: nat): seq<seq<Byte>>
    requires k <= |cut|
  {
    if k == 0 then [] else GoneOut(cut, first, k - 1) + if first(k - 1) == Sent then [cut[k - 1]] else []
  }

  lemma NoneGone(first: nat -> Sending)
    ensures GoneOut([], first, 0) == [] && forall cut :: GoneOut(cut, first, 0) == []
  {
  }

  lemma OneGone(cut: seq<seq<Byte>>, first: nat -> Sending, k: nat)
    requires k < |cut|
    ensures GoneOut(cut, first, k + 1) ==
            if first(k) == Sent then GoneOut(cut, first, k) + [cut[k]] else GoneOut(cut, first, k)
  {
  }

  lemma {:induction false} NothingLost(cut: seq<seq<Byte>>, first: nat -> Sending, k: nat)
    requires k <= |cut|
    ensures (forall j :: 0 <= j < k ==> first(j) == Sent) ==> GoneOut(cut, first, k) == cut[..k]
  {
    if k > 0 {
      NothingLost(cut, first, k - 1);
      assert cut[..k] == cut[..k - 1] + [cut[k - 1]];
    }
  }

  // They are pieces of that cut, and lie before its k-th.
  lemma {:induction false} GoneOutPieces(
    cut: seq<seq<Byte>>, first: nat -> Sending, k: nat, sid: U32, id: U16, data: seq<Byte>, chunk: nat, i: nat)
    requires k <= |cut| && IsCut(cut, sid, id, data, chunk) && i < |GoneOut(cut, first, k)|
    ensures exists j :: 0 <= j < k && first(j) == Sent && GoneOut(cut, first, k)[i] == cut[j]
    ensures chunk > 0 ==> CarriesSlice(GoneOut(cut, first, k)[i], sid, id, data)
  {
    hide IsPiece, CarriesSlice;
    if i < |GoneOut(cut, first, k - 1)| {
      GoneOutPieces(cut, first, k - 1, sid, id, data, chunk, i);
    } else if chunk > 0 {
      PieceCarriesSlice(cut[k - 1], k - 1, sid, id, data, chunk);
    }
  }

  // Consecutive pieces of a cut from its start.
  ghost predicate StartsCut(frames: seq<seq<Byte>>, sid: U32, id: U16, data: seq<Byte>, chunk: nat) {
    forall k :: 0 <= k < |frames| ==> IsPiece(frames[k], k, sid, id, data, chunk)
  }

  // Sends a datagram. At the first frame found too large (the k-th) it cuts the datagram once
  // more, at the new maximum and under the same id; a frame lost on the first cut is not noticed.
  // What goes out is what the first cut got out before k, then a start of the second cut, all of
  // it if the call succeeds.
  method FragSend(sid: U32, id: U16, payload: seq<Byte>, max: nat, first: nat -> Sending,
                  max2: nat, second: nat -> Sending)
    returns (ok: bool, sent: seq<seq<Byte>>, ghost cut: seq<seq<Byte>>, ghost k: nat, ghost again: seq<seq<Byte>>)
    ensures |payload| > 0xFFFF || max <= HDR + 1 ==> !ok && sent == []
    ensures |payload| <= 0xFFFF && max > HDR + 1 ==>
              && IsCut(cut, sid, id, payload, max - HDR)
              && k <= |cut| && (forall j :: 0 <= j < k ==> first(j) != TooLarge)
              && sent == GoneOut(cut, first, k) + again
              && (k == |cut| ==> ok && again == [])
              && (k < |cut| ==> first(k) == TooLarge)
              && (k < |cut| && ok ==> max2 > HDR + 1 && IsCut(again, sid, id, payload, max2 - HDR))
              && (again != [] ==> max2 > HDR + 1 && StartsCut(again, sid, id, payload, max2 - HDR))
    ensures |payload| <= 0xFFFF && max > HDR + 1 && (forall j :: first(j) == Sent) ==>
              ok && IsCut(sent, sid, id, payload, max - HDR)
    ensures k < |cut| && max2 > HDR + 1 && (forall j :: second(j) == Sent) ==> ok
    ensures forall i :: 0 <= i < |sent| ==> CarriesSlice(sent[i], sid, id, payload)
  {
    hide IsPiece, CarriesSlice, GoneOut;
    sent, cut, k, again := [], [], 0, [];
    NoneGone(first);
    var frames := Fragment(sid, id, payload, max);
    if frames.None? { return false, sent, cut, k, again; }
    cut := frames.value;
    var j := 0;
    while j < |frames.value|
      invariant 0 <= j <= |frames.value| && k == j
      invariant sent == GoneOut(cut, first, j)
      invariant forall i :: 0 <= i < j ==> first(i) != TooLarge
    {
      OneGone(cut, first, j);
      if first(j) == TooLarge {
        var rest;
        ok, rest := Resend(sid, id, payload, max2, second);
        again := rest;
        AllCarrySlices(cut, first, k, again, sid, id, payload, max - HDR, max2);
        assert first(j) != Sent;
        return ok, sent + rest, cut, k, again;
      }
      if first(j) == Sent {
        sent := sent + [frames.value[j]];
      }
      j := j + 1;
      k := j;
    }
    AllCarrySlices(cut, first, k, [], sid, id, payload, max - HDR, max2);
    NothingLost(cut, first, k);
    assert sent + [] == sent && cut[..k] == cut;
    return true, sent, cut, k, [];
  }

  lemma AllCarrySlices(cut: seq<seq<Byte>>, first: nat -> Sending, k: nat, again: seq<seq<Byte>>,
                       sid: U32, id: U16, data: seq<Byte>, chunk: nat, max2: nat)
    requires chunk > 0 && k <= |cut| && IsCut(cut, sid, id, data, chunk)
    requires again != [] ==> max2 > HDR + 1 && StartsCut(again, sid, id, data, max2 - HDR)
    ensures var sent := GoneOut(cut, first, k) + again;
      forall i :: 0 <= i < |sent| ==> CarriesSlice(sent[i], sid, id, data)
  {
    hide IsPiece, CarriesSlice;
    var gone := GoneOut(cut, first, k);
    var sent := gone + again;
    forall i | 0 <= i < |sent|
      ensures CarriesSlice(sent[i], sid, id, data)
    {
      if i < |gone| {
        GoneOutPieces(cut, first, k, sid, id, data, chunk, i);
      } else {
        PieceCarriesSlice(again[i - |gone|], i - |gone|, sid, id, data, max2 - HDR);
      }
    }
  }

  // The second attempt stops at the first frame that does not go out.
  method Resend(sid: U32, id: U16, payload: seq<Byte>, max: nat, second: nat -> Sending)
    returns (ok: bool, sent: seq<seq<Byte>>)
    ensures sent != [] ==> max > HDR + 1 && StartsCut(sent, sid, id, payload, max - HDR)
    ensures ok ==> |payload| <= 0xFFFF && max > HDR + 1 && IsCut(sent, sid, id, payload, max - HDR)
    ensures |payload| <= 0xFFFF && max > HDR + 1 && (forall k :: second(k) == Sent) ==> ok
  {
    hide IsPiece;
    sent := [];
    var frames := Fragment(sid, id, payload, max);
    if frames.None? { return false, sent; }
    var k := 0;
    while k < |frames.value|
      invariant 0 <= k <= |frames.value| && sent == frames.value[..k]
    {
      if second(k) != Sent { return false, sent; }
      sent := sent + [frames.value[k]];
      k := k + 1;
    }
    assert frames.value[..k] == frames.value;
    return true, sent;
  }
}
