// Bounded reassembly of datagram fragments (crates/aztna-common/src/udp_frag.rs).
//
// AcceptStep and SweepStep are what one call does to the slot table. The hash map's
// choice between equally old slots is not determined by its contents, so the slots to
// evict are parameters, constrained to be oldest by Legal.
module Reassembly {
  import opened Prelude
  import opened IntMaps
  import opened UdpFrag

  // got is keyed by fragment offset; bytes is the buffered payload; firstSeen orders eviction.
  datatype Slot = Slot(total: nat, got: map<int, seq<Byte>>, bytes: nat, firstSeen: nat)

  type Slots = map<U16, Slot>

  datatype Outcome = Complete(data: seq<Byte>) | Partial | Malformed | Evicted

  datatype Limits = Limits(maxSlots: nat, maxBytes: nat)

  // ---------- what a table holds ----------

  function Lengths(got: map<int, seq<Byte>>): map<int, nat> { map o | o in got :: |got[o]| }

  function SlotSizes(slots: Slots): map<int, nat> { map id | id in slots :: slots[id].bytes }

  // Total buffered bytes across slots.
  function Buffered(slots: Slots): nat { SumValues(SlotSizes(slots)) }

  // The concatenation of the chunks in offset order, if each starts where the last ended.
  function Assemble(got: map<int, seq<Byte>>, want: int): Option<seq<Byte>>
    decreases |got|
  {
    if got == map[] then Some([])
    else
      var o := MinKey(got.Keys);
      if o != want then None
      else
        SmallerMap(got, o);
        match Assemble(got - {o}, want + |got[o]|)
        case None => None
        case Some(rest) => Some(got[o] + rest)
  }

  // ---------- one call ----------

  ghost predicate IsOldest(slots: Slots, id: U16) {
    id in slots && forall j :: j in slots ==> slots[id].firstSeen <= slots[j].firstSeen
  }

  predicate OutOfBounds(f: Frame) {
    f.totalLen == 0 || f.totalLen > UDP_QUIC_MAX_DGRAM || f.fragOffset + |f.payload| > f.totalLen
  }

  // Slot pressure: a new datagram id, no free slot, and something to evict.
  predicate NeedsRoom(slots: Slots, lim: Limits, id: U16) {
    id !in slots && |slots| >= lim.maxSlots && slots != map[]
  }

  // The table after eviction under slot pressure and with a slot for the frame's datagram.
  function Opened(slots: Slots, lim: Limits, f: Frame, now: nat, victim: U16): (s: Slots)
    ensures f.dgramId in s
  {
    if f.dgramId in slots then slots
    else (if NeedsRoom(slots, lim, f.dgramId) then slots - {victim} else slots)
      [f.dgramId := Slot(f.totalLen, map[], 0, now)]
  }

  predicate OverGlobalCap(slots: Slots, lim: Limits, f: Frame) {
    Buffered(slots) + |f.payload| > SaturatingMul(lim.maxBytes, Max(1, lim.maxSlots))
  }

  // The per-slot byte cap.
  predicate FitsSlot(slots: Slots, lim: Limits, f: Frame)
    requires f.dgramId in slots
  {
    slots[f.dgramId].bytes + |f.payload| <= lim.maxBytes
  }

  // Storing a chunk at a new offset; global pressure drops the oldest other slot first.
  function Stored(slots: Slots, lim: Limits, f: Frame, victim: U16): (r: (Slots, bool))
    requires f.dgramId in slots
    ensures f.dgramId in r.0
  {
    var slot := slots[f.dgramId];
    if f.fragOffset in slot.got then (slots, false)
    else
      var evict := OverGlobalCap(slots, lim, f) && victim != f.dgramId;
      var room := if evict then slots - {victim} else slots;
      (room[f.dgramId := slot.(got := slot.got[f.fragOffset := f.payload], bytes := slot.bytes + |f.payload|)],
       evict)
  }

  function Finished(slot: Slot): Option<seq<Byte>> {
    match Assemble(slot.got, 0)
    case None => None
    case Some(data) => if |data| == slot.total then Some(data) else None
  }

  function AcceptStep(slots: Slots, lim: Limits, f: Frame, now: nat, v1: U16, v2: U16): (Slots, Outcome)
  {
    if OutOfBounds(f) then (slots, Malformed)
    else
      var ready := Opened(slots, lim, f, now, v1);
      if !FitsSlot(ready, lim, f) then (ready - {f.dgramId}, Malformed)
      else
        var (stored, evicted) := Stored(ready, lim, f, v2);
        var done := Finished(stored[f.dgramId]);
        (if done.Some? then stored - {f.dgramId} else stored,
         if evicted then Evicted else if done.Some? then Complete(done.value) else Partial)
  }

  // The victims a call may pick: an oldest slot at each of the two eviction points.
  ghost predicate Legal(slots: Slots, lim: Limits, f: Frame, now: nat, v1: U16, v2: U16) {
    && (NeedsRoom(slots, lim, f.dgramId) ==> IsOldest(slots, v1))
    && (FitsSlot(Opened(slots, lim, f, now, v1), lim, f) ==> IsOldest(Opened(slots, lim, f, now, v1), v2))
  }

  // Instants subtract with saturation at zero.
  predicate Expired(slot: Slot, now: nat, gap: nat) { now > slot.firstSeen && now - slot.firstSeen > gap }

  function SweepStep(slots: Slots, now: nat, gap: nat): Slots {
    map id | id in slots && !Expired(slots[id], now, gap) :: slots[id]
  }

  lemma RemovedCount(slots: Slots, dead: set<U16>)
    requires dead <= slots.Keys
    ensures |slots - dead| == |slots| - |dead|
  {
    assert (slots - dead).Keys == slots.Keys - dead;
    assert |(slots - dead).Keys| == |slots.Keys| - |dead|;
  }

  // ---------- the object ----------

  class Reassembler {
    var slots: Slots
    const lim: Limits

    constructor (maxSlots: nat, maxBytes: nat)
      ensures slots == map[] && lim == Limits(maxSlots, maxBytes)
    {
      slots := map[];
      lim := Limits(maxSlots, maxBytes);
    }

    method OldestId() returns (id: U16)
      requires slots != map[]
      ensures IsOldest(slots, id)
    {
      var rest := slots.Keys;
      id :| id in rest;
      rest := rest - {id};
      while rest != {}
        invariant rest <= slots.Keys && id in slots
        invariant forall j :: j in slots && j !in rest ==> slots[id].firstSeen <= slots[j].firstSeen
        decreases |rest|
      {
        var j :| j in rest;
        rest := rest - {j};
        if slots[j].firstSeen < slots[id].firstSeen {
          id := j;
        }
      }
    }

    method ReapOlder(now: nat, gap: nat) returns (count: nat)
      modifies this
      ensures slots == SweepStep(old(slots), now, gap)
      ensures count == |old(slots)| - |slots|
    {
      var dead := set id | id in slots && Expired(slots[id], now, gap);
      ghost var before := slots;
      count := |dead|;
      slots := slots - dead;
      RemovedCount(before, dead);
    }

    // Makes room under slot pressure and opens a slot for the frame's datagram.
    method Open(f: Frame, now: nat) returns (ghost victim: U16)
      modifies this
      ensures NeedsRoom(old(slots), lim, f.dgramId) ==> IsOldest(old(slots), victim)
      ensures slots == Opened(old(slots), lim, f, now, victim)
    {
      victim := f.dgramId;
      if f.dgramId !in slots && |slots| >= lim.maxSlots {
        if slots != map[] {
          var oldest := OldestId();
          victim := oldest;
          slots := slots - {oldest};
        }
      }
      if f.dgramId !in slots {
        slots := slots[f.dgramId := Slot(f.totalLen, map[], 0, now)];
      }
    }

    // Keeps the chunk unless its offset is already there.
    method Store(f: Frame) returns (evicted: bool, ghost victim: U16)
      requires f.dgramId in slots
      modifies this
      ensures IsOldest(old(slots), victim)
      ensures (slots, evicted) == Stored(old(slots), lim, f, victim)
    {
      var oldest := OldestId();
      victim := oldest;
      evicted := false;
      if f.fragOffset !in slots[f.dgramId].got {
        if OverGlobalCap(slots, lim, f) && oldest != f.dgramId {
          slots := slots - {oldest};
          evicted := true;
        }
        var slot := slots[f.dgramId];
        slots := slots[f.dgramId := slot.(got := slot.got[f.fragOffset := f.payload],
                                          bytes := slot.bytes + |f.payload|)];
      }
    }

    // Removes and returns the datagram if its chunks are contiguous and reach the total.
    method TakeFinished(id: U16) returns (data: Option<seq<Byte>>)
      requires id in slots
      modifies this
      ensures data == Finished(old(slots)[id])
      ensures slots == if data.Some? then old(slots) - {id} else old(slots)
    {
      var slot := slots[id];
      var contiguous, want := Contiguous(slot.got);
      if contiguous && want == slot.total {
        var bytes := Concatenated(slot.got);
        slots := slots - {id};
        return Some(bytes);
      }
      return None;
    }

    // Accept's new slot table and outcome are AcceptStep's, for some choice of oldest slots.
    method Accept(f: Frame, now: nat) returns (out: Outcome, ghost v1: U16, ghost v2: U16)
      modifies this
      ensures !OutOfBounds(f) ==> Legal(old(slots), lim, f, now, v1, v2)
      ensures (slots, out) == AcceptStep(old(slots), lim, f, now, v1, v2)
    {
      v1, v2 := f.dgramId, f.dgramId;
      if f.totalLen == 0 || f.totalLen > UDP_QUIC_MAX_DGRAM || f.fragOffset + |f.payload| > f.totalLen {
        return Malformed, v1, v2;
      }
      v1 := Open(f, now);
      if slots[f.dgramId].bytes + |f.payload| > lim.maxBytes {
        slots := slots - {f.dgramId};
        return Malformed, v1, v2;
      }
      var evicted;
      evicted, v2 := Store(f);
      var done := TakeFinished(f.dgramId);
      if done.Some? {
        return if evicted then Evicted else Complete(done.value), v1, v2;
      }
      return if evicted then Evicted else Partial, v1, v2;
    }
  }

  // The contiguity check of Accept: walk the chunks in offset order, stop at the first gap.
  method Contiguous(got: map<int, seq<Byte>>) returns (complete: bool, want: nat)
    ensures complete <==> Assemble(got, 0).Some?
    ensures complete ==> want == |Assemble(got, 0).value|
  {
    want, complete := 0, true;
    var rest := got;
    ghost var whole := Assemble(got, 0);
    while rest != map[]
      invariant complete ==> (Assemble(rest, want).Some? <==> whole.Some?)
      invariant complete && whole.Some? ==> want + |Assemble(rest, want).value| == |whole.value|
      invariant !complete ==> whole.None?
      decreases |rest|
    {
      var o := MinKey(rest.Keys);
      SmallerMap(rest, o);
      if o != want {
        complete := false;
        break;
      }
      want := want + |rest[o]|;
      rest := rest - {o};
    }
  }

  // The payload of a finished slot: its chunks appended in offset order.
  method Concatenated(got: map<int, seq<Byte>>) returns (data: seq<Byte>)
    requires Assemble(got, 0).Some?
    ensures data == Assemble(got, 0).value
  {
    data := [];
    var rest := got;
    ghost var want := 0;
    while rest != map[]
      invariant Assemble(rest, want).Some?
      invariant data + Assemble(rest, want).value == Assemble(got, 0).value
      decreases |rest|
    {
      var o := MinKey(rest.Keys);
      SmallerMap(rest, o);
      want := want + |rest[o]|;
      data := data + rest[o];
      rest := rest - {o};
    }
  }
}
