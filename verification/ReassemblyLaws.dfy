// What every run of a reassembler keeps, and when it delivers a datagram.
module ReassemblyLaws {
  import opened Prelude
  import opened IntMaps
  import opened UdpFrag
  import opened Reassembly

  // One call on a reassembler, with the victims it picked.
  datatype Event =
    | Arrive(f: Frame, now: nat, v1: U16, v2: U16)
    | Sweep(now: nat, gap: nat)

  ghost predicate LegalEvent(slots: Slots, lim: Limits, e: Event) {
    e.Arrive? && !OutOfBounds(e.f) ==> Legal(slots, lim, e.f, e.now, e.v1, e.v2)
  }

  function Next(slots: Slots, lim: Limits, e: Event): Slots {
    match e
    case Arrive(f, now, v1, v2) => AcceptStep(slots, lim, f, now, v1, v2).0
    case Sweep(now, gap) => SweepStep(slots, now, gap)
  }

  function Reply(slots: Slots, lim: Limits, e: Event): Outcome
    requires e.Arrive?
  {
    AcceptStep(slots, lim, e.f, e.now, e.v1, e.v2).1
  }

  // The table before the k-th event of a run.
  function StateAt(slots: Slots, lim: Limits, run: seq<Event>, k: nat): Slots
    requires k <= |run|
  {
    if k == 0 then slots else Next(StateAt(slots, lim, run, k - 1), lim, run[k - 1])
  }

  // The first k calls of the run each evict only oldest slots.
  ghost predicate LegalRun(slots: Slots, lim: Limits, run: seq<Event>, k: nat)
    requires k <= |run|
  {
    k == 0 || (LegalRun(slots, lim, run, k - 1) && LegalEvent(StateAt(slots, lim, run, k - 1), lim, run[k - 1]))
  }

  // ---------- resources ----------

  ghost predicate ValidSlot(slot: Slot, lim: Limits) {
    && 1 <= slot.total <= UDP_QUIC_MAX_DGRAM
    && slot.bytes == SumValues(Lengths(slot.got)) <= lim.maxBytes
    && forall o :: o in slot.got ==> 0 <= o <= UDP_QUIC_MAX_DGRAM && |slot.got[o]| <= UDP_QUIC_MAX_DGRAM
  }

  ghost predicate ValidTable(slots: Slots, lim: Limits) {
    && |slots| <= Max(1, lim.maxSlots)
    && forall id :: id in slots ==> ValidSlot(slots[id], lim)
  }

  lemma OpenedCount(slots: Slots, lim: Limits, f: Frame, now: nat, v1: U16)
    requires |slots| <= Max(1, lim.maxSlots)
    requires NeedsRoom(slots, lim, f.dgramId) ==> v1 in slots
    ensures |Opened(slots, lim, f, now, v1)| <= Max(1, lim.maxSlots)
  {
    if f.dgramId !in slots {
      var room := if NeedsRoom(slots, lim, f.dgramId) then slots.Keys - {v1} else slots.Keys;
      assert Opened(slots, lim, f, now, v1).Keys == room + {f.dgramId};
      assert |room + {f.dgramId}| == |room| + 1;
    }
  }

  lemma OpenedValid(slots: Slots, lim: Limits, f: Frame, now: nat, v1: U16)
    requires ValidTable(slots, lim) && !OutOfBounds(f)
    requires NeedsRoom(slots, lim, f.dgramId) ==> IsOldest(slots, v1)
    ensures ValidTable(Opened(slots, lim, f, now, v1), lim)
  {
    OpenedCount(slots, lim, f, now, v1);
    assert Lengths(map[]) == map[];
    var ready := Opened(slots, lim, f, now, v1);
    forall id | id in ready ensures ValidSlot(ready[id], lim) {
      assert id == f.dgramId || id in slots;
    }
  }

  lemma LengthsInsert(got: map<int, seq<Byte>>, o: int, chunk: seq<Byte>)
    requires o !in got
    ensures SumValues(Lengths(got[o := chunk])) == SumValues(Lengths(got)) + |chunk|
  {
    var lens := Lengths(got[o := chunk]);
    SumRemove(lens, o);
    assert lens - {o} == Lengths(got);
  }

  // No slot can hold more than this, whatever the configured byte cap.
  const SLOT_CEILING := (UDP_QUIC_MAX_DGRAM + 1) * UDP_QUIC_MAX_DGRAM

  lemma SlotCeiling(slot: Slot, lim: Limits)
    requires ValidSlot(slot, lim)
    ensures slot.bytes <= SLOT_CEILING && slot.bytes <= lim.maxBytes
  {
    var lens := Lengths(slot.got);
    SumBound(lens, UDP_QUIC_MAX_DGRAM);
    RangeCardinality(lens.Keys, UDP_QUIC_MAX_DGRAM + 1);
    MulMonotone(|lens|, UDP_QUIC_MAX_DGRAM + 1, UDP_QUIC_MAX_DGRAM);
  }

  // The buffered total is at most `bound` per slot, and there are at most 2^16 ids.
  lemma BufferedBound(slots: Slots, bound: nat)
    requires forall id :: id in slots ==> slots[id].bytes <= bound
    ensures Buffered(slots) <= |slots| * bound
    ensures |slots| <= 0x1_0000
  {
    var sizes := SlotSizes(slots);
    SumBound(sizes, bound);
    assert sizes.Keys == slots.Keys;
    RangeCardinality(sizes.Keys, 0x1_0000);
  }

  // Replacing one slot's contribution.
  lemma BufferedWithout(slots: Slots, id: U16)
    requires id in slots
    ensures Buffered(slots) == slots[id].bytes + Buffered(slots - {id})
  {
    SumRemove(SlotSizes(slots), id);
    assert SlotSizes(slots) - {id} == SlotSizes(slots - {id});
  }

  // Under the two per-slot checks the global cap can never be exceeded.
  lemma NeverOverGlobalCap(slots: Slots, lim: Limits, f: Frame)
    requires ValidTable(slots, lim) && f.dgramId in slots && FitsSlot(slots, lim, f)
    requires |f.payload| <= UDP_QUIC_MAX_DGRAM
    ensures !OverGlobalCap(slots, lim, f)
  {
    hide Buffered, ValidSlot;
    var id := f.dgramId;
    var others := slots - {id};
    BufferedWithout(slots, id);
    assert others.Keys == slots.Keys - {id};
    assert |others.Keys| == |slots.Keys| - 1;
    forall j | j in slots ensures slots[j].bytes <= SLOT_CEILING && slots[j].bytes <= lim.maxBytes {
      SlotCeiling(slots[j], lim);
    }
    BufferedBound(others, lim.maxBytes);
    BufferedBound(others, SLOT_CEILING);
    CapArithmetic(Buffered(others), |others|, slots[id].bytes, |f.payload|, lim);
  }

  // Room in every other slot, and in this one, is room under the global cap.
  lemma CapArithmetic(others: nat, count: nat, bytes: nat, payload: nat, lim: Limits)
    requires others <= count * lim.maxBytes && others <= count * SLOT_CEILING
    requires count + 1 <= Max(1, lim.maxSlots) && count <= 0x1_0000
    requires bytes + payload <= lim.maxBytes && bytes <= SLOT_CEILING && payload <= UDP_QUIC_MAX_DGRAM
    ensures bytes + others + payload <= SaturatingMul(lim.maxBytes, Max(1, lim.maxSlots))
  {
    var m := Max(1, lim.maxSlots);
    MulMonotone(count, m - 1, lim.maxBytes);
    assert (m - 1) * lim.maxBytes + lim.maxBytes == lim.maxBytes * m;
    MulMonotone(count, 0x1_0000, SLOT_CEILING);
  }

  lemma StoredValid(slots: Slots, lim: Limits, f: Frame, v2: U16)
    requires ValidTable(slots, lim) && f.dgramId in slots && FitsSlot(slots, lim, f) && !OutOfBounds(f)
    ensures ValidTable(Stored(slots, lim, f, v2).0, lim)
    ensures !Stored(slots, lim, f, v2).1
  {
    hide OverGlobalCap, SumValues, Lengths;
    NeverOverGlobalCap(slots, lim, f);
    var slot := slots[f.dgramId];
    if f.fragOffset !in slot.got {
      LengthsInsert(slot.got, f.fragOffset, f.payload);
      assert Stored(slots, lim, f, v2).0.Keys == slots.Keys;
    }
  }

  lemma WithoutValid(slots: Slots, lim: Limits, gone: set<U16>)
    requires ValidTable(slots, lim)
    ensures ValidTable(slots - gone, lim)
  {
    assert (slots - gone).Keys <= slots.Keys;
    SubsetCardinality((slots - gone).Keys, slots.Keys);
  }

  lemma SweepValid(slots: Slots, lim: Limits, now: nat, gap: nat)
    requires ValidTable(slots, lim)
    ensures ValidTable(SweepStep(slots, now, gap), lim)
  {
    var gone := set id | id in slots && Expired(slots[id], now, gap);
    assert SweepStep(slots, now, gap) == slots - gone;
    WithoutValid(slots, lim, gone);
  }

  lemma AcceptValid(slots: Slots, lim: Limits, f: Frame, now: nat, v1: U16, v2: U16)
    requires ValidTable(slots, lim) && (!OutOfBounds(f) ==> Legal(slots, lim, f, now, v1, v2))
    ensures ValidTable(AcceptStep(slots, lim, f, now, v1, v2).0, lim)
    ensures AcceptStep(slots, lim, f, now, v1, v2).1 != Evicted
  {
    if !OutOfBounds(f) {
      var ready := Opened(slots, lim, f, now, v1);
      OpenedValid(slots, lim, f, now, v1);
      WithoutValid(ready, lim, {f.dgramId});
      if FitsSlot(ready, lim, f) {
        StoredValid(ready, lim, f, v2);
        WithoutValid(Stored(ready, lim, f, v2).0, lim, {f.dgramId});
      }
    }
  }

  lemma StepValid(slots: Slots, lim: Limits, e: Event)
    requires ValidTable(slots, lim) && LegalEvent(slots, lim, e)
    ensures ValidTable(Next(slots, lim, e), lim)
    ensures e.Arrive? ==> Reply(slots, lim, e) != Evicted
  {
    match e
    case Sweep(now, gap) => SweepValid(slots, lim, now, gap);
    case Arrive(f, now, v1, v2) => AcceptValid(slots, lim, f, now, v1, v2);
  }

  // Over every run: the slot count and every slot stay within their caps, and each
  // slot's byte counter is the sum of its chunks ...
  lemma {:induction false} ResourceBounds(slots: Slots, lim: Limits, run: seq<Event>, k: nat)
    requires k <= |run| && ValidTable(slots, lim) && LegalRun(slots, lim, run, k)
    ensures ValidTable(StateAt(slots, lim, run, k), lim)
  {
    if k > 0 {
      var before := StateAt(slots, lim, run, k - 1);
      ResourceBounds(slots, lim, run, k - 1);
      assert LegalEvent(before, lim, run[k - 1]);
      StepValid(before, lim, run[k - 1]);
    }
  }

  // ... so the global-pressure branch is dead and Evicted is never returned.
  lemma EvictedNeverReturned(slots: Slots, lim: Limits, run: seq<Event>, k: nat)
    requires k < |run| && ValidTable(slots, lim) && LegalRun(slots, lim, run, k + 1) && run[k].Arrive?
    ensures Reply(StateAt(slots, lim, run, k), lim, run[k]) != Evicted
  {
    ResourceBounds(slots, lim, run, k);
    var before := StateAt(slots, lim, run, k);
    assert LegalEvent(before, lim, run[k]);
    StepValid(before, lim, run[k]);
  }

  // The memory a run from an empty table can hold.
  lemma BufferedWithinCap(lim: Limits, run: seq<Event>, k: nat)
    requires k <= |run| && LegalRun(map[], lim, run, k)
    ensures Buffered(StateAt(map[], lim, run, k)) <= lim.maxBytes * Max(1, lim.maxSlots)
  {
    ResourceBounds(map[], lim, run, k);
    var slots := StateAt(map[], lim, run, k);
    BufferedBound(slots, lim.maxBytes);
    MulMonotone(|slots|, Max(1, lim.maxSlots), lim.maxBytes);
  }

  // ---------- soundness ----------

  // Every chunk buffered for `id` is a slice of `data`, at its offset.
  ghost predicate HoldsSlices(slots: Slots, id: U16, data: seq<Byte>) {
    id in slots ==> slots[id].total == |data| && AllSlices(slots[id].got, data)
  }

  ghost predicate AllSlices(got: map<int, seq<Byte>>, data: seq<Byte>) {
    forall o :: o in got ==>
      0 <= o && o + |got[o]| <= |data| && got[o] == data[o..o + |got[o]|]
  }

  lemma {:induction false} AssembledSlices(got: map<int, seq<Byte>>, want: nat, data: seq<Byte>)
    requires AllSlices(got, data) && want <= |data| && Assemble(got, want).Some?
    ensures want + |Assemble(got, want).value| <= |data|
    ensures Assemble(got, want).value == data[want..want + |Assemble(got, want).value|]
    decreases |got|
  {
    hide Assemble;
    NothingToAssemble(want);
    if got != map[] {
      AssembleOne(got, want);
      AssembledSlices(got - {want}, want + |got[want]|, data);
      var rest := Assemble(got - {want}, want + |got[want]|).value;
      assert got[want] + rest == data[want..want + |got[want]| + |rest|];
    }
  }

  lemma NothingToAssemble(want: int)
    ensures Assemble(map[], want) == Some([])
  {
  }

  // The first step of a walk that finds no gap.
  lemma AssembleOne(got: map<int, seq<Byte>>, want: int)
    requires got != map[] && Assemble(got, want).Some?
    ensures want in got && |got - {want}| < |got|
    ensures var rest := Assemble(got - {want}, want + |got[want]|);
      rest.Some? && Assemble(got, want).value == got[want] + rest.value
  {
    SmallerMap(got, MinKey(got.Keys));
  }

  lemma FinishedSlices(slot: Slot, data: seq<Byte>)
    requires slot.total == |data| && AllSlices(slot.got, data)
    ensures Finished(slot).Some? ==> Finished(slot).value == data
  {
    if Assemble(slot.got, 0).Some? {
      AssembledSlices(slot.got, 0, data);
    }
  }

  lemma AcceptSlices(slots: Slots, lim: Limits, f: Frame, now: nat, v1: U16, v2: U16, id: U16, data: seq<Byte>)
    requires HoldsSlices(slots, id, data)
    requires f.dgramId == id ==> IsSlice(f, data)
    ensures HoldsSlices(AcceptStep(slots, lim, f, now, v1, v2).0, id, data)
    ensures f.dgramId == id && AcceptStep(slots, lim, f, now, v1, v2).1.Complete? ==>
              AcceptStep(slots, lim, f, now, v1, v2).1.data == data
  {
    if !OutOfBounds(f) {
      var ready := Opened(slots, lim, f, now, v1);
      assert HoldsSlices(ready, id, data);
      if FitsSlot(ready, lim, f) {
        var stored := Stored(ready, lim, f, v2).0;
        assert HoldsSlices(stored, id, data);
        if f.dgramId == id {
          FinishedSlices(stored[id], data);
        }
      }
    }
  }

  // While every frame arriving for an id is a slice of one datagram - whatever the mix of
  // fragment sizes, repeats and overlaps - the buffered chunks are slices of it ...
  lemma {:induction false} SlicesKept(slots: Slots, lim: Limits, run: seq<Event>, k: nat, id: U16, data: seq<Byte>)
    requires HoldsSlices(slots, id, data) && k <= |run|
    requires forall j :: 0 <= j < |run| && run[j].Arrive? && run[j].f.dgramId == id ==> IsSlice(run[j].f, data)
    ensures HoldsSlices(StateAt(slots, lim, run, k), id, data)
  {
    if k > 0 {
      SlicesKept(slots, lim, run, k - 1, id, data);
      var before := StateAt(slots, lim, run, k - 1);
      match run[k - 1]
      case Sweep(now, gap) =>
      case Arrive(f, now, v1, v2) => AcceptSlices(before, lim, f, now, v1, v2, id, data);
    }
  }

  // ... and any datagram completed for that id is that datagram, never a truncated or
  // spliced one.
  lemma CompletedIsOriginal(slots: Slots, lim: Limits, run: seq<Event>, k: nat, id: U16, data: seq<Byte>)
    requires HoldsSlices(slots, id, data) && k < |run|
    requires forall j :: 0 <= j < |run| && run[j].Arrive? && run[j].f.dgramId == id ==> IsSlice(run[j].f, data)
    requires run[k].Arrive? && run[k].f.dgramId == id
    ensures var reply := Reply(StateAt(slots, lim, run, k), lim, run[k]);
            reply.Complete? ==> reply.data == data
  {
    SlicesKept(slots, lim, run, k, id, data);
    var e := run[k];
    AcceptSlices(StateAt(slots, lim, run, k), lim, e.f, e.now, e.v1, e.v2, id, data);
  }

  // ---------- slots that can never finish ----------

  // A chunk reaching past the start of a later one, or an empty chunk short of the end.
  ghost predicate Stuck(slot: Slot) {
    || (exists a, b :: a in slot.got && b in slot.got && a < b < a + |slot.got[a]|)
    || (exists a :: a in slot.got && slot.got[a] == [] && a != slot.total)
  }

  lemma {:induction false} OverlapNeverAssembles(got: map<int, seq<Byte>>, want: int, a: int, b: int)
    requires a in got && b in got && a < b < a + |got[a]|
    ensures Assemble(got, want).None?
    decreases |got|
  {
    var o := MinKey(got.Keys);
    SmallerMap(got, o);
    var rest := got - {o};
    if o == a {
      assert b in rest.Keys;
      assert MinKey(rest.Keys) <= b;
    } else {
      OverlapNeverAssembles(rest, want + |got[o]|, a, b);
    }
  }

  lemma AssemblyStartsAt(got: map<int, seq<Byte>>, want: int)
    ensures Assemble(got, want).Some? && got != map[] ==> want in got
  {
  }

  lemma {:induction false} EmptyChunkEndsAssembly(got: map<int, seq<Byte>>, want: int, a: int)
    requires a in got && got[a] == [] && Assemble(got, want).Some?
    ensures want + |Assemble(got, want).value| == a
    decreases |got|
  {
    var o := MinKey(got.Keys);
    SmallerMap(got, o);
    var rest := got - {o};
    if o == a {
      AssemblyStartsAt(rest, want);
    } else {
      EmptyChunkEndsAssembly(rest, want + |got[o]|, a);
    }
  }

  lemma StuckNeverFinishes(slot: Slot)
    requires Stuck(slot)
    ensures Finished(slot).None?
  {
    if a, b :| a in slot.got && b in slot.got && a < b < a + |slot.got[a]| {
      OverlapNeverAssembles(slot.got, 0, a, b);
    } else {
      var a :| a in slot.got && slot.got[a] == [] && a != slot.total;
      if Assemble(slot.got, 0).Some? {
        EmptyChunkEndsAssembly(slot.got, 0, a);
      }
    }
  }

  lemma StuckGrows(slot: Slot, o: int, chunk: seq<Byte>, bytes: nat)
    requires Stuck(slot) && o !in slot.got
    ensures Stuck(slot.(got := slot.got[o := chunk], bytes := bytes))
  {
    var grown := slot.(got := slot.got[o := chunk], bytes := bytes);
    if a, b :| a in slot.got && b in slot.got && a < b < a + |slot.got[a]| {
      assert a in grown.got && b in grown.got && a < b < a + |grown.got[a]|;
    } else {
      var a :| a in slot.got && slot.got[a] == [] && a != slot.total;
      assert a in grown.got && grown.got[a] == [] && a != grown.total;
    }
  }

  // A stuck slot stays stuck until it is dropped: no later frame, however complete the
  // datagram's fragments become, makes it deliver.
  lemma AcceptStuck(slots: Slots, lim: Limits, f: Frame, now: nat, v1: U16, v2: U16, id: U16)
    requires id in slots && Stuck(slots[id])
    ensures id in AcceptStep(slots, lim, f, now, v1, v2).0 ==> Stuck(AcceptStep(slots, lim, f, now, v1, v2).0[id])
    ensures f.dgramId == id ==> !AcceptStep(slots, lim, f, now, v1, v2).1.Complete?
  {
    if f.dgramId == id && !OutOfBounds(f) && FitsSlot(slots, lim, f) {
      var slot := slots[id];
      if f.fragOffset !in slot.got {
        StuckGrows(slot, f.fragOffset, f.payload, slot.bytes + |f.payload|);
      }
      StuckNeverFinishes(Stored(slots, lim, f, v2).0[id]);
    }
  }

  lemma {:induction false} StuckUntilDropped(
    slots: Slots, lim: Limits, run: seq<Event>, first: nat, k: nat, id: U16)
    requires first <= k <= |run|
    requires forall j :: first <= j <= k ==> id in StateAt(slots, lim, run, j)
    requires Stuck(StateAt(slots, lim, run, first)[id])
    ensures Stuck(StateAt(slots, lim, run, k)[id])
    ensures k < |run| && run[k].Arrive? && run[k].f.dgramId == id ==>
              !Reply(StateAt(slots, lim, run, k), lim, run[k]).Complete?
    decreases k
  {
    if k > first {
      StuckUntilDropped(slots, lim, run, first, k - 1, id);
      var before := StateAt(slots, lim, run, k - 1);
      match run[k - 1]
      case Sweep(now, gap) =>
      case Arrive(f, now, v1, v2) => AcceptStuck(before, lim, f, now, v1, v2, id);
    }
    if k < |run| && run[k].Arrive? {
      var e := run[k];
      AcceptStuck(StateAt(slots, lim, run, k), lim, e.f, e.now, e.v1, e.v2, id);
    }
  }

  // Re-fragmenting mid-send at a smaller size loses the datagram: once the first piece at
  // the old size is buffered, the second piece at the new size sticks the slot, so no
  // later frame completes the datagram while the slot lives.
  lemma ShrinkingMidSendNeverDelivers(
    slots: Slots, lim: Limits, run: seq<Event>, k: nat, id: U16, data: seq<Byte>, large: nat, small: nat)
    requires 0 < small < large < |data| <= UDP_QUIC_MAX_DGRAM
    requires id in slots && 0 in slots[id].got && slots[id].got[0] == Chunk(data, 0, large)
    requires 0 < k < |run| && run[0].Arrive? && IsFragment(run[0].f, id, data, small) && run[0].f.fragOffset == small
    requires forall j :: 0 <= j <= k ==> id in StateAt(slots, lim, run, j)
    requires run[k].Arrive? && run[k].f.dgramId == id
    ensures !Reply(StateAt(slots, lim, run, k), lim, run[k]).Complete?
  {
    var after := StateAt(slots, lim, run, 1);
    assert StateAt(slots, lim, run, 0) == slots;
    assert id in after;
    assert 0 in after[id].got && small in after[id].got && 0 < small < 0 + |after[id].got[0]|;
    StuckUntilDropped(slots, lim, run, 1, k, id);
  }

  // ---------- delivery ----------

  // The fragment offsets of datagram `id` that have arrived before the k-th event.
  ghost function Seen(run: seq<Event>, id: U16, k: nat): set<int>
    requires k <= |run|
  {
    if k == 0 then {}
    else
      Seen(run, id, k - 1) +
      (if run[k - 1].Arrive? && run[k - 1].f.dgramId == id then {run[k - 1].f.fragOffset} else {})
  }

  // What the table holds of a datagram whose fragments at `seen` have arrived.
  ghost predicate Holds(slots: Slots, id: U16, data: seq<Byte>, chunk: nat, seen: set<int>)
    requires chunk > 0 && seen <= Offsets(data, chunk)
  {
    if seen == {} then id !in slots
    else
      && id in slots
      && slots[id].total == |data|
      && slots[id].got == Pieces(data, chunk, seen)
      && slots[id].bytes == SumValues(Lengths(slots[id].got))
  }

  ghost function Pieces(data: seq<Byte>, chunk: nat, seen: set<int>): map<int, seq<Byte>>
    requires chunk > 0 && seen <= Offsets(data, chunk)
  {
    map o | o in seen :: Chunk(data, o, chunk)
  }

  // Distinct multiples of the chunk size are a chunk apart.
  lemma OffsetsApart(data: seq<Byte>, chunk: nat, a: int, b: int)
    requires chunk > 0 && a in Offsets(data, chunk) && b in Offsets(data, chunk) && a < b
    ensures a + chunk <= b
  {
    assert a == a / chunk * chunk && b == b / chunk * chunk;
    MulMonotone(b / chunk, a / chunk, chunk);
    MulMonotone(a / chunk + 1, b / chunk, chunk);
    assert (a / chunk + 1) * chunk == a / chunk * chunk + chunk;
  }

  lemma NextAligned(o: nat, chunk: nat)
    requires chunk > 0 && Aligned(o, chunk)
    ensures Aligned(o + chunk, chunk)
  {
    AddMod(o, chunk);
  }

  // Chunks at distinct offsets never add up to more than the data after the least of them.
  lemma {:induction false} PiecesFit(data: seq<Byte>, chunk: nat, seen: set<int>)
    requires chunk > 0 && seen <= Offsets(data, chunk)
    ensures SumValues(Lengths(Pieces(data, chunk, seen))) <=
            if seen == {} then 0 else |data| - MinKey(seen)
    decreases |seen|
  {
    hide Aligned;
    var lens := Lengths(Pieces(data, chunk, seen));
    if seen == {} {
      assert lens == map[];
    } else {
      var o := MinKey(seen);
      var rest := seen - {o};
      assert lens.Keys == seen;
      assert lens - {o} == Lengths(Pieces(data, chunk, rest));
      PiecesFit(data, chunk, rest);
      if rest != {} {
        OffsetsApart(data, chunk, o, MinKey(rest));
      }
    }
  }

  // Taking the first chunk off a walk that starts at it.
  lemma AssembleFirst(got: map<int, seq<Byte>>, want: int, rest: seq<Byte>)
    requires want in got && forall o :: o in got ==> want <= o
    requires Assemble(got - {want}, want + |got[want]|) == Some(rest)
    ensures Assemble(got, want) == Some(got[want] + rest)
    ensures |got - {want}| < |got|
  {
    SmallerMap(got, want);
    assert MinKey(got.Keys) == want;
  }

  // The pieces of `data` from `want` on, if they are all there, assemble to its tail ...
  lemma {:induction false} AllPiecesAssemble(data: seq<Byte>, chunk: nat, seen: set<int>, want: nat)
    requires chunk > 0 && seen <= Offsets(data, chunk) && want <= |data|
    requires forall o :: o in seen <==> o in Offsets(data, chunk) && o >= want
    requires Aligned(want, chunk) || want == |data|
    ensures Assemble(Pieces(data, chunk, seen), want) == Some(data[want..])
    decreases |data| - want
  {
    hide Aligned, Assemble;
    var got := Pieces(data, chunk, seen);
    if want == |data| {
      assert forall o :: o !in seen;
      assert got == map[] && data[want..] == [];
      NothingToAssemble(want);
    } else {
      assert want in Offsets(data, chunk);
      var next := Min(want + chunk, |data|);
      NextAligned(want, chunk);
      var rest := seen - {want};
      forall o | o in rest ensures o >= next {
        OffsetsApart(data, chunk, want, o);
      }
      assert got - {want} == Pieces(data, chunk, rest);
      AllPiecesAssemble(data, chunk, rest, next);
      AssembleFirst(got, want, data[next..]);
      assert data[want..next] + data[next..] == data[want..];
    }
  }

  // ... and only then does anything of that length assemble.
  lemma {:induction false} AssembledHasAllPieces(data: seq<Byte>, chunk: nat, seen: set<int>, want: nat, o: int)
    requires chunk > 0 && seen <= Offsets(data, chunk) && want <= |data|
    requires var a := Assemble(Pieces(data, chunk, seen), want); a.Some? && want + |a.value| == |data|
    requires o in Offsets(data, chunk) && o >= want
    ensures o in seen
    decreases |seen|
  {
    hide Aligned, Assemble;
    var got := Pieces(data, chunk, seen);
    NothingToAssemble(want);
    assert got.Keys == seen;
    AssembleOne(got, want);
    if o != want {
      OffsetsApart(data, chunk, want, o);
      assert got - {want} == Pieces(data, chunk, seen - {want});
      AssembledHasAllPieces(data, chunk, seen - {want}, want + |got[want]|, o);
    }
  }

  lemma FinishedIffAllSeen(slot: Slot, data: seq<Byte>, chunk: nat, seen: set<int>)
    requires chunk > 0 && seen <= Offsets(data, chunk)
    requires slot.total == |data| && slot.got == Pieces(data, chunk, seen)
    ensures Finished(slot) == if seen == Offsets(data, chunk) then Some(data) else None
  {
    if seen == Offsets(data, chunk) {
      AllPiecesAssemble(data, chunk, seen, 0);
      assert data[0..] == data;
    } else if Finished(slot).Some? {
      forall o | o in Offsets(data, chunk) ensures o in seen {
        AssembledHasAllPieces(data, chunk, seen, 0, o);
      }
    }
  }

  // A fragment of a datagram that is not yet complete: it finds or opens its slot without
  // eviction, is stored, and completes the datagram exactly when it is the last offset.
  lemma FragmentArrives(slots: Slots, lim: Limits, e: Event, id: U16, data: seq<Byte>, chunk: nat, seen: set<int>)
    requires chunk > 0 && 0 < |data| <= UDP_QUIC_MAX_DGRAM
    requires |data| + Min(chunk, |data|) <= lim.maxBytes
    requires ValidTable(slots, lim) && !(id !in slots && |slots| >= lim.maxSlots)
    requires seen < Offsets(data, chunk) && Holds(slots, id, data, chunk, seen)
    requires e.Arrive? && IsFragment(e.f, id, data, chunk)
    ensures var now := seen + {e.f.fragOffset};
            if now == Offsets(data, chunk)
            then Reply(slots, lim, e) == Complete(data)
            else Reply(slots, lim, e) == Partial && Holds(Next(slots, lim, e), id, data, chunk, now)
    ensures Next(slots, lim, e).Keys <= slots.Keys + {id}
  {
    var f := e.f;
    assert f.fragOffset in Offsets(data, chunk);
    assert !OutOfBounds(f);
    var ready := Opened(slots, lim, f, e.now, e.v1);
    OpenedHolds(slots, lim, f, e.now, e.v1, data, chunk, seen);
    PiecesFit(data, chunk, seen);
    NeverOverGlobalCap(ready, lim, f);
    StoredHolds(ready, lim, f, e.v2, data, chunk, seen);
    FinishedIffAllSeen(Stored(ready, lim, f, e.v2).0[id], data, chunk, seen + {f.fragOffset});
  }

  // Like Holds, but with the slot open even when nothing has been stored yet.
  ghost predicate HoldsOpen(slots: Slots, id: U16, data: seq<Byte>, chunk: nat, seen: set<int>)
    requires chunk > 0 && seen <= Offsets(data, chunk)
  {
    && id in slots
    && slots[id].total == |data|
    && slots[id].got == Pieces(data, chunk, seen)
    && slots[id].bytes == SumValues(Lengths(slots[id].got))
  }

  lemma OpenedHolds(
    slots: Slots, lim: Limits, f: Frame, now: nat, v1: U16, data: seq<Byte>, chunk: nat, seen: set<int>)
    requires chunk > 0 && 0 < |data| <= UDP_QUIC_MAX_DGRAM
    requires ValidTable(slots, lim) && !(f.dgramId !in slots && |slots| >= lim.maxSlots)
    requires seen <= Offsets(data, chunk) && Holds(slots, f.dgramId, data, chunk, seen)
    requires IsFragment(f, f.dgramId, data, chunk)
    ensures var ready := Opened(slots, lim, f, now, v1);
            && HoldsOpen(ready, f.dgramId, data, chunk, seen)
            && ready.Keys == slots.Keys + {f.dgramId}
            && ValidTable(ready, lim)
  {
    OpenedValid(slots, lim, f, now, v1);
    if f.dgramId !in slots {
      assert Pieces(data, chunk, {}) == map[];
      assert Lengths(map[]) == map[];
    }
  }

  lemma StoredHolds(
    ready: Slots, lim: Limits, f: Frame, v2: U16, data: seq<Byte>, chunk: nat, seen: set<int>)
    requires chunk > 0 && 0 < |data|
    requires f.dgramId in ready && !OverGlobalCap(ready, lim, f)
    requires seen <= Offsets(data, chunk) && HoldsOpen(ready, f.dgramId, data, chunk, seen)
    requires IsFragment(f, f.dgramId, data, chunk)
    ensures f.fragOffset in Offsets(data, chunk)
    ensures var stored := Stored(ready, lim, f, v2);
            && HoldsOpen(stored.0, f.dgramId, data, chunk, seen + {f.fragOffset})
            && stored.0.Keys == ready.Keys
            && !stored.1
  {
    var slot := ready[f.dgramId];
    if f.fragOffset in slot.got {
      assert seen + {f.fragOffset} == seen;
    } else {
      LengthsInsert(slot.got, f.fragOffset, f.payload);
      assert slot.got[f.fragOffset := f.payload] == Pieces(data, chunk, seen + {f.fragOffset});
    }
  }

  // A frame that evicts nothing leaves the other datagrams' slots alone.
  lemma OthersUntouched(slots: Slots, lim: Limits, f: Frame, now: nat, v1: U16, v2: U16, id: U16)
    requires !NeedsRoom(slots, lim, f.dgramId) && f.dgramId != id
    requires !OutOfBounds(f) && FitsSlot(Opened(slots, lim, f, now, v1), lim, f) ==>
               !OverGlobalCap(Opened(slots, lim, f, now, v1), lim, f)
    ensures var next := AcceptStep(slots, lim, f, now, v1, v2).0;
            && (id in next <==> id in slots)
            && (id in slots ==> next[id] == slots[id])
            && next.Keys <= slots.Keys + {f.dgramId}
  {
  }

  lemma OthersLeaveSlot(slots: Slots, lim: Limits, e: Event, id: U16)
    requires ValidTable(slots, lim) && LegalEvent(slots, lim, e)
    requires e.Arrive? && e.f.dgramId != id && !(e.f.dgramId !in slots && |slots| >= lim.maxSlots)
    ensures id in Next(slots, lim, e) <==> id in slots
    ensures id in slots ==> Next(slots, lim, e)[id] == slots[id]
    ensures Next(slots, lim, e).Keys <= slots.Keys + {e.f.dgramId}
  {
    if !OutOfBounds(e.f) {
      OpenedValid(slots, lim, e.f, e.now, e.v1);
      var ready := Opened(slots, lim, e.f, e.now, e.v1);
      if FitsSlot(ready, lim, e.f) {
        NeverOverGlobalCap(ready, lim, e.f);
      }
    }
    OthersUntouched(slots, lim, e.f, e.now, e.v1, e.v2, id);
  }

  // One event of a run in which the datagram's fragments arrive in any order and any
  // number of times among frames of other datagrams, with never more ids about than there
  // are slots and no sweep expiring the datagram's slot.
  ghost predicate FeedsAt(
    before: Slots, lim: Limits, e: Event, id: U16, data: seq<Byte>, chunk: nat, ids: set<U16>)
    requires chunk > 0
  {
    && LegalEvent(before, lim, e)
    && (e.Arrive? ==> e.f.dgramId in ids && (e.f.dgramId == id ==> IsFragment(e.f, id, data, chunk)))
    && (e.Sweep? && id in before ==> !Expired(before[id], e.now, e.gap))
  }

  ghost predicate FeedsRun(
    slots: Slots, lim: Limits, run: seq<Event>, k: nat, id: U16, data: seq<Byte>, chunk: nat, ids: set<U16>)
    requires chunk > 0 && k <= |run|
  {
    k == 0 || (FeedsRun(slots, lim, run, k - 1, id, data, chunk, ids) &&
               FeedsAt(StateAt(slots, lim, run, k - 1), lim, run[k - 1], id, data, chunk, ids))
  }

  // An empty slot for the datagram, and slots enough for every id about.
  ghost predicate Roomy(slots: Slots, lim: Limits, id: U16, ids: set<U16>) {
    ValidTable(slots, lim) && id !in slots && id in ids && slots.Keys <= ids && |ids| <= lim.maxSlots
  }

  lemma RoomFor(slots: Slots, lim: Limits, ids: set<U16>, id: U16)
    requires slots.Keys <= ids && |ids| <= lim.maxSlots && id in ids && id !in slots
    ensures |slots| < lim.maxSlots
  {
    SubsetCardinality(slots.Keys, ids - {id});
    assert |slots.Keys| <= |ids - {id}| == |ids| - 1;
  }

  lemma FeedStep(
    before: Slots, lim: Limits, e: Event, id: U16, data: seq<Byte>, chunk: nat, ids: set<U16>, seen: set<int>)
    requires chunk > 0 && 0 < |data| <= UDP_QUIC_MAX_DGRAM
    requires |data| + Min(chunk, |data|) <= lim.maxBytes
    requires ValidTable(before, lim) && before.Keys <= ids && id in ids && |ids| <= lim.maxSlots
    requires FeedsAt(before, lim, e, id, data, chunk, ids)
    requires seen < Offsets(data, chunk) && Holds(before, id, data, chunk, seen)
    ensures Next(before, lim, e).Keys <= ids && ValidTable(Next(before, lim, e), lim)
    ensures e.Arrive? && e.f.dgramId == id ==>
              && seen + {e.f.fragOffset} <= Offsets(data, chunk)
              && if seen + {e.f.fragOffset} == Offsets(data, chunk)
                 then Reply(before, lim, e) == Complete(data)
                 else Reply(before, lim, e) == Partial &&
                      Holds(Next(before, lim, e), id, data, chunk, seen + {e.f.fragOffset})
    ensures !(e.Arrive? && e.f.dgramId == id) ==> Holds(Next(before, lim, e), id, data, chunk, seen)
  {
    if e.Arrive? && e.f.dgramId !in before {
      RoomFor(before, lim, ids, e.f.dgramId);
    }
    StepValid(before, lim, e);
    if e.Arrive? && e.f.dgramId == id {
      FragmentArrives(before, lim, e, id, data, chunk, seen);
    } else if e.Arrive? {
      OthersLeaveSlot(before, lim, e, id);
    }
  }

  lemma SeenGrows(run: seq<Event>, id: U16, k: nat)
    requires 0 < k <= |run|
    ensures Seen(run, id, k - 1) <= Seen(run, id, k)
    ensures var e := run[k - 1];
            Seen(run, id, k) ==
            if e.Arrive? && e.f.dgramId == id then Seen(run, id, k - 1) + {e.f.fragOffset} else Seen(run, id, k - 1)
  {
    assert Seen(run, id, k - 1) + {} == Seen(run, id, k - 1);
  }

  lemma StartHolds(slots: Slots, lim: Limits, id: U16, data: seq<Byte>, chunk: nat, ids: set<U16>)
    requires chunk > 0 && Roomy(slots, lim, id, ids)
    ensures ValidTable(slots, lim) && slots.Keys <= ids && Holds(slots, id, data, chunk, {})
  {
  }

  lemma {:induction false} FeedHolds(
    slots: Slots, lim: Limits, run: seq<Event>, k: nat, id: U16, data: seq<Byte>, chunk: nat, ids: set<U16>)
    requires chunk > 0 && 0 < |data| <= UDP_QUIC_MAX_DGRAM
    requires |data| + Min(chunk, |data|) <= lim.maxBytes
    requires k <= |run| && Roomy(slots, lim, id, ids) && FeedsRun(slots, lim, run, k, id, data, chunk, ids)
    requires Seen(run, id, k) < Offsets(data, chunk)
    ensures StateAt(slots, lim, run, k).Keys <= ids
    ensures ValidTable(StateAt(slots, lim, run, k), lim)
    ensures Holds(StateAt(slots, lim, run, k), id, data, chunk, Seen(run, id, k))
  {
    hide Holds, ValidTable, Next, FeedsAt, Offsets;
    StartHolds(slots, lim, id, data, chunk, ids);
    if k > 0 {
      var before := StateAt(slots, lim, run, k - 1);
      var seen := Seen(run, id, k - 1);
      SeenGrows(run, id, k);
      FeedHolds(slots, lim, run, k - 1, id, data, chunk, ids);
      FeedStep(before, lim, run[k - 1], id, data, chunk, ids, seen);
    }
  }

  // All-or-nothing delivery: the datagram is returned whole at the first moment all its
  // offsets have arrived, and every earlier frame of it is answered Partial.
  lemma DeliveredWhenAllSeen(
    slots: Slots, lim: Limits, run: seq<Event>, k: nat, id: U16, data: seq<Byte>, chunk: nat, ids: set<U16>)
    requires chunk > 0 && 0 < |data| <= UDP_QUIC_MAX_DGRAM
    requires |data| + Min(chunk, |data|) <= lim.maxBytes
    requires k < |run| && Roomy(slots, lim, id, ids) && FeedsRun(slots, lim, run, k + 1, id, data, chunk, ids)
    requires run[k].Arrive? && run[k].f.dgramId == id
    requires Seen(run, id, k) < Offsets(data, chunk)
    ensures Reply(StateAt(slots, lim, run, k), lim, run[k]) ==
            if Seen(run, id, k + 1) == Offsets(data, chunk) then Complete(data) else Partial
  {
    FeedHolds(slots, lim, run, k, id, data, chunk, ids);
    FeedStep(StateAt(slots, lim, run, k), lim, run[k], id, data, chunk, ids, Seen(run, id, k));
  }

  // The fragmenter accepts 65508 to 65535 bytes, but no frame of such a datagram is ever
  // accepted: within what Fragment cuts up, delivery is possible up to 65507 bytes only.
  lemma OversizeNeverAccepted(slots: Slots, lim: Limits, e: Event, id: U16, data: seq<Byte>, chunk: nat)
    requires chunk > 0 && e.Arrive? && IsFragment(e.f, id, data, chunk)
    ensures OutOfBounds(e.f) <==> |data| > UDP_QUIC_MAX_DGRAM
    ensures |data| > UDP_QUIC_MAX_DGRAM ==> Reply(slots, lim, e) == Malformed && Next(slots, lim, e) == slots
  {
  }

  // A datagram id reused while the old slot lives splices the two datagrams, which is why
  // CompletedIsOriginal asks for one datagram's frames at a time: the first half of one
  // datagram is completed with the second half of the next.
  lemma ReusedIdSplices(lim: Limits, id: U16, e0: Event, e1: Event, one: seq<Byte>, two: seq<Byte>)
    requires lim.maxSlots >= 1 && lim.maxBytes >= 3 && |one| == |two| == 2
    requires e0.Arrive? && e0.v2 == id && e0.f.fragOffset == 0 && IsFragment(e0.f, id, one, 1)
    requires e1.Arrive? && e1.v2 == id && e1.f.fragOffset == 1 && IsFragment(e1.f, id, two, 1)
    ensures LegalEvent(map[], lim, e0) && LegalEvent(Next(map[], lim, e0), lim, e1)
    ensures Reply(Next(map[], lim, e0), lim, e1) == Complete([one[0], two[1]])
  {
    var spliced := [one[0], two[1]];
    FirstHalf(lim, e0, id, spliced);
    SecondHalf(Next(map[], lim, e0), lim, e1, id, spliced);
  }

  lemma FirstHalf(lim: Limits, e: Event, id: U16, data: seq<Byte>)
    requires |data| == 2 && lim.maxSlots >= 1 && lim.maxBytes >= 3
    requires e.Arrive? && e.v2 == id && e.f.fragOffset == 0 && IsFragment(e.f, id, data, 1)
    ensures LegalEvent(map[], lim, e)
    ensures {0} < Offsets(data, 1)
    ensures ValidTable(Next(map[], lim, e), lim) && Holds(Next(map[], lim, e), id, data, 1, {0})
    ensures Next(map[], lim, e).Keys <= {id}
  {
    hide Assemble, SumValues;
    assert 0 in Offsets(data, 1) && 1 in Offsets(data, 1);
    assert Opened(map[], lim, e.f, e.now, e.v1).Keys == {id};
    FragmentArrives(map[], lim, e, id, data, 1, {});
    assert {} + {0} == {0};
    StepValid(map[], lim, e);
  }

  lemma SecondHalf(slots: Slots, lim: Limits, e: Event, id: U16, data: seq<Byte>)
    requires |data| == 2 && lim.maxBytes >= 3 && ValidTable(slots, lim) && slots.Keys <= {id}
    requires {0} < Offsets(data, 1) && Holds(slots, id, data, 1, {0})
    requires e.Arrive? && e.v2 == id && e.f.fragOffset == 1 && IsFragment(e.f, id, data, 1)
    ensures LegalEvent(slots, lim, e) && Reply(slots, lim, e) == Complete(data)
  {
    FragmentArrives(slots, lim, e, id, data, 1, {0});
    forall o | o in Offsets(data, 1) ensures o in {0, 1} {
    }
    assert {0} + {1} == Offsets(data, 1);
  }
}
