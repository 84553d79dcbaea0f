// What a reassembler's table holds after any run, told from the run's events alone
// (crates/aztna-common/src/udp_frag.rs).
module ReassemblyHistory {
  import opened Prelude
  import opened IntMaps
  import opened UdpFrag
  import opened Reassembly
  import opened ReassemblyLaws

  // The table after k events from an empty one.
  function Table(lim: Limits, run: seq<Event>, k: nat): Slots
    requires k <= |run|
  {
    StateAt(map[], lim, run, k)
  }

  // The event that opened the slot `id` has after k events: the one since which it was not absent.
  function Opener(lim: Limits, run: seq<Event>, id: U16, k: nat): (j: nat)
    requires k <= |run| && id in Table(lim, run, k)
    ensures j < k && id !in Table(lim, run, j) && id in Table(lim, run, j + 1)
  {
    if id in Table(lim, run, k - 1) then Opener(lim, run, id, k - 1) else k - 1
  }

  lemma {:induction false} HeldSince(lim: Limits, run: seq<Event>, id: U16, k: nat, i: nat)
    requires k <= |run| && id in Table(lim, run, k) && Opener(lim, run, id, k) < i <= k
    ensures id in Table(lim, run, i)
    decreases k
  {
    hide Next;
    if i < k {
      HeldSince(lim, run, id, k - 1, i);
    }
  }

  // The chunks of frames for `id` among events j to k, the first at each offset.
  function Chunks(run: seq<Event>, id: U16, j: nat, k: nat): map<int, seq<Byte>>
    requires j <= k <= |run|
  {
    if k == j then map[]
    else
      var got := Chunks(run, id, j, k - 1);
      var e := run[k - 1];
      if Carries(e, id) && e.f.fragOffset !in got then got[e.f.fragOffset := e.f.payload] else got
  }

  // A frame of the datagram that is not refused for its bounds.
  predicate Carries(e: Event, id: U16) {
    e.Arrive? && e.f.dgramId == id && 1 <= e.f.totalLen <= 65_507 && e.f.fragOffset + |e.f.payload| <= e.f.totalLen
  }

  ghost predicate HeldAs(slot: Slot, run: seq<Event>, id: U16, j: nat, k: nat)
    requires j < k <= |run|
  {
    && Carries(run[j], id)
    && slot.firstSeen == run[j].now && slot.total == run[j].f.totalLen
    && slot.got == Chunks(run, id, j, k)
    && slot.bytes == SumValues(Lengths(Chunks(run, id, j, k)))
  }

  // ---------- one call ----------

  // The slot a frame's datagram had or gets.
  function Base(slots: Slots, f: Frame, now: nat): Slot {
    if f.dgramId in slots then slots[f.dgramId] else Slot(f.totalLen, map[], 0, now)
  }

  function WithChunk(slot: Slot, f: Frame): Slot {
    if f.fragOffset in slot.got then slot
    else slot.(got := slot.got[f.fragOffset := f.payload], bytes := slot.bytes + |f.payload|)
  }

  // No slot changes but that of the frame's datagram.
  lemma SlotAfter(slots: Slots, lim: Limits, e: Event, id: U16)
    requires ValidTable(slots, lim) && LegalEvent(slots, lim, e) && e.Arrive?
    ensures var next := Next(slots, lim, e);
      id in next ==>
        if Carries(e, id) then next[id] == WithChunk(Base(slots, e.f, e.now), e.f)
        else id in slots && next[id] == slots[id]
  {
    hide OverGlobalCap, FitsSlot, Finished, ValidTable, Legal;
    if !OutOfBounds(e.f) {
      NothingEvictedLate(slots, lim, e);
    }
  }

  lemma NothingEvictedLate(slots: Slots, lim: Limits, e: Event)
    requires ValidTable(slots, lim) && LegalEvent(slots, lim, e) && e.Arrive? && !OutOfBounds(e.f)
    ensures var ready := Opened(slots, lim, e.f, e.now, e.v1);
      FitsSlot(ready, lim, e.f) ==> !OverGlobalCap(ready, lim, e.f)
  {
    var ready := Opened(slots, lim, e.f, e.now, e.v1);
    OpenedValid(slots, lim, e.f, e.now, e.v1);
    if FitsSlot(ready, lim, e.f) {
      NeverOverGlobalCap(ready, lim, e.f);
    }
  }

  lemma SlotAfterSweep(slots: Slots, now: nat, gap: nat, id: U16)
    ensures var next := SweepStep(slots, now, gap);
      (id in next <==> id in slots && now - slots[id].firstSeen <= gap) && (id in next ==> next[id] == slots[id])
  {
  }

  // ---------- every run ----------

  lemma ChunkStep(slot: Slot, run: seq<Event>, id: U16, j: nat, k: nat)
    requires j < k < |run| && HeldAs(slot, run, id, j, k)
    ensures if Carries(run[k], id) then HeldAs(WithChunk(slot, run[k].f), run, id, j, k + 1)
            else HeldAs(slot, run, id, j, k + 1)
  {
    hide SumValues, Lengths;
    var got := Chunks(run, id, j, k);
    if Carries(run[k], id) && run[k].f.fragOffset !in got {
      LengthsInsert(got, run[k].f.fragOffset, run[k].f.payload);
    }
  }

  lemma FirstChunk(run: seq<Event>, id: U16, j: nat)
    requires j < |run| && Carries(run[j], id)
    ensures HeldAs(WithChunk(Slot(run[j].f.totalLen, map[], 0, run[j].now), run[j].f), run, id, j, j + 1)
  {
    hide SumValues;
    NoLengths();
    LengthsInsert(map[], run[j].f.fragOffset, run[j].f.payload);
    assert Chunks(run, id, j, j) == map[];
  }

  lemma NoLengths()
    ensures SumValues(Lengths(map[])) == 0
  {
    assert Lengths(map[]) == map[];
  }

  // Over every run: a slot was opened by a frame within bounds for its id, with that frame's
  // total and instant, and holds exactly the chunks of the frames for its id since then, the
  // first at each offset.
  lemma {:induction false} SlotHistory(lim: Limits, run: seq<Event>, id: U16, k: nat)
    requires k <= |run| && LegalRun(map[], lim, run, k) && id in Table(lim, run, k)
    ensures HeldAs(Table(lim, run, k)[id], run, id, Opener(lim, run, id, k), k)
  {
    hide Next, HeldAs, Carries, WithChunk;
    var prior: nat := k - 1;
    var slots, e := Table(lim, run, prior), run[prior];
    ResourceBounds(map[], lim, run, prior);
    StepOf(lim, run, prior, id);
    if id in slots {
      SlotHistory(lim, run, id, prior);
      ChunkStep(slots[id], run, id, Opener(lim, run, id, prior), prior);
    } else {
      FirstChunk(run, id, prior);
    }
  }

  // The step of an event for an id the table then holds.
  lemma StepOf(lim: Limits, run: seq<Event>, k: nat, id: U16)
    requires k < |run| && LegalRun(map[], lim, run, k + 1) && ValidTable(Table(lim, run, k), lim)
    requires id in Table(lim, run, k + 1)
    ensures var slots, next := Table(lim, run, k), Table(lim, run, k + 1);
      if id in slots then next[id] == if Carries(run[k], id) then WithChunk(slots[id], run[k].f) else slots[id]
      else Carries(run[k], id) && next[id] == WithChunk(Slot(run[k].f.totalLen, map[], 0, run[k].now), run[k].f)
  {
    hide AcceptStep, SweepStep, WithChunk, LegalEvent;
    var slots, e := Table(lim, run, k), run[k];
    assert LegalEvent(slots, lim, e);
    match e
    case Arrive(f, now, v1, v2) => SlotAfter(slots, lim, e, id);
    case Sweep(now, gap) => SlotAfterSweep(slots, now, gap, id);
  }

  // When a datagram's first frame since its slot was last absent arrived.
  function FirstArrival(lim: Limits, run: seq<Event>, id: U16, k: nat): nat
    requires k <= |run| && id in Table(lim, run, k)
  {
    var j := Opener(lim, run, id, k);
    match run[j]
    case Arrive(_, now, _, _) => now
    case Sweep(now, _) => now
  }

  lemma SeenThen(lim: Limits, run: seq<Event>, id: U16, k: nat)
    requires k <= |run| && LegalRun(map[], lim, run, k) && id in Table(lim, run, k)
    ensures Table(lim, run, k)[id].firstSeen == FirstArrival(lim, run, id, k)
  {
    SlotHistory(lim, run, id, k);
  }

  // A sweep drops a slot exactly if its first frame came more than the gap ago, and changes no
  // other.
  lemma SweepDropsIff(lim: Limits, run: seq<Event>, k: nat, id: U16)
    requires k < |run| && LegalRun(map[], lim, run, k) && run[k].Sweep? && id in Table(lim, run, k)
    ensures id !in Table(lim, run, k + 1) <==> run[k].now - FirstArrival(lim, run, id, k) > run[k].gap
    ensures id in Table(lim, run, k + 1) ==> Table(lim, run, k + 1)[id] == Table(lim, run, k)[id]
  {
    hide FirstArrival, SweepStep;
    SeenThen(lim, run, id, k);
    SlotAfterSweep(Table(lim, run, k), run[k].now, run[k].gap, id);
  }

  // A frame within bounds for a datagram without a slot, all slots taken: exactly one other slot
  // goes, one whose first frame came no later than any other's.
  lemma OldestGoes(lim: Limits, run: seq<Event>, k: nat, id: U16) returns (victim: U16)
    requires k < |run| && LegalRun(map[], lim, run, k + 1) && Carries(run[k], id)
    requires id !in Table(lim, run, k) && |Table(lim, run, k)| >= lim.maxSlots && Table(lim, run, k) != map[]
    ensures victim in Table(lim, run, k) && victim !in Table(lim, run, k + 1)
    ensures forall x :: x in Table(lim, run, k) ==>
              FirstArrival(lim, run, victim, k) <= FirstArrival(lim, run, x, k) &&
              (x != victim ==> x in Table(lim, run, k + 1) && Table(lim, run, k + 1)[x] == Table(lim, run, k)[x])
  {
    hide FirstArrival, Opened, Stored, FitsSlot;
    var slots, e := Table(lim, run, k), run[k];
    victim := e.v1;
    ResourceBounds(map[], lim, run, k);
    assert LegalEvent(slots, lim, e);
    PressureStep(slots, lim, e);
    forall x | x in slots
      ensures FirstArrival(lim, run, victim, k) <= FirstArrival(lim, run, x, k)
    {
      SeenThen(lim, run, x, k);
      SeenThen(lim, run, victim, k);
    }
  }

  lemma PressureStep(slots: Slots, lim: Limits, e: Event)
    requires ValidTable(slots, lim) && LegalEvent(slots, lim, e) && e.Arrive? && !OutOfBounds(e.f)
    requires NeedsRoom(slots, lim, e.f.dgramId)
    ensures IsOldest(slots, e.v1) && e.v1 !in Next(slots, lim, e)
    ensures forall x :: x in slots && x != e.v1 ==> x in Next(slots, lim, e) && Next(slots, lim, e)[x] == slots[x]
  {
    NothingEvictedLate(slots, lim, e);
  }

  // With a slot already there, or one to spare, no other datagram's slot goes; the datagram's own
  // goes if and only if it is completed, or refused because its chunks would pass the byte cap.
  lemma OwnSlotGoesIff(lim: Limits, run: seq<Event>, k: nat, id: U16)
    requires k < |run| && LegalRun(map[], lim, run, k + 1) && Carries(run[k], id)
    ensures var slots, next := Table(lim, run, k), Table(lim, run, k + 1);
      var held := if id in slots then Chunks(run, id, Opener(lim, run, id, k), k) else map[];
      var over := SumValues(Lengths(held)) + |run[k].f.payload| > lim.maxBytes;
      (id !in next <==> over || Reply(slots, lim, run[k]).Complete?) &&
      (Reply(slots, lim, run[k]) == Malformed <==> over) &&
      (id in slots || |slots| < lim.maxSlots ==>
         forall x :: x in slots && x != id ==> x in next && next[x] == slots[x])
  {
    hide SumValues, Lengths, Opener, Chunks, AcceptStep;
    var slots, e := Table(lim, run, k), run[k];
    ResourceBounds(map[], lim, run, k);
    assert LegalEvent(slots, lim, e);
    OwnSlotStep(slots, lim, e);
    NoLengths();
    if id in slots {
      SlotHistory(lim, run, id, k);
    }
  }

  lemma OwnSlotStep(slots: Slots, lim: Limits, e: Event)
    requires ValidTable(slots, lim) && LegalEvent(slots, lim, e) && e.Arrive? && Carries(e, e.f.dgramId)
    ensures var next, id := Next(slots, lim, e), e.f.dgramId;
      var over := (if id in slots then slots[id].bytes else 0) + |e.f.payload| > lim.maxBytes;
      (id !in next <==> over || Reply(slots, lim, e).Complete?) && (Reply(slots, lim, e) == Malformed <==> over) &&
      (id in slots || |slots| < lim.maxSlots ==>
         forall x :: x in slots && x != id ==> x in next && next[x] == slots[x])
  {
    hide OverGlobalCap, Finished, ValidTable, Legal;
    NothingEvictedLate(slots, lim, e);
  }

  // A frame out of bounds changes nothing.
  lemma OutOfBoundsIgnored(slots: Slots, lim: Limits, e: Event)
    requires e.Arrive? && !Carries(e, e.f.dgramId)
    ensures Next(slots, lim, e) == slots && Reply(slots, lim, e) == Malformed
  {
  }
}
