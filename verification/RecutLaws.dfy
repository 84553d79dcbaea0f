// Datagrams whose slices differ in size, because they were cut anew in mid-send
// (client/src/lib.rs, udp_frag_send): exactly when the reassembler delivers them.
module RecutLaws {
  import opened Prelude
  import opened IntMaps
  import opened UdpFrag
  import opened Reassembly
  import opened ReassemblyLaws

  // ---------- when a slot is complete ----------

  // Each chunk ends where another starts or at the end, the first starts at zero, and none
  // starts inside another.
  ghost predicate Chained(got: map<int, seq<Byte>>, n: int) {
    0 in got && Linked(got, n) && Apart(got)
  }

  ghost predicate Linked(got: map<int, seq<Byte>>, n: int) {
    forall o :: o in got ==> o + |got[o]| == n || o + |got[o]| in got
  }

  ghost predicate Apart(got: map<int, seq<Byte>>) {
    forall o, x :: o in got && x in got ==> !(o < x < o + |got[o]|)
  }

  // Chunks that are not empty and lie within n bytes.
  ghost predicate Within(got: map<int, seq<Byte>>, n: int) {
    forall o :: o in got ==> 0 <= o && |got[o]| >= 1 && o + |got[o]| <= n
  }

  ghost predicate ChainedFrom(got: map<int, seq<Byte>>, w: int, n: int) {
    (got == map[] && w == n) || (w in got && (forall o :: o in got ==> w <= o) && Linked(got, n) && Apart(got))
  }

  lemma ChainStep(got: map<int, seq<Byte>>, w: int, n: int)
    requires w in got && Within(got, n) && forall o :: o in got ==> w <= o
    ensures ChainedFrom(got, w, n) <==> ChainedFrom(got - {w}, w + |got[w]|, n)
  {
    if ChainedFrom(got, w, n) {
      ChainTail(got, w, n);
    }
    if ChainedFrom(got - {w}, w + |got[w]|, n) {
      ChainHead(got, w, n);
    }
  }

  lemma ChainTail(got: map<int, seq<Byte>>, w: int, n: int)
    requires w in got && Within(got, n) && ChainedFrom(got, w, n)
    ensures ChainedFrom(got - {w}, w + |got[w]|, n)
  {
    var rest, next := got - {w}, w + |got[w]|;
    forall o | o in rest
      ensures next <= o < n && (o + |rest[o]| == n || o + |rest[o]| in rest)
    {
    }
    if next == n {
      assert rest.Keys == {};
    }
  }

  lemma ChainHead(got: map<int, seq<Byte>>, w: int, n: int)
    requires w in got && Within(got, n) && forall o :: o in got ==> w <= o
    requires ChainedFrom(got - {w}, w + |got[w]|, n)
    ensures ChainedFrom(got, w, n)
  {
    var rest, next := got - {w}, w + |got[w]|;
    forall o | o in got
      ensures o == w || (o in rest && next <= o && rest[o] == got[o])
      ensures o + |got[o]| == n || o + |got[o]| in got
    {
      if o != w {
        assert o in rest && rest[o] == got[o];
        assert o + |rest[o]| == n || o + |rest[o]| in rest;
      }
    }
    forall o, x | o in got && x in got
      ensures !(o < x < o + |got[o]|)
    {
      assert o == w || o in rest;
      assert x == w || x in rest;
    }
  }

  lemma {:induction false} AssembleChained(got: map<int, seq<Byte>>, w: int, n: int)
    requires Within(got, n)
    ensures Assemble(got, w).Some? && w + |Assemble(got, w).value| == n <==> ChainedFrom(got, w, n)
    decreases |got|
  {
    hide Assemble, ChainedFrom, Within;
    NothingToAssemble(w);
    EmptyChain(w, n);
    if got != map[] {
      if w in got && forall o :: o in got ==> w <= o {
        ChainStep(got, w, n);
        var rest := got - {w};
        WithinLess(got, w, n);
        SmallerMap(got, w);
        AssembleChained(rest, w + |got[w]|, n);
        var tail := Assemble(rest, w + |got[w]|);
        if tail.Some? {
          AssembleFirst(got, w, tail.value);
        } else {
          AssembleBreaks(got, w);
        }
      } else {
        NoStart(got, w, n);
      }
    }
  }

  lemma EmptyChain(w: int, n: int)
    ensures ChainedFrom(map[], w, n) <==> w == n
  {
  }

  lemma WithinLess(got: map<int, seq<Byte>>, w: int, n: int)
    requires Within(got, n)
    ensures Within(got - {w}, n)
  {
  }

  lemma NoStart(got: map<int, seq<Byte>>, w: int, n: int)
    requires got != map[] && !(w in got && forall o :: o in got ==> w <= o)
    ensures Assemble(got, w).None? && !ChainedFrom(got, w, n)
  {
  }

  lemma AssembleBreaks(got: map<int, seq<Byte>>, want: int)
    requires want in got && forall o :: o in got ==> want <= o
    requires Assemble(got - {want}, want + |got[want]|).None?
    ensures Assemble(got, want).None?
  {
    SmallerMap(got, want);
    assert MinKey(got.Keys) == want;
  }

  ghost predicate NonEmpty(got: map<int, seq<Byte>>) { forall o :: o in got ==> got[o] != [] }

  // Non-empty slices of a datagram complete it if and only if they chain.
  lemma FinishedIffChained(slot: Slot, data: seq<Byte>)
    requires slot.total == |data| && |data| > 0 && AllSlices(slot.got, data) && NonEmpty(slot.got)
    ensures Finished(slot) == if Chained(slot.got, |data|) then Some(data) else None
  {
    hide Assemble;
    AssembleChained(slot.got, 0, |data|);
    FinishedSlices(slot, data);
  }

  // ---------- over runs ----------

  // The chunks of datagram `id` that have arrived, the first at each offset.
  ghost function Kept(run: seq<Event>, id: U16, k: nat): map<int, seq<Byte>>
    requires k <= |run|
  {
    if k == 0 then map[]
    else
      var got := Kept(run, id, k - 1);
      var e := run[k - 1];
      if e.Arrive? && e.f.dgramId == id && e.f.fragOffset !in got then got[e.f.fragOffset := e.f.payload] else got
  }

  ghost predicate HoldsKept(slots: Slots, id: U16, data: seq<Byte>, got: map<int, seq<Byte>>) {
    if got == map[] then id !in slots
    else
      && id in slots
      && slots[id].total == |data|
      && slots[id].got == got
      && slots[id].bytes == SumValues(Lengths(got))
  }

  // One event of a run in which non-empty slices of the datagram, of any sizes, arrive in any
  // order and any number of times among frames of other datagrams; `got` is what was kept.
  ghost predicate SlicesAt(
    before: Slots, lim: Limits, e: Event, id: U16, data: seq<Byte>, got: map<int, seq<Byte>>, ids: set<U16>)
  {
    && LegalEvent(before, lim, e)
    && (e.Arrive? ==> e.f.dgramId in ids)
    && (e.Arrive? && e.f.dgramId == id ==>
          IsSlice(e.f, data) && e.f.payload != [] && SumValues(Lengths(got)) + |e.f.payload| <= lim.maxBytes)
    && (e.Sweep? && id in before ==> !Expired(before[id], e.now, e.gap))
  }

  ghost predicate SlicesRun(
    slots: Slots, lim: Limits, run: seq<Event>, k: nat, id: U16, data: seq<Byte>, ids: set<U16>)
    requires k <= |run|
  {
    k == 0 || (SlicesRun(slots, lim, run, k - 1, id, data, ids) &&
               SlicesAt(StateAt(slots, lim, run, k - 1), lim, run[k - 1], id, data, Kept(run, id, k - 1), ids))
  }

  // What was kept never chained up to the k-th event.
  ghost predicate NotYet(run: seq<Event>, k: nat, id: U16, n: nat)
    requires k <= |run|
  {
    !Chained(Kept(run, id, k), n) && (k > 0 ==> NotYet(run, k - 1, id, n))
  }

  ghost predicate GoodChunks(got: map<int, seq<Byte>>, data: seq<Byte>) { AllSlices(got, data) && NonEmpty(got) }

  ghost function WithSlice(got: map<int, seq<Byte>>, f: Frame): map<int, seq<Byte>> {
    if f.fragOffset in got then got else got[f.fragOffset := f.payload]
  }

  lemma GoodSlice(got: map<int, seq<Byte>>, f: Frame, data: seq<Byte>)
    requires GoodChunks(got, data) && IsSlice(f, data) && f.payload != []
    ensures GoodChunks(WithSlice(got, f), data) && WithSlice(got, f) != map[] && f.fragOffset in WithSlice(got, f)
  {
    assert f.fragOffset in WithSlice(got, f);
  }

  // A slice of a datagram that is not complete yet arrives.
  lemma SliceArrives(slots: Slots, lim: Limits, e: Event, id: U16, data: seq<Byte>, got: map<int, seq<Byte>>)
    requires 0 < |data| <= UDP_QUIC_MAX_DGRAM && ValidTable(slots, lim) && !(id !in slots && |slots| >= lim.maxSlots)
    requires GoodChunks(got, data) && HoldsKept(slots, id, data, got)
    requires e.Arrive? && e.f.dgramId == id && IsSlice(e.f, data) && e.f.payload != []
    requires SumValues(Lengths(got)) + |e.f.payload| <= lim.maxBytes
    ensures var now := WithSlice(got, e.f);
      if Chained(now, |data|) then Reply(slots, lim, e) == Complete(data)
      else Reply(slots, lim, e) == Partial && HoldsKept(Next(slots, lim, e), id, data, now)
    ensures Next(slots, lim, e).Keys <= slots.Keys + {id}
  {
    hide Assemble, SumValues, Chained;
    var f := e.f;
    GoodSlice(got, f, data);
    var ready := Opened(slots, lim, f, e.now, e.v1);
    OpenedKept(slots, lim, f, e.now, e.v1, data, got);
    NeverOverGlobalCap(ready, lim, f);
    StoredKept(ready, lim, f, e.v2, data, got);
    FinishedIffChained(Stored(ready, lim, f, e.v2).0[id], data);
  }

  // Like HoldsKept, with the slot open.
  ghost predicate OpenKept(slots: Slots, id: U16, data: seq<Byte>, got: map<int, seq<Byte>>) {
    && id in slots
    && slots[id].total == |data|
    && slots[id].got == got
    && slots[id].bytes == SumValues(Lengths(got))
  }

  lemma OpenedKept(slots: Slots, lim: Limits, f: Frame, now: nat, v1: U16, data: seq<Byte>, got: map<int, seq<Byte>>)
    requires 0 < |data| <= UDP_QUIC_MAX_DGRAM && ValidTable(slots, lim)
    requires !(f.dgramId !in slots && |slots| >= lim.maxSlots)
    requires HoldsKept(slots, f.dgramId, data, got) && IsSlice(f, data)
    ensures var ready := Opened(slots, lim, f, now, v1);
      OpenKept(ready, f.dgramId, data, got) && ready.Keys == slots.Keys + {f.dgramId} && ValidTable(ready, lim)
    ensures !OutOfBounds(f)
  {
    hide SumValues, IsOldest, ValidTable;
    OpenedValid(slots, lim, f, now, v1);
    NoSum();
    assert Lengths(map[]) == map[];
  }

  lemma StoredKept(ready: Slots, lim: Limits, f: Frame, v2: U16, data: seq<Byte>, got: map<int, seq<Byte>>)
    requires f.dgramId in ready && !OverGlobalCap(ready, lim, f) && OpenKept(ready, f.dgramId, data, got)
    ensures var stored := Stored(ready, lim, f, v2);
      OpenKept(stored.0, f.dgramId, data, WithSlice(got, f)) && stored.0.Keys == ready.Keys && !stored.1
  {
    hide SumValues;
    if f.fragOffset !in got {
      LengthsInsert(got, f.fragOffset, f.payload);
    }
  }

  lemma SliceStep(
    before: Slots, lim: Limits, e: Event, id: U16, data: seq<Byte>, got: map<int, seq<Byte>>, ids: set<U16>)
    requires 0 < |data| <= UDP_QUIC_MAX_DGRAM && ValidTable(before, lim)
    requires before.Keys <= ids && id in ids && |ids| <= lim.maxSlots
    requires GoodChunks(got, data) && HoldsKept(before, id, data, got) && SlicesAt(before, lim, e, id, data, got, ids)
    ensures Next(before, lim, e).Keys <= ids && ValidTable(Next(before, lim, e), lim)
    ensures e.Arrive? && e.f.dgramId == id ==>
      var now := WithSlice(got, e.f);
      GoodChunks(now, data) &&
      if Chained(now, |data|) then Reply(before, lim, e) == Complete(data)
      else Reply(before, lim, e) == Partial && HoldsKept(Next(before, lim, e), id, data, now)
    ensures !(e.Arrive? && e.f.dgramId == id) ==> HoldsKept(Next(before, lim, e), id, data, got)
  {
    hide Chained, AcceptStep, SumValues, GoodChunks, WithSlice, ValidTable;
    StepValid(before, lim, e);
    if e.Arrive? && e.f.dgramId !in before {
      RoomFor(before, lim, ids, e.f.dgramId);
    }
    if e.Arrive? && e.f.dgramId == id {
      GoodSlice(got, e.f, data);
      SliceArrives(before, lim, e, id, data, got);
    } else if e.Arrive? {
      OthersLeaveSlot(before, lim, e, id);
    }
  }

  lemma {:induction false} KeptHolds(
    slots: Slots, lim: Limits, run: seq<Event>, k: nat, id: U16, data: seq<Byte>, ids: set<U16>)
    requires 0 < |data| <= UDP_QUIC_MAX_DGRAM && k <= |run| && Roomy(slots, lim, id, ids)
    requires SlicesRun(slots, lim, run, k, id, data, ids) && NotYet(run, k, id, |data|)
    ensures StateAt(slots, lim, run, k).Keys <= ids && ValidTable(StateAt(slots, lim, run, k), lim)
    ensures GoodChunks(Kept(run, id, k), data) && HoldsKept(StateAt(slots, lim, run, k), id, data, Kept(run, id, k))
  {
    hide Chained, Next, SlicesAt, HoldsKept, GoodChunks, ValidTable;
    NothingKept(slots, lim, id, data, ids);
    if k > 0 {
      KeptHolds(slots, lim, run, k - 1, id, data, ids);
      SliceStep(StateAt(slots, lim, run, k - 1), lim, run[k - 1], id, data, Kept(run, id, k - 1), ids);
    }
  }

  lemma NothingKept(slots: Slots, lim: Limits, id: U16, data: seq<Byte>, ids: set<U16>)
    requires Roomy(slots, lim, id, ids)
    ensures ValidTable(slots, lim) && slots.Keys <= ids && GoodChunks(map[], data) && HoldsKept(slots, id, data, map[])
  {
  }

  // Slices of any sizes, in any order, with any gaps and repeats, among frames of other
  // datagrams: the datagram is returned whole at the first moment what was kept of it chains,
  // and answered Partial before.
  lemma SlicesDeliveredWhenChained(
    slots: Slots, lim: Limits, run: seq<Event>, k: nat, id: U16, data: seq<Byte>, ids: set<U16>)
    requires 0 < |data| <= UDP_QUIC_MAX_DGRAM && k < |run| && Roomy(slots, lim, id, ids)
    requires SlicesRun(slots, lim, run, k + 1, id, data, ids) && NotYet(run, k, id, |data|)
    requires run[k].Arrive? && run[k].f.dgramId == id
    ensures Reply(StateAt(slots, lim, run, k), lim, run[k]) ==
            if Chained(Kept(run, id, k + 1), |data|) then Complete(data) else Partial
  {
    hide Chained, Next, SlicesAt, HoldsKept, GoodChunks, ValidTable;
    KeptHolds(slots, lim, run, k, id, data, ids);
    SliceStep(StateAt(slots, lim, run, k), lim, run[k], id, data, Kept(run, id, k), ids);
  }

  // ---------- two cuts ----------

  // Pieces of the first cut, then of the second. A chunk already there is not replaced.
  ghost function Mixed(data: seq<Byte>, a: nat, front: set<int>, b: nat, seen: set<int>): map<int, seq<Byte>>
    requires a > 0 && b > 0 && front <= Offsets(data, a) && seen <= Offsets(data, b)
  {
    Pieces(data, b, seen) + Pieces(data, a, front)
  }

  // The offsets of a cut's pieces before `cut`.
  ghost function Before(data: seq<Byte>, chunk: nat, cut: nat): (s: set<int>)
    requires chunk > 0
    ensures s <= Offsets(data, chunk)
  {
    set o | o in Offsets(data, chunk) && o < cut
  }

  // The fragments of datagram `id` that arrived from event m on.
  ghost function SeenFrom(run: seq<Event>, id: U16, m: nat, k: nat): set<int>
    requires m <= k <= |run|
  {
    if k == m then {}
    else
      SeenFrom(run, id, m, k - 1) +
      (if run[k - 1].Arrive? && run[k - 1].f.dgramId == id then {run[k - 1].f.fragOffset} else {})
  }

  // The first m events bring pieces of the first cut, the others of the second.
  ghost predicate TwoCuts(run: seq<Event>, id: U16, data: seq<Byte>, a: nat, b: nat, m: nat)
    requires a > 0 && b > 0 && m <= |run|
  {
    && (forall j :: 0 <= j < m && run[j].Arrive? && run[j].f.dgramId == id ==> IsFragment(run[j].f, id, data, a))
    && (forall j :: m <= j < |run| && run[j].Arrive? && run[j].f.dgramId == id ==> IsFragment(run[j].f, id, data, b))
  }

  // What is kept of a datagram sent in two cuts.
  lemma {:induction false} KeptOfTwoCuts(run: seq<Event>, id: U16, data: seq<Byte>, a: nat, b: nat, m: nat, k: nat)
    requires a > 0 && b > 0 && m <= k <= |run| && TwoCuts(run, id, data, a, b, m)
    ensures SeenFrom(run, id, 0, m) <= Offsets(data, a) && SeenFrom(run, id, m, k) <= Offsets(data, b)
    ensures Kept(run, id, k) == Mixed(data, a, SeenFrom(run, id, 0, m), b, SeenFrom(run, id, m, k))
    decreases k
  {
    hide Aligned, Chunk;
    if k == m {
      KeptOfOneCut(run, id, data, a, b, m, m);
    } else {
      KeptOfTwoCuts(run, id, data, a, b, m, k - 1);
      var e := run[k - 1];
      if e.Arrive? && e.f.dgramId == id {
        FragmentOffset(e.f, id, data, b);
        MixedInsert(data, a, SeenFrom(run, id, 0, m), b, SeenFrom(run, id, m, k - 1), e.f.fragOffset);
      } else {
        assert SeenFrom(run, id, m, k) == SeenFrom(run, id, m, k - 1);
      }
    }
  }

  lemma {:induction false} KeptOfOneCut(run: seq<Event>, id: U16, data: seq<Byte>, a: nat, b: nat, m: nat, k: nat)
    requires a > 0 && b > 0 && k <= m <= |run| && TwoCuts(run, id, data, a, b, m)
    ensures SeenFrom(run, id, 0, k) <= Offsets(data, a)
    ensures Kept(run, id, k) == Mixed(data, a, SeenFrom(run, id, 0, k), b, {})
    decreases k
  {
    hide Aligned, Chunk;
    if k > 0 {
      KeptOfOneCut(run, id, data, a, b, m, k - 1);
      var e := run[k - 1];
      if e.Arrive? && e.f.dgramId == id {
        FragmentOffset(e.f, id, data, a);
        FrontInsert(data, a, SeenFrom(run, id, 0, k - 1), b, e.f.fragOffset);
      } else {
        assert SeenFrom(run, id, 0, k) == SeenFrom(run, id, 0, k - 1);
      }
    }
  }

  lemma FragmentOffset(f: Frame, id: U16, data: seq<Byte>, chunk: nat)
    requires chunk > 0 && IsFragment(f, id, data, chunk)
    ensures f.fragOffset in Offsets(data, chunk) && f.payload == Chunk(data, f.fragOffset, chunk)
  {
  }

  lemma MixedInsert(data: seq<Byte>, a: nat, front: set<int>, b: nat, seen: set<int>, o: int)
    requires a > 0 && b > 0 && front <= Offsets(data, a) && seen <= Offsets(data, b) && o in Offsets(data, b)
    ensures var got := Mixed(data, a, front, b, seen);
      Mixed(data, a, front, b, seen + {o}) == if o in got then got else got[o := Chunk(data, o, b)]
  {
    hide Aligned, Chunk;
    var got, now := Mixed(data, a, front, b, seen), Mixed(data, a, front, b, seen + {o});
    if o in got {
      assert now == got;
    } else {
      assert now == got[o := Chunk(data, o, b)];
    }
  }

  lemma FrontInsert(data: seq<Byte>, a: nat, front: set<int>, b: nat, o: int)
    requires a > 0 && b > 0 && front <= Offsets(data, a) && o in Offsets(data, a)
    ensures var got := Mixed(data, a, front, b, {});
      Mixed(data, a, front + {o}, b, {}) == if o in got then got else got[o := Chunk(data, o, a)]
  {
    hide Aligned, Chunk;
    var got, now := Mixed(data, a, front, b, {}), Mixed(data, a, front + {o}, b, {});
    if o in got {
      assert now == got;
    } else {
      assert now == got[o := Chunk(data, o, a)];
    }
  }

  lemma {:induction false} SumUnion(x: map<int, nat>, y: map<int, nat>)
    requires x.Keys !! y.Keys
    ensures SumValues(x + y) == SumValues(x) + SumValues(y)
    decreases |x|
  {
    NoSum();
    hide SumValues;
    if x == map[] {
      assert x + y == y;
    } else {
      var k := MinKey(x.Keys);
      var less := x - {k};
      UnionWithout(x, y, k);
      SmallerMap(x, k);
      SumRemove(x, k);
      SumRemove(x + y, k);
      SumUnion(less, y);
    }
  }

  lemma UnionWithout(x: map<int, nat>, y: map<int, nat>, k: int)
    requires x.Keys !! y.Keys && k in x
    ensures k in x + y && (x + y)[k] == x[k] && (x + y) - {k} == (x - {k}) + y && (x - {k}).Keys !! y.Keys
  {
  }

  // Two cuts together hold at most the datagram twice, so room for three times its size is
  // room enough for every piece.
  lemma MixedBytes(data: seq<Byte>, a: nat, front: set<int>, b: nat, seen: set<int>)
    requires a > 0 && b > 0 && front <= Offsets(data, a) && seen <= Offsets(data, b)
    ensures SumValues(Lengths(Mixed(data, a, front, b, seen))) <= 2 * |data|
  {
    hide Aligned, SumValues, Chunk;
    var x, y := Lengths(Pieces(data, b, seen - front)), Lengths(Pieces(data, a, front));
    assert Lengths(Mixed(data, a, front, b, seen)) == x + y;
    SumUnion(x, y);
    PiecesFit(data, b, seen - front);
    PiecesFit(data, a, front);
  }

  // Every frame of the datagram is a piece of the one cut or of the other.
  ghost predicate EitherCut(run: seq<Event>, id: U16, data: seq<Byte>, a: nat, b: nat)
    requires a > 0 && b > 0
  {
    forall j :: 0 <= j < |run| && run[j].Arrive? && run[j].f.dgramId == id ==>
      IsFragment(run[j].f, id, data, a) || IsFragment(run[j].f, id, data, b)
  }

  // The offsets at which a piece of the first cut arrived before any of the second.
  ghost function Won(run: seq<Event>, id: U16, data: seq<Byte>, a: nat, k: nat): set<int>
    requires a > 0 && k <= |run|
  {
    if k == 0 then {}
    else
      var e := run[k - 1];
      Won(run, id, data, a, k - 1) +
      (if e.Arrive? && e.f.dgramId == id && e.f.fragOffset !in Kept(run, id, k - 1) && IsFragment(e.f, id, data, a)
       then {e.f.fragOffset} else {})
  }

  // The others.
  ghost function Rest(run: seq<Event>, id: U16, data: seq<Byte>, a: nat, k: nat): set<int>
    requires a > 0 && k <= |run|
  {
    Kept(run, id, k).Keys - Won(run, id, data, a, k)
  }

  lemma WonStep(run: seq<Event>, id: U16, data: seq<Byte>, a: nat, k: nat)
    requires a > 0 && 0 < k <= |run|
    ensures var e := run[k - 1]; var got, won := Kept(run, id, k - 1), Won(run, id, data, a, k - 1);
      if e.Arrive? && e.f.dgramId == id && e.f.fragOffset !in got then
        Kept(run, id, k) == got[e.f.fragOffset := e.f.payload] &&
        Won(run, id, data, a, k) == if IsFragment(e.f, id, data, a) then won + {e.f.fragOffset} else won
      else
        Kept(run, id, k) == got && Won(run, id, data, a, k) == won
  {
    hide IsFragment;
  }

  // What is kept of them.
  lemma {:induction false} KeptOfEitherCut(run: seq<Event>, id: U16, data: seq<Byte>, a: nat, b: nat, k: nat)
    requires a > 0 && b > 0 && k <= |run| && EitherCut(run, id, data, a, b)
    ensures Won(run, id, data, a, k) <= Offsets(data, a) && Rest(run, id, data, a, k) <= Offsets(data, b)
    ensures Kept(run, id, k) == Mixed(data, a, Won(run, id, data, a, k), b, Rest(run, id, data, a, k))
  {
    if k == 0 {
      NothingMixed(data, a, b);
      assert Rest(run, id, data, a, 0) == {};
    } else {
      hide IsFragment, Mixed, Offsets, Kept, Won;
      KeptOfEitherCut(run, id, data, a, b, k - 1);
      var e := run[k - 1];
      var front, seen := Won(run, id, data, a, k - 1), Rest(run, id, data, a, k - 1);
      WonStep(run, id, data, a, k);
      MixedKeys(data, a, front, b, seen);
      if e.Arrive? && e.f.dgramId == id && e.f.fragOffset !in Kept(run, id, k - 1) {
        var o := e.f.fragOffset;
        if IsFragment(e.f, id, data, a) {
          FragmentOffset(e.f, id, data, a);
          NewFront(data, a, front, b, seen, o);
          assert Rest(run, id, data, a, k) == seen;
        } else {
          FragmentOffset(e.f, id, data, b);
          MixedInsert(data, a, front, b, seen, o);
          assert Rest(run, id, data, a, k) == seen + {o};
        }
      } else {
        assert Rest(run, id, data, a, k) == seen;
      }
    }
  }

  lemma NothingMixed(data: seq<Byte>, a: nat, b: nat)
    requires a > 0 && b > 0
    ensures Mixed(data, a, {}, b, {}) == map[]
  {
  }

  lemma MixedKeys(data: seq<Byte>, a: nat, front: set<int>, b: nat, seen: set<int>)
    requires a > 0 && b > 0 && front <= Offsets(data, a) && seen <= Offsets(data, b)
    ensures Mixed(data, a, front, b, seen).Keys == front + seen
  {
  }

  lemma NewFront(data: seq<Byte>, a: nat, front: set<int>, b: nat, seen: set<int>, o: int)
    requires a > 0 && b > 0 && front <= Offsets(data, a) && seen <= Offsets(data, b) && o in Offsets(data, a)
    requires o !in front + seen
    ensures Mixed(data, a, front + {o}, b, seen) == Mixed(data, a, front, b, seen)[o := Chunk(data, o, a)]
  {
    hide Aligned, Chunk;
  }

  // So the byte cap of a slot that holds three times the datagram never refuses a piece.
  lemma RoomForBothCuts(run: seq<Event>, id: U16, data: seq<Byte>, a: nat, b: nat, k: nat)
    requires a > 0 && b > 0 && k < |run| && EitherCut(run, id, data, a, b)
    requires run[k].Arrive? && run[k].f.dgramId == id
    ensures SumValues(Lengths(Kept(run, id, k))) + |run[k].f.payload| <= 3 * |data|
  {
    hide Mixed, Offsets, SumValues, Kept, Won, Rest;
    KeptOfEitherCut(run, id, data, a, b, k);
    MixedBytes(data, a, Won(run, id, data, a, k), b, Rest(run, id, data, a, k));
  }

  // A datagram sent in two cuts, any pieces of either arriving in any order and any number of
  // times: returned whole at the first moment the pieces that came first chain.
  lemma TwoCutsDelivered(
    slots: Slots, lim: Limits, run: seq<Event>, k: nat, id: U16, data: seq<Byte>, a: nat, b: nat, ids: set<U16>)
    requires a > 0 && b > 0 && k < |run| && EitherCut(run, id, data, a, b)
    requires 0 < |data| <= UDP_QUIC_MAX_DGRAM && Roomy(slots, lim, id, ids)
    requires SlicesRun(slots, lim, run, k + 1, id, data, ids) && NotYet(run, k, id, |data|)
    requires run[k].Arrive? && run[k].f.dgramId == id
    ensures Won(run, id, data, a, k + 1) <= Offsets(data, a) && Rest(run, id, data, a, k + 1) <= Offsets(data, b)
    ensures Reply(StateAt(slots, lim, run, k), lim, run[k]) ==
            if Chained(Mixed(data, a, Won(run, id, data, a, k + 1), b, Rest(run, id, data, a, k + 1)), |data|)
            then Complete(data) else Partial
  {
    hide Chained, Mixed, SlicesRun, NotYet, EitherCut, Won, Rest;
    KeptOfEitherCut(run, id, data, a, b, k + 1);
    SlicesDeliveredWhenChained(slots, lim, run, k, id, data, ids);
  }

  // ---------- when two cuts chain ----------

  lemma AlignedApart(x: nat, y: nat, a: nat)
    requires a > 0 && Aligned(x, a) && Aligned(y, a) && x < y
    ensures x + a <= y
  {
    assert x == x / a * a && y == y / a * a;
    MulMonotone(y / a, x / a, a);
    MulMonotone(x / a + 1, y / a, a);
    assert (x / a + 1) * a == x / a * a + a;
  }

  lemma AlignedMultiple(o: nat, b: nat, a: nat)
    requires a > 0 && b > 0 && Aligned(o, b) && Aligned(b, a)
    ensures Aligned(o, a)
  {
    assert o == o / b * b && b == b / a * a;
    assert o == (o / b * (b / a)) * a;
    MulMonotone(0, o / b, b / a);
    MultipleMod(o / b * (b / a), a);
  }

  // The start of the stretch of b bytes that o lies in.
  ghost function Cell(o: nat, b: nat): (q: nat)
    requires b > 0
    ensures q <= o < q + b && Aligned(q, b)
  {
    assert o == o / b * b + o % b;
    MultipleMod(o / b, b);
    o - o % b
  }

  lemma CellUnique(o: nat, q: nat, b: nat)
    requires b > 0 && Aligned(q, b) && q <= o < q + b
    ensures Cell(o, b) == q
  {
    hide Aligned;
    var c := Cell(o, b);
    if c < q {
      AlignedApart(c, q, b);
    } else if q < c {
      AlignedApart(q, c, b);
    }
  }

  lemma SmallIsNoMultiple(x: nat, a: nat)
    requires a > 0
    ensures 0 < x < a ==> !Aligned(x, a)
  {
    if 0 < x < a {
      DivModUnique(x, a, 0, x);
    }
  }

  // The chunks of two cuts: where each ends.
  lemma MixedChunk(data: seq<Byte>, a: nat, cut: nat, front: set<int>, b: nat, seen: set<int>, o: int)
    requires a > 0 && b > 0 && Aligned(cut, a) && cut < |data|
    requires front <= Before(data, a, cut) && seen <= Offsets(data, b)
    ensures var got := Mixed(data, a, front, b, seen);
      (o in got <==> o in front || o in seen) &&
      (o in front ==> 0 <= o && o + |got[o]| == o + a <= cut) &&
      (o in seen && o !in front ==> 0 <= o < |data| && o + |got[o]| == Min(o + b, |data|))
  {
    hide Aligned;
    if o in front {
      AlignedApart(o, cut, a);
    }
  }

  // A stretch of the second cut has none of the first cut's pieces starting in it, or all.
  ghost predicate NoneIn(front: set<int>, q: int, b: nat) { forall o :: o in front ==> !(q <= o < q + b) }

  ghost predicate AllIn(data: seq<Byte>, a: nat, front: set<int>, q: int, b: nat)
    requires a > 0
  {
    forall o :: o in Offsets(data, a) && q <= o < q + b ==> o in front
  }

  ghost predicate Cells(data: seq<Byte>, a: nat, front: set<int>, b: nat)
    requires a > 0 && b > 0
  {
    forall q :: q in Offsets(data, b) ==> NoneIn(front, q, b) || AllIn(data, a, front, q, b)
  }

  // With all of the second cut in: whatever pieces of the first arrived, they chain exactly if
  // there were none, or the new size is a multiple of the old and every new piece's stretch had
  // none or all of its old pieces.
  lemma TwoCutsChainIff(data: seq<Byte>, a: nat, cut: nat, front: set<int>, b: nat)
    requires a > 0 && b > 0 && Aligned(cut, a) && cut < |data| && front <= Before(data, a, cut)
    ensures Chained(Mixed(data, a, front, b, Offsets(data, b)), |data|) <==>
            front == {} || (Aligned(b, a) && Cells(data, a, front, b))
  {
    hide Aligned, Mixed, Cells, Chained, Offsets;
    if Chained(Mixed(data, a, front, b, Offsets(data, b)), |data|) {
      ChainMeansCells(data, a, cut, front, b);
    }
    if front == {} || (Aligned(b, a) && Cells(data, a, front, b)) {
      CellsMeanChain(data, a, cut, front, b);
    }
  }

  lemma InOffsets(data: seq<Byte>, chunk: nat, o: int)
    requires chunk > 0
    ensures o in Offsets(data, chunk) <==> 0 <= o < |data| && Aligned(o, chunk)
  {
  }

  // A piece of the first cut among all of the second: it lies in one stretch, and is followed
  // there by another, or ends with it.
  lemma PieceInCell(data: seq<Byte>, a: nat, cut: nat, front: set<int>, b: nat, x: nat)
    requires a > 0 && b > 0 && Aligned(cut, a) && cut < |data| && front <= Before(data, a, cut) && x in front
    requires Chained(Mixed(data, a, front, b, Offsets(data, b)), |data|)
    ensures var q := Cell(x, b); q in front && (x + a == q + b || (x + a < q + b && x + a in front))
  {
    hide Aligned, Mixed, Offsets;
    var all := Offsets(data, b);
    var got := Mixed(data, a, front, b, all);
    var q := Cell(x, b);
    InOffsets(data, b, q);
    MixedChunk(data, a, cut, front, b, all, x);
    MixedChunk(data, a, cut, front, b, all, q);
    assert q in got && x in got;
    assert x + a in got;
    MixedChunk(data, a, cut, front, b, all, x + a);
    NextAligned(q, b);
    InOffsets(data, b, q + b);
    MixedChunk(data, a, cut, front, b, all, q + b);
    assert x + a <= q + b;
    if x + a < q + b {
      InOffsets(data, b, x + a);
      BetweenMultiples(q, x + a, b);
    }
  }

  lemma BetweenMultiples(q: nat, x: nat, b: nat)
    requires b > 0 && Aligned(q, b) && q < x < q + b
    ensures !Aligned(x, b)
  {
    hide Aligned;
    if Aligned(x, b) {
      AlignedApart(q, x, b);
    }
  }

  lemma {:induction false} CellWalk(data: seq<Byte>, a: nat, cut: nat, front: set<int>, b: nat, q: nat, x: nat, o: int)
    requires a > 0 && b > 0 && Aligned(cut, a) && cut < |data| && front <= Before(data, a, cut)
    requires Chained(Mixed(data, a, front, b, Offsets(data, b)), |data|)
    requires x in front && Cell(x, b) == q && Aligned(q, a)
    ensures Aligned(q + b, a)
    ensures o in Offsets(data, a) && x <= o < q + b ==> o in front
    decreases q + b - x
  {
    hide Aligned, Mixed, Offsets, Chained;
    InOffsets(data, a, x);
    InOffsets(data, a, o);
    NextAligned(x, a);
    PieceInCell(data, a, cut, front, b, x);
    if o in Offsets(data, a) && x < o {
      AlignedApart(x, o, a);
    }
    if x + a < q + b {
      CellUnique(x + a, q, b);
      CellWalk(data, a, cut, front, b, q, x + a, o);
    }
  }

  lemma SumAligned(q: nat, b: nat, a: nat)
    requires a > 0 && Aligned(q, a) && Aligned(q + b, a)
    ensures Aligned(b, a)
  {
    assert q == q / a * a && q + b == (q + b) / a * a;
    MulMonotone((q + b) / a + 1, q / a, a);
    assert b == ((q + b) / a - q / a) * a;
    assert ((q + b) / a + 1) * a == (q + b) / a * a + a;
    MultipleMod((q + b) / a - q / a, a);
  }

  lemma ChainMeansCells(data: seq<Byte>, a: nat, cut: nat, front: set<int>, b: nat)
    requires a > 0 && b > 0 && Aligned(cut, a) && cut < |data| && front <= Before(data, a, cut)
    requires Chained(Mixed(data, a, front, b, Offsets(data, b)), |data|)
    ensures front == {} || Aligned(b, a)
    ensures Cells(data, a, front, b)
  {
    hide Aligned, Mixed, Offsets, Chained;
    forall x: nat | x in front
      ensures Aligned(b, a) && AllIn(data, a, front, Cell(x, b), b)
    {
      PieceFillsCell(data, a, cut, front, b, x);
    }
    HasMember(front);
    forall x | x in front
      ensures 0 <= x
    {
      InOffsets(data, a, x);
    }
    forall q | q in Offsets(data, b)
      ensures NoneIn(front, q, b) || AllIn(data, a, front, q, b)
    {
      InOffsets(data, b, q);
      if x :| x in front && q <= x < q + b {
        CellUnique(x, q, b);
      }
    }
  }

  lemma PieceFillsCell(data: seq<Byte>, a: nat, cut: nat, front: set<int>, b: nat, x: nat)
    requires a > 0 && b > 0 && Aligned(cut, a) && cut < |data| && front <= Before(data, a, cut) && x in front
    requires Chained(Mixed(data, a, front, b, Offsets(data, b)), |data|)
    ensures Aligned(b, a) && AllIn(data, a, front, Cell(x, b), b)
  {
    hide Aligned, Mixed, Offsets, Chained;
    var q := Cell(x, b);
    PieceInCell(data, a, cut, front, b, x);
    InOffsets(data, a, q);
    CellUnique(q, q, b);
    CellWalk(data, a, cut, front, b, q, q, q);
    SumAligned(q, b, a);
    forall o | o in Offsets(data, a) && q <= o < q + b
      ensures o in front
    {
      CellWalk(data, a, cut, front, b, q, q, o);
    }
  }

  lemma CellsMeanChain(data: seq<Byte>, a: nat, cut: nat, front: set<int>, b: nat)
    requires a > 0 && b > 0 && Aligned(cut, a) && cut < |data| && front <= Before(data, a, cut)
    requires front == {} || (Aligned(b, a) && Cells(data, a, front, b))
    ensures Chained(Mixed(data, a, front, b, Offsets(data, b)), |data|)
  {
    hide Aligned, Mixed, Offsets;
    var all := Offsets(data, b);
    var got := Mixed(data, a, front, b, all);
    InOffsets(data, b, 0);
    ZeroAligned(b);
    MixedChunk(data, a, cut, front, b, all, 0);
    forall o | o in got
      ensures o + |got[o]| == |data| || o + |got[o]| in got
      ensures forall x :: x in got ==> !(o < x < o + |got[o]|)
    {
      MixedChunk(data, a, cut, front, b, all, o);
      if o in front {
        OldPieceChains(data, a, cut, front, b, o);
      } else {
        NewPieceChains(data, a, cut, front, b, o);
      }
    }
  }

  lemma ZeroAligned(a: nat)
    requires a > 0
    ensures Aligned(0, a)
  {
  }

  lemma OldPieceChains(data: seq<Byte>, a: nat, cut: nat, front: set<int>, b: nat, o: nat)
    requires a > 0 && b > 0 && Aligned(cut, a) && cut < |data| && front <= Before(data, a, cut)
    requires Aligned(b, a) && Cells(data, a, front, b) && o in front
    ensures var got := Mixed(data, a, front, b, Offsets(data, b));
      o in got && o + |got[o]| in got && forall x :: x in got ==> !(o < x < o + |got[o]|)
  {
    hide Aligned, Mixed, Offsets;
    var all := Offsets(data, b);
    var got := Mixed(data, a, front, b, all);
    var q := Cell(o, b);
    MixedChunk(data, a, cut, front, b, all, o);
    InOffsets(data, a, o);
    InOffsets(data, b, q);
    assert !NoneIn(front, q, b);
    AlignedMultiple(q, b, a);
    NextAligned(q, b);
    AlignedMultiple(q + b, b, a);
    AlignedApart(o, q + b, a);
    NextAligned(o, a);
    InOffsets(data, a, o + a);
    InOffsets(data, b, o + a);
    MixedChunk(data, a, cut, front, b, all, o + a);
    assert o + a < q + b ==> o + a in front;
    forall x | x in got
      ensures !(o < x < o + a)
    {
      MixedChunk(data, a, cut, front, b, all, x);
      InOffsets(data, a, x);
      InOffsets(data, b, x);
      if x in all {
        AlignedMultiple(x, b, a);
      }
      if o < x {
        AlignedApart(o, x, a);
      }
    }
  }

  lemma NewPieceChains(data: seq<Byte>, a: nat, cut: nat, front: set<int>, b: nat, o: nat)
    requires a > 0 && b > 0 && Aligned(cut, a) && cut < |data| && front <= Before(data, a, cut)
    requires front == {} || (Aligned(b, a) && Cells(data, a, front, b))
    requires o in Offsets(data, b) && o !in front
    ensures var got := Mixed(data, a, front, b, Offsets(data, b));
      o in got && (o + |got[o]| == |data| || o + |got[o]| in got) && forall x :: x in got ==> !(o < x < o + |got[o]|)
  {
    hide Aligned, Mixed, Offsets;
    var all := Offsets(data, b);
    var got := Mixed(data, a, front, b, all);
    MixedChunk(data, a, cut, front, b, all, o);
    InOffsets(data, b, o);
    NextAligned(o, b);
    InOffsets(data, b, o + b);
    MixedChunk(data, a, cut, front, b, all, o + b);
    forall x | x in got
      ensures !(o < x < o + b)
    {
      MixedChunk(data, a, cut, front, b, all, x);
      InOffsets(data, b, x);
      OldWithNew(data, a, front, b, o, x);
      if x in all && o < x {
        AlignedApart(o, x, b);
      }
    }
  }

  // An old piece in a new one's stretch brings the one at its start.
  lemma OldWithNew(data: seq<Byte>, a: nat, front: set<int>, b: nat, o: nat, x: int)
    requires a > 0 && b > 0 && o in Offsets(data, b) && (front == {} || (Aligned(b, a) && Cells(data, a, front, b)))
    ensures x in front && o < x < o + b ==> o in front
  {
    hide Aligned, Offsets;
    if x in front && o < x < o + b {
      InOffsets(data, b, o);
      AlignedMultiple(o, b, a);
      InOffsets(data, a, o);
      assert !NoneIn(front, o, b);
    }
  }

  // In order, the second cut's pieces up to `upTo` in: only the last one can complete it.
  lemma InOrderChainIff(data: seq<Byte>, a: nat, cut: nat, front: set<int>, b: nat, upTo: nat)
    requires a > 0 && b > 0 && Aligned(cut, a) && Aligned(upTo, b) && cut < |data| && front <= Before(data, a, cut)
    ensures Chained(Mixed(data, a, front, b, Before(data, b, upTo)), |data|) <==>
            upTo >= |data| && (front == {} || (Aligned(b, a) && Cells(data, a, front, b)))
    ensures b < a ==> !Aligned(b, a)
  {
    hide Aligned, Mixed, Cells, Chained;
    SmallIsNoMultiple(b, a);
    if upTo >= |data| {
      assert Before(data, b, upTo) == Offsets(data, b);
      TwoCutsChainIff(data, a, cut, front, b);
    } else {
      NoLastPiece(data, a, cut, front, b, upTo);
    }
  }

  // Without a chunk that reaches the end nothing chains.
  lemma {:induction false} NoEnd(got: map<int, seq<Byte>>, n: int, o: int)
    requires Within(got, n) && o in got && forall x :: x in got ==> x + |got[x]| < n
    ensures !Linked(got, n)
    decreases n - o
  {
    if o + |got[o]| in got {
      NoEnd(got, n, o + |got[o]|);
    }
  }

  lemma NoLastPiece(data: seq<Byte>, a: nat, cut: nat, front: set<int>, b: nat, upTo: nat)
    requires a > 0 && b > 0 && Aligned(cut, a) && Aligned(upTo, b) && cut < |data| && front <= Before(data, a, cut)
    requires upTo < |data|
    ensures !Chained(Mixed(data, a, front, b, Before(data, b, upTo)), |data|)
  {
    hide Aligned, Mixed, Offsets;
    var seen := Before(data, b, upTo);
    var got := Mixed(data, a, front, b, seen);
    forall o | o in got
      ensures 0 <= o && |got[o]| >= 1 && o + |got[o]| < |data|
    {
      MixedChunk(data, a, cut, front, b, seen, o);
      InOffsets(data, b, o);
      if o !in front {
        AlignedApart(o, upTo, b);
      }
    }
    if 0 in got {
      NoEnd(got, |data|, 0);
    }
  }

  // With all offsets of the second cut seen, however the two cuts were interleaved.
  lemma EitherCutChainsIff(run: seq<Event>, id: U16, data: seq<Byte>, a: nat, cut: nat, b: nat, k: nat)
    requires a > 0 && b > 0 && k <= |run| && EitherCut(run, id, data, a, b)
    requires Aligned(cut, a) && cut < |data| && Won(run, id, data, a, k) <= Before(data, a, cut)
    requires Offsets(data, b) <= Kept(run, id, k).Keys
    ensures var front := Won(run, id, data, a, k);
      Chained(Kept(run, id, k), |data|) <==> front == {} || (Aligned(b, a) && Cells(data, a, front, b))
  {
    hide Aligned, Mixed, Cells, Chained, Offsets, EitherCut, Won, Before;
    var front, seen := Won(run, id, data, a, k), Rest(run, id, data, a, k);
    KeptOfEitherCut(run, id, data, a, b, k);
    MixedIgnores(data, a, front, b, seen);
    TwoCutsChainIff(data, a, cut, front, b);
  }

  // Second pieces under first ones make no difference.
  lemma MixedIgnores(data: seq<Byte>, a: nat, front: set<int>, b: nat, seen: set<int>)
    requires a > 0 && b > 0 && front <= Offsets(data, a) && seen <= Offsets(data, b) <= front + seen
    ensures Mixed(data, a, front, b, seen) == Mixed(data, a, front, b, Offsets(data, b))
  {
    hide Aligned, Chunk;
  }

  // From event m on the pieces of the second cut arrive one after the other.
  ghost predicate InOrder(run: seq<Event>, id: U16, data: seq<Byte>, b: nat, m: nat)
    requires b > 0 && m <= |run|
  {
    forall j :: m <= j < |run| && run[j].Arrive? && run[j].f.dgramId == id ==>
      SeenFrom(run, id, m, j) == Before(data, b, run[j].f.fragOffset)
  }

  // What has been seen of it is a start of the cut.
  lemma {:induction false} StartSeen(run: seq<Event>, id: U16, data: seq<Byte>, a: nat, b: nat, m: nat, j: nat)
    returns (upTo: nat)
    requires a > 0 && b > 0 && m <= j <= |run| && TwoCuts(run, id, data, a, b, m) && InOrder(run, id, data, b, m)
    ensures Aligned(upTo, b) && SeenFrom(run, id, m, j) == Before(data, b, upTo)
    ensures j > m && run[j - 1].Arrive? && run[j - 1].f.dgramId == id ==> upTo == run[j - 1].f.fragOffset + b
    decreases j
  {
    hide Aligned, Offsets;
    if j == m {
      upTo := 0;
      ZeroAligned(b);
      NothingBefore(data, b);
    } else {
      upTo := StartSeen(run, id, data, a, b, m, j - 1);
      var e := run[j - 1];
      if e.Arrive? && e.f.dgramId == id {
        upTo := e.f.fragOffset + b;
        FragmentOffset(e.f, id, data, b);
        InOffsets(data, b, e.f.fragOffset);
        NextAligned(e.f.fragOffset, b);
        OneMoreBefore(data, b, e.f.fragOffset);
      }
    }
  }

  lemma NothingBefore(data: seq<Byte>, b: nat)
    requires b > 0
    ensures Before(data, b, 0) == {}
  {
  }

  lemma OneMoreBefore(data: seq<Byte>, b: nat, o: nat)
    requires b > 0 && o in Offsets(data, b)
    ensures Before(data, b, o + b) == Before(data, b, o) + {o}
  {
    hide Aligned, Offsets;
    forall x
      ensures x in Before(data, b, o + b) <==> x in Before(data, b, o) + {o}
    {
      InOffsets(data, b, o);
      InOffsets(data, b, x);
      if x in Offsets(data, b) && o < x {
        AlignedApart(o, x, b);
      }
    }
  }

  // Before the piece at offset o nothing has chained.
  lemma {:induction false} NotYetInOrder(run: seq<Event>, id: U16, data: seq<Byte>, a: nat, cut: nat, b: nat, m: nat,
                                         j: nat, o: nat)
    requires a > 0 && b > 0 && m <= |run| && j <= |run| && TwoCuts(run, id, data, a, b, m)
    requires InOrder(run, id, data, b, m)
    requires Aligned(cut, a) && cut < |data| && SeenFrom(run, id, 0, m) <= Before(data, a, cut)
    requires j > m ==> o in Offsets(data, b) && o !in SeenFrom(run, id, m, j)
    ensures NotYet(run, j, id, |data|)
    decreases j
  {
    hide Aligned, Chained, Mixed, Offsets, Cells, InOrder;
    if j > m {
      var upTo := StartSeen(run, id, data, a, b, m, j);
      KeptOfTwoCuts(run, id, data, a, b, m, j);
      InOffsets(data, b, o);
      assert o !in Before(data, b, upTo);
      InOrderChainIff(data, a, cut, SeenFrom(run, id, 0, m), b, upTo);
    } else {
      KeptOfOneCut(run, id, data, a, b, m, j);
      SeenGrows(run, id, j, m);
      ZeroAligned(b);
      NothingBefore(data, b);
      InOrderChainIff(data, a, cut, SeenFrom(run, id, 0, j), b, 0);
    }
    if j > 0 {
      NotYetInOrder(run, id, data, a, cut, b, m, j - 1, o);
    }
  }

  lemma {:induction false} SeenGrows(run: seq<Event>, id: U16, j: nat, m: nat)
    requires j <= m <= |run|
    ensures SeenFrom(run, id, 0, j) <= SeenFrom(run, id, 0, m)
    decreases m
  {
    if j < m {
      SeenGrows(run, id, j, m - 1);
    }
  }

  // Over runs: any pieces of a first cut before `cut`, then the second cut in order, among frames
  // of other datagrams. Every frame is answered Partial but perhaps the one that brings the last
  // piece of the second cut; that one returns the datagram if and only if no piece of the first
  // cut came, or the new size is a multiple of the old and every new piece's stretch had none or
  // all of its old pieces.
  lemma InOrderDeliveredIff(
    slots: Slots, lim: Limits, run: seq<Event>, m: nat, k: nat, id: U16, data: seq<Byte>, a: nat, cut: nat, b: nat,
    ids: set<U16>)
    requires a > 0 && b > 0 && m <= |run| && k < |run| && TwoCuts(run, id, data, a, b, m)
    requires InOrder(run, id, data, b, m)
    requires Aligned(cut, a) && cut < |data| <= UDP_QUIC_MAX_DGRAM && SeenFrom(run, id, 0, m) <= Before(data, a, cut)
    requires Roomy(slots, lim, id, ids) && SlicesRun(slots, lim, run, k + 1, id, data, ids)
    requires run[k].Arrive? && run[k].f.dgramId == id
    ensures var front := SeenFrom(run, id, 0, m);
      Reply(StateAt(slots, lim, run, k), lim, run[k]) ==
      if k >= m && run[k].f.fragOffset + b >= |data| && (front == {} || (Aligned(b, a) && Cells(data, a, front, b)))
      then Complete(data) else Partial
  {
    hide Aligned, Chained, Cells, SlicesRun, NotYet, InOrder, TwoCuts, Before, Offsets, SeenFrom, Kept,
      Next, Roomy, Reply;
    if k >= m {
      ChainsAtLast(run, m, k, id, data, a, cut, b);
    } else {
      ChainsNotBefore(run, m, k, id, data, a, cut, b);
    }
    SlicesDeliveredWhenChained(slots, lim, run, k, id, data, ids);
  }

  lemma NextInOrder(run: seq<Event>, id: U16, data: seq<Byte>, a: nat, b: nat, m: nat, k: nat)
    requires a > 0 && b > 0 && m <= k < |run| && TwoCuts(run, id, data, a, b, m) && InOrder(run, id, data, b, m)
    requires run[k].Arrive? && run[k].f.dgramId == id
    ensures run[k].f.fragOffset in Offsets(data, b) && run[k].f.fragOffset !in SeenFrom(run, id, m, k)
  {
    hide Aligned, Offsets;
    FragmentOffset(run[k].f, id, data, b);
  }

  lemma ChainsAtLast(run: seq<Event>, m: nat, k: nat, id: U16, data: seq<Byte>, a: nat, cut: nat, b: nat)
    requires a > 0 && b > 0 && m <= k < |run| && TwoCuts(run, id, data, a, b, m) && InOrder(run, id, data, b, m)
    requires Aligned(cut, a) && cut < |data| && SeenFrom(run, id, 0, m) <= Before(data, a, cut)
    requires run[k].Arrive? && run[k].f.dgramId == id
    ensures NotYet(run, k, id, |data|)
    ensures var front := SeenFrom(run, id, 0, m);
      Chained(Kept(run, id, k + 1), |data|) <==>
      run[k].f.fragOffset + b >= |data| && (front == {} || (Aligned(b, a) && Cells(data, a, front, b)))
  {
    hide Aligned, Chained, Mixed, Offsets, Cells, NotYet, InOrder, TwoCuts, Before, SeenFrom, Kept;
    NextInOrder(run, id, data, a, b, m, k);
    NotYetInOrder(run, id, data, a, cut, b, m, k, run[k].f.fragOffset);
    var upTo := StartSeen(run, id, data, a, b, m, k + 1);
    KeptOfTwoCuts(run, id, data, a, b, m, k + 1);
    InOrderChainIff(data, a, cut, SeenFrom(run, id, 0, m), b, upTo);
  }

  lemma ChainsNotBefore(run: seq<Event>, m: nat, k: nat, id: U16, data: seq<Byte>, a: nat, cut: nat, b: nat)
    requires a > 0 && b > 0 && k < m <= |run| && TwoCuts(run, id, data, a, b, m) && InOrder(run, id, data, b, m)
    requires Aligned(cut, a) && cut < |data| && SeenFrom(run, id, 0, m) <= Before(data, a, cut)
    ensures NotYet(run, k, id, |data|) && !Chained(Kept(run, id, k + 1), |data|)
  {
    hide Aligned, Chained, NotYet, InOrder, TwoCuts, Before, SeenFrom, Kept;
    NotYetInOrder(run, id, data, a, cut, b, m, k, 0);
    NotYetInOrder(run, id, data, a, cut, b, m, k + 1, 0);
    NotYetNow(run, k + 1, id, |data|);
  }

  lemma NotYetNow(run: seq<Event>, k: nat, id: U16, n: nat)
    requires k <= |run| && NotYet(run, k, id, n)
    ensures !Chained(Kept(run, id, k), n)
  {
  }

  // Some pieces of a larger first cut make every in-order second cut fail.
  lemma ShrunkNeverChains(data: seq<Byte>, a: nat, cut: nat, front: set<int>, b: nat, upTo: nat)
    requires 0 < b < a && Aligned(cut, a) && Aligned(upTo, b) && cut < |data| && front <= Before(data, a, cut)
    requires front != {}
    ensures !Chained(Mixed(data, a, front, b, Before(data, b, upTo)), |data|)
  {
    hide Aligned, Mixed, Cells, Chained;
    InOrderChainIff(data, a, cut, front, b, upTo);
  }

  // ---------- a first cut without gaps ----------

  // The second cut picks up where the first stopped, all of it from there on is seen, and none
  // of it lies inside a piece of the first.
  ghost predicate Fits(data: seq<Byte>, a: nat, cut: nat, b: nat, seen: set<int>)
    requires a > 0 && b > 0
  {
    Aligned(cut, b) &&
    (forall o :: o in Offsets(data, b) && o >= cut ==> o in seen) &&
    (forall o :: o in seen && 0 <= o < cut ==> Aligned(o, a))
  }

  // With the first cut's pieces before `cut` all in, any pieces of the second chain with them if
  // and only if they fit.
  lemma PrefixFitsIff(data: seq<Byte>, a: nat, cut: nat, b: nat, seen: set<int>)
    requires a > 0 && b > 0 && Aligned(cut, a) && cut < |data| && seen <= Offsets(data, b)
    ensures Chained(Mixed(data, a, Before(data, a, cut), b, seen), |data|) <==> Fits(data, a, cut, b, seen)
  {
    hide Aligned, Mixed, Chained, Fits;
    if Chained(Mixed(data, a, Before(data, a, cut), b, seen), |data|) {
      ChainFits(data, a, cut, b, seen);
    }
    if Fits(data, a, cut, b, seen) {
      FitsChain(data, a, cut, b, seen);
    }
  }

  lemma {:induction false} TailSeen(data: seq<Byte>, a: nat, cut: nat, b: nat, seen: set<int>, w: nat, o: int)
    requires a > 0 && b > 0 && Aligned(cut, a) && cut < |data| && seen <= Offsets(data, b)
    requires Chained(Mixed(data, a, Before(data, a, cut), b, seen), |data|)
    requires w in seen && w >= cut && o in Offsets(data, b) && o >= w
    ensures o in seen
    decreases o - w
  {
    hide Aligned, Mixed, Offsets;
    var front := Before(data, a, cut);
    if w < o {
      InOffsets(data, b, w);
      InOffsets(data, b, o);
      AlignedApart(w, o, b);
      MixedChunk(data, a, cut, front, b, seen, w);
      MixedChunk(data, a, cut, front, b, seen, w + b);
      NotBefore(data, a, cut, w);
      NotBefore(data, a, cut, w + b);
      assert w in Mixed(data, a, front, b, seen);
      TailSeen(data, a, cut, b, seen, w + b, o);
    }
  }

  lemma NotBefore(data: seq<Byte>, chunk: nat, cut: nat, o: int)
    requires chunk > 0
    ensures o >= cut ==> o !in Before(data, chunk, cut)
  {
  }

  lemma ChainFits(data: seq<Byte>, a: nat, cut: nat, b: nat, seen: set<int>)
    requires a > 0 && b > 0 && Aligned(cut, a) && cut < |data| && seen <= Offsets(data, b)
    requires Chained(Mixed(data, a, Before(data, a, cut), b, seen), |data|)
    ensures Fits(data, a, cut, b, seen)
  {
    hide Aligned, Mixed, Offsets, Chained;
    CutSeen(data, a, cut, b, seen);
    InOffsets(data, b, cut);
    forall o | o in Offsets(data, b) && o >= cut
      ensures o in seen
    {
      TailSeen(data, a, cut, b, seen, cut, o);
    }
    forall o | o in seen && 0 <= o < cut
      ensures Aligned(o, a)
    {
      NotInside(data, a, cut, b, seen, o);
    }
  }

  // The last piece of the first cut is followed by one of the second.
  lemma CutSeen(data: seq<Byte>, a: nat, cut: nat, b: nat, seen: set<int>)
    requires a > 0 && b > 0 && Aligned(cut, a) && cut < |data| && seen <= Offsets(data, b)
    requires Chained(Mixed(data, a, Before(data, a, cut), b, seen), |data|)
    ensures cut in seen
  {
    hide Aligned, Mixed, Offsets;
    var front := Before(data, a, cut);
    NotBefore(data, a, cut, cut);
    MixedChunk(data, a, cut, front, b, seen, cut);
    if cut == 0 {
      assert 0 in Mixed(data, a, front, b, seen);
    } else {
      LastBefore(data, a, cut);
      MixedChunk(data, a, cut, front, b, seen, cut - a);
      assert cut - a in Mixed(data, a, front, b, seen);
    }
  }

  lemma LastBefore(data: seq<Byte>, a: nat, cut: nat)
    requires a > 0 && Aligned(cut, a) && 0 < cut < |data|
    ensures cut >= a && cut - a in Before(data, a, cut)
  {
    hide Aligned;
    ZeroAligned(a);
    AlignedApart(0, cut, a);
    AlignedLess(cut, a);
    InOffsets(data, a, cut - a);
  }

  lemma AlignedLess(cut: nat, a: nat)
    requires a > 0 && Aligned(cut, a) && cut >= a
    ensures Aligned(cut - a, a)
  {
    AddMod(cut - a, a);
  }

  lemma NotInside(data: seq<Byte>, a: nat, cut: nat, b: nat, seen: set<int>, o: nat)
    requires a > 0 && b > 0 && Aligned(cut, a) && cut < |data| && seen <= Offsets(data, b)
    requires Chained(Mixed(data, a, Before(data, a, cut), b, seen), |data|) && o in seen && o < cut
    ensures Aligned(o, a)
  {
    hide Aligned, Mixed, Offsets;
    var front := Before(data, a, cut);
    var q := Cell(o, a);
    InOffsets(data, a, q);
    InOffsets(data, b, o);
    MixedChunk(data, a, cut, front, b, seen, o);
    MixedChunk(data, a, cut, front, b, seen, q);
    assert q in Mixed(data, a, front, b, seen) && o in Mixed(data, a, front, b, seen);
    assert q == o;
  }

  lemma FitsChain(data: seq<Byte>, a: nat, cut: nat, b: nat, seen: set<int>)
    requires a > 0 && b > 0 && Aligned(cut, a) && cut < |data| && seen <= Offsets(data, b)
    requires Fits(data, a, cut, b, seen)
    ensures Chained(Mixed(data, a, Before(data, a, cut), b, seen), |data|)
  {
    hide Aligned, Mixed, Offsets;
    var front := Before(data, a, cut);
    var got := Mixed(data, a, front, b, seen);
    ZeroAligned(a);
    ZeroAligned(b);
    InOffsets(data, a, 0);
    InOffsets(data, b, 0);
    MixedChunk(data, a, cut, front, b, seen, 0);
    forall o | o in got
      ensures o + |got[o]| == |data| || o + |got[o]| in got
      ensures forall x :: x in got ==> !(o < x < o + |got[o]|)
    {
      MixedChunk(data, a, cut, front, b, seen, o);
      if o in front {
        FrontChains(data, a, cut, b, seen, o);
      } else {
        BackChains(data, a, cut, b, seen, o);
      }
    }
  }

  lemma FrontChains(data: seq<Byte>, a: nat, cut: nat, b: nat, seen: set<int>, o: nat)
    requires a > 0 && b > 0 && Aligned(cut, a) && cut < |data| && seen <= Offsets(data, b)
    requires Fits(data, a, cut, b, seen) && o in Before(data, a, cut)
    ensures var got := Mixed(data, a, Before(data, a, cut), b, seen);
      o in got && o + |got[o]| in got && forall x :: x in got ==> !(o < x < o + |got[o]|)
  {
    hide Aligned, Mixed, Offsets;
    var front := Before(data, a, cut);
    var got := Mixed(data, a, front, b, seen);
    MixedChunk(data, a, cut, front, b, seen, o);
    InOffsets(data, a, o);
    NextAligned(o, a);
    InOffsets(data, a, o + a);
    InOffsets(data, b, cut);
    MixedChunk(data, a, cut, front, b, seen, o + a);
    forall x | x in got
      ensures !(o < x < o + a)
    {
      MixedChunk(data, a, cut, front, b, seen, x);
      InOffsets(data, a, x);
      if o < x < cut {
        AlignedApart(o, x, a);
      }
    }
  }

  lemma BackChains(data: seq<Byte>, a: nat, cut: nat, b: nat, seen: set<int>, o: nat)
    requires a > 0 && b > 0 && Aligned(cut, a) && cut < |data| && seen <= Offsets(data, b)
    requires Fits(data, a, cut, b, seen) && o in seen && o !in Before(data, a, cut)
    ensures var got := Mixed(data, a, Before(data, a, cut), b, seen);
      o in got && (o + |got[o]| == |data| || o + |got[o]| in got) && forall x :: x in got ==> !(o < x < o + |got[o]|)
  {
    hide Aligned, Mixed, Offsets;
    var front := Before(data, a, cut);
    var got := Mixed(data, a, front, b, seen);
    MixedChunk(data, a, cut, front, b, seen, o);
    InOffsets(data, a, o);
    InOffsets(data, b, o);
    assert o >= cut;
    NextAligned(o, b);
    InOffsets(data, b, o + b);
    MixedChunk(data, a, cut, front, b, seen, o + b);
    forall x | x in got
      ensures !(o < x < o + b)
    {
      MixedChunk(data, a, cut, front, b, seen, x);
      InOffsets(data, b, x);
      if x in seen && o < x {
        AlignedApart(o, x, b);
      }
    }
  }
}
