/** Receiving a transfer from the radio: INIT and CHUNK handling on an anchor or the gateway
    (src/large_data.c, validate_large_data_slot and validate_large_data_chunk). */
module LargeDataReceiver {
  import opened Basics
  import opened LargeDataTypes
  import opened Bitmaps
  import opened PsramDriver
  import opened Crc32Ieee
  import opened LargeDataStore

  /** The bytes of a slot's blob; a placed slot's region is always inside the device. */
  function Region(mem: seq<byte>, sl: Slot): seq<byte> {
    if sl.base + sl.totalSize <= |mem| then mem[sl.base..sl.base + sl.totalSize] else []
  }

  /** large_data_verify_crc32: stage number `fault` of the read-back fails, if there is such a stage. */
  predicate VerifyOk(mem: seq<byte>, sl: Slot, fault: nat) {
    sl.totalSize <= fault * CRC_STAGE && Crc32(Region(mem, sl)) == sl.crc32
  }

  // ------------------------------------------------------------- invariants

  function BitmapBits(): nat {
    8 * BITMAP_BYTES
  }

  /** The counter is the number of bits set, and no bit beyond the last chunk is set. */
  ghost predicate Tallied(sl: Slot) {
    && Placed(sl)
    && sl.totalChunks == Chunks(sl.totalSize) <= BitmapBits()
    && 1 <= sl.lastChunkSize <= CHUNK
    && sl.received == Count(sl.bitmap, sl.totalChunks)
    && (forall k :: sl.totalChunks <= k < BitmapBits() ==> !Has(sl.bitmap, k))
  }

  /** The bookkeeping of one slot that receives from the radio. */
  ghost predicate Bookkept(sl: Slot) {
    Tallied(sl) && (sl.ready <==> sl.received == sl.totalChunks)
  }

  /** A slot is complete exactly when every chunk index has arrived. */
  lemma CompleteIffAllArrived(sl: Slot)
    requires Bookkept(sl)
    ensures sl.ready <==> forall k :: 0 <= k < sl.totalChunks ==> Has(sl.bitmap, k)
  {
    CountFull(sl.bitmap, sl.totalChunks);
  }

  ghost predicate Receiving(s: Ld) {
    Ownership(s) && forall i :: 0 <= i < SLOTS && s.slots[i].active ==> Bookkept(s.slots[i])
  }

  // ------------------------------------------------------------------- INIT

  /** The checks of handle_large_data_init on the announced sizes. */
  predicate InitAcceptable(p: InitPkt) {
    0 < p.totalSize <= MAX_TRANSFER && p.pageCount > 0 && 0 < p.lastChunkSize <= CHUNK
  }

  /** The fields a fresh slot gets; is_sent and is_transfered stay as the record had them. */
  function Announced(was: Slot, p: InitPkt, priority: uint8): Slot
    requires InitAcceptable(p)
  {
    TransferBounds(p.totalSize);
    was.(active := true, ready := false, gen := p.gen, dataId := p.dataId, reportTime := p.reportTime,
         priority := priority, totalSize := p.totalSize, pageCount := p.pageCount,
         lastChunkSize := p.lastChunkSize, crc32 := p.crc32, received := 0,
         totalChunks := Chunks(p.totalSize), bitmap := ClearBitmap())
  }

  /** validate_large_data_slot. */
  function ValidateSlot(s: Ld, p: InitPkt, priority: uint8): (Ld, Status)
    requires Shape(s) && InitAcceptable(p)
  {
    if s.busy then (s, Busy)
    else match FindSlot(s.slots, p.gen, p.dataId)
      case Some(i) => (s, if s.slots[i].ready then Complete else AlreadyExists)
      case None =>
        match Place(s, p.totalSize)
        case None => (s, ResourceUnavailable)
        case Some((idx, _)) => (Filled(s, p.totalSize, Announced(s.slots[idx], p, priority)).(busy := true), Success)
  }

  lemma FreshBitmap(n: nat)
    requires n <= BitmapBits()
    ensures Count(ClearBitmap(), n) == 0
    ensures forall k :: 0 <= k < BitmapBits() ==> !Has(ClearBitmap(), k)
  {
    CountZero(BITMAP_BYTES, n);
    forall k | 0 <= k < BitmapBits()
      ensures !Has(ClearBitmap(), k)
    {
      ZeroHasNoBit(k % 8);
    }
  }

  lemma {:induction false} ZeroHasNoBit(j: nat)
    ensures !BitIn(0, j)
  {
    if j > 0 {
      ZeroHasNoBit(j - 1);
    }
  }

  lemma AnnouncedBookkept(s: Ld, p: InitPkt, priority: uint8)
    requires Shape(s) && InitAcceptable(p) && Place(s, p.totalSize).Some?
    ensures var (idx, _) := Place(s, p.totalSize).value;
            idx < SLOTS && Bookkept(Filled(s, p.totalSize, Announced(s.slots[idx], p, priority)).slots[idx])
  {
    var (idx, _) := Place(s, p.totalSize).value;
    var sl := Announced(s.slots[idx], p, priority);
    PlacedAt(s, p.totalSize, sl);
    TransferBounds(p.totalSize);
    FreshBitmap(sl.totalChunks);
    assert !Has(sl.bitmap, 0);
  }

  /** An INIT, whatever it announces, keeps every invariant of the slot table and touches no memory. */
  lemma InitKeepsReceiving(s: Ld, p: InitPkt, priority: uint8)
    requires Receiving(s) && InitAcceptable(p)
    ensures Receiving(ValidateSlot(s, p, priority).0)
    ensures ValidateSlot(s, p, priority).0.mem == s.mem
  {
    if !s.busy && FindSlot(s.slots, p.gen, p.dataId).None? && Place(s, p.totalSize).Some? {
      var (idx, _) := Place(s, p.totalSize).value;
      var sl := Announced(s.slots[idx], p, priority);
      AllocKeepsOwnership(s, p.totalSize, sl);
      AnnouncedBookkept(s, p, priority);
    }
  }

  // ------------------------------------------------------------------ CHUNK

  function Linear(page: nat, chunk: nat): nat {
    page * CHUNKS_PER_PAGE + chunk
  }

  /** The size of chunk k of a slot, as sender and receiver compute it. */
  function ChunkLen(sl: Slot, k: nat): uint16 {
    if k == sl.totalChunks - 1 then sl.lastChunkSize else CHUNK
  }

  function ChunkAddr(sl: Slot, k: nat): nat {
    sl.base + k * CHUNK
  }

  predicate InRange(sl: Slot, p: ChunkPkt) {
    p.page < sl.pageCount && p.chunk < CHUNKS_PER_PAGE && Linear(p.page, p.chunk) < sl.totalChunks
  }

  function Received(sl: Slot, k: nat): Slot
    requires k < BitmapBits()
  {
    sl.(received := (sl.received + 1) % 0x1_0000, bitmap := Mark(sl.bitmap, k))
  }

  /** What happens once a chunk is stored: the last missing one triggers the checksum. */
  function Finish(s: Ld, idx: nat, fault: nat): (Ld, Status)
    requires Shape(s) && idx < SLOTS
  {
    var sl := s.slots[idx];
    if sl.received < sl.totalChunks then (s, Success)
    else if VerifyOk(s.mem, sl, fault) then (s.(slots := s.slots[idx := sl.(ready := true)], busy := false), Success)
    else (Release(s, idx).(busy := false), CrcFail)
  }

  /** validate_large_data_chunk. `good` bounds the bursts of the write, `fault` is the stage of the
      checksum read-back that fails. */
  function ValidateChunk(s: Ld, p: ChunkPkt, good: nat, fault: nat): (Ld, Status)
    requires Receiving(s) && |p.data| == CHUNK
  {
    match FindSlot(s.slots, p.gen, p.dataId)
    case None => (s, NotFound)
    case Some(idx) =>
      var sl := s.slots[idx];
      var k := Linear(p.page, p.chunk);
      if !InRange(sl, p) then (s, InvalidParameter)
      else if Has(sl.bitmap, k) then (s, AlreadyExists)
      else
        var stored := s.(mem := Store(s.mem, ChunkAddr(sl, k), p.data[..ChunkLen(sl, k)], good));
        if !StoreOk(ChunkAddr(sl, k), ChunkLen(sl, k), good) then (stored, Failure)
        else Finish(stored.(slots := s.slots[idx := Received(sl, k)]), idx, fault)
  }

  /** A chunk's bytes lie inside the pages of its slot. */
  lemma ChunkInPages(sl: Slot, k: nat)
    requires Bookkept(sl) && k < sl.totalChunks
    ensures sl.base <= ChunkAddr(sl, k)
    ensures ChunkAddr(sl, k) + ChunkLen(sl, k) <= sl.base + Pages(sl.totalSize) * PAGE_SIZE <= PSRAM_SIZE
  {
    TransferBounds(sl.totalSize);
  }

  /** Marking a chunk sets no bit beyond the last one and raises the count by one. */
  lemma MarkTally(bitmap: Bitmap, k: nat, n: nat)
    requires k < n <= BitmapBits() && !Has(bitmap, k)
    requires forall m :: n <= m < BitmapBits() ==> !Has(bitmap, m)
    ensures Count(Mark(bitmap, k), n) == Count(bitmap, n) + 1
    ensures forall m :: n <= m < BitmapBits() ==> !Has(Mark(bitmap, k), m)
  {
    CountMark(bitmap, k, n);
    forall m | n <= m < BitmapBits()
      ensures !Has(Mark(bitmap, k), m)
    {
      MarkExact(bitmap, k, m);
    }
  }

  lemma ReceivedTallied(sl: Slot, k: nat)
    requires Tallied(sl) && k < sl.totalChunks && !Has(sl.bitmap, k)
    ensures Tallied(Received(sl, k)) && Received(sl, k).received == sl.received + 1 <= sl.totalChunks
  {
    MarkTally(sl.bitmap, k, sl.totalChunks);
    var t := Received(sl, k);
    assert t.received == Count(t.bitmap, t.totalChunks);
  }

  lemma OpenSlotCounts(sl: Slot, k: nat)
    requires Bookkept(sl) && k < sl.totalChunks && !Has(sl.bitmap, k)
    ensures !sl.ready && Tallied(Received(sl, k))
  {
    CompleteIffAllArrived(sl);
    ReceivedTallied(sl, k);
  }

  /** Changing a slot without moving it leaves the ownership map as it was. */
  lemma SameFootprint(s: Ld, t: Ld, idx: nat)
    requires Ownership(s) && Shape(t) && t.empty == s.empty && idx < SLOTS
    requires forall i :: 0 <= i < SLOTS && i != idx ==> t.slots[i] == s.slots[i]
    requires t.slots[idx].active == s.slots[idx].active
    requires t.slots[idx].base == s.slots[idx].base && t.slots[idx].totalSize == s.slots[idx].totalSize
    ensures Ownership(t)
  {
    assert forall i, p :: 0 <= i < SLOTS ==> (Owns(t.slots[i], p) <==> Owns(s.slots[i], p));
    forall p | 0 <= p < MAX_PAGES
      ensures Owned(t.slots, p) <==> Owned(s.slots, p)
    {
      if Owned(s.slots, p) {
        var i :| 0 <= i < SLOTS && Owns(s.slots[i], p);
        assert Owns(t.slots[i], p);
      }
    }
  }

  /** Slot idx has just counted a chunk; every other slot is as it should be. */
  ghost predicate JustCounted(s: Ld, idx: nat) {
    && Ownership(s) && idx < SLOTS && s.slots[idx].active
    && (forall i :: 0 <= i < SLOTS && i != idx && s.slots[i].active ==> Bookkept(s.slots[i]))
    && Tallied(s.slots[idx]) && !s.slots[idx].ready
  }

  lemma FinishKeepsReceiving(s: Ld, idx: nat, fault: nat)
    requires JustCounted(s, idx)
    ensures Receiving(Finish(s, idx, fault).0)
  {
    var t := Finish(s, idx, fault).0;
    var sl := s.slots[idx];
    if sl.received < sl.totalChunks {
    } else if VerifyOk(s.mem, sl, fault) {
      SameFootprint(s, t, idx);
    } else {
      ReleaseKeepsOwnership(s, idx);
      SameSlotsOwnership(Release(s, idx), t);
    }
  }

  lemma SameSlotsOwnership(s: Ld, t: Ld)
    requires Ownership(s) && t.slots == s.slots && t.empty == s.empty && |t.mem| == PSRAM_SIZE
    ensures Ownership(t)
  {
  }

  /** No chunk packet whatsoever breaks the bookkeeping. */
  lemma ChunkKeepsReceiving(s: Ld, p: ChunkPkt, good: nat, fault: nat)
    requires Receiving(s) && |p.data| == CHUNK
    ensures Receiving(ValidateChunk(s, p, good, fault).0)
  {
    var f := FindSlot(s.slots, p.gen, p.dataId);
    if f.Some? && InRange(s.slots[f.value], p) && !Has(s.slots[f.value].bitmap, Linear(p.page, p.chunk)) {
      var idx, sl, k := f.value, s.slots[f.value], Linear(p.page, p.chunk);
      var mem := Store(s.mem, ChunkAddr(sl, k), p.data[..ChunkLen(sl, k)], good);
      AcceptKeepsReceiving(s, mem, idx, k, fault);
      SameSlotsOwnership(s, s.(mem := mem));
    }
  }

  lemma AcceptKeepsReceiving(s: Ld, mem: seq<byte>, idx: nat, k: nat, fault: nat)
    requires Receiving(s) && |mem| == PSRAM_SIZE && idx < SLOTS && s.slots[idx].active
    requires k < s.slots[idx].totalChunks && !Has(s.slots[idx].bitmap, k)
    ensures var t := s.(mem := mem, slots := s.slots[idx := Received(s.slots[idx], k)]);
            Receiving(Finish(t, idx, fault).0)
  {
    var t := s.(mem := mem, slots := s.slots[idx := Received(s.slots[idx], k)]);
    OpenSlotCounts(s.slots[idx], k);
    SameFootprint(s, t, idx);
    FinishKeepsReceiving(t, idx, fault);
  }

  // ------------------------------------------------------------ the handlers

  predicate Relay(role: DeviceType) {
    role == Gateway || role == Anchor
  }

  /** handle_large_data_init on a device of type role, for a packet addressed to it: the new state and
      the status of the INIT_ACK, if one is sent. */
  function HandleInit(s: Ld, role: DeviceType, fromType: DeviceType, p: InitPkt, priority: uint8): (Ld, Option<Status>)
    requires Shape(s)
  {
    if fromType == UnknownType then (s, None)
    else if !InitAcceptable(p) then (s, Some(InvalidParameter))
    else if !Relay(role) || (fromType != Anchor && fromType != Sensor) then (s, None)
    else
      var (t, st) := ValidateSlot(s, p, priority);
      (t, Some(st))
  }

  /** handle_large_data_chunk, likewise. */
  function HandleChunk(s: Ld, role: DeviceType, fromType: DeviceType, p: ChunkPkt, good: nat, fault: nat)
    : (Ld, Option<Status>)
    requires (Relay(role) ==> Receiving(s)) && |p.data| == CHUNK
  {
    if !Relay(role) || (fromType != Anchor && fromType != Sensor) then (s, None)
    else
      var (t, st) := ValidateChunk(s, p, good, fault);
      (t, Some(st))
  }

  // ------------------------------------------------- isolation and freezing

  /** Different active slots occupy disjoint address ranges. */
  lemma RegionsDisjoint(s: Ld, i: nat, j: nat)
    requires Ownership(s) && i < SLOTS && j < SLOTS && i != j && s.slots[i].active && s.slots[j].active
    ensures s.slots[i].base + Pages(s.slots[i].totalSize) * PAGE_SIZE <= s.slots[j].base ||
            s.slots[j].base + Pages(s.slots[j].totalSize) * PAGE_SIZE <= s.slots[i].base
  {
    TransferBounds(s.slots[i].totalSize);
    TransferBounds(s.slots[j].totalSize);
    var p, q := StartPage(s.slots[i]), StartPage(s.slots[j]);
    if p <= q < p + Pages(s.slots[i].totalSize) {
      assert Owns(s.slots[i], q) && Owns(s.slots[j], q);
    } else if q <= p < q + Pages(s.slots[j].totalSize) {
      assert Owns(s.slots[i], p) && Owns(s.slots[j], p);
    }
  }

  /** A chunk packet, whatever it and its INIT announced, changes memory only inside the pages of the
      incomplete slot it is addressed to. */
  lemma ChunkIsolated(s: Ld, p: ChunkPkt, good: nat, fault: nat, lo: nat, hi: nat)
    requires Receiving(s) && |p.data| == CHUNK && lo <= hi <= PSRAM_SIZE
    requires forall i :: 0 <= i < SLOTS && s.slots[i].active && !s.slots[i].ready &&
                         s.slots[i].gen == p.gen && s.slots[i].dataId == p.dataId ==>
               hi <= s.slots[i].base || s.slots[i].base + Pages(s.slots[i].totalSize) * PAGE_SIZE <= lo
    ensures ValidateChunk(s, p, good, fault).0.mem[lo..hi] == s.mem[lo..hi]
  {
    var f := FindSlot(s.slots, p.gen, p.dataId);
    var k := Linear(p.page, p.chunk);
    if f.Some? && InRange(s.slots[f.value], p) && !Has(s.slots[f.value].bitmap, k) {
      var sl := s.slots[f.value];
      OpenSlotCounts(sl, k);
      ChunkInPages(sl, k);
      StoreOutside(s.mem, ChunkAddr(sl, k), p.data[..ChunkLen(sl, k)], good, lo, hi);
    }
  }

  /** Once a slot is complete no packet changes its record or any byte of its pages, and it stays
      allocated. */
  lemma ReadyFrozen(s: Ld, j: nat, p: ChunkPkt, good: nat, fault: nat)
    requires Receiving(s) && |p.data| == CHUNK && j < SLOTS && s.slots[j].active && s.slots[j].ready
    ensures ValidateChunk(s, p, good, fault).0.slots[j] == s.slots[j]
    ensures var (lo, hi) := (s.slots[j].base, s.slots[j].base + Pages(s.slots[j].totalSize) * PAGE_SIZE);
            hi <= PSRAM_SIZE && ValidateChunk(s, p, good, fault).0.mem[lo..hi] == s.mem[lo..hi]
  {
    ReadyRecordFrozen(s, j, p, good, fault);
    var lo, hi := s.slots[j].base, s.slots[j].base + Pages(s.slots[j].totalSize) * PAGE_SIZE;
    TransferBounds(s.slots[j].totalSize);
    forall i | 0 <= i < SLOTS && s.slots[i].active && !s.slots[i].ready
      ensures hi <= s.slots[i].base || s.slots[i].base + Pages(s.slots[i].totalSize) * PAGE_SIZE <= lo
    {
      RegionsDisjoint(s, i, j);
    }
    ChunkIsolated(s, p, good, fault, lo, hi);
  }

  lemma ReadyRecordFrozen(s: Ld, j: nat, p: ChunkPkt, good: nat, fault: nat)
    requires Receiving(s) && |p.data| == CHUNK && j < SLOTS && s.slots[j].active && s.slots[j].ready
    ensures ValidateChunk(s, p, good, fault).0.slots[j] == s.slots[j]
  {
    var f := FindSlot(s.slots, p.gen, p.dataId);
    if f.Some? && InRange(s.slots[f.value], p) && !Has(s.slots[f.value].bitmap, Linear(p.page, p.chunk)) {
      OpenSlotCounts(s.slots[f.value], Linear(p.page, p.chunk));
    }
  }

  // --------------------------------------------------------------- busy flag

  predicate Open(sl: Slot) {
    sl.active && !sl.ready
  }

  ghost predicate SomeOpen(s: Ld) {
    exists i :: 0 <= i < |s.slots| && Open(s.slots[i])
  }

  /** At most one transfer is incomplete, and ld_busy says whether there is one. */
  ghost predicate OneOpen(s: Ld) {
    && Shape(s)
    && (forall i, j :: 0 <= i < SLOTS && 0 <= j < SLOTS && Open(s.slots[i]) && Open(s.slots[j]) ==> i == j)
    && (s.busy <==> SomeOpen(s))
  }

  lemma InitKeepsOneOpen(s: Ld, p: InitPkt, priority: uint8)
    requires OneOpen(s) && InitAcceptable(p)
    ensures OneOpen(ValidateSlot(s, p, priority).0)
    ensures ValidateSlot(s, p, priority).1 == Success <==>
              !SomeOpen(s) && FindSlot(s.slots, p.gen, p.dataId).None? && Place(s, p.totalSize).Some?
  {
    var t := ValidateSlot(s, p, priority).0;
    if !s.busy && FindSlot(s.slots, p.gen, p.dataId).None? && Place(s, p.totalSize).Some? {
      var (idx, _) := Place(s, p.totalSize).value;
      assert forall i :: 0 <= i < SLOTS && i != idx ==> t.slots[i] == s.slots[i] && !Open(s.slots[i]);
      assert Open(t.slots[idx]);
    }
  }

  lemma ChunkKeepsOneOpen(s: Ld, p: ChunkPkt, good: nat, fault: nat)
    requires Receiving(s) && OneOpen(s) && |p.data| == CHUNK
    ensures OneOpen(ValidateChunk(s, p, good, fault).0)
  {
    var f, k := FindSlot(s.slots, p.gen, p.dataId), Linear(p.page, p.chunk);
    if f.Some? && InRange(s.slots[f.value], p) && !Has(s.slots[f.value].bitmap, k) {
      var sl := s.slots[f.value];
      OpenSlotCounts(sl, k);
      var mem := Store(s.mem, ChunkAddr(sl, k), p.data[..ChunkLen(sl, k)], good);
      var t := s.(mem := mem, slots := s.slots[f.value := Received(sl, k)]);
      OnlyOpen(s, t, f.value);
      FinishKeepsOneOpen(t, f.value, fault);
    }
  }

  /** Slot idx is the one incomplete slot. */
  lemma OnlyOpen(s: Ld, t: Ld, idx: nat)
    requires OneOpen(s) && Shape(t) && idx < SLOTS && Open(s.slots[idx]) && Open(t.slots[idx]) && t.busy == s.busy
    requires forall i :: 0 <= i < SLOTS && i != idx ==> t.slots[i] == s.slots[i]
    ensures OneOpen(t)
  {
  }

  lemma FinishKeepsOneOpen(s: Ld, idx: nat, fault: nat)
    requires OneOpen(s) && idx < SLOTS && Open(s.slots[idx])
    ensures OneOpen(Finish(s, idx, fault).0)
  {
    var t := Finish(s, idx, fault).0;
    assert forall i :: 0 <= i < SLOTS && i != idx ==> t.slots[i] == s.slots[i] && !Open(s.slots[i]);
  }

  /** An INIT, a repeat of the one being received included, is answered BUSY exactly while some transfer is
      incomplete, and then changes nothing. */
  lemma RepeatedInitIsBusy(s: Ld, p: InitPkt, priority: uint8)
    requires OneOpen(s) && InitAcceptable(p)
    ensures ValidateSlot(s, p, priority).1 == Busy <==> SomeOpen(s)
    ensures SomeOpen(s) ==> ValidateSlot(s, p, priority).0 == s
  {
    if s.busy {
      assert SomeOpen(s);
    }
  }
}
