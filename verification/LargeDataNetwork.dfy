/** Any number of devices, any number of hops, a channel that loses, repeats and reorders packets but
    does not alter them (the tracker layer and the radio's own CRC see to that). */
module LargeDataNetwork {
  import opened Basics
  import opened Pieces
  import opened LargeDataTypes
  import opened Bitmaps
  import opened PsramDriver
  import opened Crc32Ieee
  import opened LargeDataStore
  import opened LargeDataReceiver
  import opened LargeDataSender
  import opened LargeDataTicks
  import opened LargeDataSerial
  import opened LargeDataContent
  import opened LargeDataStaging
  import opened LargeDataGateway
  import opened HostReader

  // -------------------------------------------------- what a sender works from

  /** Slot sl is the complete slot whose region the sender reads. */
  predicate Backs(sl: Slot, snd: Sender) {
    sl.active && sl.ready && sl.base == snd.base && sl.totalSize == snd.totalSize
  }

  ghost predicate HasBacking(s: Ld) {
    exists i :: 0 <= i < |s.slots| && Backs(s.slots[i], s.snd)
  }

  /** The region the sender reads holds b. */
  ghost predicate Stored(s: Ld, b: Blob) {
    && s.snd.totalSize == |b| && s.snd.base + |b| <= |s.mem| && s.mem[s.snd.base..s.snd.base + |b|] == b
    && HasBacking(s)
  }

  predicate CutForRadio(snd: Sender, b: Blob) {
    && snd.totalSize == |b| && snd.totalChunks == Chunks(|b|) && snd.lastChunkSize == LastPiece(|b|, CHUNK)
    && snd.pageCount == Pages(|b|) && snd.crc32 == Crc32(b)
  }

  ghost predicate RadioBacked(s: Ld, blobs: Blobs) {
    && s.snd.lastChunkSize <= CHUNK
    && (s.snd.active ==>
          (s.snd.gen, s.snd.dataId) in blobs &&
          CutForRadio(s.snd, blobs[(s.snd.gen, s.snd.dataId)]) && Stored(s, blobs[(s.snd.gen, s.snd.dataId)]))
  }

  ghost predicate SerialBacked(s: Ld, blobs: Blobs) {
    s.snd.active ==>
      (s.snd.gen, s.snd.dataId) in blobs &&
      Serves(s, blobs[(s.snd.gen, s.snd.dataId)]) && HasBacking(s)
  }

  // -------------------------------------------------------- packets are genuine

  lemma PacketGenuine(s: Ld, b: Blob, k: nat, page: uint8, chunk: uint8)
    requires Shape(s) && CutForRadio(s.snd, b) && Stored(s, b) && SendLen(s.snd, k) <= CHUNK
    requires s.snd.base + k * CHUNK + SendLen(s.snd, k) <= PSRAM_SIZE && Linear(page, chunk) == k
    ensures Genuine(Packet(s, k, page, chunk), b)
  {
    if k < Chunks(|b|) {
      PieceStart(|b|, CHUNK, k);
      LastPieceBounds(|b|, CHUNK);
      SliceOfSlice(s.mem, s.snd.base, |b|, k * CHUNK, PieceEnd(|b|, CHUNK, k));
      var n := SendLen(s.snd, k);
      assert k * CHUNK + n == PieceEnd(|b|, CHUNK, k);
      assert Packet(s, k, page, chunk).data[..n] == Piece(b, CHUNK, k);
    }
  }

  /** Every packet of ps belongs to the sender's key and is genuine. */
  ghost predicate AllGenuine(ps: seq<ChunkPkt>, snd: Sender, b: Blob) {
    forall p :: p in ps ==> p.gen == snd.gen && p.dataId == snd.dataId && Genuine(p, b)
  }

  lemma HeadGenuine(s: Ld, b: Blob, k: nat)
    requires Shape(s) && CutForRadio(s.snd, b) && Stored(s, b) && s.snd.lastChunkSize <= CHUNK && k < s.snd.totalChunks
    requires s.snd.base + k * CHUNK + SendLen(s.snd, k) <= PSRAM_SIZE
    ensures Genuine(Packet(s, k, k / CHUNKS_PER_PAGE % 0x100, k % CHUNKS_PER_PAGE), b)
  {
    TransferBounds(|b|);
    SmallIndex(k);
    PacketGenuine(s, b, k, k / CHUNKS_PER_PAGE % 0x100, k % CHUNKS_PER_PAGE);
  }

  lemma SmallIndex(k: nat)
    requires k < BitmapBits()
    ensures Linear(k / CHUNKS_PER_PAGE % 0x100, k % CHUNKS_PER_PAGE) == k
  {
  }

  lemma {:induction false} WindowGenuine(s: Ld, b: Blob, k: nat, end: nat, good: nat)
    requires Shape(s) && CutForRadio(s.snd, b) && Stored(s, b) && s.snd.lastChunkSize <= CHUNK
    ensures AllGenuine(Window(s, k, end, good).0, s.snd, b)
    decreases end - k
  {
    if Window(s, k, end, good).0 != [] {
      HeadGenuine(s, b, k);
      WindowGenuine(s, b, k + 1, end, good - 1);
    }
  }

  lemma SendNextGenuine(s: Ld, b: Blob, good: nat)
    requires Shape(s) && CutForRadio(s.snd, b) && Stored(s, b) && s.snd.lastChunkSize <= CHUNK
    ensures AllGenuine(SendNext(s, good).1, s.snd, b)
  {
    WindowGenuine(s, b, s.snd.nextChunk, s.snd.nextChunk + WINDOW, good);
  }

  lemma CountAckGenuine(s: Ld, b: Blob, good: nat)
    requires Shape(s) && CutForRadio(s.snd, b) && Stored(s, b) && s.snd.lastChunkSize <= CHUNK
    ensures AllGenuine(CountAck(s, good).1, s.snd, b)
  {
    var t := Advance(s);
    assert Stored(t, b) by {
      var i :| 0 <= i < |s.slots| && Backs(s.slots[i], s.snd);
      assert Backs(t.slots[i], t.snd);
    }
    SendNextGenuine(t, b, good);
  }

  /** Whatever ACKs arrive, genuine or not, only genuine packets are sent. */
  lemma InitAckGenuine(s: Ld, role: DeviceType, a: InitAck, good: nat, b: Blob)
    requires Shape(s) && CutForRadio(s.snd, b) && Stored(s, b) && s.snd.lastChunkSize <= CHUNK
    ensures AllGenuine(HandleInitAck(s, role, a, good).1, s.snd, b)
  {
    SendNextGenuine(s, b, good);
  }

  lemma RepeatGenuine(s: Ld, role: DeviceType, a: ChunkAck, good: nat, b: Blob)
    requires Shape(s) && CutForRadio(s.snd, b) && Stored(s, b) && s.snd.lastChunkSize <= CHUNK
    requires Counted(s, role, a) && Again(a) && Resend(s, a.page, a.chunk, good).2
    ensures AllGenuine(HandleChunkAck(s, role, a, good).1, s.snd, b)
  {
    AgainThenCount(s, role, a, good);
    ResentGenuine(s, b, a, good);
  }

  lemma ResentGenuine(s: Ld, b: Blob, a: ChunkAck, good: nat)
    requires Shape(s) && CutForRadio(s.snd, b) && Stored(s, b) && s.snd.lastChunkSize <= CHUNK && good > 0
    ensures AllGenuine(Resend(s, a.page, a.chunk, good).1 + CountAck(s, good - 1).1, s.snd, b)
  {
    CountAckGenuine(s, b, good - 1);
    ResendGenuine(s, b, a, good);
    GenuineConcat(Resend(s, a.page, a.chunk, good).1, CountAck(s, good - 1).1, s.snd, b);
  }

  lemma ResendGenuine(s: Ld, b: Blob, a: ChunkAck, good: nat)
    requires Shape(s) && CutForRadio(s.snd, b) && Stored(s, b) && s.snd.lastChunkSize <= CHUNK
    ensures AllGenuine(Resend(s, a.page, a.chunk, good).1, s.snd, b)
  {
    if Resend(s, a.page, a.chunk, good).2 {
      PacketGenuine(s, b, Linear(a.page, a.chunk), a.page, a.chunk);
    }
  }

  lemma GenuineConcat(ps: seq<ChunkPkt>, qs: seq<ChunkPkt>, snd: Sender, b: Blob)
    requires AllGenuine(ps, snd, b) && AllGenuine(qs, snd, b)
    ensures AllGenuine(ps + qs, snd, b)
  {
  }

  lemma ChunkAckGenuine(s: Ld, role: DeviceType, a: ChunkAck, good: nat, b: Blob)
    requires Shape(s) && CutForRadio(s.snd, b) && Stored(s, b) && s.snd.lastChunkSize <= CHUNK
    ensures AllGenuine(HandleChunkAck(s, role, a, good).1, s.snd, b)
  {
    if !Counted(s, role, a) {
      UncountedCases(s, role, a, good);
    } else if !Again(a) {
      CountAckGenuine(s, b, good);
    } else if Resend(s, a.page, a.chunk, good).2 {
      RepeatGenuine(s, role, a, good, b);
    }
  }

  // --------------------------------------------------------------- quiet steps

  /** Only flags, the busy bit and the sender changed. */
  ghost predicate Quiet(s: Ld, t: Ld) {
    && Shape(s) && Shape(t) && t.mem == s.mem && t.empty == s.empty
    && forall i :: 0 <= i < SLOTS ==>
         t.slots[i] == s.slots[i].(sent := t.slots[i].sent, transferred := t.slots[i].transferred)
  }

  lemma QuietOwnership(s: Ld, t: Ld)
    requires Quiet(s, t) && Ownership(s)
    ensures Ownership(t)
  {
    forall p | 0 <= p < MAX_PAGES
      ensures Owned(t.slots, p) <==> Owned(s.slots, p)
    {
      if Owned(s.slots, p) {
        var i :| 0 <= i < SLOTS && Owns(s.slots[i], p);
        assert Owns(t.slots[i], p);
      }
      if Owned(t.slots, p) {
        var i :| 0 <= i < SLOTS && Owns(t.slots[i], p);
        assert Owns(s.slots[i], p);
      }
    }
    forall i, j, p | 0 <= i < SLOTS && 0 <= j < SLOTS && Owns(t.slots[i], p) && Owns(t.slots[j], p)
      ensures i == j
    {
      assert Owns(s.slots[i], p) && Owns(s.slots[j], p);
    }
  }

  lemma QuietRelaying(s: Ld, t: Ld, blobs: Blobs)
    requires Quiet(s, t) && Relaying(s, blobs)
    ensures Relaying(t, blobs)
  {
    QuietOwnership(s, t);
    forall i | 0 <= i < SLOTS
      ensures t.slots[i].active ==> Bookkept(t.slots[i])
      ensures SlotContent(t.mem, t.slots[i], blobs)
    {
      assert SlotContent(s.mem, s.slots[i], blobs);
      assert Region(t.mem, t.slots[i]) == Region(s.mem, s.slots[i]);
    }
  }

  lemma QuietStaging(s: Ld, t: Ld, blobs: Blobs)
    requires Quiet(s, t) && Staging(s, blobs)
    ensures Staging(t, blobs)
  {
    QuietOwnership(s, t);
    forall i | 0 <= i < SLOTS
      ensures t.slots[i].active ==> Booked(t.slots[i])
      ensures StagedContent(t.mem, t.slots[i], blobs)
    {
      assert StagedContent(s.mem, s.slots[i], blobs);
      assert Region(t.mem, t.slots[i]) == Region(s.mem, s.slots[i]);
    }
  }

  lemma QuietBacking(s: Ld, t: Ld)
    requires Quiet(s, t) && HasBacking(s) && t.snd.base == s.snd.base && t.snd.totalSize == s.snd.totalSize
    ensures HasBacking(t)
  {
    var i :| 0 <= i < |s.slots| && Backs(s.slots[i], s.snd);
    assert Backs(t.slots[i], t.snd);
  }

  lemma QuietRadio(s: Ld, t: Ld, blobs: Blobs)
    requires Quiet(s, t) && RadioBacked(s, blobs) && SameTransfer(t.snd, s.snd)
    ensures RadioBacked(t, blobs)
  {
    if t.snd.active {
      QuietBacking(s, t);
    }
  }

  lemma MarkSentQuiet(s: Ld, sent: bool)
    requires Shape(s)
    ensures Quiet(s, MarkSent(s, sent)) && MarkSent(s, sent).snd == s.snd
  {
  }

  lemma CountAckQuiet(s: Ld, good: nat)
    requires Shape(s) && s.snd.lastChunkSize <= CHUNK
    ensures Quiet(s, CountAck(s, good).0)
  {
    MarkSentQuiet(SendNext(Advance(s), good).0, false);
  }

  lemma InitAckQuiet(s: Ld, role: DeviceType, a: InitAck, good: nat)
    requires Shape(s) && s.snd.lastChunkSize <= CHUNK
    ensures Quiet(s, HandleInitAck(s, role, a, good).0)
  {
    if a.status == Busy {
      MarkSentQuiet(s, false);
    }
  }

  lemma ChunkAckQuiet(s: Ld, role: DeviceType, a: ChunkAck, good: nat)
    requires Shape(s) && s.snd.lastChunkSize <= CHUNK
    ensures Quiet(s, HandleChunkAck(s, role, a, good).0)
  {
    if !Counted(s, role, a) {
      UncountedCases(s, role, a, good);
      if Final(s.snd, a) {
        MarkSentQuiet(s, true);
      } else {
        MarkSentQuiet(Deactivate(s), false);
      }
    } else if !Again(a) {
      CountAckQuiet(s, good);
    } else if Resend(s, a.page, a.chunk, good).2 {
      AgainThenCount(s, role, a, good);
      CountAckQuiet(s, good - 1);
    }
  }

  // --------------------------------------------------------------------- ticks

  /** A slot that was dropped holds nothing any more. */
  lemma ReleaseRelaying(s: Ld, i: nat, blobs: Blobs)
    requires Relaying(s, blobs) && i < SLOTS && s.slots[i].active
    ensures Relaying(Release(s, i), blobs)
  {
    ReleaseKeepsOwnership(s, i);
    var t := Release(s, i);
    assert forall j :: 0 <= j < SLOTS && j != i ==> t.slots[j] == s.slots[j];
    forall j | 0 <= j < SLOTS
      ensures SlotContent(t.mem, t.slots[j], blobs)
    {
      assert SlotContent(s.mem, s.slots[j], blobs);
    }
  }

  lemma ReleaseStaging(s: Ld, i: nat, blobs: Blobs)
    requires Staging(s, blobs) && i < SLOTS && s.slots[i].active
    ensures Staging(Release(s, i), blobs)
  {
    ReleaseBooks(s, i);
    ReleasedContent(s, i, blobs);
  }

  /** The state a radio tick activates is backed by the slot it picked. */
  lemma ActivationBacked(s: Ld, i: nat, parent: uint16, blobs: Blobs)
    requires Shape(s) && i < SLOTS && s.slots[i].active && s.slots[i].ready && Placed(s.slots[i])
    requires (s.slots[i].gen, s.slots[i].dataId) in blobs &&
               Whole(s.mem, s.slots[i], blobs[(s.slots[i].gen, s.slots[i].dataId)])
    ensures var t := s.(snd := RadioSender(s.slots[i], parent), slots := s.slots[i := s.slots[i].(sent := true)]);
      Quiet(s, t) && RadioBacked(t, blobs)
  {
    var t := s.(snd := RadioSender(s.slots[i], parent), slots := s.slots[i := s.slots[i].(sent := true)]);
    var b := blobs[(s.slots[i].gen, s.slots[i].dataId)];
    LastPieceBounds(|b|, CHUNK);
    RegionInside(s.mem, s.slots[i]);
    assert Backs(t.slots[i], t.snd);
  }

  lemma ServingBacked(s: Ld, i: nat, blobs: Blobs)
    requires Shape(s) && i < SLOTS && s.slots[i].active && s.slots[i].ready && Placed(s.slots[i])
    requires (s.slots[i].gen, s.slots[i].dataId) in blobs &&
               Whole(s.mem, s.slots[i], blobs[(s.slots[i].gen, s.slots[i].dataId)])
    ensures var t := s.(snd := SerialSender(s.snd, s.slots[i]), slots := s.slots[i := s.slots[i].(sent := true)]);
      Quiet(s, t) && SerialBacked(t, blobs)
  {
    var t := s.(snd := SerialSender(s.snd, s.slots[i]), slots := s.slots[i := s.slots[i].(sent := true)]);
    var b := blobs[(s.slots[i].gen, s.slots[i].dataId)];
    TransferBounds(|b|);
    RegionInside(s.mem, s.slots[i]);
    assert Backs(t.slots[i], t.snd);
  }

  /** What a tick announces describes the blob. */
  lemma AnnouncedGenuine(sl: Slot, parent: uint16, now: int, b: Blob, blobs: Blobs)
    requires RadioMeta(sl, b) && (sl.gen, sl.dataId) in blobs && blobs[(sl.gen, sl.dataId)] == b
    ensures GenuineInit(InitFor(RadioSender(sl, parent), now), blobs)
  {
  }

  lemma AnchorTickKeeps(s: Ld, expired: bool, parent: uint16, now: int, blobs: Blobs)
    requires Relaying(s, blobs) && RadioBacked(s, blobs)
    ensures var (t, out) := RadioTick(s, Anchor, expired, parent, now);
      Relaying(t, blobs) && RadioBacked(t, blobs) && (out.Some? ==> GenuineInit(out.value, blobs))
  {
    var i := WaitingFrom(s.slots, 0);
    if s.snd.active {
      MarkSentQuiet(s, false);
      QuietRelaying(s, Deactivate(MarkSent(s, false)), blobs);
    } else if i < SLOTS {
      if !Sendable(s.slots[i]) {
        ReleaseRelaying(s, i, blobs);
      } else {
        assert SlotContent(s.mem, s.slots[i], blobs);
        var b := blobs[(s.slots[i].gen, s.slots[i].dataId)];
        CompleteIsWhole(s.mem, s.slots[i], b);
        ActivationBacked(s, i, parent, blobs);
        AnnouncedGenuine(s.slots[i], parent, now, b, blobs);
        QuietRelaying(s, RadioTick(s, Anchor, expired, parent, now).0, blobs);
      }
    }
  }

  lemma SensorTickKeeps(s: Ld, expired: bool, parent: uint16, now: int, blobs: Blobs)
    requires Staging(s, blobs) && RadioBacked(s, blobs)
    ensures var (t, out) := RadioTick(s, Sensor, expired, parent, now);
      Staging(t, blobs) && RadioBacked(t, blobs) && (out.Some? ==> GenuineInit(out.value, blobs))
  {
    var i := WaitingFrom(s.slots, 0);
    if s.snd.active {
      QuietStaging(s, Deactivate(s), blobs);
    } else if i < SLOTS {
      if !Sendable(s.slots[i]) {
        ReleaseStaging(s, i, blobs);
      } else {
        assert StagedContent(s.mem, s.slots[i], blobs);
        var b := blobs[(s.slots[i].gen, s.slots[i].dataId)];
        ActivationBacked(s, i, parent, blobs);
        AnnouncedGenuine(s.slots[i], parent, now, b, blobs);
        QuietStaging(s, RadioTick(s, Sensor, expired, parent, now).0, blobs);
      }
    }
  }

  /** The gateway drops a transfer whose generator its mesh table does not know. */
  lemma UnknownDropped(s: Ld, i: nat, blobs: Blobs)
    requires Relaying(s, blobs) && i < SLOTS && 0 < s.slots[i].totalSize <= MAX_TRANSFER
    ensures var t := s.(snd := SerialSender(s.snd, s.slots[i]));
      var j := FindSlot(t.slots, t.snd.gen, t.snd.dataId);
      Relaying(Deactivate(if j.Some? then Release(t, j.value) else t), blobs)
  {
    var t := s.(snd := SerialSender(s.snd, s.slots[i]));
    QuietRelaying(s, t, blobs);
    QuietRelaying(t, Deactivate(t), blobs);
    var j := FindSlot(t.slots, t.snd.gen, t.snd.dataId);
    if j.Some? {
      ReleaseRelaying(t, j.value, blobs);
      QuietRelaying(Release(t, j.value), Deactivate(Release(t, j.value)), blobs);
    }
  }

  lemma ServingStarts(s: Ld, i: nat, blobs: Blobs)
    requires Relaying(s, blobs) && i < SLOTS && s.slots[i].active && s.slots[i].ready && Placed(s.slots[i])
    ensures var t := s.(snd := SerialSender(s.snd, s.slots[i]), slots := s.slots[i := s.slots[i].(sent := true)]);
      Relaying(t, blobs) && SerialBacked(t, blobs)
  {
    assert SlotContent(s.mem, s.slots[i], blobs);
    CompleteIsWhole(s.mem, s.slots[i], blobs[(s.slots[i].gen, s.slots[i].dataId)]);
    ServingBacked(s, i, blobs);
    QuietRelaying(s, s.(snd := SerialSender(s.snd, s.slots[i]), slots := s.slots[i := s.slots[i].(sent := true)]),
        blobs);
  }

  lemma GatewayTickKeeps(s: Ld, known: bool, written: bool, blobs: Blobs)
    requires Relaying(s, blobs) && SerialBacked(s, blobs)
    ensures Relaying(GatewayTick(s, known, written).0, blobs) && SerialBacked(GatewayTick(s, known, written).0, blobs)
  {
    var i := WaitingFrom(s.slots, 0);
    if !s.snd.active && i < SLOTS {
      if !known {
        UnknownDropped(s, i, blobs);
      } else if written {
        ServingStarts(s, i, blobs);
      } else {
        QuietRelaying(s, Deactivate(s.(snd := SerialSender(s.snd, s.slots[i]))), blobs);
      }
    }
  }

  // ------------------------------------------- receiving while sending

  lemma SubSlice(a: seq<byte>, b: seq<byte>, lo: nat, hi: nat, x: nat, y: nat)
    requires |a| == |b| && lo <= x <= y <= hi <= |a| && a[lo..hi] == b[lo..hi]
    ensures a[x..y] == b[x..y]
  {
    forall k | x <= k < y
      ensures a[k] == b[k]
    {
      assert a[lo..hi][k - lo] == b[lo..hi][k - lo];
    }
  }

  lemma ReadyRegionFrozen(s: Ld, j: nat, p: ChunkPkt, good: nat, fault: nat)
    requires Receiving(s) && |p.data| == CHUNK && j < SLOTS && s.slots[j].active && s.slots[j].ready
    ensures Region(ValidateChunk(s, p, good, fault).0.mem, s.slots[j]) == Region(s.mem, s.slots[j])
  {
    ReadyFrozen(s, j, p, good, fault);
    ChunkKeepsReceiving(s, p, good, fault);
    RegionInside(s.mem, s.slots[j]);
    var mem, sl := ValidateChunk(s, p, good, fault).0.mem, s.slots[j];
    SubSlice(mem, s.mem, sl.base, sl.base + Pages(sl.totalSize) * PAGE_SIZE, sl.base, sl.base + sl.totalSize);
  }

  /** What a sender reads depends only on its backing slot and that slot's region. */
  lemma StoredFrame(s: Ld, t: Ld, j: nat, b: Blob)
    requires Stored(s, b) && j < |s.slots| == |t.slots| && Backs(s.slots[j], s.snd)
    requires t.slots[j] == s.slots[j] && t.snd == s.snd && |t.mem| == |s.mem|
    requires Region(t.mem, s.slots[j]) == Region(s.mem, s.slots[j])
    ensures Stored(t, b)
  {
    assert Backs(t.slots[j], t.snd);
  }

  /** No chunk packet disturbs the region a sender is working from. */
  lemma ChunkKeepsStored(s: Ld, p: ChunkPkt, good: nat, fault: nat, b: Blob)
    requires Receiving(s) && |p.data| == CHUNK && Stored(s, b)
    ensures ValidateChunk(s, p, good, fault).0.snd == s.snd && Stored(ValidateChunk(s, p, good, fault).0, b)
  {
    var j :| 0 <= j < |s.slots| && Backs(s.slots[j], s.snd);
    ReadyRecordFrozen(s, j, p, good, fault);
    ReadyRegionFrozen(s, j, p, good, fault);
    ChunkKeepsReceiving(s, p, good, fault);
    ChunkKeepsSender(s, p, good, fault);
    StoredFrame(s, ValidateChunk(s, p, good, fault).0, j, b);
  }

  lemma ChunkKeepsSender(s: Ld, p: ChunkPkt, good: nat, fault: nat)
    requires Receiving(s) && |p.data| == CHUNK
    ensures ValidateChunk(s, p, good, fault).0.snd == s.snd
  {
  }

  lemma InitKeepsStored(s: Ld, p: InitPkt, priority: uint8, b: Blob)
    requires Shape(s) && InitAcceptable(p) && Stored(s, b)
    ensures ValidateSlot(s, p, priority).0.snd == s.snd && Stored(ValidateSlot(s, p, priority).0, b)
  {
    var t := ValidateSlot(s, p, priority).0;
    var j :| 0 <= j < |s.slots| && Backs(s.slots[j], s.snd);
    assert t.slots[j] == s.slots[j];
    assert Backs(t.slots[j], t.snd);
  }

  lemma SerialInitKeepsStored(s: Ld, d: Device, l: InitLine, b: Blob)
    requires Shape(s) && Stored(s, b)
    ensures CmdLdInit(s, d, l).0.snd == s.snd && Stored(CmdLdInit(s, d, l).0, b)
  {
    var t := CmdLdInit(s, d, l).0;
    var j :| 0 <= j < |s.slots| && Backs(s.slots[j], s.snd);
    assert t.slots[j] == s.slots[j];
    assert Backs(t.slots[j], t.snd);
  }

  /** No serial line disturbs it either. */
  lemma SerialChunkKeepsStored(s: Ld, d: Device, l: ChunkLine, good: nat, fault: nat, b: Blob)
    requires StagingBooks(s) && Stored(s, b)
    ensures CmdLdChunk(s, d, l, good, fault).0.snd == s.snd && Stored(CmdLdChunk(s, d, l, good, fault).0, b)
  {
    OnlyWritesChange(s, d, l, good, fault);
    if i: nat :| Writes(s, d, l, i) {
      var j :| 0 <= j < |s.slots| && Backs(s.slots[j], s.snd);
      WriteKeepsOthers(s, d, l, good, fault, i, j);
      StoredFrame(s, CmdLdChunk(s, d, l, good, fault).0, j, b);
    }
  }

  // ------------------------------------------------------------------- devices

  /** What holds of the transport state of a device in every state of the network. */
  ghost predicate LdOk(role: DeviceType, s: Ld, blobs: Blobs) {
    && Shape(s)
    && match role
       case Sensor => Staging(s, blobs) && RadioBacked(s, blobs)
       case Anchor => Relaying(s, blobs) && RadioBacked(s, blobs)
       case Gateway => Relaying(s, blobs) && SerialBacked(s, blobs)
       case UnknownType => true
  }

  /** A sender that keeps its record and its stored blob stays backed, on either kind of relay. */
  lemma StillBacked(s: Ld, t: Ld, blobs: Blobs)
    requires Shape(s) && Shape(t) && t.snd == s.snd
    requires s.snd.active && (s.snd.gen, s.snd.dataId) in blobs && Stored(s, blobs[(s.snd.gen, s.snd.dataId)]) ==>
               Stored(t, blobs[(s.snd.gen, s.snd.dataId)])
    ensures RadioBacked(s, blobs) ==> RadioBacked(t, blobs)
    ensures SerialBacked(s, blobs) ==> SerialBacked(t, blobs)
  {
  }

  lemma RxInitKeeps(role: DeviceType, s: Ld, fromType: DeviceType, p: InitPkt, priority: uint8, blobs: Blobs)
    requires LdOk(role, s, blobs) && GenuineInit(p, blobs)
    ensures LdOk(role, HandleInit(s, role, fromType, p, priority).0, blobs)
  {
    if HandleInit(s, role, fromType, p, priority).0 != s {
      InitKeepsContent(s, p, priority, blobs);
      var t := ValidateSlot(s, p, priority).0;
      if HasBacking(s) {
        InitKeepsSender(s, p, priority, blobs);
      }
      StillBacked(s, t, blobs);
    }
  }

  lemma InitKeepsSender(s: Ld, p: InitPkt, priority: uint8, blobs: Blobs)
    requires Shape(s) && InitAcceptable(p)
    ensures ValidateSlot(s, p, priority).0.snd == s.snd
    ensures (s.snd.gen, s.snd.dataId) in blobs && Stored(s, blobs[(s.snd.gen, s.snd.dataId)]) ==>
              Stored(ValidateSlot(s, p, priority).0, blobs[(s.snd.gen, s.snd.dataId)])
  {
    if (s.snd.gen, s.snd.dataId) in blobs && Stored(s, blobs[(s.snd.gen, s.snd.dataId)]) {
      InitKeepsStored(s, p, priority, blobs[(s.snd.gen, s.snd.dataId)]);
    }
  }

  lemma RxChunkKeeps(role: DeviceType, s: Ld, fromType: DeviceType, p: ChunkPkt, good: nat, fault: nat, blobs: Blobs)
    requires LdOk(role, s, blobs) && |p.data| == CHUNK
    requires (p.gen, p.dataId) in blobs ==> Genuine(p, blobs[(p.gen, p.dataId)])
    ensures LdOk(role, HandleChunk(s, role, fromType, p, good, fault).0, blobs)
  {
    if Relay(role) {
      ChunkKeepsContent(s, p, good, fault, blobs);
      ChunkKeepsBacking(s, p, good, fault, blobs);
    }
  }

  lemma ChunkKeepsBacking(s: Ld, p: ChunkPkt, good: nat, fault: nat, blobs: Blobs)
    requires Receiving(s) && |p.data| == CHUNK
    ensures RadioBacked(s, blobs) ==> RadioBacked(ValidateChunk(s, p, good, fault).0, blobs)
    ensures SerialBacked(s, blobs) ==> SerialBacked(ValidateChunk(s, p, good, fault).0, blobs)
  {
    ChunkKeepsSender(s, p, good, fault);
    ChunkKeepsReceiving(s, p, good, fault);
    if (s.snd.gen, s.snd.dataId) in blobs && Stored(s, blobs[(s.snd.gen, s.snd.dataId)]) {
      ChunkKeepsStored(s, p, good, fault, blobs[(s.snd.gen, s.snd.dataId)]);
    }
    StillBacked(s, ValidateChunk(s, p, good, fault).0, blobs);
  }

  /** The packets of a list are genuine for their own key. */
  ghost predicate OutGenuine(ps: seq<ChunkPkt>, blobs: Blobs) {
    forall p :: p in ps ==> MsgGenuine(ChunkMsg(p), blobs)
  }

  datatype Msg = InitMsg(init: InitPkt) | ChunkMsg(chunk: ChunkPkt)

  ghost predicate MsgGenuine(m: Msg, blobs: Blobs) {
    match m
    case InitMsg(p) => GenuineInit(p, blobs)
    case ChunkMsg(p) => |p.data| == CHUNK && (p.gen, p.dataId) in blobs && Genuine(p, blobs[(p.gen, p.dataId)])
  }

  lemma SentGenuine(ps: seq<ChunkPkt>, snd: Sender, blobs: Blobs)
    requires (snd.gen, snd.dataId) in blobs && AllGenuine(ps, snd, blobs[(snd.gen, snd.dataId)])
    ensures OutGenuine(ps, blobs)
  {
    forall p | p in ps
      ensures MsgGenuine(ChunkMsg(p), blobs)
    {
      assert Genuine(p, blobs[(snd.gen, snd.dataId)]);
    }
  }

  /** Steps that only touch flags keep either kind of device. */
  lemma QuietKeeps(role: DeviceType, s: Ld, t: Ld, blobs: Blobs)
    requires Downstream(role) && LdOk(role, s, blobs) && Quiet(s, t) && SameTransfer(t.snd, s.snd)
    ensures LdOk(role, t, blobs)
  {
    QuietRadio(s, t, blobs);
    if role == Sensor {
      QuietStaging(s, t, blobs);
    } else {
      QuietRelaying(s, t, blobs);
    }
  }

  lemma RxInitAckKeeps(role: DeviceType, s: Ld, a: InitAck, good: nat, blobs: Blobs)
    requires LdOk(role, s, blobs) && Downstream(role)
    ensures var (t, out) := HandleInitAck(s, role, a, good); LdOk(role, t, blobs) && OutGenuine(out, blobs)
  {
    InitAckQuiet(s, role, a, good);
    QuietKeeps(role, s, HandleInitAck(s, role, a, good).0, blobs);
    if s.snd.active {
      InitAckGenuine(s, role, a, good, blobs[(s.snd.gen, s.snd.dataId)]);
      SentGenuine(HandleInitAck(s, role, a, good).1, s.snd, blobs);
    }
  }

  lemma RxChunkAckKeeps(role: DeviceType, s: Ld, a: ChunkAck, good: nat, blobs: Blobs)
    requires LdOk(role, s, blobs) && Downstream(role)
    ensures var (t, out) := HandleChunkAck(s, role, a, good); LdOk(role, t, blobs) && OutGenuine(out, blobs)
  {
    ChunkAckQuiet(s, role, a, good);
    QuietKeeps(role, s, HandleChunkAck(s, role, a, good).0, blobs);
    if s.snd.active {
      ChunkAckGenuine(s, role, a, good, blobs[(s.snd.gen, s.snd.dataId)]);
      SentGenuine(HandleChunkAck(s, role, a, good).1, s.snd, blobs);
    }
  }

  /** On a gateway a stray acknowledgement sends nothing and touches flags only. */
  lemma StrayAckKeeps(s: Ld, a: ChunkAck, good: nat, blobs: Blobs)
    requires LdOk(Gateway, s, blobs)
    ensures LdOk(Gateway, HandleChunkAck(s, Gateway, a, good).0, blobs) && HandleChunkAck(s, Gateway, a, good).1 == []
  {
    StrayAckQuiet(s, a, good);
    FlagsKeepGateway(s, HandleChunkAck(s, Gateway, a, good).0, blobs);
  }

  lemma FlagsKeepGateway(s: Ld, t: Ld, blobs: Blobs)
    requires LdOk(Gateway, s, blobs) && Quiet(s, t) && t.snd == s.snd
    ensures LdOk(Gateway, t, blobs)
  {
    QuietRelaying(s, t, blobs);
    if HasBacking(s) {
      QuietBacking(s, t);
    }
  }

  lemma StrayAckQuiet(s: Ld, a: ChunkAck, good: nat)
    requires Shape(s)
    ensures var (t, out) := HandleChunkAck(s, Gateway, a, good); Quiet(s, t) && t.snd == s.snd && out == []
  {
    MarkSentQuiet(s, true);
  }

  lemma RxSerialInitKeeps(s: Ld, d: Device, l: InitLine, blobs: Blobs)
    requires LdOk(Sensor, s, blobs) && GenuineInitLine(d, l, blobs)
    ensures LdOk(Sensor, CmdLdInit(s, d, l).0, blobs)
  {
    SerialInitContent(s, d, l, blobs);
    var t := CmdLdInit(s, d, l).0;
    assert t.snd == s.snd;
    if (s.snd.gen, s.snd.dataId) in blobs && Stored(s, blobs[(s.snd.gen, s.snd.dataId)]) {
      SerialInitKeepsStored(s, d, l, blobs[(s.snd.gen, s.snd.dataId)]);
    }
    StillBacked(s, t, blobs);
  }

  lemma RxSerialChunkKeeps(s: Ld, d: Device, l: ChunkLine, good: nat, fault: nat, blobs: Blobs)
    requires LdOk(Sensor, s, blobs) && GenuineChunkLine(d, l, blobs) && NotAhead(s, d, l)
    ensures LdOk(Sensor, CmdLdChunk(s, d, l, good, fault).0, blobs)
  {
    SerialChunkContent(s, d, l, good, fault, blobs);
    SerialChunkKeepsSender(s, d, l, good, fault);
    if (s.snd.gen, s.snd.dataId) in blobs && Stored(s, blobs[(s.snd.gen, s.snd.dataId)]) {
      SerialChunkKeepsStored(s, d, l, good, fault, blobs[(s.snd.gen, s.snd.dataId)]);
    }
    StillBacked(s, CmdLdChunk(s, d, l, good, fault).0, blobs);
  }

  lemma SerialChunkKeepsSender(s: Ld, d: Device, l: ChunkLine, good: nat, fault: nat)
    requires Ownership(s)
    ensures CmdLdChunk(s, d, l, good, fault).0.snd == s.snd
  {
  }

  /** A host line keeps the gateway serving, and what it makes the gateway write is the blob's. */
  lemma HostKeeps(c: Conv, l: HostLine, ok: bool, blobs: Blobs)
    requires LdOk(Gateway, c.ld, blobs)
    ensures LdOk(Gateway, HostStep(c, l, ok).0.ld, blobs)
    ensures var (snd, out) := (c.ld.snd, HostStep(c, l, ok).1);
      out.Some? ==> (snd.gen, out.value.dataId) in blobs && CarriesPiece(out.value, blobs[(snd.gen, out.value.dataId)])
  {
    HostStepQuiet(c, l, ok);
    var t := HostStep(c, l, ok).0.ld;
    QuietRelaying(c.ld, t, blobs);
    if c.ld.snd.active {
      var b := blobs[(c.ld.snd.gen, c.ld.snd.dataId)];
      HostStepServes(c, l, ok, b);
      HostStepCarries(c, l, ok, b);
      QuietBacking(c.ld, t);
    }
  }

  lemma NextLineQuiet(s: Ld, dev: uint16, ok: bool)
    requires Shape(s)
    ensures var (t, out) := NextLine(s, dev, ok);
      Quiet(s, t) && SameTransfer(t.snd, s.snd) && (out.Some? ==> s.snd.active && out.value.dataId == s.snd.dataId)
  {
  }

  lemma HostStepQuiet(c: Conv, l: HostLine, ok: bool)
    requires Shape(c.ld)
    ensures Quiet(c.ld, HostStep(c, l, ok).0.ld) && SameTransfer(HostStep(c, l, ok).0.ld.snd, c.ld.snd)
    ensures HostStep(c, l, ok).1.Some? ==> c.ld.snd.active && HostStep(c, l, ok).1.value.dataId == c.ld.snd.dataId
  {
    if l.OkLine? && c.pending == ChunkPending {
      NextLineQuiet(c.ld, c.dev, ok);
    }
  }

  // ------------------------------------------------------------------- devices

  /** A device: what it is, its transport state and, on a gateway, everything written to the host so far. */
  datatype Node = Node(dev: Device, conv: Conv, log: seq<Out>)

  datatype Act =
    | RxInit(p: InitPkt, fromType: DeviceType, priority: uint8)
    | RxChunk(c: ChunkPkt, fromType: DeviceType, good: nat, fault: nat)
    | RxInitAck(ia: InitAck, good: nat)
    | RxChunkAck(ca: ChunkAck, good: nat)
    | Tick(expired: bool, parent: uint16, now: int, sn: Option<uint64>, written: bool)
    | SerialInit(il: InitLine)
    | SerialChunk(cl: ChunkLine, good: nat, fault: nat)
    | HostSays(hl: HostLine, ok: bool)

  /** What the steps of a device rely on, whatever packets and lines it gets. */
  ghost predicate Kept(role: DeviceType, s: Ld) {
    && Shape(s)
    && match role
       case Sensor => StagingBooks(s) && s.snd.lastChunkSize <= CHUNK
       case Anchor => Receiving(s) && s.snd.lastChunkSize <= CHUNK
       case Gateway => Receiving(s)
       case UnknownType => true
  }

  /** A chunk packet always has room for a whole chunk. */
  predicate Sized(a: Act) {
    a.RxChunk? ==> |a.c.data| == CHUNK
  }

  /** A gateway's sender works for the transfer announced last. */
  predicate ServesLatest(n: Node) {
    n.dev.role == Gateway && n.conv.ld.snd.active ==>
      Latest(n.log).Some? &&
      Latest(n.log).value.gen == n.conv.ld.snd.gen && Latest(n.log).value.dataId == n.conv.ld.snd.dataId
  }

  ghost predicate NodeOk(n: Node, blobs: Blobs) {
    LdOk(n.dev.role, n.conv.ld, blobs) && Truthful(n.log, blobs) && ServesLatest(n)
  }

  /** The AT#LDINIT line for the transfer being sent. */
  function AnnouncementFor(snd: Sender, sn: uint64): Announcement {
    Announcement(snd.gen, sn, snd.dataId, snd.totalSize, snd.totalChunks, snd.lastChunkSize, snd.crc32)
  }

  /** gateway_large_data_tick and the line it writes; sn is the outcome of the serial number's lookup. */
  function TickGateway(n: Node, sn: Option<uint64>, written: bool): Node
    requires Ownership(n.conv.ld)
  {
    var (t, announced) := GatewayTick(n.conv.ld, sn.Some?, written);
    if announced && sn.Some? then WithLd(n, t).(log := n.log + [Announce(AnnouncementFor(t.snd, sn.value))])
    else WithLd(n, t)
  }

  function WithLd(n: Node, s: Ld): Node {
    n.(conv := n.conv.(ld := s))
  }

  /** A gateway after a line from its host. */
  function Heeds(n: Node, l: HostLine, ok: bool): Node
    requires Shape(n.conv.ld)
  {
    var (c, out) := HostStep(n.conv, l, ok);
    n.(conv := c, log := if out.Some? then n.log + [Deliver(out.value)] else n.log)
  }

  /** One step of a device and the packets it puts on the air. */
  function NodeStep(n: Node, a: Act): (Node, seq<Msg>)
    requires Kept(n.dev.role, n.conv.ld) && Sized(a)
  {
    var s, role := n.conv.ld, n.dev.role;
    match a
    case RxInit(p, fromType, priority) => (WithLd(n, HandleInit(s, role, fromType, p, priority).0), [])
    case RxChunk(p, fromType, good, fault) => (WithLd(n, HandleChunk(s, role, fromType, p, good, fault).0), [])
    case RxInitAck(ia, good) =>
      var (t, out) := HandleInitAck(s, role, ia, good);
      (WithLd(n, t), Chunked(out))
    case RxChunkAck(ca, good) =>
      var (t, out) := HandleChunkAck(s, role, ca, good);
      (WithLd(n, t), Chunked(out))
    case Tick(expired, parent, now, sn, written) =>
      if role == Gateway then (TickGateway(n, sn, written), [])
      else if Downstream(role) then
        var (t, out) := RadioTick(s, role, expired, parent, now);
        (WithLd(n, t), if out.Some? then [InitMsg(out.value)] else [])
      else (n, [])
    case SerialInit(l) => if role == Sensor then (WithLd(n, CmdLdInit(s, n.dev, l).0), []) else (n, [])
    case SerialChunk(l, good, fault) =>
      if role == Sensor then (WithLd(n, CmdLdChunk(s, n.dev, l, good, fault).0), []) else (n, [])
    case HostSays(l, ok) =>
      if role != Gateway then (n, [])
      else (Heeds(n, l, ok), [])
  }

  function Chunked(ps: seq<ChunkPkt>): seq<Msg> {
    seq(|ps|, i requires 0 <= i < |ps| => ChunkMsg(ps[i]))
  }

  ghost predicate AirGenuine(air: seq<Msg>, blobs: Blobs) {
    forall m :: m in air ==> MsgGenuine(m, blobs)
  }

  /** What may happen next at a device: any packet ever put on the air arrives, or any acknowledgement,
      tick or host line whatsoever; the sensor's host speaks the truth and does not run ahead. */
  ghost predicate Possible(n: Node, a: Act, air: seq<Msg>, blobs: Blobs)
    requires NodeOk(n, blobs)
  {
    match a
    case RxInit(p, _, _) => InitMsg(p) in air
    case RxChunk(p, _, _, _) => ChunkMsg(p) in air && |p.data| == CHUNK
    case SerialInit(l) => n.dev.role == Sensor ==> GenuineInitLine(n.dev, l, blobs)
    case SerialChunk(l, _, _) =>
      n.dev.role == Sensor ==> GenuineChunkLine(n.dev, l, blobs) && NotAhead(n.conv.ld, n.dev, l)
    case _ => true
  }

  lemma ChunkedGenuine(ps: seq<ChunkPkt>, blobs: Blobs)
    requires OutGenuine(ps, blobs)
    ensures AirGenuine(Chunked(ps), blobs)
  {
  }

  /** Changing only the transport state. */
  lemma NodeFrame(n: Node, s: Ld, blobs: Blobs)
    requires NodeOk(n, blobs) && LdOk(n.dev.role, s, blobs)
    requires n.dev.role == Gateway && s.snd.active ==>
               n.conv.ld.snd.active && s.snd.gen == n.conv.ld.snd.gen && s.snd.dataId == n.conv.ld.snd.dataId
    ensures NodeOk(WithLd(n, s), blobs)
  {
  }

  lemma StepInitAck(n: Node, a: InitAck, good: nat, blobs: Blobs)
    requires NodeOk(n, blobs)
    ensures var (m, out) := NodeStep(n, RxInitAck(a, good)); NodeOk(m, blobs) && AirGenuine(out, blobs)
  {
    var (t, out) := HandleInitAck(n.conv.ld, n.dev.role, a, good);
    if Downstream(n.dev.role) {
      RxInitAckKeeps(n.dev.role, n.conv.ld, a, good, blobs);
    }
    ChunkedGenuine(out, blobs);
    NodeFrame(n, t, blobs);
  }

  lemma StepChunkAck(n: Node, a: ChunkAck, good: nat, blobs: Blobs)
    requires NodeOk(n, blobs)
    ensures var (m, out) := NodeStep(n, RxChunkAck(a, good)); NodeOk(m, blobs) && AirGenuine(out, blobs)
  {
    var s, role := n.conv.ld, n.dev.role;
    var (t, out) := HandleChunkAck(s, role, a, good);
    if Downstream(role) {
      RxChunkAckKeeps(role, s, a, good, blobs);
    } else if role == Gateway {
      StrayAckKeeps(s, a, good, blobs);
    } else {
      UnpairedAck(s, a, good);
    }
    ChunkedGenuine(out, blobs);
    NodeFrame(n, t, blobs);
  }

  /** A device without a role sends nothing. */
  lemma UnpairedAck(s: Ld, a: ChunkAck, good: nat)
    requires Shape(s)
    ensures HandleChunkAck(s, UnknownType, a, good).1 == []
  {
  }

  lemma StepTick(n: Node, expired: bool, parent: uint16, now: int, sn: Option<uint64>, written: bool, blobs: Blobs)
    requires NodeOk(n, blobs)
    ensures var (m, out) := NodeStep(n, Tick(expired, parent, now, sn, written));
      NodeOk(m, blobs) && AirGenuine(out, blobs)
  {
    if n.dev.role == Gateway {
      GatewayTickTells(n, sn, written, blobs);
    } else if Downstream(n.dev.role) {
      RadioTickKeeps(n.conv.ld, n.dev.role, expired, parent, now, blobs);
      NodeFrame(n, RadioTick(n.conv.ld, n.dev.role, expired, parent, now).0, blobs);
    }
  }

  /** The announcement a gateway tick writes describes the blob. */
  lemma AnnouncedTruly(s: Ld, i: nat, sn: uint64, blobs: Blobs)
    requires Relaying(s, blobs) && i < SLOTS && s.slots[i].active && s.slots[i].ready && Placed(s.slots[i])
    ensures Announces(AnnouncementFor(SerialSender(s.snd, s.slots[i]), sn), blobs)
  {
    assert SlotContent(s.mem, s.slots[i], blobs);
  }

  lemma Announcing(n: Node, t: Ld, sn: uint64, blobs: Blobs)
    requires NodeOk(n, blobs) && LdOk(n.dev.role, t, blobs) && Announces(AnnouncementFor(t.snd, sn), blobs)
    ensures NodeOk(WithLd(n, t).(log := n.log + [Announce(AnnouncementFor(t.snd, sn))]), blobs)
  {
    Appended(n.log, Announce(AnnouncementFor(t.snd, sn)));
  }

  lemma GatewayTickTells(n: Node, sn: Option<uint64>, written: bool, blobs: Blobs)
    requires NodeOk(n, blobs) && n.dev.role == Gateway
    ensures NodeOk(TickGateway(n, sn, written), blobs)
  {
    var s := n.conv.ld;
    GatewayTickKeeps(s, sn.Some?, written, blobs);
    var (t, announced) := GatewayTick(s, sn.Some?, written);
    TickSender(s, sn.Some?, written);
    if announced {
      AnnouncedTruly(s, WaitingFrom(s.slots, 0), sn.value, blobs);
      Announcing(n, t, sn.value, blobs);
    } else {
      NodeFrame(n, t, blobs);
    }
  }

  /** What a gateway tick does to the sender. */
  lemma TickSender(s: Ld, known: bool, written: bool)
    requires Ownership(s)
    ensures var (t, announced) := GatewayTick(s, known, written);
      var i := WaitingFrom(s.slots, 0);
      && (announced ==> known && !s.snd.active && i < SLOTS && t.snd == SerialSender(s.snd, s.slots[i]))
      && (!announced ==> t.snd.active == s.snd.active && (s.snd.active ==> t == s))
  {
  }

  lemma RadioTickKeeps(s: Ld, role: DeviceType, expired: bool, parent: uint16, now: int, blobs: Blobs)
    requires Downstream(role) && LdOk(role, s, blobs)
    ensures var (t, out) := RadioTick(s, role, expired, parent, now);
      LdOk(role, t, blobs) && (out.Some? ==> GenuineInit(out.value, blobs))
  {
    if role == Anchor {
      AnchorTickKeeps(s, expired, parent, now, blobs);
    } else {
      SensorTickKeeps(s, expired, parent, now, blobs);
    }
  }

  lemma StepHost(n: Node, l: HostLine, ok: bool, blobs: Blobs)
    requires NodeOk(n, blobs)
    ensures var (m, out) := NodeStep(n, HostSays(l, ok)); NodeOk(m, blobs) && out == []
  {
    if n.dev.role == Gateway {
      HostKeeps(n.conv, l, ok, blobs);
      HostStepQuiet(n.conv, l, ok);
      var (c, out) := HostStep(n.conv, l, ok);
      if out.Some? {
        LatestTrue(n.log, blobs);
        Appended(n.log, Deliver(out.value));
      }
    }
  }

  lemma HandleInitKeepsSender(s: Ld, role: DeviceType, fromType: DeviceType, p: InitPkt, priority: uint8)
    requires Shape(s)
    ensures HandleInit(s, role, fromType, p, priority).0.snd == s.snd
  {
  }

  lemma StepInit(n: Node, p: InitPkt, fromType: DeviceType, priority: uint8, blobs: Blobs)
    requires NodeOk(n, blobs) && GenuineInit(p, blobs)
    ensures NodeOk(NodeStep(n, RxInit(p, fromType, priority)).0, blobs)
  {
    RxInitKeeps(n.dev.role, n.conv.ld, fromType, p, priority, blobs);
    HandleInitKeepsSender(n.conv.ld, n.dev.role, fromType, p, priority);
    NodeFrame(n, HandleInit(n.conv.ld, n.dev.role, fromType, p, priority).0, blobs);
  }

  lemma HandleChunkKeepsSender(s: Ld, role: DeviceType, fromType: DeviceType, p: ChunkPkt, good: nat, fault: nat)
    requires (Relay(role) ==> Receiving(s)) && |p.data| == CHUNK
    ensures HandleChunk(s, role, fromType, p, good, fault).0.snd == s.snd
  {
    if Relay(role) {
      ChunkKeepsSender(s, p, good, fault);
    }
  }

  lemma StepChunk(n: Node, p: ChunkPkt, fromType: DeviceType, good: nat, fault: nat, blobs: Blobs)
    requires NodeOk(n, blobs) && MsgGenuine(ChunkMsg(p), blobs)
    ensures NodeOk(NodeStep(n, RxChunk(p, fromType, good, fault)).0, blobs)
  {
    RxChunkKeeps(n.dev.role, n.conv.ld, fromType, p, good, fault, blobs);
    HandleChunkKeepsSender(n.conv.ld, n.dev.role, fromType, p, good, fault);
    NodeFrame(n, HandleChunk(n.conv.ld, n.dev.role, fromType, p, good, fault).0, blobs);
  }

  /** One step of one device: it stays sound, and what it sends is genuine. */
  lemma StepKeeps(n: Node, a: Act, air: seq<Msg>, blobs: Blobs)
    requires NodeOk(n, blobs) && AirGenuine(air, blobs) && Possible(n, a, air, blobs)
    ensures var (m, out) := NodeStep(n, a); NodeOk(m, blobs) && AirGenuine(out, blobs)
  {
    match a
    case RxInit(p, fromType, priority) =>
      assert MsgGenuine(InitMsg(p), blobs);
      StepInit(n, p, fromType, priority, blobs);
    case RxChunk(p, fromType, good, fault) =>
      assert MsgGenuine(ChunkMsg(p), blobs);
      StepChunk(n, p, fromType, good, fault, blobs);
    case RxInitAck(ia, good) => StepInitAck(n, ia, good, blobs);
    case RxChunkAck(ca, good) => StepChunkAck(n, ca, good, blobs);
    case Tick(expired, parent, now, sn, written) => StepTick(n, expired, parent, now, sn, written, blobs);
    case SerialInit(l) =>
      if n.dev.role == Sensor {
        RxSerialInitKeeps(n.conv.ld, n.dev, l, blobs);
        NodeFrame(n, CmdLdInit(n.conv.ld, n.dev, l).0, blobs);
      }
    case SerialChunk(l, good, fault) =>
      if n.dev.role == Sensor {
        RxSerialChunkKeeps(n.conv.ld, n.dev, l, good, fault, blobs);
        NodeFrame(n, CmdLdChunk(n.conv.ld, n.dev, l, good, fault).0, blobs);
      }
    case HostSays(l, ok) => StepHost(n, l, ok, blobs);
  }

  lemma StepKeepsDevice(n: Node, a: Act, blobs: Blobs)
    requires NodeOk(n, blobs) && Sized(a)
    ensures NodeStep(n, a).0.dev == n.dev
  {
  }

  // -------------------------------------------------------------- the network

  /** All devices, and every packet ever sent: a packet may be received any number of times, at any
      time, by any device, or never. */
  datatype Net = Net(nodes: seq<Node>, air: seq<Msg>)

  ghost predicate NetOk(w: Net, blobs: Blobs) {
    AirGenuine(w.air, blobs) && forall i :: 0 <= i < |w.nodes| ==> NodeOk(w.nodes[i], blobs)
  }

  function NetStep(w: Net, i: nat, a: Act, ghost blobs: Blobs): Net
    requires NetOk(w, blobs) && i < |w.nodes| && Possible(w.nodes[i], a, w.air, blobs)
  {
    var (n, out) := NodeStep(w.nodes[i], a);
    Net(w.nodes[i := n], w.air + out)
  }

  lemma NetStepKeeps(w: Net, i: nat, a: Act, blobs: Blobs)
    requires NetOk(w, blobs) && i < |w.nodes| && Possible(w.nodes[i], a, w.air, blobs)
    ensures NetOk(NetStep(w, i, a, blobs), blobs)
  {
    StepKeeps(w.nodes[i], a, w.air, blobs);
  }

  datatype Move = Move(node: nat, act: Act)

  /** Every move of the schedule is possible when its turn comes. */
  ghost predicate Schedule(w: Net, moves: seq<Move>, blobs: Blobs)
    requires NetOk(w, blobs)
    decreases |moves|
  {
    moves == [] ||
    (var m := moves[0];
     && m.node < |w.nodes| && Possible(w.nodes[m.node], m.act, w.air, blobs)
     && (NetStepKeeps(w, m.node, m.act, blobs);
         Schedule(NetStep(w, m.node, m.act, blobs), moves[1..], blobs)))
  }

  function After(w: Net, moves: seq<Move>, ghost blobs: Blobs): (u: Net)
    requires NetOk(w, blobs) && Schedule(w, moves, blobs)
    ensures NetOk(u, blobs)
    decreases |moves|
  {
    if moves == [] then w
    else
      NetStepKeeps(w, moves[0].node, moves[0].act, blobs);
      After(NetStep(w, moves[0].node, moves[0].act, blobs), moves[1..], blobs)
  }

  // ------------------------------------------------------------- main results

  /** A device after start-up: nothing stored, no sender. */
  ghost predicate Fresh(n: Node) {
    var s := n.conv.ld;
    && Shape(s) && n.log == [] && !s.snd.active && s.snd.lastChunkSize <= CHUNK
    && n.conv.pending == NoAck && !n.conv.cached && !s.busy
    && (forall i :: 0 <= i < SLOTS ==> !s.slots[i].active) && (forall p :: 0 <= p < MAX_PAGES ==> s.empty[p])
  }

  lemma FreshOk(n: Node, blobs: Blobs)
    requires Fresh(n)
    ensures NodeOk(n, blobs)
  {
    InitOwnership(n.conv.ld);
  }

  ghost predicate Start(w: Net) {
    w.air == [] && forall i :: 0 <= i < |w.nodes| ==> Fresh(w.nodes[i])
  }

  lemma StartOk(w: Net, blobs: Blobs)
    requires Start(w)
    ensures NetOk(w, blobs)
  {
    forall i | 0 <= i < |w.nodes|
      ensures NodeOk(w.nodes[i], blobs)
    {
      FreshOk(w.nodes[i], blobs);
    }
  }

  /** A run of the network from start-up. */
  ghost predicate NetRun(w: Net, moves: seq<Move>, blobs: Blobs) {
    Start(w) && (StartOk(w, blobs); Schedule(w, moves, blobs))
  }

  function Outcome(w: Net, moves: seq<Move>, ghost blobs: Blobs): Net
    requires NetRun(w, moves, blobs)
  {
    StartOk(w, blobs);
    After(w, moves, blobs)
  }

  /** A set bit vouches for its chunk on a relay, and a complete slot of any device is the blob. */
  ghost predicate HoldsBlob(role: DeviceType, mem: seq<byte>, sl: Slot, b: Blob) {
    && |Region(mem, sl)| == |b|
    && (sl.ready ==> Region(mem, sl) == b)
    && (Relay(role) ==> forall k :: 0 <= k < Chunks(|b|) && k < BitmapBits() && Has(sl.bitmap, k) ==>
          Holds(Region(mem, sl), b, CHUNK, k))
  }

  /** Safety over every run of any network: whatever is lost, repeated, reordered or delivered to the
      wrong device, a chunk whose bit is set on a relay holds the origin's bytes for that index, and a
      complete slot of any device holds the origin's whole blob. */
  lemma EverySlotHoldsTheBlob(w: Net, moves: seq<Move>, blobs: Blobs, i: nat, j: nat)
    requires NetRun(w, moves, blobs)
    requires var ns := Outcome(w, moves, blobs).nodes;
      i < |ns| && ns[i].dev.role != UnknownType && j < |ns[i].conv.ld.slots| && ns[i].conv.ld.slots[j].active
    ensures var n := Outcome(w, moves, blobs).nodes[i];
      var (mem, sl) := (n.conv.ld.mem, n.conv.ld.slots[j]);
      (sl.gen, sl.dataId) in blobs && HoldsBlob(n.dev.role, mem, sl, blobs[(sl.gen, sl.dataId)])
  {
    var n := Outcome(w, moves, blobs).nodes[i];
    var s := n.conv.ld;
    assert NodeOk(n, blobs);
    if n.dev.role == Sensor {
      assert StagedContent(s.mem, s.slots[j], blobs);
    } else {
      assert SlotContent(s.mem, s.slots[j], blobs);
      if s.slots[j].ready {
        CompleteIsWhole(s.mem, s.slots[j], blobs[(s.slots[j].gen, s.slots[j].dataId)]);
      }
    }
  }
}
