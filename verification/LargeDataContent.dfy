/** What the bytes in external RAM mean: which pieces of which blob a slot holds. */
module LargeDataContent {
  import opened Basics
  import opened Pieces
  import opened LargeDataTypes
  import opened Bitmaps
  import opened PsramDriver
  import opened Crc32Ieee
  import opened LargeDataStore
  import opened LargeDataReceiver

  // ------------------------------------------------------- regions and stores

  lemma RegionInside(mem: seq<byte>, sl: Slot)
    requires |mem| == PSRAM_SIZE && Placed(sl)
    ensures sl.base + sl.totalSize <= sl.base + Pages(sl.totalSize) * PAGE_SIZE <= PSRAM_SIZE
    ensures |Region(mem, sl)| == sl.totalSize
  {
    TransferBounds(sl.totalSize);
  }

  /** A store inside a slot's region is a splice of the region. */
  lemma RegionAfterStore(mem: seq<byte>, sl: Slot, off: nat, data: seq<byte>, good: nat)
    requires |mem| == PSRAM_SIZE && Placed(sl) && off + |data| <= sl.totalSize
    ensures |Region(mem, sl)| == sl.totalSize
    ensures Region(Store(mem, sl.base + off, data, good), sl) ==
              Splice(Region(mem, sl), off, data[..Covered(sl.base + off, |data|, good)])
  {
    RegionInside(mem, sl);
    SpliceShift(mem, sl.base, sl.totalSize, off, data[..Covered(sl.base + off, |data|, good)]);
  }

  /** A store that completes puts all of data there. */
  lemma RegionAfterFullStore(mem: seq<byte>, sl: Slot, off: nat, data: seq<byte>, good: nat)
    requires |mem| == PSRAM_SIZE && Placed(sl) && off + |data| <= sl.totalSize && StoreOk(sl.base + off, |data|, good)
    ensures |Region(mem, sl)| == sl.totalSize
    ensures Region(Store(mem, sl.base + off, data, good), sl) == Splice(Region(mem, sl), off, data)
  {
    RegionAfterStore(mem, sl, off, data, good);
    assert data[..|data|] == data;
  }

  lemma SpliceShift(mem: seq<byte>, base: nat, n: nat, off: nat, d: seq<byte>)
    requires base + n <= |mem| && off + |d| <= n
    ensures Splice(mem, base + off, d)[base..base + n] == Splice(mem[base..base + n], off, d)
  {
  }

  /** A store inside slot i leaves the region of every other active slot alone. */
  lemma RegionElsewhere(s: Ld, i: nat, j: nat, off: nat, data: seq<byte>, good: nat)
    requires Ownership(s) && i < SLOTS && j < SLOTS && i != j && s.slots[i].active && s.slots[j].active
    requires off + |data| <= s.slots[i].totalSize
    ensures Region(Store(s.mem, s.slots[i].base + off, data, good), s.slots[j]) == Region(s.mem, s.slots[j])
  {
    RegionInside(s.mem, s.slots[i]);
    RegionInside(s.mem, s.slots[j]);
    RegionsDisjoint(s, i, j);
    StoreOutside(s.mem, s.slots[i].base + off, data, good, s.slots[j].base, s.slots[j].base + s.slots[j].totalSize);
  }

  // ------------------------------------------------------------------- blobs

  type Blob = b: seq<byte> | 0 < |b| <= MAX_TRANSFER witness [0]

  /** One blob per generating device and data id. */
  type Blobs = map<(uint16, uint8), Blob>

  /** The slot's record describes b cut for the radio. */
  ghost predicate RadioMeta(sl: Slot, b: Blob) {
    && sl.totalSize == |b| && sl.crc32 == Crc32(b) && sl.totalChunks == Chunks(|b|)
    && sl.lastChunkSize == LastPiece(|b|, CHUNK) && sl.pageCount == Pages(|b|)
  }

  /** Every chunk whose bitmap bit is set holds exactly the blob's bytes for that index. */
  ghost predicate ChunksHeld(mem: seq<byte>, sl: Slot, b: Blob) {
    && RadioMeta(sl, b) && |Region(mem, sl)| == |b| && sl.totalChunks <= BitmapBits()
    && forall k :: 0 <= k < Chunks(|b|) && Has(sl.bitmap, k) ==> Holds(Region(mem, sl), b, CHUNK, k)
  }

  /** A slot complete and ready to be forwarded. */
  ghost predicate Whole(mem: seq<byte>, sl: Slot, b: Blob) {
    RadioMeta(sl, b) && Region(mem, sl) == b
  }

  /** A complete slot holds the sender's whole blob. */
  lemma CompleteIsWhole(mem: seq<byte>, sl: Slot, b: Blob)
    requires |mem| == PSRAM_SIZE && Bookkept(sl) && sl.ready && ChunksHeld(mem, sl, b)
    ensures Whole(mem, sl, b)
  {
    CompleteIffAllArrived(sl);
    assert forall k :: 0 <= k < Chunks(|b|) ==> Holds(Region(mem, sl), b, CHUNK, k);
    PiecesDetermine(Region(mem, sl), b, CHUNK);
  }

  /** The length of chunk k is the length of piece k. */
  lemma ChunkLenIsPiece(sl: Slot, b: Blob, k: nat)
    requires RadioMeta(sl, b) && k < Chunks(|b|)
    ensures k * CHUNK + ChunkLen(sl, k) == PieceEnd(|b|, CHUNK, k) <= |b| && ChunkLen(sl, k) <= CHUNK
  {
    PieceStart(|b|, CHUNK, k);
    LastPieceBounds(|b|, CHUNK);
  }

  // ------------------------------------------------------------ radio receipt

  /** A packet that carries the blob's bytes for its index. */
  ghost predicate Genuine(p: ChunkPkt, b: Blob) {
    |p.data| == CHUNK &&
    (p.chunk < CHUNKS_PER_PAGE && Linear(p.page, p.chunk) < Chunks(|b|) ==>
       var piece := Piece(b, CHUNK, Linear(p.page, p.chunk));
       |piece| <= CHUNK && p.data[..|piece|] == piece)
  }

  /** Storing chunk k of a genuine packet: piece k now holds, and every piece that held still does,
      whether or not the write was cut short. */
  lemma StoreChunk(mem: seq<byte>, sl: Slot, b: Blob, k: nat, p: ChunkPkt, good: nat)
    requires |mem| == PSRAM_SIZE && Placed(sl) && ChunksHeld(mem, sl, b)
    requires k < Chunks(|b|) && Genuine(p, b) && p.chunk < CHUNKS_PER_PAGE && k == Linear(p.page, p.chunk)
    ensures var mem' := Store(mem, ChunkAddr(sl, k), p.data[..ChunkLen(sl, k)], good);
      && |Region(mem', sl)| == |b|
      && (StoreOk(ChunkAddr(sl, k), ChunkLen(sl, k), good) ==> Holds(Region(mem', sl), b, CHUNK, k))
  {
    var data := p.data[..ChunkLen(sl, k)];
    ChunkLenIsPiece(sl, b, k);
    PieceStart(|b|, CHUNK, k);
    RegionAfterStore(mem, sl, k * CHUNK, data, good);
    if StoreOk(ChunkAddr(sl, k), ChunkLen(sl, k), good) {
      RegionAfterFullStore(mem, sl, k * CHUNK, data, good);
      PieceReplaced(Region(mem, sl), CHUNK, k, data);
    }
  }

  lemma StoreKeepsChunk(mem: seq<byte>, sl: Slot, b: Blob, k: nat, p: ChunkPkt, good: nat, j: nat)
    requires |mem| == PSRAM_SIZE && Placed(sl) && ChunksHeld(mem, sl, b)
    requires k < Chunks(|b|) && Genuine(p, b) && p.chunk < CHUNKS_PER_PAGE && k == Linear(p.page, p.chunk)
    requires j < Chunks(|b|) && j != k && Has(sl.bitmap, j)
    ensures var mem' := Store(mem, ChunkAddr(sl, k), p.data[..ChunkLen(sl, k)], good);
      |Region(mem', sl)| == |b| && Holds(Region(mem', sl), b, CHUNK, j)
  {
    ChunkLenIsPiece(sl, b, k);
    KeepsPiece(mem, sl, b, k, p.data[..ChunkLen(sl, k)], good, j);
  }

  /** A write inside piece k of the region, complete or not, leaves piece j. */
  lemma KeepsPiece(mem: seq<byte>, sl: Slot, b: Blob, k: nat, data: seq<byte>, good: nat, j: nat)
    requires |mem| == PSRAM_SIZE && Placed(sl) && sl.totalSize == |b| && k < Chunks(|b|)
    requires k * CHUNK + |data| <= PieceEnd(|b|, CHUNK, k) <= |b|
    requires j < Chunks(|b|) && j != k && |Region(mem, sl)| == |b| && Holds(Region(mem, sl), b, CHUNK, j)
    ensures var r := Region(Store(mem, ChunkAddr(sl, k), data, good), sl); |r| == |b| && Holds(r, b, CHUNK, j)
  {
    RegionAfterStore(mem, sl, k * CHUNK, data, good);
    PieceKept(Region(mem, sl), CHUNK, k, data[..Covered(ChunkAddr(sl, k), |data|, good)], j);
  }

  ghost predicate SlotContent(mem: seq<byte>, sl: Slot, blobs: Blobs) {
    sl.active ==> (sl.gen, sl.dataId) in blobs && ChunksHeld(mem, sl, blobs[(sl.gen, sl.dataId)])
  }

  /** A device that receives from the radio: bookkeeping and content of every slot. */
  ghost predicate Relaying(s: Ld, blobs: Blobs) {
    Receiving(s) && forall i :: 0 <= i < SLOTS ==> SlotContent(s.mem, s.slots[i], blobs)
  }

  /** Content depends on memory only through the slot's region. */
  lemma ContentFrame(mem: seq<byte>, mem': seq<byte>, sl: Slot, blobs: Blobs)
    requires SlotContent(mem, sl, blobs) && (sl.active ==> Region(mem', sl) == Region(mem, sl))
    ensures SlotContent(mem', sl, blobs)
  {
  }

  lemma OtherKeepsContent(s: Ld, blobs: Blobs, i: nat, j: nat, k: nat, data: seq<byte>, good: nat)
    requires Relaying(s, blobs) && i < SLOTS && j < SLOTS && i != j && s.slots[i].active
    requires k * CHUNK + |data| <= s.slots[i].totalSize
    ensures SlotContent(Store(s.mem, ChunkAddr(s.slots[i], k), data, good), s.slots[j], blobs)
  {
    if s.slots[j].active {
      RegionElsewhere(s, i, j, k * CHUNK, data, good);
    }
    ContentFrame(s.mem, Store(s.mem, ChunkAddr(s.slots[i], k), data, good), s.slots[j], blobs);
  }

  /** Memory after chunk k of slot i was written, completely or in part. */
  lemma OthersKeepContent(s: Ld, blobs: Blobs, i: nat, k: nat, data: seq<byte>, good: nat)
    requires Relaying(s, blobs) && i < SLOTS && s.slots[i].active && k * CHUNK + |data| <= s.slots[i].totalSize
    ensures forall j :: 0 <= j < SLOTS && j != i ==>
      SlotContent(Store(s.mem, ChunkAddr(s.slots[i], k), data, good), s.slots[j], blobs)
  {
    forall j | 0 <= j < SLOTS && j != i
      ensures SlotContent(Store(s.mem, ChunkAddr(s.slots[i], k), data, good), s.slots[j], blobs)
    {
      OtherKeepsContent(s, blobs, i, j, k, data, good);
    }
  }

  lemma ReceivedContent(mem: seq<byte>, sl: Slot, b: Blob, k: nat, p: ChunkPkt, good: nat)
    requires |mem| == PSRAM_SIZE && Placed(sl) && ChunksHeld(mem, sl, b) && k < Chunks(|b|) && !Has(sl.bitmap, k)
    requires Genuine(p, b) && p.chunk < CHUNKS_PER_PAGE && k == Linear(p.page, p.chunk)
    ensures var mem' := Store(mem, ChunkAddr(sl, k), p.data[..ChunkLen(sl, k)], good);
      && ChunksHeld(mem', sl, b)
      && (StoreOk(ChunkAddr(sl, k), ChunkLen(sl, k), good) ==> ChunksHeld(mem', Received(sl, k), b))
  {
    var mem' := Store(mem, ChunkAddr(sl, k), p.data[..ChunkLen(sl, k)], good);
    StoreChunk(mem, sl, b, k, p, good);
    forall j | 0 <= j < Chunks(|b|) && j != k && Has(sl.bitmap, j)
      ensures Holds(Region(mem', sl), b, CHUNK, j)
    {
      StoreKeepsChunk(mem, sl, b, k, p, good, j);
    }
    assert Region(mem', Received(sl, k)) == Region(mem', sl);
    forall j | 0 <= j < Chunks(|b|)
      ensures Has(Received(sl, k).bitmap, j) <==> j == k || Has(sl.bitmap, j)
    {
      MarkExact(sl.bitmap, k, j);
    }
  }

  /** Genuine chunks, in any order, any number of times and with any memory faults, never put a wrong
      byte under a set bit of any slot. */
  lemma ChunkKeepsContent(s: Ld, p: ChunkPkt, good: nat, fault: nat, blobs: Blobs)
    requires Relaying(s, blobs) && |p.data| == CHUNK
    requires (p.gen, p.dataId) in blobs ==> Genuine(p, blobs[(p.gen, p.dataId)])
    ensures Relaying(ValidateChunk(s, p, good, fault).0, blobs)
  {
    ChunkKeepsReceiving(s, p, good, fault);
    var f, k := FindSlot(s.slots, p.gen, p.dataId), Linear(p.page, p.chunk);
    if f.Some? && InRange(s.slots[f.value], p) && !Has(s.slots[f.value].bitmap, k) {
      var i := f.value;
      var sl, b := s.slots[i], blobs[(p.gen, p.dataId)];
      assert SlotContent(s.mem, sl, blobs);
      ReceivedContent(s.mem, sl, b, k, p, good);
      ChunkLenIsPiece(sl, b, k);
      var data := p.data[..ChunkLen(sl, k)];
      OthersKeepContent(s, blobs, i, k, data, good);
      var t := s.(mem := Store(s.mem, ChunkAddr(sl, k), data, good), slots := s.slots[i := Received(sl, k)]);
      if StoreOk(ChunkAddr(sl, k), ChunkLen(sl, k), good) {
        FinishKeepsContent(t, i, fault, blobs);
      }
    }
  }

  lemma FinishKeepsContent(s: Ld, i: nat, fault: nat, blobs: Blobs)
    requires Shape(s) && i < SLOTS && forall j :: 0 <= j < SLOTS ==> SlotContent(s.mem, s.slots[j], blobs)
    ensures var t := Finish(s, i, fault).0; forall j :: 0 <= j < SLOTS ==> SlotContent(t.mem, t.slots[j], blobs)
  {
    var t := Finish(s, i, fault).0;
    assert forall j :: 0 <= j < SLOTS && j != i ==> t.slots[j] == s.slots[j];
    ReadyFlagContent(s.mem, s.slots[i], blobs);
  }

  lemma ReadyFlagContent(mem: seq<byte>, sl: Slot, blobs: Blobs)
    requires SlotContent(mem, sl, blobs)
    ensures SlotContent(mem, sl.(ready := true), blobs) && SlotContent(mem, sl.(active := false), blobs)
  {
    assert Region(mem, sl.(ready := true)) == Region(mem, sl);
  }

  /** An INIT that announces the blob of its key. */
  ghost predicate GenuineInit(p: InitPkt, blobs: Blobs) {
    (p.gen, p.dataId) in blobs &&
    var b := blobs[(p.gen, p.dataId)];
    && p.totalSize == |b| && p.pageCount == Pages(|b|)
    && p.lastChunkSize == LastPiece(|b|, CHUNK) && p.crc32 == Crc32(b)
  }

  lemma InitKeepsContent(s: Ld, p: InitPkt, priority: uint8, blobs: Blobs)
    requires Relaying(s, blobs) && InitAcceptable(p) && GenuineInit(p, blobs)
    ensures Relaying(ValidateSlot(s, p, priority).0, blobs)
  {
    InitKeepsReceiving(s, p, priority);
    var t := ValidateSlot(s, p, priority).0;
    if !s.busy && FindSlot(s.slots, p.gen, p.dataId).None? && Place(s, p.totalSize).Some? {
      var (i, _) := Place(s, p.totalSize).value;
      FreshContent(t.mem, t.slots[i], blobs[(p.gen, p.dataId)]);
      assert forall j :: 0 <= j < SLOTS && j != i ==> t.slots[j] == s.slots[j];
    }
  }

  /** A freshly announced slot holds nothing yet, so nothing wrong. */
  lemma FreshContent(mem: seq<byte>, sl: Slot, b: Blob)
    requires |mem| == PSRAM_SIZE && Placed(sl) && RadioMeta(sl, b) && sl.bitmap == ClearBitmap()
    ensures ChunksHeld(mem, sl, b)
  {
    RegionInside(mem, sl);
    TransferBounds(|b|);
    FreshBitmap(0);
  }
}
