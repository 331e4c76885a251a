/** The records and constants of src/large_data.h, src/protocol.h and src/slm_at_main.h. */
module LargeDataTypes {
  import opened Basics

  const CHUNK: nat := 180                 // SEND_LARGE_DATA_MAX: bytes per radio chunk
  const CHUNKS_PER_PAGE: nat := 32
  const PAGE_SIZE: nat := 5760            // CHUNK * CHUNKS_PER_PAGE
  const LD_BASE: nat := 0x20_0000         // PSRAM_LARGE_DATA_BASE
  const MAX_PAGES: nat := 1092            // PSRAM_LARGE_DATA_SIZE / PAGE_SIZE
  const SLOTS: nat := 64                  // LARGE_DATA_RECEIVER_SLOT_COUNT
  const MAX_TRANSFER: nat := 204800       // 200 KB
  const BITMAP_BYTES: nat := 143          // (MAX_TRANSFER / CHUNK + 7) / 8
  const AT_CHUNK: nat := 472              // AT_DATA_PAYLOAD_MAX: bytes per serial chunk
  const CRC_STAGE: nat := 1024            // LD_CRC_VERIFY_STAGE_SIZE
  const WINDOW: nat := 4                  // MAX_TX_QUEUE_PROCESS_PER_CYCLE / 2

  datatype DeviceType = UnknownType | Gateway | Anchor | Sensor

  datatype Status =
    | Success | Failure | CrcFail | ResourceUnavailable | InvalidParameter
    | AlreadyExists | NotFound | Busy | Complete
    | OtherStatus(code: uint8)   // the codes no handler tells apart

  type Bitmap = b: seq<byte> | |b| == BITMAP_BYTES witness seq(BITMAP_BYTES, _ => 0)

  function ClearBitmap(): Bitmap {
    seq(BITMAP_BYTES, _ => 0)
  }

  /** struct large_data_slot without its idle timer, which nothing polls. */
  datatype Slot = Slot(
    active: bool,
    ready: bool,          // upstream_ready
    sent: bool,           // is_sent
    transferred: bool,    // is_transfered
    gen: uint16,
    dataId: uint8,
    priority: uint8,
    totalSize: uint32,
    pageCount: uint8,
    lastChunkSize: uint16,
    totalChunks: uint16,
    crc32: uint32,
    received: uint16,
    bitmap: Bitmap,
    base: uint32,
    reportTime: int)

  /** struct large_data_sender; its timer enters the ticks as a parameter. */
  datatype Sender = Sender(
    active: bool,
    dst: uint16,
    gen: uint16,
    dataId: uint8,
    priority: uint8,
    totalSize: uint32,
    pageCount: uint16,
    lastChunkSize: uint16,
    totalChunks: uint16,
    nextChunk: uint16,
    crc32: uint32,
    base: uint32)

  /** large_data_init_t and large_data_chunk_t; what the handlers use of their headers enters as
      parameters. */
  datatype InitPkt = InitPkt(
    gen: uint16, dataId: uint8, reportTime: int, totalSize: uint32,
    pageCount: uint8, lastChunkSize: uint16, crc32: uint32)

  datatype ChunkPkt = ChunkPkt(gen: uint16, dataId: uint8, page: uint8, chunk: uint8, data: seq<byte>)

  /** Pages that a blob of this size occupies, radio chunks and serial chunks it is cut into. */
  function Pages(size: nat): nat {
    CeilDiv(size, PAGE_SIZE)
  }

  function Chunks(size: nat): nat {
    CeilDiv(size, CHUNK)
  }

  function AtChunks(size: nat): nat {
    CeilDiv(size, AT_CHUNK)
  }

  /** The size of the last piece when size bytes are cut into pieces of d. */
  function LastPiece(size: nat, d: nat): nat
    requires size > 0 && d > 0
  {
    CeilDivLeast(size, d);
    size - (CeilDiv(size, d) - 1) * d
  }

  lemma LastPieceBounds(size: nat, d: nat)
    requires size > 0 && d > 0
    ensures 1 <= LastPiece(size, d) <= d
    ensures CeilDiv(size, d) >= 1
  {
    CeilDivLeast(size, d);
    var q := CeilDiv(size, d);
    assert (q - 1) * d == q * d - d;
  }

  /** The piece counts of any admissible transfer fit the fields that hold them, every chunk index
      has its own bitmap bit, and the chunks fill no more than the pages allocated for them. */
  lemma TransferBounds(size: nat)
    requires 0 < size <= MAX_TRANSFER
    ensures 1 <= Chunks(size) <= 1138 && Chunks(size) <= 8 * BITMAP_BYTES
    ensures 1 <= AtChunks(size) <= 434
    ensures 1 <= Pages(size) <= 36
    ensures CeilDiv(Chunks(size), CHUNKS_PER_PAGE) == Pages(size)
    ensures Chunks(size) * CHUNK <= Pages(size) * PAGE_SIZE
    ensures CeilDiv(AtChunks(size), CHUNKS_PER_PAGE) <= 14
  {
  }
}
