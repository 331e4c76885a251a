/** The gateway's conversation with its host as it runs: the pending acknowledgement of src/slm_at_main.c
    and the cached sender of src/large_data.c beside the transport's own state. */
module LargeDataHost {
  import opened Basics
  import opened PsramDriver
  import opened LargeDataTypes
  import opened LargeDataStore
  import opened LargeDataTicks
  import opened LargeDataSerial
  import opened LargeDataMachine

  /** A sender record a chunk can be cut from. */
  predicate Serviceable(x: Sender) {
    x.totalChunks > 0 && 0 < x.lastChunkSize <= AT_CHUNK && x.base <= PSRAM_SIZE
  }

  ghost predicate Sound(c: Conv) {
    Shape(c.ld) && (c.ld.snd.active || c.cached ==> Serviceable(c.ld.snd))
  }

  /** Announcing a blob installs a record the conversation can serve. */
  lemma GatewayTickSound(c: Conv, known: bool, written: bool)
    requires Sound(c) && Ownership(c.ld)
    ensures Sound(c.(ld := GatewayTick(c.ld, known, written).0))
  {
    var i := WaitingFrom(c.ld.slots, 0);
    if !c.ld.snd.active && i < SLOTS {
      SerialFields(c.ld.slots[i].totalSize);
    }
  }

  class Conversation {
    const ld: LargeData
    var pending: Pending
    var cached: bool
    var deviceId: uint16

    ghost predicate Valid()
      reads this, ld, ld.ram, ld.slots, ld.empty, ld.ram.data
    {
      ld.Valid() && Sound(Abs())
    }

    ghost function Abs(): (c: Conv)
      reads this, ld, ld.ram, ld.slots, ld.empty, ld.ram.data
      requires ld.Valid()
    {
      Conv(ld.Abs(), pending, cached, deviceId)
    }

    /** The state at power-up. */
    constructor (ld: LargeData)
      requires ld.Valid() && !ld.snd.active
      ensures Valid() && Abs() == Conv(ld.Abs(), NoAck, false, 0xFFFF) && this.ld == ld
    {
      this.ld := ld;
      pending := NoAck;
      cached := false;
      deviceId := 0xFFFF;
    }

    /** cmd_ld_init_ack on a #LDINIT line; dev is the outcome of the serial number's lookup. */
    method CmdLdInitReply(dev: Option<uint16>, id: uint64)
      requires Valid()
      modifies this
      ensures Valid() && Abs() == HostStep(old(Abs()), InitReply(dev, id), true).0
    {
      if dev.None? {
        return;
      }
      cached := ld.snd.active && ld.snd.gen == dev.value && ld.snd.dataId == id % 0x100;
      if !cached {
        return;
      }
      deviceId := dev.value;
      pending := InitPending;
    }

    /** cmd_ld_chunk_ack on a #LD line. */
    method CmdLdChunkReply(id: uint64, page: uint64, chunk: uint64)
      requires Valid()
      modifies this`pending
      ensures Valid() && Abs() == HostStep(old(Abs()), ChunkReply(id, page, chunk), true).0
    {
      if !cached || ld.snd.dataId != id % 0x100 {
        return;
      }
      if page >= ld.snd.pageCount {
        return;
      }
      if chunk >= CHUNKS_PER_PAGE {
        return;
      }
      pending := ChunkPending;
    }

    /** cmd_report_ack or the configuration's twin, once its line is accepted: the one pending
        acknowledgement is taken over. */
    method OtherCommandReply()
      requires Valid()
      modifies this`pending
      ensures Valid() && Abs() == HostStep(old(Abs()), OtherReply, true).0
    {
      pending := OtherPending;
    }

    /** dispatch on OK: the pending acknowledgement decides what is sent, and is then forgotten. */
    method HostOk(readOk: bool, writeOk: bool) returns (out: Option<LdLine>)
      requires Valid()
      modifies this`pending, ld`snd, ld.slots
      ensures Valid() && (Abs(), out) == HostStep(old(Abs()), OkLine, readOk && writeOk)
    {
      out := None;
      if pending == InitPending && cached {
        out := ld.AtSendNextChunk(deviceId, 0, 0, readOk, writeOk);
      } else if pending == ChunkPending && cached {
        out := ld.CmdLdChunkReady(deviceId, readOk, writeOk);
      }
      pending := NoAck;
    }

    /** dispatch on ERROR. */
    method HostError()
      requires Valid()
      modifies this`pending
      ensures Valid() && Abs() == HostStep(old(Abs()), ErrorLine, true).0
    {
      pending := NoAck;
    }
  }
}
