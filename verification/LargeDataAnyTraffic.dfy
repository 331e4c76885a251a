/** Runs of one device under arbitrary traffic: any packets, acknowledgements and lines at all, announced sizes
    and contents included. The books of every slot stay right, and the flag ld_busy is exact on a gateway always,
    on an anchor until a COMPLETE answer arrives in the middle of a reception. */
module LargeDataAnyTraffic {
  import opened Basics
  import opened LargeDataTypes
  import opened Bitmaps
  import opened PsramDriver
  import opened LargeDataStore
  import opened LargeDataReceiver
  import opened LargeDataSender
  import opened LargeDataTicks
  import opened LargeDataSerial
  import opened LargeDataStaging
  import opened LargeDataNetwork

  predicate SameKey(a: Slot, b: Slot) {
    a.active && b.active && a.gen == b.gen && a.dataId == b.dataId
  }

  /** No two active slots are for the same transfer. */
  ghost predicate DistinctKeys(s: Ld) {
    Shape(s) && forall i, j :: 0 <= i < SLOTS && 0 <= j < SLOTS && SameKey(s.slots[i], s.slots[j]) ==> i == j
  }

  /** At most one slot is incomplete, ld_busy says whether one is, and no transfer has two slots. */
  ghost predicate BusyExact(s: Ld) {
    OneOpen(s) && DistinctKeys(s)
  }

  /** Keys, activity and completeness of every slot are as before, or the slot is no longer active. */
  ghost predicate NoNewSlots(s: Ld, t: Ld) {
    Shape(s) && Shape(t) && forall i :: 0 <= i < SLOTS && t.slots[i].active ==>
      s.slots[i].active && t.slots[i].gen == s.slots[i].gen && t.slots[i].dataId == s.slots[i].dataId
  }

  lemma NoNewSlotsKeepKeys(s: Ld, t: Ld)
    requires NoNewSlots(s, t) && DistinctKeys(s)
    ensures DistinctKeys(t)
  {
  }

  lemma InitKeepsKeys(s: Ld, p: InitPkt, priority: uint8)
    requires DistinctKeys(s) && InitAcceptable(p)
    ensures DistinctKeys(ValidateSlot(s, p, priority).0)
  {
    var t := ValidateSlot(s, p, priority).0;
    if !s.busy && FindSlot(s.slots, p.gen, p.dataId).None? && Place(s, p.totalSize).Some? {
      var (i, _) := Place(s, p.totalSize).value;
      assert forall j :: 0 <= j < SLOTS && j != i ==> t.slots[j] == s.slots[j];
      assert t.slots[i].gen == p.gen && t.slots[i].dataId == p.dataId;
    }
  }

  lemma ChunkAddsNoSlots(s: Ld, p: ChunkPkt, good: nat, fault: nat)
    requires Receiving(s) && |p.data| == CHUNK
    ensures NoNewSlots(s, ValidateChunk(s, p, good, fault).0)
  {
    var f, k := FindSlot(s.slots, p.gen, p.dataId), Linear(p.page, p.chunk);
    if f.Some? && InRange(s.slots[f.value], p) && !Has(s.slots[f.value].bitmap, k) {
      FinishAddsNoSlots(s.(mem := Store(s.mem, ChunkAddr(s.slots[f.value], k),
          p.data[..ChunkLen(s.slots[f.value], k)], good),
        slots := s.slots[f.value := Received(s.slots[f.value], k)]), f.value, fault);
    }
  }

  lemma FinishAddsNoSlots(s: Ld, i: nat, fault: nat)
    requires Shape(s) && i < SLOTS
    ensures NoNewSlots(s, Finish(s, i, fault).0)
  {
  }

  lemma QuietBusy(s: Ld, t: Ld)
    requires Quiet(s, t) && BusyExact(s) && t.busy == s.busy
    ensures BusyExact(t)
  {
    assert forall i :: 0 <= i < SLOTS ==> (Open(t.slots[i]) <==> Open(s.slots[i]));
    if SomeOpen(s) {
      var i :| 0 <= i < |s.slots| && Open(s.slots[i]);
      assert Open(t.slots[i]);
    }
  }

  lemma ReleaseReadyBusy(s: Ld, i: nat)
    requires BusyExact(s) && i < SLOTS && s.slots[i].ready
    ensures BusyExact(Release(s, i))
  {
    var t := Release(s, i);
    assert forall j :: 0 <= j < SLOTS && j != i ==> t.slots[j] == s.slots[j];
    if SomeOpen(s) {
      var j :| 0 <= j < |s.slots| && Open(s.slots[j]);
      assert Open(t.slots[j]);
    }
  }

  /** The lookup by key finds the slot the sender was set up from. */
  lemma FindsItself(s: Ld, i: nat)
    requires DistinctKeys(s) && i < SLOTS && s.slots[i].active
    ensures FindSlot(s.slots, s.slots[i].gen, s.slots[i].dataId) == Some(i)
  {
  }

  lemma GatewayTickBusy(s: Ld, known: bool, written: bool)
    requires Receiving(s) && BusyExact(s)
    ensures BusyExact(GatewayTick(s, known, written).0)
  {
    var i := WaitingFrom(s.slots, 0);
    if !s.snd.active && i < SLOTS {
      var t := s.(snd := SerialSender(s.snd, s.slots[i]));
      if !known {
        FindsItself(s, i);
        QuietBusy(s, t);
        ReleaseReadyBusy(t, i);
        QuietBusy(Release(t, i), Deactivate(Release(t, i)));
      } else {
        QuietBusy(s, GatewayTick(s, known, written).0);
      }
    }
  }

  lemma HostLeavesBusy(c: Conv, l: HostLine, ok: bool)
    requires Shape(c.ld)
    ensures HostStep(c, l, ok).0.ld.busy == c.ld.busy
  {
  }

  lemma ChunkAckLeavesBusy(s: Ld, role: DeviceType, a: ChunkAck, good: nat)
    requires Shape(s) && (Downstream(role) ==> s.snd.lastChunkSize <= CHUNK)
    ensures HandleChunkAck(s, role, a, good).0.busy == s.busy
  {
  }

  lemma InitBusy(s: Ld, role: DeviceType, fromType: DeviceType, p: InitPkt, priority: uint8)
    requires BusyExact(s)
    ensures BusyExact(HandleInit(s, role, fromType, p, priority).0)
  {
    if InitAcceptable(p) {
      InitKeepsOneOpen(s, p, priority);
      InitKeepsKeys(s, p, priority);
    }
  }

  lemma ChunkBusy(s: Ld, role: DeviceType, fromType: DeviceType, p: ChunkPkt, good: nat, fault: nat)
    requires Receiving(s) && BusyExact(s) && |p.data| == CHUNK
    ensures BusyExact(HandleChunk(s, role, fromType, p, good, fault).0)
  {
    ChunkKeepsOneOpen(s, p, good, fault);
    ChunkAddsNoSlots(s, p, good, fault);
    NoNewSlotsKeepKeys(s, ValidateChunk(s, p, good, fault).0);
  }

  lemma RadioTickBusy(s: Ld, expired: bool, parent: uint16, now: int)
    requires Receiving(s) && BusyExact(s)
    ensures BusyExact(RadioTick(s, Anchor, expired, parent, now).0)
  {
    var i, t := WaitingFrom(s.slots, 0), RadioTick(s, Anchor, expired, parent, now).0;
    if s.snd.active {
      MarkSentQuiet(s, false);
      QuietBusy(s, t);
    } else if i < SLOTS && !Sendable(s.slots[i]) {
      ReleaseReadyBusy(s, i);
    } else {
      QuietBusy(s, t);
    }
  }

  // ------------------------------------------------- books under any traffic

  lemma QuietBooks(role: DeviceType, s: Ld, t: Ld)
    requires Kept(role, s) && Quiet(s, t) && (Downstream(role) ==> t.snd.lastChunkSize <= CHUNK)
    ensures Kept(role, t)
  {
    if role != UnknownType {
      QuietOwnership(s, t);
    }
  }

  lemma ReleaseKept(role: DeviceType, s: Ld, i: nat)
    requires Kept(role, s) && role != UnknownType && i < SLOTS && s.slots[i].active
    ensures Kept(role, Release(s, i))
  {
    if role == Sensor {
      ReleaseBooks(s, i);
    } else {
      ReleaseKeepsOwnership(s, i);
    }
  }

  lemma ActivatedBooks(role: DeviceType, s: Ld, i: nat, parent: uint16)
    requires Kept(role, s) && Downstream(role) && i < SLOTS && s.slots[i].active && s.slots[i].ready
    ensures Kept(role, s.(snd := RadioSender(s.slots[i], parent), slots := s.slots[i := s.slots[i].(sent := true)]))
  {
    QuietBooks(role, s, s.(snd := RadioSender(s.slots[i], parent), slots := s.slots[i := s.slots[i].(sent := true)]));
  }

  lemma RadioTickBooks(role: DeviceType, s: Ld, expired: bool, parent: uint16, now: int)
    requires Kept(role, s) && Downstream(role)
    ensures Kept(role, RadioTick(s, role, expired, parent, now).0)
  {
    var i := WaitingFrom(s.slots, 0);
    if s.snd.active {
      MarkSentQuiet(s, false);
      QuietBooks(role, s, RadioTick(s, role, expired, parent, now).0);
    } else if i < SLOTS {
      if Sendable(s.slots[i]) {
        ActivatedBooks(role, s, i, parent);
      } else {
        ReleaseKept(role, s, i);
      }
    }
  }

  lemma GatewayTickBooks(s: Ld, known: bool, written: bool)
    requires Kept(Gateway, s)
    ensures Kept(Gateway, GatewayTick(s, known, written).0)
  {
    var i := WaitingFrom(s.slots, 0);
    if !s.snd.active && i < SLOTS {
      var t := s.(snd := SerialSender(s.snd, s.slots[i]));
      QuietBooks(Gateway, s, t);
      if known {
        QuietBooks(Gateway, s, GatewayTick(s, known, written).0);
      } else if FindSlot(t.slots, t.snd.gen, t.snd.dataId).Some? {
        var j := FindSlot(t.slots, t.snd.gen, t.snd.dataId).value;
        ReleaseKept(Gateway, t, j);
        QuietBooks(Gateway, Release(t, j), Deactivate(Release(t, j)));
      } else {
        QuietBooks(Gateway, t, Deactivate(t));
      }
    }
  }

  lemma InitBooks(role: DeviceType, s: Ld, fromType: DeviceType, p: InitPkt, priority: uint8)
    requires Kept(role, s)
    ensures Kept(role, HandleInit(s, role, fromType, p, priority).0)
  {
    if Relay(role) && InitAcceptable(p) {
      InitKeepsReceiving(s, p, priority);
      HandleInitKeepsSender(s, role, fromType, p, priority);
    }
  }

  lemma ChunkBooks(role: DeviceType, s: Ld, fromType: DeviceType, p: ChunkPkt, good: nat, fault: nat)
    requires Kept(role, s) && |p.data| == CHUNK
    ensures Kept(role, HandleChunk(s, role, fromType, p, good, fault).0)
  {
    if Relay(role) {
      ChunkKeepsReceiving(s, p, good, fault);
      ChunkKeepsSender(s, p, good, fault);
    }
  }

  lemma AckBooks(role: DeviceType, s: Ld, a: ChunkAck, good: nat)
    requires Kept(role, s)
    ensures Kept(role, HandleChunkAck(s, role, a, good).0)
  {
    if Downstream(role) {
      ChunkAckQuiet(s, role, a, good);
      QuietBooks(role, s, HandleChunkAck(s, role, a, good).0);
    } else if role == Gateway {
      StrayAckQuiet(s, a, good);
      QuietBooks(role, s, HandleChunkAck(s, role, a, good).0);
    }
  }

  lemma InitAckBooks(role: DeviceType, s: Ld, a: InitAck, good: nat)
    requires Kept(role, s)
    ensures Kept(role, HandleInitAck(s, role, a, good).0)
  {
    if Downstream(role) {
      InitAckQuiet(s, role, a, good);
      QuietBooks(role, s, HandleInitAck(s, role, a, good).0);
    }
  }

  /** Any act of any device, whatever the packet or line contains, keeps the books of every slot and the map of
      who owns which page. */
  lemma StepKeepsBooks(n: Node, a: Act)
    requires Kept(n.dev.role, n.conv.ld) && Sized(a)
    ensures Kept(n.dev.role, NodeStep(n, a).0.conv.ld) && NodeStep(n, a).0.dev == n.dev
  {
    var role, s := n.dev.role, n.conv.ld;
    match a
    case RxInit(p, fromType, priority) => InitBooks(role, s, fromType, p, priority);
    case RxChunk(p, fromType, good, fault) => ChunkBooks(role, s, fromType, p, good, fault);
    case RxInitAck(ia, good) => InitAckBooks(role, s, ia, good);
    case RxChunkAck(ca, good) => AckBooks(role, s, ca, good);
    case Tick(expired, parent, now, sn, written) =>
      if role == Gateway {
        GatewayTickBooks(s, sn.Some?, written);
      } else if Downstream(role) {
        RadioTickBooks(role, s, expired, parent, now);
      }
    case SerialInit(l) =>
      if role == Sensor {
        SerialInitBooks(s, n.dev, l);
      }
    case SerialChunk(l, good, fault) =>
      if role == Sensor {
        SerialChunkBooks(s, n.dev, l, good, fault);
        SerialChunkKeepsSender(s, n.dev, l, good, fault);
      }
    case HostSays(l, ok) =>
      if role == Gateway {
        HostStepQuiet(n.conv, l, ok);
        QuietBooks(role, s, HostStep(n.conv, l, ok).0.ld);
      }
  }

  /** A COMPLETE answer that an anchor takes while it is receiving something. */
  predicate ClearsEarly(n: Node, a: Act) {
    var s := n.conv.ld;
    && n.dev.role == Anchor && a.RxInitAck? && Upstream(a.ia.fromType) && Matches(s.snd, a.ia.gen, a.ia.dataId)
    && FindSlot(s.slots, s.snd.gen, s.snd.dataId).Some? && a.ia.status == Complete && s.busy
  }

  lemma InitAckBusy(n: Node, a: InitAck, good: nat)
    requires n.dev.role == Anchor && BusyExact(n.conv.ld) && n.conv.ld.snd.lastChunkSize <= CHUNK
    ensures BusyExact(HandleInitAck(n.conv.ld, Anchor, a, good).0) <==> !ClearsEarly(n, RxInitAck(a, good))
  {
    var s, t := n.conv.ld, HandleInitAck(n.conv.ld, Anchor, a, good).0;
    InitAckQuiet(s, Anchor, a, good);
    if ClearsEarly(n, RxInitAck(a, good)) {
      var i :| 0 <= i < |s.slots| && Open(s.slots[i]);
      assert Open(t.slots[i]);
    } else {
      assert t.busy == s.busy;
      QuietBusy(s, t);
    }
  }

  /** One act of a relay keeps ld_busy exact if and only if it is not a COMPLETE answer that an anchor takes in
      the middle of a reception. */
  lemma StepBusyExact(n: Node, a: Act)
    requires Relay(n.dev.role) && Kept(n.dev.role, n.conv.ld) && BusyExact(n.conv.ld) && Sized(a)
    ensures BusyExact(NodeStep(n, a).0.conv.ld) <==> !ClearsEarly(n, a)
  {
    var role, s := n.dev.role, n.conv.ld;
    match a
    case RxInit(p, fromType, priority) => InitBusy(s, role, fromType, p, priority);
    case RxChunk(p, fromType, good, fault) => ChunkBusy(s, role, fromType, p, good, fault);
    case RxInitAck(ia, good) =>
      if role == Anchor {
        InitAckBusy(n, ia, good);
      }
    case RxChunkAck(ca, good) =>
      if role == Anchor {
        ChunkAckQuiet(s, role, ca, good);
      } else {
        StrayAckQuiet(s, ca, good);
      }
      ChunkAckLeavesBusy(s, role, ca, good);
      QuietBusy(s, HandleChunkAck(s, role, ca, good).0);
    case Tick(expired, parent, now, sn, written) =>
      if role == Gateway {
        GatewayTickBusy(s, sn.Some?, written);
      } else {
        RadioTickBusy(s, expired, parent, now);
      }
    case SerialInit(l) =>
    case SerialChunk(l, good, fault) =>
    case HostSays(l, ok) =>
      if role == Gateway {
        HostStepQuiet(n.conv, l, ok);
        HostLeavesBusy(n.conv, l, ok);
        QuietBusy(s, HostStep(n.conv, l, ok).0.ld);
      }
  }

  // ------------------------------------------------------------------ whole runs

  /** The device after a sequence of acts of its own. */
  function RunAll(n: Node, acts: seq<Act>): (m: Node)
    requires Kept(n.dev.role, n.conv.ld) && forall a :: a in acts ==> Sized(a)
    ensures m.dev == n.dev && Kept(m.dev.role, m.conv.ld)
    decreases |acts|
  {
    if acts == [] then n
    else
      StepKeepsBooks(n, acts[0]);
      RunAll(NodeStep(n, acts[0]).0, acts[1..])
  }

  /** The books of one slot, in full: a relay has counted exactly the chunks whose bits are set, has set no bit
      beyond the last chunk, and is complete exactly when every chunk has arrived; a sensor's counter stays below
      the announced count until the blob is complete. */
  ghost predicate RightBooks(role: DeviceType, sl: Slot) {
    if role == Sensor then
      if sl.ready then sl.received == sl.totalChunks == Chunks(sl.totalSize)
      else sl.totalChunks == AtChunks(sl.totalSize) && sl.received < sl.totalChunks
    else
      && sl.totalChunks == Chunks(sl.totalSize) <= BitmapBits() && sl.received == Count(sl.bitmap, sl.totalChunks)
      && (forall k :: sl.totalChunks <= k < BitmapBits() ==> !Has(sl.bitmap, k))
      && (sl.ready <==> forall k :: 0 <= k < sl.totalChunks ==> Has(sl.bitmap, k))
  }

  lemma FreshKept(n: Node)
    requires Fresh(n)
    ensures Kept(n.dev.role, n.conv.ld) && BusyExact(n.conv.ld)
  {
    InitOwnership(n.conv.ld);
  }

  /** In every state that a device reaches from start-up under any packets, acknowledgements and lines at all,
      the books of every active slot are right, and active slots own disjoint pages, a page being marked empty
      exactly when no slot owns it. */
  lemma EveryStateBooked(n: Node, acts: seq<Act>, i: nat)
    requires Fresh(n) && n.dev.role != UnknownType && (forall a :: a in acts ==> Sized(a)) && i < SLOTS
    ensures Kept(n.dev.role, n.conv.ld)
    ensures var s := RunAll(n, acts).conv.ld;
      Ownership(s) && (s.slots[i].active ==> RightBooks(n.dev.role, s.slots[i]))
  {
    FreshKept(n);
    var s := RunAll(n, acts).conv.ld;
    if s.slots[i].active && n.dev.role != Sensor {
      CompleteIffAllArrived(s.slots[i]);
    }
  }

  /** ld_busy is exact in every state of the run. */
  ghost predicate AlwaysBusyExact(n: Node, acts: seq<Act>)
    requires Kept(n.dev.role, n.conv.ld) && forall a :: a in acts ==> Sized(a)
    decreases |acts|
  {
    BusyExact(n.conv.ld) &&
    (acts == [] || (StepKeepsBooks(n, acts[0]); AlwaysBusyExact(NodeStep(n, acts[0]).0, acts[1..])))
  }

  /** No COMPLETE answer is taken in the middle of a reception. */
  ghost predicate NeverClearsEarly(n: Node, acts: seq<Act>)
    requires Kept(n.dev.role, n.conv.ld) && forall a :: a in acts ==> Sized(a)
    decreases |acts|
  {
    acts == [] ||
    (!ClearsEarly(n, acts[0]) && (StepKeepsBooks(n, acts[0]); NeverClearsEarly(NodeStep(n, acts[0]).0, acts[1..])))
  }

  lemma {:induction false} RunBusyExact(n: Node, acts: seq<Act>)
    requires Relay(n.dev.role) && Kept(n.dev.role, n.conv.ld) && BusyExact(n.conv.ld)
    requires forall a :: a in acts ==> Sized(a)
    ensures AlwaysBusyExact(n, acts) <==> NeverClearsEarly(n, acts)
    ensures n.dev.role == Gateway ==> NeverClearsEarly(n, acts)
    decreases |acts|
  {
    if acts != [] {
      StepKeepsBooks(n, acts[0]);
      StepBusyExact(n, acts[0]);
      var m := NodeStep(n, acts[0]).0;
      if ClearsEarly(n, acts[0]) {
        NotAlways(m, acts[1..]);
      } else {
        RunBusyExact(m, acts[1..]);
      }
    }
  }

  lemma NotAlways(n: Node, acts: seq<Act>)
    requires Kept(n.dev.role, n.conv.ld) && !BusyExact(n.conv.ld) && forall a :: a in acts ==> Sized(a)
    ensures !AlwaysBusyExact(n, acts)
  {
  }

  /** Over every run from start-up under any traffic: ld_busy of an anchor is set exactly when one, and only one,
      active slot is incomplete, in every state, if and only if no COMPLETE answer is taken in the middle of a
      reception; on a gateway it always is. */
  lemma BusyIsExact(n: Node, acts: seq<Act>)
    requires Fresh(n) && Relay(n.dev.role) && forall a :: a in acts ==> Sized(a)
    ensures Kept(n.dev.role, n.conv.ld)
    ensures AlwaysBusyExact(n, acts) <==> NeverClearsEarly(n, acts)
    ensures n.dev.role == Gateway ==> AlwaysBusyExact(n, acts)
  {
    FreshKept(n);
    RunBusyExact(n, acts);
  }

  // -------------------------------------------------------- frozen until freed

  /** Nothing of a complete slot has changed but is_sent and is_transfered. */
  ghost predicate SameBlob(s: Ld, t: Ld, j: nat)
    requires Shape(s) && Shape(t) && j < SLOTS
  {
    && t.slots[j] == s.slots[j].(sent := t.slots[j].sent, transferred := t.slots[j].transferred)
    && Region(t.mem, t.slots[j]) == Region(s.mem, s.slots[j])
  }

  lemma QuietSame(s: Ld, t: Ld, j: nat)
    requires Quiet(s, t) && j < SLOTS
    ensures SameBlob(s, t, j)
  {
    assert Region(t.mem, t.slots[j]) == Region(s.mem, s.slots[j]);
  }

  lemma ReleaseSame(s: Ld, i: nat, j: nat)
    requires Shape(s) && i < SLOTS && j < SLOTS
    ensures SameBlob(s, Release(s, i), j) || (i == j && !Release(s, i).slots[j].active)
  {
  }

  lemma RadioTickSame(s: Ld, role: DeviceType, expired: bool, parent: uint16, now: int, j: nat)
    requires Shape(s) && j < SLOTS
    ensures var t := RadioTick(s, role, expired, parent, now).0; SameBlob(s, t, j) || !t.slots[j].active
  {
    var i, t := WaitingFrom(s.slots, 0), RadioTick(s, role, expired, parent, now).0;
    if s.snd.active {
      MarkSentQuiet(s, false);
      QuietSame(s, t, j);
    } else if i < SLOTS && !Sendable(s.slots[i]) {
      ReleaseSame(s, i, j);
    } else {
      QuietSame(s, t, j);
    }
  }

  lemma GatewayTickSame(s: Ld, known: bool, written: bool, j: nat)
    requires Ownership(s) && j < SLOTS
    ensures var t := GatewayTick(s, known, written).0; SameBlob(s, t, j) || !t.slots[j].active
  {
    var i := WaitingFrom(s.slots, 0);
    if s.snd.active || i == SLOTS {
      QuietSame(s, s, j);
    } else {
      var t := s.(snd := SerialSender(s.snd, s.slots[i]));
      var f := FindSlot(t.slots, t.snd.gen, t.snd.dataId);
      if !known && f.Some? {
        ReleaseSame(t, f.value, j);
      } else {
        QuietSame(s, GatewayTick(s, known, written).0, j);
      }
    }
  }

  lemma InitSame(s: Ld, role: DeviceType, fromType: DeviceType, p: InitPkt, priority: uint8, j: nat)
    requires Shape(s) && j < SLOTS && s.slots[j].active
    ensures var t := HandleInit(s, role, fromType, p, priority).0; Shape(t) && SameBlob(s, t, j)
  {
    var t := HandleInit(s, role, fromType, p, priority).0;
    assert t.slots[j] == s.slots[j] && t.mem == s.mem;
  }

  lemma ChunkSame(s: Ld, role: DeviceType, fromType: DeviceType, p: ChunkPkt, good: nat, fault: nat, j: nat)
    requires Receiving(s) && |p.data| == CHUNK && j < SLOTS && s.slots[j].active && s.slots[j].ready
    ensures var t := HandleChunk(s, role, fromType, p, good, fault).0; Shape(t) && SameBlob(s, t, j)
  {
    ChunkKeepsReceiving(s, p, good, fault);
    ReadyRegionFrozen(s, j, p, good, fault);
    ReadyRecordFrozen(s, j, p, good, fault);
  }

  lemma SerialInitSame(s: Ld, d: Device, l: InitLine, j: nat)
    requires Shape(s) && j < SLOTS && s.slots[j].active
    ensures SameBlob(s, CmdLdInit(s, d, l).0, j)
  {
    var t := CmdLdInit(s, d, l).0;
    assert t.slots[j] == s.slots[j] && t.mem == s.mem;
  }

  lemma AcksSame(n: Node, a: Act, j: nat)
    requires Kept(n.dev.role, n.conv.ld) && (a.RxInitAck? || a.RxChunkAck?) && n.dev.role != UnknownType && j < SLOTS
    ensures SameBlob(n.conv.ld, NodeStep(n, a).0.conv.ld, j)
  {
    var role, s := n.dev.role, n.conv.ld;
    if role == Gateway {
      if a.RxChunkAck? {
        StrayAckQuiet(s, a.ca, a.good);
        QuietSame(s, HandleChunkAck(s, role, a.ca, a.good).0, j);
      }
    } else if a.RxChunkAck? {
      ChunkAckQuiet(s, role, a.ca, a.good);
      QuietSame(s, HandleChunkAck(s, role, a.ca, a.good).0, j);
    } else {
      InitAckQuiet(s, role, a.ia, a.good);
      QuietSame(s, HandleInitAck(s, role, a.ia, a.good).0, j);
    }
  }

  lemma SerialSame(n: Node, a: Act, j: nat)
    requires Kept(n.dev.role, n.conv.ld) && (a.SerialInit? || a.SerialChunk? || a.HostSays?)
    requires j < SLOTS && n.conv.ld.slots[j].active && n.conv.ld.slots[j].ready
    ensures SameBlob(n.conv.ld, NodeStep(n, a).0.conv.ld, j)
  {
    var s := n.conv.ld;
    match a
    case SerialInit(l) => SerialInitSame(s, n.dev, l, j);
    case SerialChunk(l, good, fault) =>
      if n.dev.role == Sensor {
        SerialReadyFrozen(s, n.dev, l, good, fault, j);
      }
    case HostSays(l, ok) =>
      HostStepQuiet(n.conv, l, ok);
      QuietSame(s, HostStep(n.conv, l, ok).0.ld, j);
    case _ =>
  }

  /** Any act, with any contents, leaves a complete slot's record and every byte of its blob alone, unless it is
      a tick and frees the slot. */
  lemma CompleteFrozen(n: Node, a: Act, j: nat)
    requires Kept(n.dev.role, n.conv.ld) && Sized(a) && n.dev.role != UnknownType
    requires j < SLOTS && n.conv.ld.slots[j].active && n.conv.ld.slots[j].ready
    ensures var (s, t) := (n.conv.ld, NodeStep(n, a).0.conv.ld);
      Shape(t) && (SameBlob(s, t, j) || (a.Tick? && !t.slots[j].active))
  {
    StepKeepsBooks(n, a);
    var s := n.conv.ld;
    match a
    case RxInit(p, fromType, priority) => InitSame(s, n.dev.role, fromType, p, priority, j);
    case RxChunk(p, fromType, good, fault) =>
      if Relay(n.dev.role) {
        ChunkSame(s, n.dev.role, fromType, p, good, fault, j);
      }
    case Tick(expired, parent, now, sn, written) =>
      if n.dev.role == Gateway {
        GatewayTickSame(s, sn.Some?, written, j);
      } else {
        RadioTickSame(s, n.dev.role, expired, parent, now, j);
      }
    case RxInitAck(_, _) => AcksSame(n, a, j);
    case RxChunkAck(_, _) => AcksSame(n, a, j);
    case _ => SerialSame(n, a, j);
  }

  /** The slot is active in every state of the run. */
  ghost predicate NeverFreed(n: Node, acts: seq<Act>, j: nat)
    requires Kept(n.dev.role, n.conv.ld) && (forall a :: a in acts ==> Sized(a)) && n.dev.role != UnknownType &&
               j < SLOTS
    decreases |acts|
  {
    n.conv.ld.slots[j].active &&
    (acts == [] || (StepKeepsBooks(n, acts[0]); NeverFreed(NodeStep(n, acts[0]).0, acts[1..], j)))
  }

  /** Whole runs: from the moment a slot is complete until it is freed, no packet, acknowledgement or line
      changes its record or a byte of its blob. */
  lemma {:induction false} FrozenUntilFreed(n: Node, acts: seq<Act>, j: nat)
    requires Kept(n.dev.role, n.conv.ld) && (forall a :: a in acts ==> Sized(a)) && n.dev.role != UnknownType
    requires j < SLOTS && n.conv.ld.slots[j].ready && NeverFreed(n, acts, j)
    ensures SameBlob(n.conv.ld, RunAll(n, acts).conv.ld, j)
    decreases |acts|
  {
    if acts != [] {
      StepKeepsBooks(n, acts[0]);
      CompleteFrozen(n, acts[0], j);
      FrozenUntilFreed(NodeStep(n, acts[0]).0, acts[1..], j);
    }
  }
}
