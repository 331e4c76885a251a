/** Sending a stored transfer to the next hop: a window of four chunks driven by a count of
    acknowledgements (src/large_data.c, send_next_large_data_chunk and the ACK handlers). */
module LargeDataSender {
  import opened Basics
  import opened LargeDataTypes
  import opened PsramDriver
  import opened LargeDataStore
  import opened LargeDataReceiver

  /** large_data_init_ack_t and large_data_chunk_ack_t with the fields of their headers that matter. */
  datatype InitAck = InitAck(from: uint16, fromType: DeviceType, status: Status, gen: uint16, dataId: uint8)
  datatype ChunkAck = ChunkAck(
    from: uint16, fromType: DeviceType, status: Status, gen: uint16, dataId: uint8, page: uint8, chunk: uint8)

  function SendLen(snd: Sender, k: nat): uint16 {
    if k == snd.totalChunks - 1 then snd.lastChunkSize else CHUNK
  }

  /** The packet for linear chunk index k: its bytes followed by zeros. page and chunk are what the
      caller puts in the packet. */
  function Packet(s: Ld, k: nat, page: uint8, chunk: uint8): ChunkPkt
    requires Shape(s)
    requires s.snd.base + k * CHUNK + SendLen(s.snd, k) <= PSRAM_SIZE && SendLen(s.snd, k) <= CHUNK
  {
    var addr := s.snd.base + k * CHUNK;
    var n := SendLen(s.snd, k);
    ChunkPkt(s.snd.gen, s.snd.dataId, page, chunk, s.mem[addr..addr + n] + seq(CHUNK - n, _ => 0))
  }

  function Deactivate(s: Ld): Ld {
    s.(snd := s.snd.(active := false))
  }

  /** The packets for chunks k .. end of a window whose first `good` memory reads succeed; the flag says
      whether a read failed. */
  function Window(s: Ld, k: nat, end: nat, good: nat): (r: (seq<ChunkPkt>, bool))
    requires Shape(s) && s.snd.lastChunkSize <= CHUNK
    decreases end - k
  {
    if k >= end || k >= s.snd.totalChunks then ([], true)
    else if good == 0 || s.snd.base + k * CHUNK + SendLen(s.snd, k) > PSRAM_SIZE then ([], false)
    else
      var (rest, ok) := Window(s, k + 1, end, good - 1);
      ([Packet(s, k, k / CHUNKS_PER_PAGE % 0x100, k % CHUNKS_PER_PAGE)] + rest, ok)
  }

  /** Handlers change nothing of the sender record but its activity and its counter. */
  predicate SameTransfer(a: Sender, b: Sender) {
    a == b.(active := a.active, nextChunk := a.nextChunk) && (a.active ==> b.active)
  }

  /** send_next_large_data_chunk. */
  function SendNext(s: Ld, good: nat): (r: (Ld, seq<ChunkPkt>, bool))
    requires Shape(s) && s.snd.lastChunkSize <= CHUNK
    ensures Shape(r.0) && SameTransfer(r.0.snd, s.snd)
  {
    var (out, ok) := Window(s, s.snd.nextChunk, s.snd.nextChunk + WINDOW, good);
    (if ok then s else Deactivate(s), out, ok)
  }

  /** resend_large_data_chunk. */
  function Resend(s: Ld, page: uint8, chunk: uint8, good: nat): (r: (Ld, seq<ChunkPkt>, bool))
    requires Shape(s) && s.snd.lastChunkSize <= CHUNK
    ensures Shape(r.0) && SameTransfer(r.0.snd, s.snd)
  {
    var k := Linear(page, chunk);
    if good == 0 || s.snd.base + k * CHUNK + SendLen(s.snd, k) > PSRAM_SIZE then (Deactivate(s), [], false)
    else (s, [Packet(s, k, page, chunk)], true)
  }

  predicate Matches(snd: Sender, gen: uint16, dataId: uint8) {
    snd.active && snd.gen == gen && snd.dataId == dataId
  }

  predicate Upstream(t: DeviceType) {
    t == Gateway || t == Anchor
  }

  predicate Downstream(t: DeviceType) {
    t == Anchor || t == Sensor
  }

  /** Sets or clears is_sent on the slot the sender works for, if it is still there. */
  function MarkSent(s: Ld, sent: bool): Ld
    requires Shape(s)
  {
    match FindSlot(s.slots, s.snd.gen, s.snd.dataId)
    case None => s
    case Some(i) => s.(slots := s.slots[i := s.slots[i].(sent := sent)])
  }

  predicate Accepts(s: Ld, role: DeviceType, a: InitAck) {
    && Downstream(role) && Upstream(a.fromType) && Matches(s.snd, a.gen, a.dataId)
    && FindSlot(s.slots, s.snd.gen, s.snd.dataId).Some?
    && (a.status == Success || a.status == AlreadyExists) && s.snd.dst == a.from
  }

  /** handle_large_data_init_ack on a device of type role. */
  function HandleInitAck(s: Ld, role: DeviceType, a: InitAck, good: nat): (r: (Ld, seq<ChunkPkt>))
    requires Shape(s) && (Downstream(role) ==> s.snd.lastChunkSize <= CHUNK)
    ensures Shape(r.0) && SameTransfer(r.0.snd, s.snd)
  {
    if !Downstream(role) || !Upstream(a.fromType) || !Matches(s.snd, a.gen, a.dataId) then (s, [])
    else match FindSlot(s.slots, s.snd.gen, s.snd.dataId)
      case None => (s, [])
      case Some(i) =>
        match a.status
        case Busy => (MarkSent(s, false), [])
        case Complete =>
          (Deactivate(s).(slots := s.slots[i := s.slots[i].(transferred := true)], busy := false), [])
        case Success => if s.snd.dst != a.from then (s, []) else (SendNext(s, good).0, SendNext(s, good).1)
        case AlreadyExists => if s.snd.dst != a.from then (s, []) else (SendNext(s, good).0, SendNext(s, good).1)
        case _ => (s, [])
  }

  predicate Positive(st: Status) {
    st == Success || st == AlreadyExists
  }

  /** The acknowledgement of the last chunk, which ends the transfer without being counted. */
  predicate Final(snd: Sender, a: ChunkAck) {
    && Positive(a.status) && a.page == snd.pageCount - 1
    && snd.totalChunks > 0 && a.chunk == (snd.totalChunks - 1) % CHUNKS_PER_PAGE
  }

  /** An acknowledgement that reaches the counter, provided a resend it asks for succeeds. */
  predicate Counted(s: Ld, role: DeviceType, a: ChunkAck) {
    && Matches(s.snd, a.gen, a.dataId) && s.snd.dst == a.from && !Final(s.snd, a)
    && Downstream(role) && Upstream(a.fromType)
    && a.status != NotFound && a.status != ResourceUnavailable && a.status != CrcFail
  }

  function Advance(s: Ld): Ld {
    s.(snd := s.snd.(nextChunk := (s.snd.nextChunk + 1) % 0x1_0000))
  }

  /** Counting one acknowledgement: every fourth one sends the next window. */
  function CountAck(s: Ld, good: nat): (r: (Ld, seq<ChunkPkt>))
    requires Shape(s) && s.snd.lastChunkSize <= CHUNK
    ensures Shape(r.0) && SameTransfer(r.0.snd, s.snd)
  {
    var t := Advance(s);
    if t.snd.nextChunk % 4 != 0 then (t, [])
    else
      var (u, out, ok) := SendNext(t, good);
      (if ok then u else MarkSent(u, false), out)
  }

  /** handle_large_data_chunk_ack on a device of type role. */
  function HandleChunkAck(s: Ld, role: DeviceType, a: ChunkAck, good: nat): (r: (Ld, seq<ChunkPkt>))
    requires Shape(s) && (Downstream(role) ==> s.snd.lastChunkSize <= CHUNK)
    ensures Shape(r.0) && SameTransfer(r.0.snd, s.snd)
  {
    if !Matches(s.snd, a.gen, a.dataId) || s.snd.dst != a.from then (s, [])
    else if Final(s.snd, a) then (MarkSent(s, true), [])
    else if !Downstream(role) || !Upstream(a.fromType) then (s, [])
    else if a.status == NotFound || a.status == ResourceUnavailable || a.status == CrcFail then
      (MarkSent(Deactivate(s), false), [])
    else if a.status == Failure || a.status == InvalidParameter then
      var (t, again, ok) := Resend(s, a.page, a.chunk, good);
      if !ok then (t, again)
      else
        var (u, out) := CountAck(t, good - 1);
        (u, again + out)
    else CountAck(s, good)
  }

  // --------------------------------------------------------- what is sent

  function Index(p: ChunkPkt): nat {
    Linear(p.page, p.chunk)
  }

  function Indices(ps: seq<ChunkPkt>): set<nat> {
    set p | p in ps :: Index(p)
  }

  lemma PacketIndex(s: Ld, k: nat)
    requires Shape(s) && s.snd.lastChunkSize <= CHUNK && k < BitmapBits()
    requires s.snd.base + k * CHUNK + SendLen(s.snd, k) <= PSRAM_SIZE
    ensures Index(Packet(s, k, k / CHUNKS_PER_PAGE % 0x100, k % CHUNKS_PER_PAGE)) == k
  {
  }

  /** out is {lo, ..., hi - 1}. */
  ghost predicate IsSpan(out: set<nat>, lo: nat, hi: nat) {
    forall k: nat :: k in out <==> lo <= k < hi
  }

  lemma SpanCons(out: set<nat>, k: nat, hi: nat)
    requires IsSpan(out, k + 1, hi) && k < hi
    ensures IsSpan({k} + out, k, hi)
  {
  }

  /** A window sends exactly the indices from its start that exist; when a memory read fails, none beyond. */
  lemma {:induction false} WindowIndices(s: Ld, k: nat, end: nat, good: nat)
    requires Shape(s) && s.snd.lastChunkSize <= CHUNK && s.snd.totalChunks <= BitmapBits()
    ensures var (out, ok) := Window(s, k, end, good);
      && (ok ==> IsSpan(Indices(out), k, Min(end, s.snd.totalChunks)))
      && (forall j :: j in Indices(out) ==> k <= j < Min(end, s.snd.totalChunks))
    decreases end - k
  {
    var (out, ok) := Window(s, k, end, good);
    if out != [] {
      var (rest, _) := Window(s, k + 1, end, good - 1);
      WindowIndices(s, k + 1, end, good - 1);
      PacketIndex(s, k);
      IndicesConcat([out[0]], rest);
      OneIndex(out[0]);
      assert out == [out[0]] + rest;
      if ok {
        SpanCons(Indices(rest), k, Min(end, s.snd.totalChunks));
      }
    }
  }

  lemma IndicesConcat(a: seq<ChunkPkt>, b: seq<ChunkPkt>)
    ensures Indices(a + b) == Indices(a) + Indices(b)
  {
  }

  lemma OneIndex(p: ChunkPkt)
    ensures Indices([p]) == {Index(p)}
  {
    assert p in [p];
  }

  /** The window that a counter value calls for. */
  predicate Due(k: nat, next: nat, total: nat) {
    next <= k < Min(next + WINDOW, total)
  }

  /** out is exactly the window at next. */
  ghost predicate IsWindow(out: set<nat>, next: nat, total: nat) {
    IsSpan(out, next, Min(next + WINDOW, total))
  }

  ghost predicate InWindowAt(out: set<nat>, next: nat, total: nat) {
    forall k :: k in out ==> Due(k, next, total)
  }

  lemma SendNextSends(s: Ld, good: nat)
    requires Shape(s) && s.snd.lastChunkSize <= CHUNK && s.snd.totalChunks <= BitmapBits()
    ensures var (t, out, ok) := SendNext(s, good);
      && t.snd.nextChunk == s.snd.nextChunk && (t.snd.active ==> ok)
      && (ok ==> IsWindow(Indices(out), s.snd.nextChunk, s.snd.totalChunks))
      && InWindowAt(Indices(out), s.snd.nextChunk, s.snd.totalChunks)
  {
    WindowIndices(s, s.snd.nextChunk, s.snd.nextChunk + WINDOW, good);
  }

  /** An accepted INIT_ACK sends the window at the counter; any other sends nothing. */
  lemma InitAckSends(s: Ld, role: DeviceType, a: InitAck, good: nat)
    requires Shape(s) && s.snd.lastChunkSize <= CHUNK && s.snd.totalChunks <= BitmapBits()
    ensures var (t, out) := HandleInitAck(s, role, a, good);
      && t.snd.nextChunk == s.snd.nextChunk
      && (t.snd.active && Accepts(s, role, a) ==> IsWindow(Indices(out), s.snd.nextChunk, s.snd.totalChunks))
      && InWindowAt(Indices(out), s.snd.nextChunk, s.snd.totalChunks)
      && (!Accepts(s, role, a) ==> Indices(out) == {})
  {
    SendNextSends(s, good);
  }

  /** The indices a counted ACK sends once the counter stands at next: the window then due when next is
      a multiple of four, and the named chunk again when the ACK asks for it. */
  ghost predicate IsAnswer(out: set<nat>, next: nat, total: nat, again: set<nat>) {
    forall k: nat :: k in out <==> (next % 4 == 0 && Due(k, next, total)) || k in again
  }

  lemma CountAckSends(s: Ld, good: nat)
    requires Shape(s) && s.snd.lastChunkSize <= CHUNK && s.snd.totalChunks <= BitmapBits()
    ensures var (t, out) := CountAck(s, good);
      && (t.snd.active ==>
            && t.snd.nextChunk == (s.snd.nextChunk + 1) % 0x1_0000
            && IsAnswer(Indices(out), t.snd.nextChunk, s.snd.totalChunks, {}))
      && InWindowAt(Indices(out), (s.snd.nextChunk + 1) % 0x1_0000, s.snd.totalChunks)
  {
    SendNextSends(Advance(s), good);
  }

  /** The statuses that make the sender repeat a chunk. */
  predicate Again(a: ChunkAck) {
    a.status == Failure || a.status == InvalidParameter
  }

  function Repeated(a: ChunkAck): set<nat> {
    if Again(a) then {Linear(a.page, a.chunk)} else {}
  }

  lemma AgainThenCount(s: Ld, role: DeviceType, a: ChunkAck, good: nat)
    requires Shape(s) && s.snd.lastChunkSize <= CHUNK && Counted(s, role, a) && Again(a)
    requires Resend(s, a.page, a.chunk, good).2
    ensures var again := Resend(s, a.page, a.chunk, good).1;
      && good > 0 && |again| == 1 && again == [again[0]] && Index(again[0]) == Linear(a.page, a.chunk)
      && HandleChunkAck(s, role, a, good) == (CountAck(s, good - 1).0, again + CountAck(s, good - 1).1)
  {
  }

  /** The outcomes of a chunk ACK that is not counted. */
  lemma UncountedCases(s: Ld, role: DeviceType, a: ChunkAck, good: nat)
    requires Shape(s) && s.snd.lastChunkSize <= CHUNK && !Counted(s, role, a)
    ensures HandleChunkAck(s, role, a, good) ==
      if !Matches(s.snd, a.gen, a.dataId) || s.snd.dst != a.from then (s, [])
      else if Final(s.snd, a) then (MarkSent(s, true), [])
      else if !Downstream(role) || !Upstream(a.fromType) then (s, [])
      else (MarkSent(Deactivate(s), false), [])
  {
  }

  lemma AnswerAndRepeat(out: set<nat>, next: nat, total: nat, again: set<nat>)
    requires IsAnswer(out, next, total, {})
    ensures IsAnswer(again + out, next, total, again)
  {
  }

  /** What a counted ACK does to the counter and sends. */
  ghost predicate AckEffect(s: Ld, t: Ld, out: set<nat>, a: ChunkAck) {
    t.snd.active ==>
      && t.snd.nextChunk == (s.snd.nextChunk + 1) % 0x1_0000
      && IsAnswer(out, t.snd.nextChunk, s.snd.totalChunks, Repeated(a))
  }

  lemma RepeatSends(s: Ld, role: DeviceType, a: ChunkAck, good: nat)
    requires Shape(s) && s.snd.lastChunkSize <= CHUNK && s.snd.totalChunks <= BitmapBits()
    requires Counted(s, role, a) && Again(a)
    ensures var (t, out) := HandleChunkAck(s, role, a, good);
      AckEffect(s, t, Indices(out), a)
  {
    if Resend(s, a.page, a.chunk, good).2 {
      var again := Resend(s, a.page, a.chunk, good).1;
      var (t, out) := CountAck(s, good - 1);
      AgainThenCount(s, role, a, good);
      CountAckSends(s, good - 1);
      IndicesConcat(again, out);
      OneIndex(again[0]);
      if t.snd.active {
        AnswerAndRepeat(Indices(out), t.snd.nextChunk, s.snd.totalChunks, Repeated(a));
      }
    }
  }

  /** A counted ACK moves the counter by one and sends the window then due, after repeating the chunk
      it names when it asks for that. */
  lemma CountedSends(s: Ld, role: DeviceType, a: ChunkAck, good: nat)
    requires Shape(s) && s.snd.lastChunkSize <= CHUNK && s.snd.totalChunks <= BitmapBits() && Counted(s, role, a)
    ensures var (t, out) := HandleChunkAck(s, role, a, good);
      AckEffect(s, t, Indices(out), a)
  {
    if Again(a) {
      RepeatSends(s, role, a, good);
    } else {
      CountAckSends(s, good);
    }
  }

  /** An ACK that is not counted sends nothing. */
  lemma UncountedSends(s: Ld, role: DeviceType, a: ChunkAck, good: nat)
    requires Shape(s) && s.snd.lastChunkSize <= CHUNK && !Counted(s, role, a)
    ensures var (t, out) := HandleChunkAck(s, role, a, good);
      t.snd.nextChunk == s.snd.nextChunk && out == []
  {
  }

  // --------------------------------------------------------- runs of a sender

  /** A sender since its activation: what it has sent, which chunks were acknowledged as received
      and counted, how many acknowledgements were counted, and whether an INIT_ACK was accepted. */
  datatype Run = Run(s: Ld, sent: set<nat>, acked: set<nat>, acks: nat, started: bool)

  /** What happens to the device: an acknowledgement arrives, or a reception, a tick or a serial line changes
      the rest of its state to that of `rest` and at most switches the sender off. */
  datatype Event =
    | OnInitAck(ia: InitAck, good: nat)
    | OnChunkAck(ca: ChunkAck, good: nat)
    | OnOther(rest: Ld, off: bool)

  ghost predicate EventOk(e: Event) {
    e.OnOther? ==> Shape(e.rest)
  }

  function Step(r: Run, role: DeviceType, e: Event): Run
    requires Shape(r.s) && r.s.snd.lastChunkSize <= CHUNK
  {
    match e
    case OnInitAck(a, good) =>
      var (t, out) := HandleInitAck(r.s, role, a, good);
      AfterInitAck(r, t, Indices(out), Accepts(r.s, role, a))
    case OnChunkAck(a, good) =>
      var (t, out) := HandleChunkAck(r.s, role, a, good);
      AfterChunkAck(r, t, Indices(out), a, Counted(r.s, role, a))
    case OnOther(rest, off) => r.(s := rest.(snd := r.s.snd.(active := r.s.snd.active && !off)))
  }

  function AfterInitAck(r: Run, t: Ld, out: set<nat>, accepted: bool): Run {
    r.(s := t, sent := r.sent + out, started := r.started || accepted)
  }

  /** The chunk an acknowledgement says has arrived. */
  function Confirmed(a: ChunkAck): set<nat> {
    if Positive(a.status) && a.chunk < CHUNKS_PER_PAGE then {Linear(a.page, a.chunk)} else {}
  }

  function AfterChunkAck(r: Run, t: Ld, out: set<nat>, a: ChunkAck, counted: bool): Run {
    if counted then Run(t, r.sent + out, r.acked + Confirmed(a), r.acks + 1, r.started)
    else r.(s := t, sent := r.sent + out)
  }

  /** What activation by a tick sets up. */
  ghost predicate WellFormed(r: Run) {
    && Shape(r.s) && r.s.snd.lastChunkSize <= CHUNK
    && (r.s.snd.active ==>
          1 <= r.s.snd.totalChunks <= BitmapBits() &&
              r.s.snd.pageCount == CeilDiv(r.s.snd.totalChunks, CHUNKS_PER_PAGE))
  }

  lemma StepWellFormed(r: Run, role: DeviceType, e: Event)
    requires WellFormed(r) && EventOk(e)
    ensures WellFormed(Step(r, role, e)) && SameTransfer(Step(r, role, e).s.snd, r.s.snd)
  {
  }

  /** sent is {0, ..., m - 1}. */
  ghost predicate IsPrefix(sent: set<nat>, m: nat) {
    forall k: nat :: k in sent <==> k < m
  }

  predicate Bounds(total: nat, acks: nat, m: nat) {
    Min(total, 4 * (acks / 4 + 1)) <= m <= Min(total, acks + 4)
  }

  /** sent is a prefix whose length is tied to the number of counted acknowledgements. */
  ghost predicate SentPrefix(sent: set<nat>, total: nat, acks: nat) {
    exists m: nat :: IsPrefix(sent, m) && Bounds(total, acks, m)
  }

  /** The distinct chunks confirmed so far are no more than the acknowledgements counted and do not include
      the last chunk. */
  predicate AckedOnce(acked: set<nat>, acks: nat, total: nat) {
    |acked| <= acks && total - 1 !in acked
  }

  /** The sender's counter has counted, and its counts fit what was confirmed. */
  ghost predicate Counting(r: Run) {
    WellFormed(r) &&
    (r.s.snd.active ==> r.s.snd.nextChunk == r.acks % 0x1_0000 && AckedOnce(r.acked, r.acks, r.s.snd.totalChunks))
  }

  /** While the sender is active and admitted, what it has sent is a prefix within the window. */
  ghost predicate InWindow(r: Run) {
    Counting(r) && (r.s.snd.active && r.started ==> SentPrefix(r.sent, r.s.snd.totalChunks, r.acks))
  }

  // -------------------------------------------------- one step, and exactly when

  /** How far a prefix of m chunks reaches after the window due at the acks-th counted acknowledgement. */
  function Reach(m: nat, total: nat, acks: nat): nat {
    var end := Min(acks % 0x1_0000 + WINDOW, total);
    if acks % 4 == 0 && m < end then end else m
  }

  /** The window due extends a prefix, and nothing but what is sent again can lie outside it. */
  lemma WindowExtends(sent: set<nat>, out: set<nat>, total: nat, acks: nat, m: nat, again: set<nat>)
    requires IsPrefix(sent, m) && Bounds(total, acks, m) && total <= BitmapBits()
    requires IsAnswer(out, (acks + 1) % 0x1_0000, total, again)
    ensures forall k: nat :: k in sent + out <==> k < Reach(m, total, acks + 1) || k in again
    ensures Bounds(total, acks + 1, Reach(m, total, acks + 1))
  {
    BoundsStep(total, acks, m);
    var c := (acks + 1) % 0x1_0000;
    assert acks + 1 < 0x1_0000 ==> c == acks + 1;
    forall k: nat | true
      ensures k in sent + out <==> k < Reach(m, total, acks + 1) || k in again
    {
      assert Due(k, c, total) <==> c <= k < c + WINDOW && k < total;
    }
  }

  lemma BoundsStep(total: nat, acks: nat, m: nat)
    requires Bounds(total, acks, m)
    ensures (acks + 1) % 0x1_0000 % 4 == (acks + 1) % 4
    ensures (acks + 1) % 4 != 0 ==> Bounds(total, acks + 1, m)
    ensures Min(total, acks + 1) <= m <= Min(total, acks + 5)
  {
    Quarters(acks);
  }

  lemma Quarters(acks: nat)
    ensures (acks + 1) % 0x1_0000 % 4 == (acks + 1) % 4
    ensures (acks + 1) / 4 == if (acks + 1) % 4 == 0 then acks / 4 + 1 else acks / 4
    ensures acks < 4 * (acks / 4 + 1) <= acks + 4
  {
    var q, r := (acks + 1) / 0x1_0000, (acks + 1) % 0x1_0000;
    assert acks + 1 == 4 * (0x4000 * q) + r;
  }

  /** A chunk sent again joins a prefix of n chunks if it is one of them, or the next one. */
  predicate Joins(k: nat, n: nat, total: nat, acks: nat) {
    k < n || (k == n && k < Min(total, acks + 4))
  }

  lemma JoinsExact(all: set<nat>, n: nat, k: nat, total: nat, acks: nat)
    requires (forall j: nat :: j in all <==> j < n || j == k) && Bounds(total, acks, n)
    ensures SentPrefix(all, total, acks) <==> Joins(k, n, total, acks)
  {
    if k < n {
      assert IsPrefix(all, n);
    } else if k == n {
      assert IsPrefix(all, n + 1);
      if SentPrefix(all, total, acks) {
        var m: nat :| IsPrefix(all, m) && Bounds(total, acks, m);
        assert n in all;
      }
    } else {
      assert k in all && n !in all;
    }
  }

  /** A counted acknowledgement of an admitted transfer is in turn: if it asks for a chunk again, that is among
      those sent so far, in the window now due, or the next one after them. */
  predicate InTurn(r: Run, a: ChunkAck) {
    Again(a) ==>
      var (total, acks) := (r.s.snd.totalChunks, r.acks + 1);
      Joins(Linear(a.page, a.chunk), Reach(|r.sent|, total, acks), total, acks)
  }

  /** The first INIT_ACK admits the transfer in order: all chunks up to the end of the window have gone out or are
      due now, and none beyond. With nothing sent before, this says that nothing was counted before. */
  ghost predicate Admits(sent: set<nat>, total: nat, acks: nat) {
    var end := Min(total, acks + WINDOW);
    && (forall k: nat :: k < end ==> k in sent || Due(k, acks % 0x1_0000, total))
    && (forall k :: k in sent ==> k < end)
  }

  /** The step leaves the sender off, or is neither a counted acknowledgement out of turn nor an INIT_ACK that
      admits the transfer out of order. */
  ghost predicate StepInTurn(r: Run, role: DeviceType, e: Event)
    requires Shape(r.s) && r.s.snd.lastChunkSize <= CHUNK
  {
    Step(r, role, e).s.snd.active ==>
      match e
      case OnChunkAck(a, _) => r.started && Counted(r.s, role, a) ==> InTurn(r, a)
      case OnInitAck(a, _) => !r.started && Accepts(r.s, role, a) ==> Admits(r.sent, r.s.snd.totalChunks, r.acks)
      case OnOther(_, _) => true
  }

  lemma CounterStep(acks: nat)
    ensures (acks % 0x1_0000 + 1) % 0x1_0000 == (acks + 1) % 0x1_0000
  {
  }

  lemma {:induction false} PrefixSize(sent: set<nat>, m: nat)
    requires IsPrefix(sent, m)
    ensures |sent| == m
  {
    if m > 0 {
      assert IsPrefix(sent - {m - 1}, m - 1);
      PrefixSize(sent - {m - 1}, m - 1);
    }
  }

  /** What a counted ACK leaves sent is a prefix exactly when the ACK is in turn. */
  lemma CountedExact(sent: set<nat>, out: set<nat>, total: nat, acks: nat, a: ChunkAck)
    requires SentPrefix(sent, total, acks) && total <= BitmapBits()
    requires IsAnswer(out, (acks + 1) % 0x1_0000, total, Repeated(a))
    ensures SentPrefix(sent + out, total, acks + 1) <==>
              (Again(a) ==> Joins(Linear(a.page, a.chunk), Reach(|sent|, total, acks + 1), total, acks + 1))
  {
    var m: nat :| IsPrefix(sent, m) && Bounds(total, acks, m);
    PrefixSize(sent, m);
    WindowExtends(sent, out, total, acks, m, Repeated(a));
    if Again(a) {
      JoinsExact(sent + out, Reach(m, total, acks + 1), Linear(a.page, a.chunk), total, acks + 1);
    } else {
      assert IsPrefix(sent + out, Reach(m, total, acks + 1));
    }
  }

  /** The acknowledgement of the last chunk is never counted. */
  lemma LastIsFinal(snd: Sender, a: ChunkAck)
    requires 1 <= snd.totalChunks && snd.pageCount == CeilDiv(snd.totalChunks, CHUNKS_PER_PAGE)
    requires a.chunk < CHUNKS_PER_PAGE && Positive(a.status) && Linear(a.page, a.chunk) == snd.totalChunks - 1
    ensures Final(snd, a)
  {
  }

  lemma ConfirmedOnce(acked: set<nat>, acks: nat, snd: Sender, a: ChunkAck)
    requires 1 <= snd.totalChunks && snd.pageCount == CeilDiv(snd.totalChunks, CHUNKS_PER_PAGE) && !Final(snd, a)
    requires AckedOnce(acked, acks, snd.totalChunks)
    ensures AckedOnce(acked + Confirmed(a), acks + 1, snd.totalChunks)
  {
    if Confirmed(a) != {} && Linear(a.page, a.chunk) == snd.totalChunks - 1 {
      LastIsFinal(snd, a);
    }
  }

  lemma CountingStep(r: Run, t: Ld, out: set<nat>, a: ChunkAck)
    requires Counting(r) && r.s.snd.active && Shape(t) && SameTransfer(t.snd, r.s.snd) && !Final(r.s.snd, a)
    requires t.snd.active && t.snd.nextChunk == (r.s.snd.nextChunk + 1) % 0x1_0000
    ensures Counting(AfterChunkAck(r, t, out, a, true))
  {
    CounterStep(r.acks);
    ConfirmedOnce(r.acked, r.acks, r.s.snd, a);
  }

  lemma CountedAssembled(r: Run, t: Ld, out: set<nat>, a: ChunkAck)
    requires InWindow(r) && r.s.snd.active && Shape(t) && SameTransfer(t.snd, r.s.snd) && !Final(r.s.snd, a)
    requires AckEffect(r.s, t, out, a) && t.snd.active
    ensures InWindow(AfterChunkAck(r, t, out, a, true)) <==> (r.started ==> InTurn(r, a))
  {
    CounterStep(r.acks);
    CountingStep(r, t, out, a);
    if r.started {
      CountedExact(r.sent, out, r.s.snd.totalChunks, r.acks, a);
    }
  }

  lemma ChunkAckExact(r: Run, role: DeviceType, a: ChunkAck, good: nat)
    requires InWindow(r)
    ensures InWindow(Step(r, role, OnChunkAck(a, good))) <==> StepInTurn(r, role, OnChunkAck(a, good))
  {
    StepWellFormed(r, role, OnChunkAck(a, good));
    var (t, out) := HandleChunkAck(r.s, role, a, good);
    if !Counted(r.s, role, a) {
      UncountedSends(r.s, role, a, good);
      UnchangedBy(r.sent, Indices(out));
    } else if t.snd.active {
      CountedSends(r.s, role, a, good);
      CountedAssembled(r, t, Indices(out), a);
    }
  }

  lemma UnchangedBy(sent: set<nat>, out: set<nat>)
    ensures out == {} ==> sent + out == sent
  {
  }

  /** A window that starts no further than the end of the prefix extends it. */
  lemma PrefixGrows(sent: set<nat>, out: set<nat>, total: nat, m: nat, acks: nat)
    requires IsPrefix(sent, m) && Bounds(total, acks, m) && total <= BitmapBits()
    requires IsWindow(out, acks % 0x1_0000, total)
    ensures SentPrefix(sent + out, total, acks)
  {
    var c := acks % 0x1_0000;
    var n := if m < Min(c + WINDOW, total) then Min(c + WINDOW, total) else m;
    Quarters(acks);
    assert acks < 0x1_0000 ==> c == acks;
    assert IsPrefix(sent + out, n);
  }

  /** The first window makes the sent chunks a prefix within the window exactly when it admits in order. */
  lemma AdmissionExact(sent: set<nat>, out: set<nat>, total: nat, acks: nat)
    requires total <= BitmapBits() && IsWindow(out, acks % 0x1_0000, total)
    ensures SentPrefix(sent + out, total, acks) <==> Admits(sent, total, acks)
  {
    var c, end := acks % 0x1_0000, Min(total, acks + WINDOW);
    Quarters(acks);
    assert forall k: nat :: k in out <==> Due(k, c, total);
    assert acks < 0x1_0000 ==> c == acks;
    if Admits(sent, total, acks) {
      assert IsPrefix(sent + out, end);
    }
    if SentPrefix(sent + out, total, acks) {
      var m: nat :| IsPrefix(sent + out, m) && Bounds(total, acks, m);
      PrefixEnds(sent, out, total, acks, m);
    }
  }

  lemma PrefixEnds(sent: set<nat>, out: set<nat>, total: nat, acks: nat, m: nat)
    requires total <= BitmapBits() && IsWindow(out, acks % 0x1_0000, total)
    requires IsPrefix(sent + out, m) && Bounds(total, acks, m)
    ensures m == Min(total, acks + WINDOW) && Admits(sent, total, acks)
  {
    var c, end := acks % 0x1_0000, Min(total, acks + WINDOW);
    Quarters(acks);
    assert acks < 0x1_0000 ==> c == acks;
    assert Due(m, c, total) ==> m in sent + out;
    assert m !in sent + out;
    forall k: nat | k < end
      ensures k in sent || Due(k, c, total)
    {
      assert k in sent + out;
    }
    forall k | k in sent
      ensures k < end
    {
      assert k in sent + out;
    }
  }

  lemma InitAckExact(r: Run, role: DeviceType, a: InitAck, good: nat)
    requires InWindow(r)
    ensures InWindow(Step(r, role, OnInitAck(a, good))) <==> StepInTurn(r, role, OnInitAck(a, good))
  {
    StepWellFormed(r, role, OnInitAck(a, good));
    var (t, out) := HandleInitAck(r.s, role, a, good);
    if t.snd.active {
      InitAckSends(r.s, role, a, good);
      if !Accepts(r.s, role, a) {
        UnchangedBy(r.sent, Indices(out));
      } else if r.started {
        var m: nat :| IsPrefix(r.sent, m) && Bounds(r.s.snd.totalChunks, r.acks, m);
        PrefixGrows(r.sent, Indices(out), r.s.snd.totalChunks, m, r.acks);
      } else {
        AdmissionExact(r.sent, Indices(out), r.s.snd.totalChunks, r.acks);
      }
    }
  }

  // ------------------------------------------------------------ main results

  /** One step keeps an admitted sender's chunks a prefix within four of the acknowledgement count if and only if
      it is neither a counted acknowledgement out of turn nor an INIT_ACK that admits the transfer out of order.
      Duplicate and left-over positive ACKs, repeated INIT_ACKs and everything else that happens to the device skip
      nothing. */
  lemma StepKeepsWindow(r: Run, role: DeviceType, e: Event)
    requires InWindow(r) && EventOk(e)
    ensures WellFormed(Step(r, role, e))
    ensures InWindow(Step(r, role, e)) <==> StepInTurn(r, role, e)
  {
    StepWellFormed(r, role, e);
    match e
    case OnInitAck(a, good) => InitAckExact(r, role, a, good);
    case OnChunkAck(a, good) => ChunkAckExact(r, role, a, good);
    case OnOther(rest, off) =>
  }

  function Exec(r: Run, role: DeviceType, es: seq<Event>): (t: Run)
    requires WellFormed(r) && forall e :: e in es ==> EventOk(e)
    ensures WellFormed(t)
    decreases |es|
  {
    if es == [] then r
    else
      StepWellFormed(r, role, es[0]);
      Exec(Step(r, role, es[0]), role, es[1..])
  }

  /** Every step of the run is in turn. */
  ghost predicate AllInTurn(r: Run, role: DeviceType, es: seq<Event>)
    requires WellFormed(r) && forall e :: e in es ==> EventOk(e)
    decreases |es|
  {
    es == [] ||
    (StepInTurn(r, role, es[0]) &&
     (StepWellFormed(r, role, es[0]);
      AllInTurn(Step(r, role, es[0]), role, es[1..])))
  }

  /** In every state of the run in which the transfer is admitted the sent chunks are a prefix within the window. */
  ghost predicate AlwaysInWindow(r: Run, role: DeviceType, es: seq<Event>)
    requires WellFormed(r) && forall e :: e in es ==> EventOk(e)
    decreases |es|
  {
    InWindow(r) &&
    (es == [] ||
     (StepWellFormed(r, role, es[0]);
      AlwaysInWindow(Step(r, role, es[0]), role, es[1..])))
  }

  /** Whole runs: in every state in which the transfer is admitted the sent chunks are a prefix within the window, if
      and only if it was admitted in order and every acknowledgement counted since was in turn. */
  lemma {:induction false} WindowExact(r: Run, role: DeviceType, es: seq<Event>)
    requires InWindow(r) && forall e :: e in es ==> EventOk(e)
    ensures AlwaysInWindow(r, role, es) <==> AllInTurn(r, role, es)
    decreases |es|
  {
    if es != [] {
      StepKeepsWindow(r, role, es[0]);
      if StepInTurn(r, role, es[0]) {
        WindowExact(Step(r, role, es[0]), role, es[1..]);
      } else {
        OutOfWindow(Step(r, role, es[0]), role, es[1..]);
      }
    }
  }

  lemma OutOfWindow(r: Run, role: DeviceType, es: seq<Event>)
    requires WellFormed(r) && !InWindow(r) && forall e :: e in es ==> EventOk(e)
    ensures !AlwaysInWindow(r, role, es)
  {
  }

  /** Some chunk already sent still lacks the acknowledgement that would move the window or end the
      transfer. */
  ghost predicate Waits(r: Run) {
    exists k :: k in r.sent && k !in r.acked
  }

  lemma WindowWaits(r: Run)
    requires InWindow(r) && r.s.snd.active && r.started
    ensures Waits(r)
  {
    var total := r.s.snd.totalChunks;
    var m: nat :| IsPrefix(r.sent, m) && Bounds(total, r.acks, m);
    PrefixSize(r.sent, m);
    if r.sent <= r.acked {
      SubsetSize(r.sent, r.acked);
      assert false;
    }
  }

  /** No run in turn stalls: in every state it reaches while the sender is active and has been admitted, some
      chunk already sent still lacks its acknowledgement. So "all sent chunks acknowledged, some chunks never
      sent" is unreachable. */
  lemma {:induction false} NeverStalls(r: Run, role: DeviceType, es: seq<Event>)
    requires InWindow(r) && (forall e :: e in es ==> EventOk(e)) && AllInTurn(r, role, es)
    ensures var t := Exec(r, role, es);
      && InWindow(t)
      && (t.s.snd.active && t.started ==> SentPrefix(t.sent, t.s.snd.totalChunks, t.acks) && Waits(t))
    decreases |es|
  {
    if es == [] {
      if r.s.snd.active && r.started {
        WindowWaits(r);
      }
    } else {
      StepKeepsWindow(r, role, es[0]);
      NeverStalls(Step(r, role, es[0]), role, es[1..]);
    }
  }

  // --------------------------------------------------------- what goes wrong

  /** The counter is not reset by an accepted INIT_ACK. When the first one arrives, the sender starts with a prefix
      exactly when all chunks below the counter have gone out already and none beyond the window it starts. */
  lemma FirstWindowExact(r: Run, role: DeviceType, a: InitAck, good: nat)
    requires WellFormed(r) && Accepts(r.s, role, a) && Step(r, role, OnInitAck(a, good)).s.snd.active
    ensures var (total, next) := (r.s.snd.totalChunks, r.s.snd.nextChunk);
      SentPrefix(Step(r, role, OnInitAck(a, good)).sent, total, next) <==>
        && (forall k: nat :: k < next && k < total ==> k in r.sent)
        && (forall k :: k in r.sent ==> k < next + WINDOW && k < total)
  {
    var (total, next) := (r.s.snd.totalChunks, r.s.snd.nextChunk);
    InitAckSends(r.s, role, a, good);
    AdmissionExact(r.sent, Indices(HandleInitAck(r.s, role, a, good).1), total, next);
    AdmitsBelow(r.sent, total, next);
  }

  /** An ACK left over from an earlier activation, handled before the first INIT_ACK, is counted, and sends no
      more than the chunk it asks for again; the transfer can then be admitted in order exactly if that chunk is
      chunk 0. */
  lemma StaleAckCounts(r: Run, role: DeviceType, stale: ChunkAck, good: nat)
    requires Counting(r) && r.sent == {} && r.acks == 0 && r.s.snd.active && Counted(r.s, role, stale)
    ensures var t := Step(r, role, OnChunkAck(stale, good));
      t.s.snd.active ==>
        && t.s.snd.nextChunk == 1 && t.sent == Repeated(stale)
        && (Admits(t.sent, r.s.snd.totalChunks, t.acks) <==> Again(stale) && Linear(stale.page, stale.chunk) == 0)
  {
    StaleSends(r.s, role, stale, good);
    if HandleChunkAck(r.s, role, stale, good).0.snd.active {
      StaleAdmits(Again(stale), Linear(stale.page, stale.chunk), r.s.snd.totalChunks);
    }
  }

  lemma StaleSends(s: Ld, role: DeviceType, stale: ChunkAck, good: nat)
    requires Shape(s) && s.snd.lastChunkSize <= CHUNK && s.snd.totalChunks <= BitmapBits()
    requires Counted(s, role, stale) && s.snd.nextChunk == 0
    ensures var (t, out) := HandleChunkAck(s, role, stale, good);
      t.snd.active ==> t.snd.nextChunk == 1 && Indices(out) == Repeated(stale)
  {
    CountedSends(s, role, stale, good);
    var (t, out) := HandleChunkAck(s, role, stale, good);
    if t.snd.active {
      NothingDue(Indices(out), s.snd.totalChunks, Repeated(stale));
    }
  }

  lemma StaleAdmits(again: bool, k: nat, total: nat)
    requires total >= 1
    ensures Admits(if again then {k} else {}, total, 1) <==> again && k == 0
  {
    var sent: set<nat> := if again then {k} else {};
    assert 0 in sent <==> again && k == 0;
    AdmitsBelow(sent, total, 1);
  }

  /** Admission in terms of a counter that has not come round. */
  lemma AdmitsBelow(sent: set<nat>, total: nat, next: uint16)
    ensures Admits(sent, total, next) <==>
              && (forall k: nat :: k < next && k < total ==> k in sent)
              && (forall k :: k in sent ==> k < next + WINDOW && k < total)
  {
    assert next % 0x1_0000 == next;
    assert forall k: nat :: k < Min(total, next + WINDOW) ==> (Due(k, next, total) <==> k >= next);
  }

  lemma NothingDue(out: set<nat>, total: nat, again: set<nat>)
    requires IsAnswer(out, 1, total, again)
    ensures out == again
  {
  }

  /** The event is not an acknowledgement that asks for chunk 0 again. */
  predicate LeavesFirst(e: Event) {
    e.OnChunkAck? && Again(e.ca) ==> Linear(e.ca.page, e.ca.chunk) != 0
  }

  lemma SendsWithin(s: Ld, role: DeviceType, a: ChunkAck, good: nat)
    requires Shape(s) && s.snd.lastChunkSize <= CHUNK && s.snd.totalChunks <= BitmapBits() && Counted(s, role, a)
    ensures var (t, out) := HandleChunkAck(s, role, a, good);
      && InWindowAt(Indices(out) - Repeated(a), (s.snd.nextChunk + 1) % 0x1_0000, s.snd.totalChunks)
      && (t.snd.active ==> t.snd.nextChunk == (s.snd.nextChunk + 1) % 0x1_0000)
  {
    if !Again(a) {
      CountAckSends(s, good);
    } else if Resend(s, a.page, a.chunk, good).2 {
      var again := Resend(s, a.page, a.chunk, good).1;
      AgainThenCount(s, role, a, good);
      CountAckSends(s, good - 1);
      IndicesConcat(again, CountAck(s, good - 1).1);
      OneIndex(again[0]);
    }
  }

  lemma AckSkipsFirst(s: Ld, role: DeviceType, a: ChunkAck, good: nat)
    requires Shape(s) && s.snd.lastChunkSize <= CHUNK && s.snd.totalChunks <= BitmapBits()
    requires (Again(a) ==> Linear(a.page, a.chunk) != 0) && 0 < s.snd.nextChunk < 0xFFFF
    ensures var (t, out) := HandleChunkAck(s, role, a, good);
      0 !in Indices(out) && (t.snd.active ==> s.snd.nextChunk <= t.snd.nextChunk <= s.snd.nextChunk + 1)
  {
    if Counted(s, role, a) {
      SendsWithin(s, role, a, good);
      var out := Indices(HandleChunkAck(s, role, a, good).1);
      assert 0 !in out - Repeated(a) && 0 !in Repeated(a);
    } else {
      UncountedSends(s, role, a, good);
    }
  }

  lemma StepSkipsFirst(r: Run, role: DeviceType, e: Event)
    requires WellFormed(r) && EventOk(e) && LeavesFirst(e) && 0 !in r.sent
    requires r.s.snd.active ==> 0 < r.s.snd.nextChunk < 0xFFFF
    ensures var t := Step(r, role, e);
      0 !in t.sent && (t.s.snd.active ==> r.s.snd.nextChunk <= t.s.snd.nextChunk <= r.s.snd.nextChunk + 1)
  {
    StepWellFormed(r, role, e);
    if r.s.snd.active {
      match e
      case OnInitAck(a, good) => InitAckSends(r.s, role, a, good);
      case OnChunkAck(a, good) => AckSkipsFirst(r.s, role, a, good);
      case OnOther(rest, off) =>
    }
  }

  /** Once an ACK was counted before chunk 0 went out, chunk 0 is not sent in the rest of the run, unless an
      acknowledgement asks for it by name or the 16-bit counter comes round. */
  lemma {:induction false} StaleAckSkipsFirstChunk(r: Run, role: DeviceType, es: seq<Event>)
    requires WellFormed(r) && (forall e :: e in es ==> EventOk(e) && LeavesFirst(e)) && 0 !in r.sent
    requires r.s.snd.active ==> 0 < r.s.snd.nextChunk && r.s.snd.nextChunk + |es| < 0x1_0000
    ensures 0 !in Exec(r, role, es).sent
    decreases |es|
  {
    if es != [] {
      StepSkipsFirst(r, role, es[0]);
      StepWellFormed(r, role, es[0]);
      StaleAckSkipsFirstChunk(Step(r, role, es[0]), role, es[1..]);
    }
  }

  /** A sender of a thousand chunks that has sent its first window and waits. */
  function FirstWindowOut(): Run {
    var sl := Slot(true, true, true, false, 1, 1, 0, 180000, 32, 180, 1000, 0, 1000, ClearBitmap(), LD_BASE, 0);
    var snd := Sender(true, 7, 1, 1, 0, 180000, 32, 180, 1000, 0, 0, LD_BASE);
    var s := Ld(seq(SLOTS, _ => sl), seq(MAX_PAGES, _ => false), seq(PSRAM_SIZE, _ => 0), false, snd);
    Run(s, {0, 1, 2, 3}, {}, 0, true)
  }

  lemma FirstWindowInWindow()
    ensures InWindow(FirstWindowOut()) && |FirstWindowOut().sent| == 4
  {
    assert IsPrefix({0, 1, 2, 3}, 4);
  }

  /** A FAILURE left over from an earlier activation that names a chunk far ahead. */
  const FAR_AHEAD: ChunkAck := ChunkAck(7, Gateway, Failure, 1, 1, 10, 0)

  lemma FarAheadCounted()
    ensures Counted(FirstWindowOut().s, Sensor, FAR_AHEAD) && 320 in Repeated(FAR_AHEAD)
  {
  }

  /** Left over from an earlier activation, it makes its chunk go out of order and the sender goes on. */
  lemma StaleFailureJumpsAhead()
    ensures InWindow(FirstWindowOut()) && Counted(FirstWindowOut().s, Sensor, FAR_AHEAD)
    ensures var t := Step(FirstWindowOut(), Sensor, OnChunkAck(FAR_AHEAD, 1));
      t.s.snd.active && 320 in t.sent && 4 !in t.sent && !InWindow(t)
  {
    FirstWindowInWindow();
    FarAheadCounted();
    CountedSends(FirstWindowOut().s, Sensor, FAR_AHEAD, 1);
    StepKeepsWindow(FirstWindowOut(), Sensor, OnChunkAck(FAR_AHEAD, 1));
  }
}
