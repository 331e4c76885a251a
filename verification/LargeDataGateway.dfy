/** The gateway's conversation with its host about one transfer (src/large_data.c). */
module LargeDataGateway {
  import opened Basics
  import opened Pieces
  import opened LargeDataTypes
  import opened PsramDriver
  import opened LargeDataStore
  import opened LargeDataReceiver
  import opened LargeDataSender
  import opened LargeDataSerial
  import opened LargeDataContent

  /** The gateway's sender describes b cut into serial chunks, and its region holds b. */
  ghost predicate Serves(s: Ld, b: Blob) {
    && Shape(s) && s.snd.totalSize == |b| && s.snd.totalChunks == AtChunks(|b|) && s.snd.nextChunk < s.snd.totalChunks
    && s.snd.lastChunkSize == LastPiece(|b|, AT_CHUNK)
    && s.snd.pageCount == CeilDiv(AtChunks(|b|), CHUNKS_PER_PAGE)
    && s.snd.base + |b| <= PSRAM_SIZE && s.mem[s.snd.base..s.snd.base + |b|] == b
  }

  /** The line carries piece k of b. */
  ghost predicate Carries(l: LdLine, b: Blob, k: nat) {
    k < AtChunks(|b|) && Linear(l.page, l.chunk) == k && l.payload == Piece(b, AT_CHUNK, k)
  }

  /** Every line the gateway writes carries the blob's bytes for the index it names. */
  lemma AtSendCarries(s: Ld, b: Blob, dev: uint16, page: nat, chunk: nat, ok: bool)
    requires Serves(s, b)
    ensures var l := AtSend(s, dev, page, chunk, ok);
      && (l.Some? ==> Carries(l.value, b, Linear(page, chunk)))
      && (l.Some? <==> s.snd.active && ok && page < s.snd.pageCount && chunk < CHUNKS_PER_PAGE &&
                       Linear(page, chunk) < s.snd.totalChunks)
  {
    var k := Linear(page, chunk);
    if k < s.snd.totalChunks {
      PieceStart(|b|, AT_CHUNK, k);
      LastPieceBounds(|b|, AT_CHUNK);
      SliceOfSlice(s.mem, s.snd.base, |b|, k * AT_CHUNK, PieceEnd(|b|, AT_CHUNK, k));
    }
  }

  lemma SliceOfSlice(mem: seq<byte>, base: nat, n: nat, lo: nat, hi: nat)
    requires base + n <= |mem| && lo <= hi <= n
    ensures mem[base..base + n][lo..hi] == mem[base + lo..base + hi]
  {
    var x, y := mem[base..base + n][lo..hi], mem[base + lo..base + hi];
    assert |x| == |y|;
    forall i | 0 <= i < |x|
      ensures x[i] == y[i]
    {
      assert x[i] == mem[base..base + n][lo + i];
    }
  }

  /** The line carries the blob's bytes for the index it names. */
  ghost predicate CarriesPiece(l: LdLine, b: Blob) {
    Carries(l, b, Linear(l.page, l.chunk))
  }

  // ----------------------------------------------------------- whole conversations

  /** A conversation about one transfer and the AT#LD lines written in it. */
  datatype Talk = Talk(c: Conv, log: seq<LdLine>)

  function Say(t: Talk, l: HostLine, ok: bool): Talk
    requires Shape(t.c.ld)
  {
    var (c, out) := HostStep(t.c, l, ok);
    Talk(c, if out.Some? then t.log + [out.value] else t.log)
  }

  /** Serving survives any host line. */
  lemma HostStepServes(c: Conv, l: HostLine, ok: bool, b: Blob)
    requires Serves(c.ld, b)
    ensures Serves(HostStep(c, l, ok).0.ld, b)
  {
    if l.OkLine? && c.cached && c.pending == ChunkPending && c.ld.snd.nextChunk < c.ld.snd.totalChunks - 1 {
      AdvanceServes(c.ld, b);
      NextIsAdvance(c.ld, b, c.dev, ok);
    }
  }

  /** And every line it makes the gateway write carries the blob's bytes. */
  lemma HostStepCarries(c: Conv, l: HostLine, ok: bool, b: Blob)
    requires Serves(c.ld, b)
    ensures HostStep(c, l, ok).1.Some? ==> CarriesPiece(HostStep(c, l, ok).1.value, b)
  {
    if l.OkLine? && c.cached {
      if c.pending == InitPending {
        AtSendCarries(c.ld, b, c.dev, 0, 0, ok);
      } else if c.pending == ChunkPending && c.ld.snd.nextChunk < c.ld.snd.totalChunks - 1 {
        NextCarries(c.ld, b, c.dev, ok);
      }
    }
  }

  lemma NextCarries(s: Ld, b: Blob, dev: uint16, ok: bool)
    requires Serves(s, b) && s.snd.nextChunk < s.snd.totalChunks - 1
    ensures var (t, out) := NextLine(s, dev, ok);
      && Serves(t, b) && t.snd == s.snd.(nextChunk := s.snd.nextChunk + 1)
      && (out.Some? <==> s.snd.active && ok)
      && (out.Some? ==> Carries(out.value, b, s.snd.nextChunk + 1))
  {
    AdvanceServes(s, b);
    NextIsAdvance(s, b, dev, ok);
    var k := s.snd.nextChunk + 1;
    PageAndChunk(k, s.snd.totalChunks);
    AtSendCarries(Advance(s), b, dev, k / CHUNKS_PER_PAGE, k % CHUNKS_PER_PAGE, ok);
  }

  lemma AdvanceServes(s: Ld, b: Blob)
    requires Serves(s, b) && s.snd.nextChunk < s.snd.totalChunks - 1
    ensures Serves(Advance(s), b) && Advance(s).snd == s.snd.(nextChunk := s.snd.nextChunk + 1)
  {
  }

  lemma NextIsAdvance(s: Ld, b: Blob, dev: uint16, ok: bool)
    requires Serves(s, b) && s.snd.nextChunk < s.snd.totalChunks - 1
    ensures var k := s.snd.nextChunk + 1;
      NextLine(s, dev, ok) == (Advance(s), AtSend(Advance(s), dev, k / CHUNKS_PER_PAGE, k % CHUNKS_PER_PAGE, ok))
  {
  }

  lemma PageAndChunk(k: nat, total: nat)
    requires k < total
    ensures Linear(k / CHUNKS_PER_PAGE, k % CHUNKS_PER_PAGE) == k
    ensures k / CHUNKS_PER_PAGE < CeilDiv(total, CHUNKS_PER_PAGE) && k % CHUNKS_PER_PAGE < CHUNKS_PER_PAGE
  {
  }

  /** The lines are chunks 0, 1, ... of b, each once and in order. */
  ghost predicate InOrder(log: seq<LdLine>, b: Blob) {
    forall i :: 0 <= i < |log| ==> Carries(log[i], b, i)
  }

  ghost predicate WholeStream(log: seq<LdLine>, b: Blob) {
    |log| == AtChunks(|b|) && InOrder(log, b)
  }

  /** The lines are in order and the counter agrees with them: nothing has gone out yet, or chunk next_chunk
      went out last; once the sender has finished, every chunk has gone out. */
  ghost predicate InStep(t: Talk, b: Blob) {
    && Serves(t.c.ld, b) && InOrder(t.log, b)
    && if !t.c.ld.snd.active then |t.log| == AtChunks(|b|)
       else if t.log == [] then t.c.ld.snd.nextChunk == 0
       else |t.log| == t.c.ld.snd.nextChunk + 1
  }

  /** The lines are out of order, or so few that the chunk now missing is never sent again. */
  ghost predicate OffTrack(t: Talk, b: Blob) {
    Serves(t.c.ld, b) &&
    (InOrder(t.log, b) ==> |t.log| <= t.c.ld.snd.nextChunk && (t.c.ld.snd.active ==> t.c.ld.snd.nextChunk > 0))
  }

  /** An OK that spoils the stream: before the first chunk went out, one that is taken as the answer to a
      chunk; afterwards, one that is taken as the answer to AT#LDINIT, or one whose chunk cannot be read or
      written. */
  predicate Disorders(c: Conv, begun: bool, l: HostLine, ok: bool) {
    && l.OkLine? && c.cached && c.ld.snd.active
    && if !begun then c.pending == ChunkPending
       else (c.pending == InitPending && ok) ||
            (c.pending == ChunkPending && !ok && c.ld.snd.nextChunk < c.ld.snd.totalChunks - 1)
  }

  lemma AppendInOrder(log: seq<LdLine>, l: LdLine, b: Blob, k: nat)
    requires Carries(l, b, k)
    ensures InOrder(log + [l], b) <==> InOrder(log, b) && k == |log|
  {
    var more := log + [l];
    if InOrder(more, b) {
      assert Carries(more[|log|], b, |log|);
      forall i | 0 <= i < |log|
        ensures Carries(log[i], b, i)
      {
        assert Carries(more[i], b, i);
      }
    }
  }

  /** The answer to AT#LDINIT: chunk 0 goes out. */
  lemma InitOk(t: Talk, ok: bool, b: Blob)
    requires Serves(t.c.ld, b) && t.c.pending == InitPending && t.c.cached
    ensures var u := Say(t, OkLine, ok);
      && u.c.ld == t.c.ld
      && (if !t.c.ld.snd.active || !ok then u.log == t.log
          else |u.log| == |t.log| + 1 && (InOrder(u.log, b) <==> t.log == []))
  {
    AtSendCarries(t.c.ld, b, t.c.dev, 0, 0, ok);
    LastPieceBounds(|b|, AT_CHUNK);
    if t.c.ld.snd.active && ok {
      AppendInOrder(t.log, AtSend(t.c.ld, t.c.dev, 0, 0, ok).value, b, 0);
    }
  }

  /** An answer to a chunk before the last: the next one goes out. */
  lemma ChunkOk(t: Talk, ok: bool, b: Blob)
    requires Serves(t.c.ld, b) && t.c.pending == ChunkPending && t.c.cached
    requires t.c.ld.snd.nextChunk < t.c.ld.snd.totalChunks - 1
    ensures var u := Say(t, OkLine, ok);
      && Serves(u.c.ld, b) && u.c.ld.snd == t.c.ld.snd.(nextChunk := t.c.ld.snd.nextChunk + 1)
      && (if t.c.ld.snd.active && ok then
            |u.log| == |t.log| + 1 && (InOrder(u.log, b) <==> InOrder(t.log, b) && t.c.ld.snd.nextChunk + 1 == |t.log|)
          else u.log == t.log)
  {
    NextCarries(t.c.ld, b, t.c.dev, ok);
    if t.c.ld.snd.active && ok {
      AppendInOrder(t.log, NextLine(t.c.ld, t.c.dev, ok).1.value, b, t.c.ld.snd.nextChunk + 1);
    }
  }

  /** The answer to the last chunk ends the transfer. */
  lemma LastOk(t: Talk, ok: bool, b: Blob)
    requires Serves(t.c.ld, b) && t.c.pending == ChunkPending && t.c.cached
    requires t.c.ld.snd.nextChunk >= t.c.ld.snd.totalChunks - 1
    ensures var u := Say(t, OkLine, ok);
      Serves(u.c.ld, b) && u.c.ld.snd == t.c.ld.snd.(active := false) && u.log == t.log
  {
    TransferBounds(|b|);
  }

  lemma OtherLine(t: Talk, l: HostLine, ok: bool)
    requires Shape(t.c.ld) && (l.OkLine? ==> !t.c.cached || (t.c.pending != InitPending && t.c.pending != ChunkPending))
    ensures Say(t, l, ok).c.ld == t.c.ld && Say(t, l, ok).log == t.log
  {
  }

  /** One line from the host keeps a stream in step if and only if it does not disorder it. */
  lemma StepExact(t: Talk, l: HostLine, ok: bool, b: Blob)
    requires InStep(t, b)
    ensures InStep(Say(t, l, ok), b) <==> !Disorders(t.c, t.log != [], l, ok)
    ensures Disorders(t.c, t.log != [], l, ok) ==> OffTrack(Say(t, l, ok), b)
  {
    StepCases(t, l, ok, b);
    if Disorders(t.c, t.log != [], l, ok) {
      OffTrackStays(Say(t, l, ok), OkLine, true, b);
    }
  }

  lemma StepCases(t: Talk, l: HostLine, ok: bool, b: Blob)
    requires Serves(t.c.ld, b)
    ensures var u := Say(t, l, ok);
      && (InStep(t, b) ==> if Disorders(t.c, t.log != [], l, ok) then OffTrack(u, b) else InStep(u, b))
      && (OffTrack(t, b) ==> OffTrack(u, b))
  {
    TransferBounds(|b|);
    if l.OkLine? && t.c.cached && t.c.pending == InitPending {
      InitOk(t, ok, b);
    } else if l.OkLine? && t.c.cached && t.c.pending == ChunkPending {
      if t.c.ld.snd.nextChunk < t.c.ld.snd.totalChunks - 1 {
        ChunkOk(t, ok, b);
      } else {
        LastOk(t, ok, b);
      }
    } else {
      OtherLine(t, l, ok);
    }
  }

  /** A stream off track is not in step and never gets back. */
  lemma OffTrackStays(t: Talk, l: HostLine, ok: bool, b: Blob)
    requires OffTrack(t, b)
    ensures !InStep(t, b) && (!t.c.ld.snd.active ==> !WholeStream(t.log, b)) && OffTrack(Say(t, l, ok), b)
  {
    StepCases(t, l, ok, b);
  }

  /** A line from the host, and whether the memory read and the write it may lead to succeed. */
  datatype Heard = Heard(line: HostLine, ok: bool)

  function SayAll(t: Talk, hs: seq<Heard>): (u: Talk)
    requires Shape(t.c.ld)
    ensures Shape(u.c.ld)
    decreases |hs|
  {
    if hs == [] then t else SayAll(Say(t, hs[0].line, hs[0].ok), hs[1..])
  }

  /** None of the lines is an OK that spoils the stream. */
  predicate Undisturbed(t: Talk, hs: seq<Heard>)
    requires Shape(t.c.ld)
    decreases |hs|
  {
    hs == [] ||
    (!Disorders(t.c, t.log != [], hs[0].line, hs[0].ok) && Undisturbed(Say(t, hs[0].line, hs[0].ok), hs[1..]))
  }

  function Payloads(log: seq<LdLine>): seq<byte> {
    if log == [] then [] else Payloads(log[..|log| - 1]) + log[|log| - 1].payload
  }

  lemma {:induction false} PayloadsJoined(log: seq<LdLine>, b: Blob)
    requires |log| <= AtChunks(|b|) && InOrder(log, b)
    ensures Payloads(log) == Joined(b, AT_CHUNK, |log|)
  {
    if log != [] {
      assert forall i :: 0 <= i < |log| - 1 ==> Carries(log[i], b, i);
      PayloadsJoined(log[..|log| - 1], b);
      assert Carries(log[|log| - 1], b, |log| - 1);
    }
  }

  lemma WholePayloads(log: seq<LdLine>, b: Blob)
    requires WholeStream(log, b)
    ensures Payloads(log) == b
  {
    PayloadsJoined(log, b);
    JoinedAll(b, AT_CHUNK);
  }

  lemma {:induction false} OffTrackForever(t: Talk, hs: seq<Heard>, b: Blob)
    requires OffTrack(t, b)
    ensures OffTrack(SayAll(t, hs), b)
    decreases |hs|
  {
    if hs != [] {
      OffTrackStays(t, hs[0].line, hs[0].ok, b);
      OffTrackForever(Say(t, hs[0].line, hs[0].ok), hs[1..], b);
    }
  }

  lemma {:induction false} RunExact(t: Talk, hs: seq<Heard>, b: Blob)
    requires InStep(t, b)
    ensures var u := SayAll(t, hs); if Undisturbed(t, hs) then InStep(u, b) else OffTrack(u, b)
    decreases |hs|
  {
    if hs != [] {
      StepExact(t, hs[0].line, hs[0].ok, b);
      var u := Say(t, hs[0].line, hs[0].ok);
      if Disorders(t.c, t.log != [], hs[0].line, hs[0].ok) {
        OffTrackForever(u, hs[1..], b);
      } else {
        RunExact(u, hs[1..], b);
      }
    }
  }

  /** Whole conversations, from the tick that announces a transfer: whatever the host says, the chunks go out
      each once and in order, all of them by the time the sender finishes, and put together they are the blob,
      if and only if no OK of the conversation disorders the stream. */
  lemma StreamIsBlob(t: Talk, hs: seq<Heard>, b: Blob)
    requires InStep(t, b)
    ensures var u := SayAll(t, hs);
      && (InStep(u, b) <==> Undisturbed(t, hs))
      && (!u.c.ld.snd.active ==> (WholeStream(u.log, b) <==> Undisturbed(t, hs)))
      && (WholeStream(u.log, b) ==> Payloads(u.log) == b)
  {
    RunExact(t, hs, b);
    var u := SayAll(t, hs);
    if !Undisturbed(t, hs) {
      OffTrackStays(u, OkLine, true, b);
    }
    if WholeStream(u.log, b) {
      WholePayloads(u.log, b);
    }
  }

  /** The reply to a chunk, left over from the transfer before and still cached, arrives between AT#LDINIT and
      its answer: chunk 1 goes out first, and the one answer then sends chunk 0 second. */
  lemma StaleReplyReorders(t: Talk, stale: uint64, dev: uint16, id: uint64, b: Blob)
    requires Serves(t.c.ld, b) && t.log == [] && t.c.ld.snd.active && t.c.ld.snd.nextChunk == 0
    requires t.c.ld.snd.totalChunks > 1 && t.c.cached && t.c.ld.snd.dataId == stale % 0x100
    requires Matches(t.c.ld.snd, dev, id % 0x100)
    ensures var u := SayAll(t, [Heard(ChunkReply(stale, 0, 0), true), Heard(OkLine, true)]);
      && |u.log| == 1 && Carries(u.log[0], b, 1) && u.log[0].dev == t.c.dev
      && var v := SayAll(u, [Heard(InitReply(Some(dev), id), true), Heard(OkLine, true)]);
         |v.log| == 2 && v.log[0] == u.log[0] && Carries(v.log[1], b, 0) && v.log[1].dev == dev
  {
    var r := Say(t, ChunkReply(stale, 0, 0), true);
    var u := Say(r, OkLine, true);
    NextCarries(r.c.ld, b, r.c.dev, true);
    AtSendCarries(u.c.ld, b, dev, 0, 0, true);
    SayTwo(t, Heard(ChunkReply(stale, 0, 0), true), Heard(OkLine, true));
    SayTwo(u, Heard(InitReply(Some(dev), id), true), Heard(OkLine, true));
  }

  lemma SayTwo(t: Talk, g: Heard, h: Heard)
    requires Shape(t.c.ld)
    ensures SayAll(t, [g, h]) == Say(Say(t, g.line, g.ok), h.line, h.ok)
  {
    var u := Say(t, g.line, g.ok);
    assert [g, h][1..] == [h];
    assert SayAll(u, [h]) == SayAll(Say(u, h.line, h.ok), [h][1..]);
  }

  /** A second answer to AT#LDINIT in mid-transfer makes the gateway send chunk 0 again. */
  lemma SecondInitRepeats(t: Talk, dev: uint16, id: uint64, b: Blob)
    requires InStep(t, b) && t.log != [] && Matches(t.c.ld.snd, dev, id % 0x100)
    ensures var u := SayAll(t, [Heard(InitReply(Some(dev), id), true), Heard(OkLine, true)]);
      |u.log| == |t.log| + 1 && Carries(u.log[|t.log|], b, 0) && Carries(u.log[0], b, 0)
  {
    AtSendCarries(t.c.ld, b, dev, 0, 0, true);
    SayTwo(t, Heard(InitReply(Some(dev), id), true), Heard(OkLine, true));
    assert Carries(t.log[0], b, 0);
  }

  /** A failed read or write loses its chunk: the counter has moved on and the chunk is never sent. */
  lemma FailedSendSkips(t: Talk, hs: seq<Heard>, b: Blob)
    requires InStep(t, b) && t.c.cached && t.c.pending == ChunkPending && t.c.ld.snd.active
    requires t.c.ld.snd.nextChunk < t.c.ld.snd.totalChunks - 1
    ensures var u := SayAll(Say(t, OkLine, false), hs); !u.c.ld.snd.active ==> !WholeStream(u.log, b)
  {
    ChunkOk(t, false, b);
    assert OffTrack(Say(t, OkLine, false), b);
    OffTrackForever(Say(t, OkLine, false), hs, b);
    OffTrackStays(SayAll(Say(t, OkLine, false), hs), OkLine, true, b);
  }

  // ------------------------------------------------------ the printed device id

  /** An armed answer to AT#LDINIT belongs to the transfer being sent, and its device id is cached. */
  predicate Keyed(c: Conv) {
    c.pending == InitPending && c.cached ==> c.ld.snd.active && c.dev == c.ld.snd.gen
  }

  lemma HostStepKeyed(c: Conv, l: HostLine, ok: bool)
    requires Shape(c.ld) && Keyed(c)
    ensures Keyed(HostStep(c, l, ok).0)
  {
  }

  predicate Labelled(log: seq<LdLine>, gen: uint16, dataId: uint8) {
    forall l :: l in log ==> l.dev == gen && l.dataId == dataId
  }

  /** One of the lines answers AT#LDINIT with the transfer's own serial number and data id. */
  predicate Answered(snd: Sender, hs: seq<Heard>) {
    exists i :: 0 <= i < |hs| && Answers(snd, hs[i].line)
  }

  predicate Answers(snd: Sender, l: HostLine) {
    l.InitReply? && l.dev.Some? && snd.gen == l.dev.value && snd.dataId == l.id % 0x100
  }

  /** Host lines never change which transfer is being sent, nor start one. */
  lemma HostStepTransfer(c: Conv, l: HostLine, ok: bool)
    requires Shape(c.ld)
    ensures SameTransfer(HostStep(c, l, ok).0.ld.snd, c.ld.snd)
    ensures HostStep(c, l, ok).0.dev == if c.ld.snd.active && Answers(c.ld.snd, l) then c.ld.snd.gen else c.dev
    ensures HostStep(c, l, ok).1.Some? ==>
      var out := HostStep(c, l, ok).1.value; c.ld.snd.active && out.dev == c.dev && out.dataId == c.ld.snd.dataId
  {
  }

  /** While the sender is active the cached device id is that of the transfer being sent exactly when it was
      from the start, or the host has answered this transfer's AT#LDINIT since. */
  lemma {:induction false} CachedIdExact(t: Talk, hs: seq<Heard>)
    requires Shape(t.c.ld)
    ensures var u := SayAll(t, hs);
      && SameTransfer(u.c.ld.snd, t.c.ld.snd)
      && (u.c.ld.snd.active ==> (u.c.dev == t.c.ld.snd.gen <==> t.c.dev == t.c.ld.snd.gen || Answered(t.c.ld.snd, hs)))
    decreases |hs|
  {
    if hs != [] {
      var (l, ok) := (hs[0].line, hs[0].ok);
      HostStepTransfer(t.c, l, ok);
      var u := Say(t, l, ok);
      CachedIdExact(u, hs[1..]);
      AnsweredSplit(t.c.ld.snd, hs);
      AnsweredFrame(t.c.ld.snd, u.c.ld.snd, hs[1..]);
    }
  }

  lemma AnsweredSplit(snd: Sender, hs: seq<Heard>)
    requires hs != []
    ensures Answered(snd, hs) <==> Answers(snd, hs[0].line) || Answered(snd, hs[1..])
  {
    if i :| 0 <= i < |hs| && Answers(snd, hs[i].line) {
      assert i > 0 ==> hs[1..][i - 1] == hs[i];
    }
    if i :| 0 <= i < |hs[1..]| && Answers(snd, hs[1..][i].line) {
      assert hs[i + 1] == hs[1..][i];
    }
  }

  lemma AnsweredFrame(a: Sender, b: Sender, hs: seq<Heard>)
    requires a.gen == b.gen && a.dataId == b.dataId
    ensures Answered(a, hs) <==> Answered(b, hs)
  {
    forall i | 0 <= i < |hs|
      ensures Answers(a, hs[i].line) <==> Answers(b, hs[i].line)
    {
    }
  }

  /** So the device id printed in a line is the one of the transfer it belongs to if and only if it was cached
      before the conversation, or this transfer's AT#LDINIT was answered before the line. */
  lemma PrintedIdExact(t: Talk, hs: seq<Heard>, l: HostLine, ok: bool)
    requires Shape(t.c.ld)
    requires HostStep(SayAll(t, hs).c, l, ok).1.Some?
    ensures HostStep(SayAll(t, hs).c, l, ok).1.value.dev == t.c.ld.snd.gen <==>
              t.c.dev == t.c.ld.snd.gen || Answered(t.c.ld.snd, hs)
  {
    CachedIdExact(t, hs);
    HostStepTransfer(SayAll(t, hs).c, l, ok);
  }

  /** The conversation and its lines are about the transfer being sent. */
  ghost predicate Own(t: Talk) {
    && Keyed(t.c) && Labelled(t.log, t.c.ld.snd.gen, t.c.ld.snd.dataId)
    && (t.log != [] && t.c.ld.snd.active ==> t.c.dev == t.c.ld.snd.gen)
  }

  /** A line that does not disorder the stream leaves it correctly labelled. */
  lemma StepOwn(t: Talk, l: HostLine, ok: bool)
    requires Shape(t.c.ld) && Own(t) && !Disorders(t.c, t.log != [], l, ok)
    ensures Own(Say(t, l, ok))
  {
    HostStepTransfer(t.c, l, ok);
    HostStepKeyed(t.c, l, ok);
  }
}
