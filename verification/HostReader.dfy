/** The host behind a gateway: it opens a buffer for every AT#LDINIT, files the payloads of AT#LD lines in it
    and puts them together when all have come (tools/gateway_gui.py, _handle_ldinit and _handle_ld). */
module HostReader {
  import opened Basics
  import opened Pieces
  import opened Crc32Ieee
  import opened LargeDataTypes
  import opened LargeDataReceiver
  import opened LargeDataSerial
  import opened LargeDataContent
  import opened LargeDataGateway

  /** An AT#LDINIT line. gen is the device whose serial number was looked up; it is not in the line and the
      host never uses it. */
  datatype Announcement = Announcement(
    gen: uint16, sn: uint64, dataId: uint8, total: nat, chunks: nat, last: nat, crc32: uint32)

  /** What a gateway writes to its host. */
  datatype Out = Announce(ann: Announcement) | Deliver(line: LdLine)

  /** One entry of _ld_xfers. */
  datatype Xfer = Xfer(total: nat, chunks: nat, crc32: uint32, got: map<nat, seq<byte>>)

  datatype Received = Received(sn: nat, dataId: nat, blob: seq<byte>, ok: bool)

  /** Open transfers by the number in the first field and the data id, and what has been put together. */
  datatype Host = Host(open: map<(nat, nat), Xfer>, done: seq<Received>)

  const IDLE: Host := Host(map[], [])

  /** A number above every key. */
  ghost function Bound(ks: set<nat>): (n: nat)
    ensures forall k :: k in ks ==> k < n
  {
    if ks == {} then 0
    else
      var k :| k in ks;
      var n := Bound(ks - {k});
      assert ks == (ks - {k}) + {k};
      if k < n then n else k + 1
  }

  /** The payloads filed below index n, in the order of their indices. */
  function JoinBelow(got: map<nat, seq<byte>>, n: nat): seq<byte> {
    if n == 0 then [] else JoinBelow(got, n - 1) + if n - 1 in got then got[n - 1] else []
  }

  /** b"".join over the sorted indices. */
  ghost function JoinSorted(got: map<nat, seq<byte>>): seq<byte> {
    JoinBelow(got, Bound(got.Keys))
  }

  /** The buffer a chunk line is filed in: the one opened under the line's own number, or else the only one
      open for its data id. */
  ghost function Correlate(open: map<(nat, nat), Xfer>, sn: nat, dataId: nat): (r: Option<(nat, nat)>)
    ensures r.Some? ==> r.value in open
  {
    var same := set k | k in open && k.1 == dataId;
    if (sn, dataId) in open then Some((sn, dataId))
    else if |same| == 1 then
      var k :| k in same;
      Some(k)
    else None
  }

  ghost function Complete(key: (nat, nat), x: Xfer): Received {
    var blob := JoinSorted(x.got);
    Received(key.0, key.1, blob, |blob| == x.total && Crc32(blob) == x.crc32)
  }

  ghost function Read(h: Host, o: Out): Host {
    match o
    case Announce(a) => h.(open := h.open[(a.sn, a.dataId) := Xfer(a.total, a.chunks, a.crc32, map[])])
    case Deliver(l) =>
      match Correlate(h.open, l.dev, l.dataId)
      case None => h
      case Some(key) => File(h, key, Linear(l.page, l.chunk), l.payload)
  }

  /** A chunk is filed in the buffer; the last missing one closes it. */
  ghost function File(h: Host, key: (nat, nat), k: nat, payload: seq<byte>): Host
    requires key in h.open
  {
    var x := h.open[key].(got := h.open[key].got[k := payload]);
    if |x.got| < x.chunks then h.(open := h.open[key := x])
    else Host(h.open - {key}, h.done + [Complete(key, x)])
  }

  ghost function ReadAll(log: seq<Out>): Host {
    if log == [] then IDLE else Read(ReadAll(log[..|log| - 1]), log[|log| - 1])
  }

  // -------------------------------------------------------- filing the pieces

  /** Only pieces of b are filed, under their indices. */
  ghost predicate HoldsPieces(got: map<nat, seq<byte>>, b: Blob) {
    forall k :: k in got ==> k < AtChunks(|b|) && got[k] == Piece(b, AT_CHUNK, k)
  }

  lemma {:induction false} FullRange(keys: set<nat>, n: nat)
    requires |keys| == n && forall k :: k in keys ==> k < n
    ensures forall k :: 0 <= k < n ==> k in keys
  {
    if n > 0 {
      if n - 1 in keys {
        FullRange(keys - {n - 1}, n - 1);
      } else {
        Fewer(keys, n - 1);
      }
    }
  }

  lemma {:induction false} Fewer(keys: set<nat>, n: nat)
    requires forall k :: k in keys ==> k < n
    ensures |keys| <= n
  {
    if n > 0 {
      Fewer(keys - {n - 1}, n - 1);
    }
  }

  lemma {:induction false} JoinPieces(got: map<nat, seq<byte>>, b: Blob, n: nat)
    requires n <= AtChunks(|b|) && forall k :: 0 <= k < n ==> k in got && got[k] == Piece(b, AT_CHUNK, k)
    ensures JoinBelow(got, n) == Joined(b, AT_CHUNK, n)
  {
    if n > 0 {
      JoinPieces(got, b, n - 1);
    }
  }

  lemma {:induction false} JoinStops(got: map<nat, seq<byte>>, n: nat, m: nat)
    requires n <= m && forall k :: k in got ==> k < n
    ensures JoinBelow(got, m) == JoinBelow(got, n)
    decreases m
  {
    if n < m {
      JoinStops(got, n, m - 1);
    }
  }

  /** As many pieces of b as there are, put together in the order of their indices, are b. */
  lemma SortedPieces(got: map<nat, seq<byte>>, b: Blob)
    requires HoldsPieces(got, b) && |got| == AtChunks(|b|)
    ensures JoinSorted(got) == b
  {
    var n := AtChunks(|b|);
    LastPieceBounds(|b|, AT_CHUNK);
    FullRange(got.Keys, n);
    assert n - 1 in got.Keys;
    JoinStops(got, n, Bound(got.Keys));
    JoinPieces(got, b, n);
    JoinedAll(b, AT_CHUNK);
  }

  // ---------------------------------------------------------------- one transfer

  /** The line describes b as at_send_next_chunk will cut it. */
  ghost predicate Describes(a: Announcement, b: Blob) {
    a.total == |b| && a.chunks == AtChunks(|b|) && a.last == LastPiece(|b|, AT_CHUNK) && a.crc32 == Crc32(b)
  }

  function Key(a: Announcement): (nat, nat) {
    (a.sn, a.dataId)
  }

  /** No other transfer is open under the same data id. */
  predicate NoRival(open: map<(nat, nat), Xfer>, a: Announcement) {
    forall k :: k in open && k.1 == a.dataId ==> k == Key(a)
  }

  /** The announced transfer is open without a rival and holds some, not all, of its pieces. */
  ghost predicate Filing(h: Host, a: Announcement, b: Blob) {
    && NoRival(h.open, a) && Key(a) in h.open
    && h.open[Key(a)] == Xfer(|b|, AtChunks(|b|), Crc32(b), h.open[Key(a)].got)
    && HoldsPieces(h.open[Key(a)].got, b) && |h.open[Key(a)].got| < AtChunks(|b|)
  }

  /** The chunks filed for an announcement. */
  function Filed(h: Host, a: Announcement): set<nat> {
    if Key(a) in h.open then h.open[Key(a)].got.Keys else {}
  }

  /** Nothing is open under the announcement's data id. */
  predicate Closed(h: Host, a: Announcement) {
    forall k :: k in h.open ==> k.1 != a.dataId
  }

  lemma OpensBuffer(h: Host, a: Announcement, b: Blob)
    requires NoRival(h.open, a) && Describes(a, b)
    ensures var g := Read(h, Announce(a)); Filing(g, a, b) && Filed(g, a) == {} && g.done == h.done
  {
    LastPieceBounds(|b|, AT_CHUNK);
  }

  /** Without a rival every line with the transfer's data id is filed under it, whatever number the line starts
      with. */
  lemma Correlated(open: map<(nat, nat), Xfer>, a: Announcement, sn: nat)
    requires Key(a) in open && NoRival(open, a)
    ensures Correlate(open, sn, a.dataId) == Some(Key(a))
  {
    var same := set k | k in open && k.1 == a.dataId;
    assert same == {Key(a)};
  }

  /** With a rival open a line is filed nowhere, exactly unless the device id it starts with happens to be the
      serial number of a transfer open under its data id. */
  lemma RivalsIgnored(h: Host, a: Announcement, rival: (nat, nat), l: LdLine)
    requires Key(a) in h.open && rival in h.open && rival != Key(a) && rival.1 == a.dataId == l.dataId
    ensures Correlate(h.open, l.dev, l.dataId).None? <==> (l.dev as nat, l.dataId as nat) !in h.open
    ensures (l.dev as nat, l.dataId as nat) !in h.open ==> Read(h, Deliver(l)) == h
  {
    var same := set k | k in h.open && k.1 == a.dataId;
    assert {Key(a), rival} <= same;
    SubsetSize({Key(a), rival}, same);
  }

  lemma KeyCount(got: map<nat, seq<byte>>, k: nat, payload: seq<byte>)
    ensures |got[k := payload]| == |got.Keys + {k}| <= |got| + 1
  {
    assert got[k := payload].Keys == got.Keys + {k};
  }

  /** A line that carries a piece of the transfer, a new one or a repeat, is filed; the last missing one
      completes the blob. */
  lemma FilesPiece(h: Host, a: Announcement, b: Blob, l: LdLine)
    requires Filing(h, a, b) && CarriesPiece(l, b) && l.dataId == a.dataId
    ensures var g := Read(h, Deliver(l));
      var filed := Filed(h, a) + {Linear(l.page, l.chunk)};
      if |filed| < AtChunks(|b|) then
        Filing(g, a, b) && Filed(g, a) == filed && g.done == h.done && g.open.Keys == h.open.Keys
      else
        Closed(g, a) && g.open == h.open - {Key(a)} && g.done == h.done + [Received(a.sn, a.dataId, b, true)]
  {
    Correlated(h.open, a, l.dev);
    FiledPiece(h, a, b, Linear(l.page, l.chunk), l.payload);
  }

  lemma FiledPiece(h: Host, a: Announcement, b: Blob, k: nat, payload: seq<byte>)
    requires Filing(h, a, b) && k < AtChunks(|b|) && payload == Piece(b, AT_CHUNK, k)
    ensures var (g, filed) := (File(h, Key(a), k, payload), Filed(h, a) + {k});
      if |filed| < AtChunks(|b|) then
        Filing(g, a, b) && Filed(g, a) == filed && g.done == h.done && g.open.Keys == h.open.Keys
      else
        Closed(g, a) && g.open == h.open - {Key(a)} && g.done == h.done + [Received(a.sn, a.dataId, b, true)]
  {
    var got := h.open[Key(a)].got;
    KeyCount(got, k, payload);
    var more := got[k := payload];
    assert HoldsPieces(more, b);
    if |more| >= AtChunks(|b|) {
      assert |more| == AtChunks(|b|);
      SortedPieces(more, b);
    }
  }

  /** A repeat that comes after that is ignored. */
  lemma RepeatIgnored(h: Host, a: Announcement, l: LdLine)
    requires Closed(h, a) && l.dataId == a.dataId
    ensures Read(h, Deliver(l)) == h
  {
    var same := set k | k in h.open && k.1 == a.dataId;
    assert same == {};
  }

  // ------------------------------------------------------ everything a gateway writes

  /** The announcement in force at the end of the log. */
  function Latest(log: seq<Out>): Option<Announcement> {
    if log == [] then None
    else match log[|log| - 1]
      case Announce(a) => Some(a)
      case Deliver(_) => Latest(log[..|log| - 1])
  }

  /** The chunk lines written since. */
  function Current(log: seq<Out>): seq<LdLine> {
    if log == [] then []
    else match log[|log| - 1]
      case Announce(_) => []
      case Deliver(l) => Current(log[..|log| - 1]) + [l]
  }

  /** The chunk indices among them. */
  function Seen(log: seq<Out>): set<nat> {
    if log == [] then {}
    else match log[|log| - 1]
      case Announce(_) => {}
      case Deliver(l) => Seen(log[..|log| - 1]) + {Linear(l.page, l.chunk)}
  }

  ghost predicate Announces(a: Announcement, blobs: Blobs) {
    (a.gen, a.dataId) in blobs && Describes(a, blobs[(a.gen, a.dataId)])
  }

  /** The blob announced. */
  function BlobOf(a: Announcement, blobs: Blobs): Blob
    requires (a.gen, a.dataId) in blobs
  {
    blobs[(a.gen, a.dataId)]
  }

  /** Every line says the truth about the transfer announced last before it. */
  ghost predicate Truthful(log: seq<Out>, blobs: Blobs) {
    log == [] ||
    var before := log[..|log| - 1];
    && Truthful(before, blobs)
    && match log[|log| - 1]
       case Announce(a) => Announces(a, blobs)
       case Deliver(l) =>
         Latest(before).Some? &&
         var a := Latest(before).value;
         Announces(a, blobs) && l.dataId == a.dataId && CarriesPiece(l, BlobOf(a, blobs))
  }

  lemma {:induction false} LatestTrue(log: seq<Out>, blobs: Blobs)
    requires Truthful(log, blobs) && Latest(log).Some?
    ensures Announces(Latest(log).value, blobs)
  {
    if log[|log| - 1].Deliver? {
      LatestTrue(log[..|log| - 1], blobs);
    }
  }

  /** Whenever a transfer is announced, no other one is open at the host under its data id. */
  ghost predicate Unrivalled(log: seq<Out>) {
    log == [] ||
    var before := log[..|log| - 1];
    Unrivalled(before) && (log[|log| - 1].Announce? ==> NoRival(ReadAll(before).open, log[|log| - 1].ann))
  }

  ghost function Receipt(a: Announcement, blobs: Blobs): Received
    requires (a.gen, a.dataId) in blobs
  {
    Received(a.sn, a.dataId, BlobOf(a, blobs), true)
  }

  /** The line is the one with which all chunks of its transfer are there. */
  ghost predicate Completes(before: seq<Out>, l: LdLine, blobs: Blobs) {
    Latest(before).Some? && (Latest(before).value.gen, Latest(before).value.dataId) in blobs &&
    var n := AtChunks(|BlobOf(Latest(before).value, blobs)|);
    |Seen(before)| < n <= |Seen(before) + {Linear(l.page, l.chunk)}|
  }

  /** One entry for every announced transfer all of whose chunks were written, in the order in which they were
      completed. */
  ghost function Receipts(log: seq<Out>, blobs: Blobs): seq<Received> {
    if log == [] then []
    else
      var before := log[..|log| - 1];
      match log[|log| - 1]
      case Announce(_) => Receipts(before, blobs)
      case Deliver(l) =>
        Receipts(before, blobs) + if Completes(before, l, blobs) then [Receipt(Latest(before).value, blobs)] else []
  }

  /** Those of them whose last chunk was read while no other transfer was open under the data id. */
  ghost function ReadReceipts(log: seq<Out>, blobs: Blobs): seq<Received> {
    if log == [] then []
    else
      var before := log[..|log| - 1];
      match log[|log| - 1]
      case Announce(_) => ReadReceipts(before, blobs)
      case Deliver(l) =>
        ReadReceipts(before, blobs) +
        if Completes(before, l, blobs) && NoRival(ReadAll(before).open, Latest(before).value)
        then [Receipt(Latest(before).value, blobs)] else []
  }

  /** No line with which a transfer is complete is read while another one is open under its data id. */
  ghost predicate NeverBlocked(log: seq<Out>, blobs: Blobs) {
    log == [] ||
    var (before, o) := (log[..|log| - 1], log[|log| - 1]);
    && NeverBlocked(before, blobs)
    && (o.Deliver? && Completes(before, o.line, blobs) ==> NoRival(ReadAll(before).open, Latest(before).value))
  }

  lemma {:induction false} NeverBlockedExact(log: seq<Out>, blobs: Blobs)
    ensures |ReadReceipts(log, blobs)| <= |Receipts(log, blobs)|
    ensures if NeverBlocked(log, blobs) then ReadReceipts(log, blobs) == Receipts(log, blobs)
            else |ReadReceipts(log, blobs)| < |Receipts(log, blobs)|
  {
    if log != [] {
      NeverBlockedExact(log[..|log| - 1], blobs);
    }
  }

  /** No line is read among rivals whose device id happens to be the serial number of an open transfer. */
  ghost predicate Unambiguous(log: seq<Out>) {
    log == [] ||
    var (before, o) := (log[..|log| - 1], log[|log| - 1]);
    && Unambiguous(before)
    && (o.Deliver? && Latest(before).Some? && !NoRival(ReadAll(before).open, Latest(before).value) ==>
          (o.line.dev as nat, o.line.dataId as nat) !in ReadAll(before).open)
  }

  /** What the reader has when the log ends. */
  ghost predicate ReaderState(log: seq<Out>, blobs: Blobs) {
    var h := ReadAll(log);
    && h.done == ReadReceipts(log, blobs)
    && (Latest(log).Some? ==>
          var a := Latest(log).value;
          && Announces(a, blobs)
          && if !NoRival(h.open, a) then Key(a) in h.open
             else if |Seen(log)| < AtChunks(|BlobOf(a, blobs)|)
             then Filing(h, a, BlobOf(a, blobs)) && Filed(h, a) == Seen(log)
             else Closed(h, a))
  }

  lemma Appended(log: seq<Out>, o: Out)
    ensures (log + [o])[..|log|] == log && (log + [o])[|log|] == o
    ensures ReadAll(log + [o]) == Read(ReadAll(log), o)
    ensures Latest(log + [o]) == if o.Announce? then Some(o.ann) else Latest(log)
    ensures Current(log + [o]) == if o.Announce? then [] else Current(log) + [o.line]
    ensures Seen(log + [o]) == if o.Announce? then {} else Seen(log) + {Linear(o.line.page, o.line.chunk)}
  {
    var more := log + [o];
    assert more[..|log|] == log && |more| - 1 == |log| && more[|log|] == o;
  }

  lemma FrontAndLast(log: seq<Out>)
    requires log != []
    ensures log == log[..|log| - 1] + [log[|log| - 1]]
  {
  }

  lemma AnnounceStep(log: seq<Out>, a: Announcement, blobs: Blobs)
    requires ReaderState(log, blobs) && Announces(a, blobs)
    ensures ReaderState(log + [Announce(a)], blobs)
    ensures NoRival(ReadAll(log + [Announce(a)]).open, a) <==> NoRival(ReadAll(log).open, a)
  {
    Appended(log, Announce(a));
    var (h, g) := (ReadAll(log), ReadAll(log + [Announce(a)]));
    LastPieceBounds(|BlobOf(a, blobs)|, AT_CHUNK);
    if NoRival(h.open, a) {
      OpensBuffer(h, a, BlobOf(a, blobs));
    } else {
      var k :| k in h.open && k.1 == a.dataId && k != Key(a);
      assert k in g.open;
    }
  }

  lemma DeliverStep(log: seq<Out>, l: LdLine, blobs: Blobs)
    requires ReaderState(log, blobs) && Truthful(log + [Deliver(l)], blobs) && Unambiguous(log + [Deliver(l)])
    ensures ReaderState(log + [Deliver(l)], blobs)
  {
    Appended(log, Deliver(l));
    var (h, a) := (ReadAll(log), Latest(log).value);
    var b := BlobOf(a, blobs);
    if !NoRival(h.open, a) {
      var rival :| rival in h.open && rival.1 == a.dataId && rival != Key(a);
      RivalsIgnored(h, a, rival, l);
    } else if |Seen(log)| < AtChunks(|b|) {
      FilesPiece(h, a, b, l);
    } else {
      SubsetSize(Seen(log), Seen(log + [Deliver(l)]));
      RepeatIgnored(h, a, l);
    }
  }

  lemma ReaderStep(log: seq<Out>, o: Out, blobs: Blobs)
    requires ReaderState(log, blobs) && Truthful(log + [o], blobs) && Unambiguous(log + [o])
    ensures ReaderState(log + [o], blobs)
  {
    Appended(log, o);
    match o
    case Announce(a) => AnnounceStep(log, a, blobs);
    case Deliver(l) => DeliverStep(log, l, blobs);
  }

  /** Whatever lines the gateway wrote, in whatever order and however often, the host has put together exactly the
      blobs of the transfers whose last missing chunk was read without a rival, each the one announced, each once. */
  lemma {:induction false} ReaderReads(log: seq<Out>, blobs: Blobs)
    requires Truthful(log, blobs) && Unambiguous(log)
    ensures ReaderState(log, blobs)
  {
    if log != [] {
      var before, o := log[..|log| - 1], log[|log| - 1];
      ReaderReads(before, blobs);
      FrontAndLast(log);
      ReaderStep(before, o, blobs);
    }
  }

  /** So it has put together exactly the transfers all of whose chunks were written if and only if none was
      completed while another one was open under its data id. */
  lemma ReaderExact(log: seq<Out>, blobs: Blobs)
    requires Truthful(log, blobs) && Unambiguous(log)
    ensures ReadAll(log).done == Receipts(log, blobs) <==> NeverBlocked(log, blobs)
  {
    ReaderReads(log, blobs);
    NeverBlockedExact(log, blobs);
  }

  lemma ReadingOpensNothing(h: Host, l: LdLine)
    ensures Read(h, Deliver(l)).open.Keys <= h.open.Keys
  {
  }

  /** Without rivals at the announcements there are none in between. */
  lemma {:induction false} UnrivalledClear(log: seq<Out>, blobs: Blobs)
    requires Unrivalled(log)
    ensures Unambiguous(log) && NeverBlocked(log, blobs)
    ensures Latest(log).Some? ==> NoRival(ReadAll(log).open, Latest(log).value)
  {
    if log != [] {
      var before, o := log[..|log| - 1], log[|log| - 1];
      UnrivalledClear(before, blobs);
      if o.Deliver? {
        ReadingOpensNothing(ReadAll(before), o.line);
      }
    }
  }

  /** Serial numbers that do not fit a device id make every log unambiguous. */
  ghost predicate LongSerials(log: seq<Out>) {
    forall o :: o in log && o.Announce? ==> o.ann.sn >= 0x1_0000
  }

  lemma {:induction false} LongSerialsClear(log: seq<Out>)
    requires LongSerials(log)
    ensures Unambiguous(log) && forall k :: k in ReadAll(log).open ==> k.0 >= 0x1_0000
  {
    if log != [] {
      var before, o := log[..|log| - 1], log[|log| - 1];
      assert o in log;
      LongSerialsClear(before);
      if o.Deliver? {
        ReadingOpensNothing(ReadAll(before), o.line);
      }
    }
  }

  // ---------------------------------------------------------------- a lost chunk

  function Deliveries(ls: seq<LdLine>): seq<Out> {
    if ls == [] then [] else Deliveries(ls[..|ls| - 1]) + [Deliver(ls[|ls| - 1])]
  }

  /** A transfer that ends with a chunk never written stays open at the host, and makes it lose the next one that is
      announced under its data id by another device, whatever lines are written for that. */
  lemma {:induction false} LostChunkBlocksNext(log: seq<Out>, next: Announcement, ls: seq<LdLine>, blobs: Blobs)
    requires Truthful(log, blobs) && Unrivalled(log) && Latest(log).Some? && Announces(Latest(log).value, blobs)
    requires |Seen(log)| < AtChunks(|BlobOf(Latest(log).value, blobs)|)
    requires next.dataId == Latest(log).value.dataId && next.sn != Latest(log).value.sn
    requires Truthful(log + [Announce(next)] + Deliveries(ls), blobs)
    requires Unambiguous(log + [Announce(next)] + Deliveries(ls))
    ensures var h := ReadAll(log + [Announce(next)] + Deliveries(ls));
      && h.done == ReadAll(log).done && !NoRival(h.open, next)
      && Latest(log + [Announce(next)] + Deliveries(ls)) == Some(next)
    decreases |ls|
  {
    if ls == [] {
      assert log + [Announce(next)] + Deliveries(ls) == log + [Announce(next)];
      UnrivalledClear(log, blobs);
      ReaderReads(log, blobs);
      Appended(log, Announce(next));
      assert Key(Latest(log).value) in ReadAll(log).open;
      assert Key(Latest(log).value) in ReadAll(log + [Announce(next)]).open;
    } else {
      var front, l := log + [Announce(next)] + Deliveries(ls[..|ls| - 1]), ls[|ls| - 1];
      assert log + [Announce(next)] + Deliveries(ls) == front + [Deliver(l)];
      AppendedKeeps(front, Deliver(l), blobs);
      LostChunkBlocksNext(log, next, ls[..|ls| - 1], blobs);
      ReaderReads(front, blobs);
      Appended(front, Deliver(l));
      var rival :| rival in ReadAll(front).open && rival.1 == next.dataId && rival != Key(next);
      RivalsIgnored(ReadAll(front), next, rival, l);
    }
  }

  lemma AppendedKeeps(log: seq<Out>, o: Out, blobs: Blobs)
    requires Truthful(log + [o], blobs) && Unambiguous(log + [o])
    ensures Truthful(log, blobs) && Unambiguous(log)
    ensures o.Deliver? && Latest(log).Some? ==>
      o.line.dataId == Latest(log).value.dataId &&
      (!NoRival(ReadAll(log).open, Latest(log).value) ==>
         (o.line.dev as nat, o.line.dataId as nat) !in ReadAll(log).open)
  {
    var more := log + [o];
    assert more[..|log|] == log && |more| - 1 == |log| && more[|log|] == o;
  }

  // ------------------------------------------------------------- chunks in order

  /** Every transfer but the last was written whole and in order before the next was announced. */
  ghost predicate WholeBefore(log: seq<Out>, blobs: Blobs) {
    log == [] ||
    var before := log[..|log| - 1];
    && WholeBefore(before, blobs)
    && (log[|log| - 1].Announce? && Latest(before).Some? ==>
          Announces(Latest(before).value, blobs) && WholeStream(Current(before), BlobOf(Latest(before).value, blobs)))
  }

  /** One entry per announcement, in order. */
  ghost function AllReceipts(log: seq<Out>, blobs: Blobs): seq<Received>
    requires Truthful(log, blobs)
  {
    if log == [] then []
    else
      var before := AllReceipts(log[..|log| - 1], blobs);
      match log[|log| - 1]
      case Announce(a) => before + [Receipt(a, blobs)]
      case Deliver(_) => before
  }

  ghost predicate FirstOnes(ks: set<nat>, n: nat) {
    forall k: nat :: k in ks <==> k < n
  }

  lemma {:induction false} FirstKeys(ks: set<nat>, n: nat)
    requires FirstOnes(ks, n)
    ensures |ks| == n
  {
    if n > 0 {
      FirstKeys(ks - {n - 1}, n - 1);
    }
  }

  lemma OneMore(ks: set<nat>, n: nat)
    requires FirstOnes(ks, n)
    ensures FirstOnes(ks + {n}, n + 1) && |ks + {n}| == n + 1
  {
    FirstKeys(ks + {n}, n + 1);
  }

  lemma InOrderBefore(log: seq<LdLine>, b: Blob)
    requires log != [] && InOrder(log, b)
    ensures InOrder(log[..|log| - 1], b)
  {
    var front := log[..|log| - 1];
    forall i | 0 <= i < |front|
      ensures Carries(front[i], b, i)
    {
      assert Carries(log[i], b, i);
    }
  }

  /** Of chunks in order, the first ones have been seen. */
  lemma {:induction false} SeenInOrder(log: seq<Out>, b: Blob)
    requires InOrder(Current(log), b)
    ensures FirstOnes(Seen(log), |Current(log)|) && |Seen(log)| == |Current(log)|
  {
    if log != [] && log[|log| - 1].Deliver? {
      var ls := Current(log);
      InOrderBefore(ls, b);
      assert ls[..|ls| - 1] == Current(log[..|log| - 1]);
      SeenInOrder(log[..|log| - 1], b);
      assert Carries(ls[|ls| - 1], b, |ls| - 1);
    }
    FirstKeys(Seen(log), |Current(log)|);
  }

  /** What the host has when n chunks of the last transfer have come in order and everything before is whole: all
      announced blobs, or all but the last and only that one open. */
  ghost predicate AllBut(h: Host, all: seq<Received>, a: Announcement, b: Blob, n: nat) {
    && all != [] && all[|all| - 1] == Received(a.sn, a.dataId, b, true)
    && if n == AtChunks(|b|) then h == Host(map[], all) else h.open.Keys == {Key(a)} && h.done == all[..|all| - 1]
  }

  ghost predicate OrderedState(log: seq<Out>, blobs: Blobs)
    requires Truthful(log, blobs)
  {
    if Latest(log).None? then ReadAll(log) == IDLE && AllReceipts(log, blobs) == []
    else
      var a := Latest(log).value;
      Announces(a, blobs) && AllBut(ReadAll(log), AllReceipts(log, blobs), a, BlobOf(a, blobs), |Current(log)|)
  }

  lemma AllAppended(log: seq<Out>, o: Out, blobs: Blobs)
    requires Truthful(log + [o], blobs)
    ensures Truthful(log, blobs)
    ensures o.Announce? ==>
      (o.ann.gen, o.ann.dataId) in blobs &&
      AllReceipts(log + [o], blobs) == AllReceipts(log, blobs) + [Receipt(o.ann, blobs)]
    ensures o.Deliver? ==> AllReceipts(log + [o], blobs) == AllReceipts(log, blobs)
  {
    var more := log + [o];
    assert more[..|log|] == log && |more| - 1 == |log| && more[|log|] == o;
  }

  lemma {:induction false} OrderedReader(log: seq<Out>, blobs: Blobs)
    requires Truthful(log, blobs) && WholeBefore(log, blobs)
    requires Latest(log).Some? ==>
               Announces(Latest(log).value, blobs) && InOrder(Current(log), BlobOf(Latest(log).value, blobs))
    ensures Unrivalled(log) && OrderedState(log, blobs)
  {
    if log != [] {
      var before, o := log[..|log| - 1], log[|log| - 1];
      assert log == before + [o];
      Appended(before, o);
      if o.Deliver? {
        InOrderBefore(Current(log), BlobOf(Latest(log).value, blobs));
        assert Current(log)[..|Current(log)| - 1] == Current(before);
      }
      OrderedReader(before, blobs);
      UnrivalledClear(before, blobs);
      ReaderReads(before, blobs);
      OrderedStep(before, o, blobs);
    }
  }

  lemma OrderedStep(log: seq<Out>, o: Out, blobs: Blobs)
    requires Truthful(log, blobs) && OrderedState(log, blobs) && ReaderState(log, blobs) && Truthful(log + [o], blobs)
    requires o.Announce? && Latest(log).Some? ==> WholeStream(Current(log), BlobOf(Latest(log).value, blobs))
    requires o.Deliver? ==> Latest(log).Some? && InOrder(Current(log + [o]), BlobOf(Latest(log).value, blobs))
    requires Unrivalled(log)
    ensures Unrivalled(log + [o]) && OrderedState(log + [o], blobs)
  {
    Appended(log, o);
    AllAppended(log, o, blobs);
    match o
    case Announce(a) =>
      assert ReadAll(log).open == map[];
      LastPieceBounds(|BlobOf(a, blobs)|, AT_CHUNK);
    case Deliver(l) =>
      var a, ls := Latest(log).value, Current(log);
      var b := BlobOf(a, blobs);
      assert Carries((ls + [l])[|ls|], b, |ls|);
      InOrderBefore(ls + [l], b);
      assert (ls + [l])[..|ls|] == ls;
      SeenInOrder(log, b);
      FilesNext(ReadAll(log), AllReceipts(log, blobs), a, b, |ls|, l);
  }

  lemma FilesNext(h: Host, all: seq<Received>, a: Announcement, b: Blob, n: nat, l: LdLine)
    requires AllBut(h, all, a, b, n) && Filing(h, a, b) && FirstOnes(Filed(h, a), n)
    requires Carries(l, b, n) && l.dataId == a.dataId
    ensures AllBut(Read(h, Deliver(l)), all, a, b, n + 1)
  {
    FirstKeys(Filed(h, a), n);
    FilesPiece(h, a, b, l);
    OneMore(Filed(h, a), n);
    if n + 1 == AtChunks(|b|) {
      assert h.open - {Key(a)} == map[];
      assert all == all[..|all| - 1] + [all[|all| - 1]];
    }
  }
}
