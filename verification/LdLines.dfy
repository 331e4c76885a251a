/** The lines of the large-data serial protocol: what the host tool builds is what the sensor parses, what
    the gateway prints is what the host parses (tools/sensor_sim.py, src/large_data.c). */
module LdLines {
  import opened Basics
  import opened Pieces
  import opened LargeDataTypes
  import opened Crc16CcittFalse
  import opened Crc32Ieee
  import opened AtHex
  import opened AtFields
  import opened AtLines
  import opened LargeDataStore
  import opened LargeDataReceiver
  import opened LargeDataSerial
  import opened LargeDataContent
  import opened LargeDataStaging

  const LINE_MAX: nat := 1024   // SLM_UART_AT_COMMAND_LEN

  // ------------------------------------------------------------ printed lines

  lemma {:induction false} SpellNoBreaks(prefix: string, fields: seq<string>, tail: string)
    requires NoBreaks(prefix) && NoBreaks(tail) && forall i :: 0 <= i < |fields| ==> NoBreaks(fields[i])
    ensures NoBreaks(Spell(prefix, fields, tail))
    decreases |fields|
  {
    if fields != [] {
      SpellNoBreaks(if |fields| == 1 then "" else ",", fields[1..], tail);
    }
  }

  /** The characters of quoted fields, quotes included. */
  function Quoted(fields: seq<string>): nat {
    if fields == [] then 0 else |fields[0]| + 2 + Quoted(fields[1..])
  }

  lemma {:induction false} SpellLength(prefix: string, fields: seq<string>, tail: string)
    ensures |Spell(prefix, fields, tail)| ==
              |prefix| + Quoted(fields) + |tail| + if |fields| > 1 then |fields| - 1 else 0
    decreases |fields|
  {
    if fields != [] {
      SpellLength(if |fields| == 1 then "" else ",", fields[1..], tail);
    }
  }

  /** Fields of plain characters survive both the field and the line syntax. */
  ghost predicate PlainFields(fields: seq<string>) {
    forall i :: 0 <= i < |fields| ==> Plain(fields[i])
  }

  lemma PlainIsFree(fields: seq<string>)
    requires PlainFields(fields)
    ensures AllFree(fields, '"') && forall i :: 0 <= i < |fields| ==> NoBreaks(fields[i])
  {
    forall i | 0 <= i < |fields|
      ensures Free(fields[i], '"') && NoBreaks(fields[i])
    {
      assert Plain(fields[i]);
    }
  }

  /** Numbers as fields, number i in at least ws[i] digits. */
  function Hexes(vs: seq<nat>, ws: seq<nat>): (fs: seq<string>)
    requires |vs| == |ws|
    ensures |fs| == |vs| && forall i :: 0 <= i < |fs| ==> fs[i] == PrintHex(vs[i], ws[i])
  {
    seq(|vs|, i requires 0 <= i < |vs| => PrintHex(vs[i], ws[i]))
  }

  lemma HexesPlain(vs: seq<nat>, ws: seq<nat>, more: seq<string>)
    requires |vs| == |ws| && PlainFields(more)
    ensures PlainFields(Hexes(vs, ws) + more)
  {
    var fs := Hexes(vs, ws);
    forall i | 0 <= i < |fs|
      ensures Plain(fs[i])
    {
      PrintHexReads(vs[i], ws[i]);
    }
  }

  /** Numeric field i of a printed line. */
  lemma NumberField(vs: seq<nat>, ws: seq<nat>, more: seq<string>, i: nat)
    requires |vs| == |ws| && PlainFields(more) && i < |vs| && vs[i] < 0x1_0000_0000_0000_0000
    ensures FieldHex(Spell("=", Hexes(vs, ws) + more, ""), i) == Some(vs[i])
  {
    var fs := Hexes(vs, ws) + more;
    HexesPlain(vs, ws, more);
    PlainIsFree(fs);
    SpellRoundTrip("=", fs, "", i);
    assert fs[i] == PrintHex(vs[i], ws[i]);
    PrintHexRoundTrip(vs[i], ws[i]);
  }

  lemma TextField(fields: seq<string>, i: nat)
    requires PlainFields(fields) && i < |fields|
    ensures Field(Spell("=", fields, ""), i) == Some(fields[i])
  {
    PlainIsFree(fields);
    SpellRoundTrip("=", fields, "", i);
  }

  lemma {:induction false} QuotedAppend(a: seq<string>, b: seq<string>)
    ensures Quoted(a + b) == Quoted(a) + Quoted(b)
    decreases |a|
  {
    if a == [] {
      assert a + b == b;
    } else {
      assert (a + b)[1..] == a[1..] + b;
      QuotedAppend(a[1..], b);
    }
  }

  /** Numbers that fit their widths take exactly those widths. */
  lemma {:induction false} QuotedHexes(vs: seq<nat>, ws: seq<nat>)
    requires |vs| == |ws| && forall i :: 0 <= i < |vs| ==> ws[i] >= 1 && vs[i] < Pow2(4 * ws[i])
    ensures Quoted(Hexes(vs, ws)) == Sum(ws) + 2 * |ws|
    decreases |vs|
  {
    if vs != [] {
      PrintHexWidth(vs[0], ws[0]);
      assert Hexes(vs, ws)[1..] == Hexes(vs[1..], ws[1..]);
      QuotedHexes(vs[1..], ws[1..]);
    }
  }

  function Sum(ws: seq<nat>): nat {
    if ws == [] then 0 else ws[0] + Sum(ws[1..])
  }

  /** A command between two line breaks, as the builders frame it, is dispatched as one line. */
  lemma FramedLine(text: string)
    requires text != "" && NoBreaks(text)
    ensures LinesFrom("\r\n" + text + "\r\n", 0) == [text]
  {
    var seps, ls := ["\r\n", "\r\n"], [text];
    SplitReads("", seps, ls);
    assert seps[1..] == ["\r\n"] && ls[1..] == [];
    assert Stream(seps, ls) == "\r\n" + text + Stream(["\r\n"], []);
    assert "" + Stream(seps, ls) == "\r\n" + text + "\r\n";
  }

  // -------------------------------------------------------------------- AT#LD

  const LD_WIDTHS: seq<nat> := [16, 4, 2, 2, 4]

  function LdValues(sn: uint64, id: uint16, page: uint8, chunk: uint8, payload: seq<byte>): seq<nat> {
    [sn, id, page, chunk, Crc16(payload)]
  }

  function LdFields(sn: uint64, id: uint16, page: uint8, chunk: uint8, payload: seq<byte>): seq<string> {
    Hexes(LdValues(sn, id, page, chunk, payload), LD_WIDTHS) + [HexEncode(payload)]
  }

  /** The text behind the command name, and the whole of build_at_ld. */
  function LdArgs(sn: uint64, id: uint16, page: uint8, chunk: uint8, payload: seq<byte>): string {
    Spell("=", LdFields(sn, id, page, chunk, payload), "")
  }

  function BuildLd(sn: uint64, id: uint16, page: uint8, chunk: uint8, payload: seq<byte>): string {
    "\r\n" + ("AT#LD" + LdArgs(sn, id, page, chunk, payload)) + "\r\n"
  }

  /** The first half of cmd_ld_chunk: the fields of its line, if they can be read. */
  function ParseLd(args: string): Option<ChunkLine> {
    var sn, id, page, chunk, crc16 := FieldHex(args, 0), FieldHex(args, 1), FieldHex(args, 2), FieldHex(args, 3),
        FieldHex(args, 4);
    if sn.None? || id.None? || page.None? || chunk.None? || crc16.None? then None
    else
      match Field(args, 5)
      case None => None
      case Some(hex) =>
        if hex == [] then None
        else
          match HexDecode(hex, AT_CHUNK)
          case None => None
          case Some(b) =>
            if b == [] then None else Some(ChunkLine(sn.value, id.value, page.value, chunk.value, crc16.value, b))
  }

  lemma PayloadPlain(payload: seq<byte>)
    ensures PlainFields([HexEncode(payload)])
  {
    EncodedPairs(payload);
  }

  lemma LdNumbers(sn: uint64, id: uint16, page: uint8, chunk: uint8, payload: seq<byte>)
    ensures var args := LdArgs(sn, id, page, chunk, payload);
      && FieldHex(args, 0) == Some(sn) && FieldHex(args, 1) == Some(id) && FieldHex(args, 2) == Some(page)
      && FieldHex(args, 3) == Some(chunk) && FieldHex(args, 4) == Some(Crc16(payload))
      && Field(args, 5) == Some(HexEncode(payload))
  {
    var vs, more := LdValues(sn, id, page, chunk, payload), [HexEncode(payload)];
    PayloadPlain(payload);
    NumberField(vs, LD_WIDTHS, more, 0);
    NumberField(vs, LD_WIDTHS, more, 1);
    NumberField(vs, LD_WIDTHS, more, 2);
    NumberField(vs, LD_WIDTHS, more, 3);
    NumberField(vs, LD_WIDTHS, more, 4);
    HexesPlain(vs, LD_WIDTHS, more);
    TextField(LdFields(sn, id, page, chunk, payload), 5);
  }

  /** The line build_at_ld makes is dispatched as one line, fits the receive buffer, and is read back field
      by field, payload included. */
  lemma LdRoundTrip(sn: uint64, id: uint16, page: uint8, chunk: uint8, payload: seq<byte>)
    requires 0 < |payload| <= AT_CHUNK
    ensures LinesFrom(BuildLd(sn, id, page, chunk, payload), 0) == ["AT#LD" + LdArgs(sn, id, page, chunk, payload)]
    ensures ParseLd(LdArgs(sn, id, page, chunk, payload)) ==
              Some(ChunkLine(sn, id, page, chunk, Crc16(payload), payload))
  {
    PayloadPlain(payload);
    HexesPlain(LdValues(sn, id, page, chunk, payload), LD_WIDTHS, [HexEncode(payload)]);
    PlainIsFree(LdFields(sn, id, page, chunk, payload));
    SpellNoBreaks("=", LdFields(sn, id, page, chunk, payload), "");
    FramedLine("AT#LD" + LdArgs(sn, id, page, chunk, payload));
    LdNumbers(sn, id, page, chunk, payload);
    DecodeEncode(payload, AT_CHUNK);
  }

  lemma Powers()
    ensures Pow2(8) == 0x100 && Pow2(16) == 0x1_0000 && Pow2(64) == 0x1_0000_0000_0000_0000
  {
    assert Pow2(4) == 16 && Pow2(8) == 0x100 && Pow2(12) == 0x1000 && Pow2(16) == 0x1_0000;
    assert Pow2(20) == 0x10_0000 && Pow2(24) == 0x100_0000 && Pow2(28) == 0x1000_0000 && Pow2(32) == 0x1_0000_0000;
    assert Pow2(36) == 0x10_0000_0000 && Pow2(40) == 0x100_0000_0000 && Pow2(44) == 0x1000_0000_0000;
    assert Pow2(48) == 0x1_0000_0000_0000 && Pow2(52) == 0x10_0000_0000_0000 && Pow2(56) == 0x100_0000_0000_0000;
    assert Pow2(60) == 0x1000_0000_0000_0000;
  }

  lemma LdWidthsSum()
    ensures Sum(LD_WIDTHS) == 28
  {
    assert LD_WIDTHS[1..] == [4, 2, 2, 4] && [4, 2, 2, 4][1..] == [2, 2, 4] && [2, 2, 4][1..] == [2, 4];
  }

  /** A full AT#LD line fits the command buffer with its terminating NUL. */
  lemma LdFits(sn: uint64, id: uint16, page: uint8, chunk: uint8, payload: seq<byte>)
    requires |payload| <= AT_CHUNK
    ensures |BuildLd(sn, id, page, chunk, payload)| == 55 + 2 * |payload| < LINE_MAX
  {
    Powers();
    LdWidthsSum();
    var vs := LdValues(sn, id, page, chunk, payload);
    QuotedHexes(vs, LD_WIDTHS);
    QuotedAppend(Hexes(vs, LD_WIDTHS), [HexEncode(payload)]);
    SpellLength("=", LdFields(sn, id, page, chunk, payload), "");
  }

  // ---------------------------------------------------------------- AT#LDINIT

  function Announcement(sn: uint64, id: uint16, total: uint32, chunks: uint16, last: uint16, crc32: uint32): InitLine {
    InitLine(sn, id, total, chunks, last, crc32, Crc16(MetaBytes(InitLine(sn, id, total, chunks, last, crc32, 0))))
  }

  const INIT_WIDTHS: seq<nat> := [16, 4, 8, 4, 4, 8, 4]

  function InitValues(l: InitLine): seq<nat> {
    [l.sn, l.id, l.total, l.chunks, l.last, l.crc32, l.crc16]
  }

  function InitFields(l: InitLine): seq<string> {
    Hexes(InitValues(l), INIT_WIDTHS) + []
  }

  /** build_at_ldinit. */
  function BuildInit(l: InitLine): string {
    "\r\n" + ("AT#LDINIT" + Spell("=", InitFields(l), "")) + "\r\n"
  }

  /** The first half of cmd_ld_init. */
  function ParseInit(args: string): Option<InitLine> {
    var sn, id, total, chunks := FieldHex(args, 0), FieldHex(args, 1), FieldHex(args, 2), FieldHex(args, 3);
    var last, crc32, crc16 := FieldHex(args, 4), FieldHex(args, 5), FieldHex(args, 6);
    if sn.None? || id.None? || total.None? || chunks.None? || last.None? || crc32.None? || crc16.None? then None
    else Some(InitLine(sn.value, id.value, total.value, chunks.value, last.value, crc32.value, crc16.value))
  }

  lemma InitNumbers(l: InitLine, args: string)
    requires args == Spell("=", InitFields(l), "")
    ensures FieldHex(args, 0) == Some(l.sn) && FieldHex(args, 1) == Some(l.id) && FieldHex(args, 2) == Some(l.total)
    ensures FieldHex(args, 3) == Some(l.chunks) && FieldHex(args, 4) == Some(l.last) &&
              FieldHex(args, 5) == Some(l.crc32)
    ensures FieldHex(args, 6) == Some(l.crc16)
  {
    NumberField(InitValues(l), INIT_WIDTHS, [], 0);
    NumberField(InitValues(l), INIT_WIDTHS, [], 1);
    NumberField(InitValues(l), INIT_WIDTHS, [], 2);
    NumberField(InitValues(l), INIT_WIDTHS, [], 3);
    NumberField(InitValues(l), INIT_WIDTHS, [], 4);
    NumberField(InitValues(l), INIT_WIDTHS, [], 5);
    NumberField(InitValues(l), INIT_WIDTHS, [], 6);
  }

  /** The announcement is dispatched as one line and read back field by field. */
  lemma InitRoundTrip(l: InitLine)
    ensures LinesFrom(BuildInit(l), 0) == ["AT#LDINIT" + Spell("=", InitFields(l), "")]
    ensures ParseInit(Spell("=", InitFields(l), "")) == Some(l)
  {
    HexesPlain(InitValues(l), INIT_WIDTHS, []);
    PlainIsFree(InitFields(l));
    SpellNoBreaks("=", InitFields(l), "");
    FramedLine("AT#LDINIT" + Spell("=", InitFields(l), ""));
    InitNumbers(l, Spell("=", InitFields(l), ""));
  }

  // ------------------------------------------------------- the host's transfer

  datatype SerialChunk = SerialChunk(page: nat, chunk: nat, payload: seq<byte>)

  const ADDRESSABLE: nat := 0x100 * 32   // pages of one byte, LD_CHUNKS_PER_PAGE chunks each

  /** iter_ld_chunks: the blob cut into serial chunks, numbered by page and chunk, until the page number no
      longer fits a byte. */
  method IterLdChunks(blob: seq<byte>) returns (out: seq<SerialChunk>, raised: bool)
    ensures raised <==> AtChunks(|blob|) > ADDRESSABLE
    ensures |out| == Min(AtChunks(|blob|), ADDRESSABLE)
    ensures forall i :: 0 <= i < |out| ==>
      out[i] == SerialChunk(i / CHUNKS_PER_PAGE, i % CHUNKS_PER_PAGE, Piece(blob, AT_CHUNK, i))
  {
    var n := (|blob| + AT_CHUNK - 1) / AT_CHUNK;
    out := [];
    for i := 0 to n
      invariant |out| == i <= ADDRESSABLE && n == AtChunks(|blob|)
      invariant forall k :: 0 <= k < i ==>
        out[k] == SerialChunk(k / CHUNKS_PER_PAGE, k % CHUNKS_PER_PAGE, Piece(blob, AT_CHUNK, k))
    {
      var page := i / CHUNKS_PER_PAGE;
      if page > 0xFF {
        return out, true;
      }
      PieceStart(|blob|, AT_CHUNK, i);
      var end := if (i + 1) * AT_CHUNK < |blob| then (i + 1) * AT_CHUNK else |blob|;
      out := out + [SerialChunk(page, i % CHUNKS_PER_PAGE, blob[i * AT_CHUNK..end])];
    }
    return out, false;
  }

  /** The line for serial chunk k of a blob is accepted by the sensor with that serial number, and it is what
      the staging results call genuine. */
  lemma HostChunkGenuine(d: Device, blobs: Blobs, id: uint8, k: nat)
    requires d.role == Sensor && (d.id, id) in blobs && k < AtChunks(|blobs[(d.id, id)]|)
    ensures var p := Piece(blobs[(d.id, id)], AT_CHUNK, k);
      var (page, chunk) := (k / CHUNKS_PER_PAGE, k % CHUNKS_PER_PAGE);
      && page < 0x100 && 0 < |p| <= AT_CHUNK
      && var l := ParseLd(LdArgs(d.sn, id, page, chunk, p));
         && l.Some? && ChunkLineOk(d, l.value) && GenuineChunkLine(d, l.value, blobs)
         && Linear(l.value.page, l.value.chunk) == k && l.value.payload == p
  {
    var b := blobs[(d.id, id)];
    TransferBounds(|b|);
    PieceStart(|b|, AT_CHUNK, k);
    LdRoundTrip(d.sn, id, k / CHUNKS_PER_PAGE, k % CHUNKS_PER_PAGE, Piece(b, AT_CHUNK, k));
  }

  /** So is the announcement. */
  lemma HostInitGenuine(d: Device, blobs: Blobs, id: uint8)
    requires d.role == Sensor && d.paired && (d.id, id) in blobs
    ensures var b := blobs[(d.id, id)];
      && 1 <= AtChunks(|b|) <= 434 && 1 <= LastPiece(|b|, AT_CHUNK) <= AT_CHUNK
      && var l := Announcement(d.sn, id, |b|, AtChunks(|b|), LastPiece(|b|, AT_CHUNK), Crc32(b));
         && ParseInit(Spell("=", InitFields(l), "")) == Some(l)
         && InitLineOk(d, l) && GenuineInitLine(d, l, blobs)
  {
    var b := blobs[(d.id, id)];
    TransferBounds(|b|);
    LastPieceBounds(|b|, AT_CHUNK);
    var l := Announcement(d.sn, id, |b|, AtChunks(|b|), LastPiece(|b|, AT_CHUNK), Crc32(b));
    InitRoundTrip(l);
    assert MetaBytes(l) == MetaBytes(l.(crc16 := 0));
  }

  // --------------------------------------------------------- the gateway's AT#LD

  const GATEWAY_WIDTHS: seq<nat> := [16, 4, 4, 4]

  function GatewayValues(l: LdLine): seq<nat> {
    [l.dev, l.dataId, l.page, l.chunk]
  }

  function GatewayFields(l: LdLine): seq<string> {
    Hexes(GatewayValues(l), GATEWAY_WIDTHS) + [HexEncode(l.payload)]
  }

  /** The line at_send_next_chunk prints. */
  function PrintLd(l: LdLine): string {
    "\r\nAT#LD" + Spell("=", GatewayFields(l), "\r\n")
  }

  /** What parse_at_ld returns. */
  datatype ParsedLd = ParsedLd(sn: nat, id: nat, page: nat, chunk: nat, payload: seq<byte>)

  /** int(s, 16) on a field of digits. */
  function Int16(s: string): Option<nat> {
    if s == [] then None else HexValue(s)
  }

  function ParseAtLd(line: string): Option<ParsedLd> {
    match FieldsFrom(line, 0)
    case None => None
    case Some(fs) => if |fs| < 5 then None else ParseFive(fs[0], fs[1], fs[2], fs[3], fs[4])
  }

  function ParseFive(a: string, b: string, c: string, d: string, e: string): Option<ParsedLd> {
    var sn, id, page, chunk := Int16(a), Int16(b), Int16(c), Int16(d);
    if sn.None? || id.None? || page.None? || chunk.None? || |e| % 2 != 0 then None
    else
      match DecodePairs(e)
      case None => None
      case Some(payload) => Some(ParsedLd(sn.value, id.value, page.value, chunk.value, payload))
  }

  /** The prefix of a printed command belongs to the text before the first field. */
  lemma PrefixMoves(a: string, b: string, fields: seq<string>, tail: string)
    ensures a + Spell(b, fields, tail) == Spell(a + b, fields, tail)
  {
    if fields == [] {
      assert a + (b + tail) == (a + b) + tail;
    } else {
      var rest := Spell(if |fields| == 1 then "" else ",", fields[1..], tail);
      assert a + (b + "\"" + fields[0] + "\"" + rest) == (a + b) + "\"" + fields[0] + "\"" + rest;
    }
  }

  lemma GatewaySplits(l: LdLine)
    ensures FieldsFrom(PrintLd(l), 0) == Some(GatewayFields(l))
  {
    var fs := GatewayFields(l);
    PayloadPlain(l.payload);
    HexesPlain(GatewayValues(l), GATEWAY_WIDTHS, [HexEncode(l.payload)]);
    PlainIsFree(fs);
    PrefixMoves("\r\nAT#LD", "=", fs, "\r\n");
    SpellRoundTrip("\r\nAT#LD" + "=", fs, "\r\n", 0);
  }

  lemma FiveRead(a: string, b: string, c: string, d: string, e: string, sn: nat, id: nat, page: nat, chunk: nat,
                 payload: seq<byte>)
    requires Int16(a) == Some(sn) && Int16(b) == Some(id) && Int16(c) == Some(page) && Int16(d) == Some(chunk)
    requires |e| % 2 == 0 && DecodePairs(e) == Some(payload)
    ensures ParseFive(a, b, c, d, e) == Some(ParsedLd(sn, id, page, chunk, payload))
  {
  }

  lemma FirstFive(line: string, fs: seq<string>)
    requires FieldsFrom(line, 0) == Some(fs) && |fs| == 5
    ensures ParseAtLd(line) == ParseFive(fs[0], fs[1], fs[2], fs[3], fs[4])
  {
  }

  lemma NumberAt(vs: seq<nat>, ws: seq<nat>, more: seq<string>, i: nat)
    requires |vs| == |ws| && i < |vs|
    ensures Int16((Hexes(vs, ws) + more)[i]) == Some(vs[i])
  {
    PrintHexReads(vs[i], ws[i]);
  }

  lemma GatewayNumbers(l: LdLine)
    ensures var fs := GatewayFields(l);
      && |fs| == 5 && Int16(fs[0]) == Some(l.dev) && Int16(fs[1]) == Some(l.dataId) && Int16(fs[2]) == Some(l.page)
      && Int16(fs[3]) == Some(l.chunk) && fs[4] == HexEncode(l.payload)
  {
    var vs, ws := GatewayValues(l), GATEWAY_WIDTHS;
    NumberAt(vs, ws, [HexEncode(l.payload)], 0);
    NumberAt(vs, ws, [HexEncode(l.payload)], 1);
    NumberAt(vs, ws, [HexEncode(l.payload)], 2);
    NumberAt(vs, ws, [HexEncode(l.payload)], 3);
  }

  lemma ParsedFrom(line: string, fs: seq<string>, sn: nat, id: nat, page: nat, chunk: nat, payload: seq<byte>)
    requires FieldsFrom(line, 0) == Some(fs) && |fs| == 5
    requires Int16(fs[0]) == Some(sn) && Int16(fs[1]) == Some(id) && Int16(fs[2]) == Some(page) &&
               Int16(fs[3]) == Some(chunk)
    requires fs[4] == HexEncode(payload)
    ensures ParseAtLd(line) == Some(ParsedLd(sn, id, page, chunk, payload))
  {
    EncodedPairs(payload);
    FirstFive(line, fs);
    FiveRead(fs[0], fs[1], fs[2], fs[3], fs[4], sn, id, page, chunk, payload);
  }

  /** The host reads from the gateway's line exactly the chunk the gateway printed. */
  lemma GatewayRoundTrip(l: LdLine)
    ensures ParseAtLd(PrintLd(l)) == Some(ParsedLd(l.dev, l.dataId, l.page, l.chunk, l.payload))
  {
    GatewaySplits(l);
    GatewayNumbers(l);
    ParsedFrom(PrintLd(l), GatewayFields(l), l.dev, l.dataId, l.page, l.chunk, l.payload);
  }

  lemma GatewayWidthsSum()
    ensures Sum(GATEWAY_WIDTHS) == 28
  {
    assert GATEWAY_WIDTHS[1..] == [4, 4, 4] && [4, 4, 4][1..] == [4, 4] && [4, 4][1..] == [4];
  }

  lemma GatewayLength(l: LdLine)
    requires l.page < 0x1_0000 && l.chunk < 0x1_0000
    ensures |PrintLd(l)| == 52 + 2 * |l.payload|
  {
    Powers();
    GatewayWidthsSum();
    QuotedHexes(GatewayValues(l), GATEWAY_WIDTHS);
    QuotedAppend(Hexes(GatewayValues(l), GATEWAY_WIDTHS), [HexEncode(l.payload)]);
    SpellLength("=", GatewayFields(l), "\r\n");
  }

  lemma SentLine(s: Ld, dev: uint16, page: nat, chunk: nat, ok: bool)
    requires Shape(s) && s.snd.lastChunkSize <= AT_CHUNK && AtSend(s, dev, page, chunk, ok).Some?
    ensures var l := AtSend(s, dev, page, chunk, ok).value;
      l.page < 0x1_0000 && l.chunk < CHUNKS_PER_PAGE && |l.payload| <= AT_CHUNK
  {
  }

  /** The length check of at_send_next_chunk never rejects: a line for a chunk that exists fits the buffer. */
  lemma GatewayLineFits(s: Ld, dev: uint16, page: nat, chunk: nat, ok: bool)
    requires Shape(s) && s.snd.lastChunkSize <= AT_CHUNK && AtSend(s, dev, page, chunk, ok).Some?
    ensures |PrintLd(AtSend(s, dev, page, chunk, ok).value)| <= LINE_MAX
  {
    SentLine(s, dev, page, chunk, ok);
    GatewayLength(AtSend(s, dev, page, chunk, ok).value);
  }
}
