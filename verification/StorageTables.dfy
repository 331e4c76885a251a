/** The three device tables in RAM and their EEPROM image (src/storage.c, with update_mesh_storage of
    src/mesh.c): what every operation keeps, and that booting from the image gives the tables back. */
module StorageTables {
  import opened Basics
  import opened Crc32Ieee
  import opened LargeDataTypes
  import opened InfraOrder
  import opened Eeprom

  const INFRA_BASE: nat := 0x0
  const INFRA_SIZE: nat := 0x80
  const SENSOR_BASE: nat := 0x80
  const SENSOR_SIZE: nat := 0x400
  const MESH_BASE: nat := 0x480
  const MESH_SIZE: nat := 0x3000
  const MAX_ANCHORS: nat := 8
  const MAX_SENSORS: nat := 64
  const MAX_DEVICES: nat := 256

  datatype SensorEntry = SensorEntry(deviceId: uint16, version: uint16, crc32: uint32)
  datatype SensorRow = SensorRow(entry: SensorEntry, lastComm: nat, failures: uint8, pinged: bool)

  /** mesh_entry_t without its checksum, which is stamped on every write, and its RAM mirror mesh_t. */
  datatype MeshEntry = MeshEntry(
    deviceType: uint8, deviceId: uint16, serial: uint64, version: uint16, connected: uint16, hop: uint8, sensors: uint8)
  datatype MeshRow = MeshRow(deviceType: uint8, deviceId: uint16, serial: uint64, connected: uint16, hop: uint8)

  /** The live rows of the three RAM tables and the EEPROM. */
  datatype Store = Store(infra: seq<InfraRow>, sensors: seq<SensorRow>, mesh: seq<MeshRow>, rom: Rom)

  datatype Err = Fine | NoMemory | Invalid | Io

  // ------------------------------------------------------------ packed layout

  const INFRA_WIDTHS: seq<nat> := [1, 2, 1, 2, 2]
  const SENSOR_WIDTHS: seq<nat> := [2, 2]
  const MESH_WIDTHS: seq<nat> := [1, 2, 8, 2, 2, 1, 1]
  const INFRA_LEN: nat := 12
  const SENSOR_LEN: nat := 8
  const MESH_LEN: nat := 21

  function Unsigned(x: int16): uint16 {
    if x < 0 then x + 0x1_0000 else x
  }

  function Signed(x: nat): int16 {
    if x % 0x1_0000 < 0x8000 then x % 0x1_0000 else x % 0x1_0000 - 0x1_0000
  }

  function InfraFields(e: InfraEntry): seq<nat> {
    [e.deviceType, e.deviceId, e.hop, e.version, Unsigned(e.rssi)]
  }

  function InfraFrom(fs: seq<nat>, crc: nat): InfraEntry
    requires |fs| == 5
  {
    InfraEntry(fs[0] % 0x100, fs[1] % 0x1_0000, fs[2] % 0x100, fs[3] % 0x1_0000, Signed(fs[4]), crc % 0x1_0000_0000)
  }

  function SensorFields(e: SensorEntry): seq<nat> {
    [e.deviceId, e.version]
  }

  function SensorFrom(fs: seq<nat>, crc: nat): SensorEntry
    requires |fs| == 2
  {
    SensorEntry(fs[0] % 0x1_0000, fs[1] % 0x1_0000, crc % 0x1_0000_0000)
  }

  function MeshFields(e: MeshEntry): seq<nat> {
    [e.deviceType, e.deviceId, e.serial, e.version, e.connected, e.hop, e.sensors]
  }

  function MeshFrom(fs: seq<nat>): MeshEntry
    requires |fs| == 7
  {
    MeshEntry(fs[0] % 0x100, fs[1] % 0x1_0000, fs[2] % 0x1_0000_0000_0000_0000, fs[3] % 0x1_0000, fs[4] % 0x1_0000,
              fs[5] % 0x100, fs[6] % 0x100)
  }

  lemma Limits()
    ensures Limit(1) == 0x100 && Limit(2) == 0x1_0000 && Limit(8) == 0x1_0000_0000_0000_0000
  {
    assert Limit(3) == 0x100_0000 && Limit(4) == 0x1_0000_0000;
    assert Limit(5) == 0x100_0000_0000 && Limit(6) == 0x1_0000_0000_0000 && Limit(7) == 0x100_0000_0000_0000;
  }

  lemma Widths()
    ensures Total(INFRA_WIDTHS) + 4 == INFRA_LEN && Total(SENSOR_WIDTHS) + 4 == SENSOR_LEN
    ensures Total(MESH_WIDTHS) + 4 == MESH_LEN
  {
    assert Total([1, 1]) == 2 && Total([2, 1, 1]) == 4 by {
      assert [2, 1, 1][1..] == [1, 1] && [1, 1][1..] == [1];
    }
    assert INFRA_WIDTHS[1..] == [2, 1, 2, 2] && [2, 1, 2, 2][1..] == [1, 2, 2] && [1, 2, 2][1..] == [2, 2];
    assert SENSOR_WIDTHS[1..] == [2];
    assert MESH_WIDTHS[1..] == [2, 8, 2, 2, 1, 1] && [2, 8, 2, 2, 1, 1][1..] == [8, 2, 2, 1, 1];
    assert [8, 2, 2, 1, 1][1..] == [2, 2, 1, 1] && [2, 2, 1, 1][1..] == [2, 1, 1];
  }

  function InfraCrc(e: InfraEntry): uint32 {
    Crc32(Pack(InfraFields(e), INFRA_WIDTHS))
  }

  function SensorCrc(e: SensorEntry): uint32 {
    Crc32(Pack(SensorFields(e), SENSOR_WIDTHS))
  }

  function InfraRecord(e: InfraEntry): (b: seq<byte>)
    ensures |b| == INFRA_LEN
  {
    Widths();
    Record(InfraFields(e), INFRA_WIDTHS)
  }

  function SensorRecord(e: SensorEntry): (b: seq<byte>)
    ensures |b| == SENSOR_LEN
  {
    Widths();
    Record(SensorFields(e), SENSOR_WIDTHS)
  }

  function MeshRecord(e: MeshEntry): (b: seq<byte>)
    ensures |b| == MESH_LEN
  {
    Widths();
    Record(MeshFields(e), MESH_WIDTHS)
  }

  /** What storage_init makes of a record, if its checksum is right. */
  function ReadInfra(b: seq<byte>): Option<InfraEntry>
    requires |b| == INFRA_LEN
  {
    Widths();
    match ReadRecord(b, INFRA_WIDTHS)
    case None => None
    case Some(r) => Some(InfraFrom(r.0, r.1))
  }

  function ReadSensor(b: seq<byte>): Option<SensorEntry>
    requires |b| == SENSOR_LEN
  {
    Widths();
    match ReadRecord(b, SENSOR_WIDTHS)
    case None => None
    case Some(r) => Some(SensorFrom(r.0, r.1))
  }

  function ReadMesh(b: seq<byte>): Option<MeshEntry>
    requires |b| == MESH_LEN
  {
    Widths();
    match ReadRecord(b, MESH_WIDTHS)
    case None => None
    case Some(r) => Some(MeshFrom(r.0))
  }

  lemma InfraFits(e: InfraEntry)
    ensures Fit(InfraFields(e), INFRA_WIDTHS)
  {
    Limits();
  }

  lemma SensorFits(e: SensorEntry)
    ensures Fit(SensorFields(e), SENSOR_WIDTHS)
  {
    Limits();
  }

  lemma MeshFits(e: MeshEntry)
    ensures Fit(MeshFields(e), MESH_WIDTHS)
  {
    Limits();
  }

  lemma InfraFromFields(e: InfraEntry, crc: uint32)
    ensures InfraFrom(InfraFields(e), crc) == e.(crc32 := crc)
  {
  }

  lemma SensorFromFields(e: SensorEntry, crc: uint32)
    ensures SensorFrom(SensorFields(e), crc) == e.(crc32 := crc)
  {
  }

  lemma MeshFromFields(e: MeshEntry)
    ensures MeshFrom(MeshFields(e)) == e
  {
  }

  /** Records read back as the entries they were written from. */
  lemma InfraReads(e: InfraEntry)
    ensures ReadInfra(InfraRecord(e)) == Some(e.(crc32 := InfraCrc(e)))
  {
    InfraFits(e);
    var fs, ws := InfraFields(e), INFRA_WIDTHS;
    RecordReads(fs, ws);
    InfraFromFields(e, Crc32(Pack(fs, ws)));
  }

  lemma SensorReads(e: SensorEntry)
    ensures ReadSensor(SensorRecord(e)) == Some(e.(crc32 := SensorCrc(e)))
  {
    SensorFits(e);
    var fs, ws := SensorFields(e), SENSOR_WIDTHS;
    RecordReads(fs, ws);
    SensorFromFields(e, Crc32(Pack(fs, ws)));
  }

  lemma MeshReads(e: MeshEntry)
    ensures ReadMesh(MeshRecord(e)) == Some(e)
  {
    MeshFits(e);
    RecordReads(MeshFields(e), MESH_WIDTHS);
    MeshFromFields(e);
  }

  // -------------------------------------------------------------- RAM and image

  function InfraRecords(rows: seq<InfraRow>): (rs: seq<seq<byte>>)
    ensures |rs| == |rows| && forall i :: 0 <= i < |rs| ==> |rs[i]| == INFRA_LEN && rs[i] == InfraRecord(rows[i].entry)
  {
    Each((r: InfraRow) => InfraRecord(r.entry), rows)
  }

  function SensorRecords(rows: seq<SensorRow>): (rs: seq<seq<byte>>)
    ensures |rs| == |rows|
    ensures forall i :: 0 <= i < |rs| ==> |rs[i]| == SENSOR_LEN && rs[i] == SensorRecord(rows[i].entry)
  {
    Each((r: SensorRow) => SensorRecord(r.entry), rows)
  }

  function MeshRecords(es: seq<MeshEntry>): (rs: seq<seq<byte>>)
    ensures |rs| == |es| && forall i :: 0 <= i < |rs| ==> |rs[i]| == MESH_LEN && rs[i] == MeshRecord(es[i])
  {
    Each(MeshRecord, es)
  }

  function Mirror(e: MeshEntry): MeshRow {
    MeshRow(e.deviceType, e.deviceId, e.serial, e.connected, e.hop)
  }

  /** The infra table fits its partition, its rows carry their checksums, and the image holds them. */
  ghost predicate InfraSync(s: Store) {
    && |s.infra| <= MAX_ANCHORS && ImageOf(s.rom, INFRA_BASE, INFRA_LEN, InfraRecords(s.infra))
    && forall i :: 0 <= i < |s.infra| ==> s.infra[i].entry.crc32 == InfraCrc(s.infra[i].entry)
  }

  ghost predicate SensorSync(s: Store) {
    && |s.sensors| <= MAX_SENSORS && ImageOf(s.rom, SENSOR_BASE, SENSOR_LEN, SensorRecords(s.sensors))
    && forall i :: 0 <= i < |s.sensors| ==> s.sensors[i].entry.crc32 == SensorCrc(s.sensors[i].entry)
  }

  /** The image holds the mesh entries es, and the RAM mirror agrees with them field by field. */
  ghost predicate MeshSync(s: Store, es: seq<MeshEntry>) {
    && |s.mesh| == |es| <= MAX_DEVICES && ImageOf(s.rom, MESH_BASE, MESH_LEN, MeshRecords(es))
    && forall i :: 0 <= i < |es| ==> s.mesh[i] == Mirror(es[i])
  }

  ghost predicate InSync(s: Store, es: seq<MeshEntry>) {
    InfraSync(s) && SensorSync(s) && MeshSync(s, es)
  }

  /** A full table of any kind ends inside its partition, and the partitions do not overlap. */
  lemma PartitionsFit()
    ensures INFRA_BASE + INFRA_SIZE == SENSOR_BASE && SENSOR_BASE + SENSOR_SIZE == MESH_BASE
    ensures MESH_BASE + MESH_SIZE <= ROM_SIZE
    ensures Addr(INFRA_BASE, INFRA_LEN, MAX_ANCHORS) <= INFRA_BASE + INFRA_SIZE
    ensures Addr(SENSOR_BASE, SENSOR_LEN, MAX_SENSORS) <= SENSOR_BASE + SENSOR_SIZE
    ensures Addr(MESH_BASE, MESH_LEN, MAX_DEVICES) <= MESH_BASE + MESH_SIZE
  {
  }

  /** What a write to one partition leaves of the others. */
  lemma OthersInfra(s: Store, t: Store)
    requires InfraSync(s) && t.infra == s.infra && t.rom[..SENSOR_BASE] == s.rom[..SENSOR_BASE]
    ensures InfraSync(t)
  {
    ImageFrame(s.rom, t.rom, INFRA_BASE, INFRA_LEN, InfraRecords(s.infra), INFRA_SIZE);
  }

  lemma OthersSensor(s: Store, t: Store)
    requires SensorSync(s) && t.sensors == s.sensors && t.rom[SENSOR_BASE..MESH_BASE] == s.rom[SENSOR_BASE..MESH_BASE]
    ensures SensorSync(t)
  {
    ImageFrame(s.rom, t.rom, SENSOR_BASE, SENSOR_LEN, SensorRecords(s.sensors), SENSOR_SIZE);
  }

  lemma OthersMesh(s: Store, t: Store, es: seq<MeshEntry>)
    requires MeshSync(s, es) && t.mesh == s.mesh
    requires t.rom[MESH_BASE..MESH_BASE + MESH_SIZE] == s.rom[MESH_BASE..MESH_BASE + MESH_SIZE]
    ensures MeshSync(t, es)
  {
    ImageFrame(s.rom, t.rom, MESH_BASE, MESH_LEN, MeshRecords(es), MESH_SIZE);
  }

  // -------------------------------------------------------- infrastructure table

  /** The checksum is stamped into the RAM row before the row is written. */
  function StampInfra(r: InfraRow): InfraRow {
    r.(entry := r.entry.(crc32 := InfraCrc(r.entry)))
  }

  function InfraStamped(rows: seq<InfraRow>, n: nat): (r: seq<InfraRow>)
    ensures |r| == |rows|
  {
    FirstEach(StampInfra, rows, n)
  }

  /** flush_infra_to_eeprom with `good` successful EEPROM writes. */
  function FlushInfra(s: Store, rows: seq<InfraRow>, good: nat): (Store, Err)
    requires |rows| <= MAX_ANCHORS
  {
    var (r, ok) := Flush(s.rom, INFRA_BASE, INFRA_LEN, InfraRecords(rows), 0, good);
    (s.(infra := InfraStamped(rows, good + 1), rom := r), if ok then Fine else Io)
  }

  function NewInfra(e: InfraEntry): InfraRow {
    InfraRow(e, 0, 0, false)
  }

  function InfraAdd(s: Store, e: InfraEntry, good: nat): (Store, Err) {
    if |s.infra| >= MAX_ANCHORS then (s, NoMemory) else FlushInfra(s, Sort(s.infra + [NewInfra(e)]), good)
  }

  function InfraUpdate(s: Store, i: nat, e: InfraEntry, good: nat): (Store, Err)
    requires |s.infra| <= MAX_ANCHORS
  {
    if i >= |s.infra| then (s, Invalid) else FlushInfra(s, Sort(s.infra[i := s.infra[i].(entry := e)]), good)
  }

  function InfraRemove(s: Store, i: nat, good: nat): (Store, Err)
    requires |s.infra| <= MAX_ANCHORS
  {
    if i >= |s.infra| then (s, Invalid) else FlushInfra(s, Without(s.infra, i), good)
  }

  /** Clearing a partition writes its header only. */
  function Cleared(rom: Rom, base: nat, good: nat): (Rom, Err)
    requires base + HEADER <= ROM_SIZE
  {
    if good == 0 then (rom, Io) else (Splice(rom, base, Header(0)), Fine)
  }

  function InfraClear(s: Store, good: nat): (Store, Err) {
    var (r, err) := Cleared(s.rom, INFRA_BASE, good);
    (s.(infra := [], rom := r), err)
  }

  lemma StampedRecords(rows: seq<InfraRow>, n: nat)
    requires n >= |rows|
    ensures InfraRecords(InfraStamped(rows, n)) == InfraRecords(rows)
    ensures forall i :: 0 <= i < |rows| ==>
              InfraStamped(rows, n)[i].entry.crc32 == InfraCrc(InfraStamped(rows, n)[i].entry)
  {
    forall i | 0 <= i < |rows|
      ensures InfraRecord(InfraStamped(rows, n)[i].entry) == InfraRecord(rows[i].entry)
      ensures InfraStamped(rows, n)[i].entry.crc32 == InfraCrc(InfraStamped(rows, n)[i].entry)
    {
      SameFields(rows[i].entry, InfraCrc(rows[i].entry));
    }
  }

  /** The checksum does not cover itself. */
  lemma SameFields(e: InfraEntry, c: uint32)
    ensures InfraRecord(e.(crc32 := c)) == InfraRecord(e) && InfraCrc(e.(crc32 := c)) == InfraCrc(e)
  {
    assert InfraFields(e.(crc32 := c)) == InfraFields(e);
  }

  lemma {:induction false} FlushNeedsWrites(rom: Rom, base: nat, k: nat, recs: seq<seq<byte>>, i: nat, good: nat)
    requires i <= |recs| <= 0xFFFF && Addr(base, k, |recs|) <= ROM_SIZE
    requires forall j :: 0 <= j < |recs| ==> |recs[j]| == k
    ensures Flush(rom, base, k, recs, i, good).1 <==> good > |recs| - i
    decreases |recs| - i
  {
    if good > 0 && i < |recs| {
      AddrMono(base, k, i, |recs|);
      FlushNeedsWrites(Splice(rom, Addr(base, k, i), recs[i]), base, k, recs, i + 1, good - 1);
    }
  }

  lemma FlushInfraOwn(s: Store, rows: seq<InfraRow>, good: nat)
    requires |rows| <= MAX_ANCHORS && FlushInfra(s, rows, good).1 == Fine
    ensures InfraSync(FlushInfra(s, rows, good).0)
  {
    var recs := InfraRecords(rows);
    FlushImage(s.rom, INFRA_BASE, INFRA_LEN, recs, good);
    FlushNeedsWrites(s.rom, INFRA_BASE, INFRA_LEN, recs, 0, good);
    StampedRecords(rows, good + 1);
  }

  /** A flush of any rows that succeeds brings the infra partition in step and leaves the others alone. */
  lemma FlushInfraSync(s: Store, es: seq<MeshEntry>, rows: seq<InfraRow>, good: nat)
    requires SensorSync(s) && MeshSync(s, es) && |rows| <= MAX_ANCHORS && FlushInfra(s, rows, good).1 == Fine
    ensures InSync(FlushInfra(s, rows, good).0, es)
  {
    var recs := InfraRecords(rows);
    FlushInfraOwn(s, rows, good);
    FlushElsewhere(s.rom, INFRA_BASE, INFRA_LEN, recs, 0, good, SENSOR_BASE, MESH_BASE);
    FlushElsewhere(s.rom, INFRA_BASE, INFRA_LEN, recs, 0, good, MESH_BASE, MESH_BASE + MESH_SIZE);
    OthersSensor(s, FlushInfra(s, rows, good).0);
    OthersMesh(s, FlushInfra(s, rows, good).0, es);
  }

  lemma ClearedImage(rom: Rom, base: nat, k: nat)
    requires base + HEADER <= ROM_SIZE
    ensures ImageOf(Splice(rom, base, Header(0)), base, k, [])
  {
    HeaderCounts(rom, base, 0);
  }

  lemma InfraClearSync(s: Store, es: seq<MeshEntry>, good: nat)
    requires SensorSync(s) && MeshSync(s, es) && good > 0
    ensures InSync(InfraClear(s, good).0, es)
  {
    var t := InfraClear(s, good).0;
    ClearedImage(s.rom, INFRA_BASE, INFRA_LEN);
    assert InfraRecords([]) == [];
    SpliceOutside(s.rom, INFRA_BASE, Header(0), SENSOR_BASE, MESH_BASE);
    SpliceOutside(s.rom, INFRA_BASE, Header(0), MESH_BASE, MESH_BASE + MESH_SIZE);
    OthersSensor(s, t);
    OthersMesh(s, t, es);
  }

  // --------------------------------------------------------------- sensor table

  function StampSensor(r: SensorRow): SensorRow {
    r.(entry := r.entry.(crc32 := SensorCrc(r.entry)))
  }

  function SensorStamped(rows: seq<SensorRow>, n: nat): (r: seq<SensorRow>)
    ensures |r| == |rows|
  {
    FirstEach(StampSensor, rows, n)
  }

  /** flush_sensors_to_eeprom. */
  function FlushSensors(s: Store, rows: seq<SensorRow>, good: nat): (Store, Err)
    requires |rows| <= MAX_SENSORS
  {
    var (r, ok) := Flush(s.rom, SENSOR_BASE, SENSOR_LEN, SensorRecords(rows), 0, good);
    (s.(sensors := SensorStamped(rows, good + 1), rom := r), if ok then Fine else Io)
  }

  function SensorAdd(s: Store, e: SensorEntry, good: nat): (Store, Err) {
    if |s.sensors| >= MAX_SENSORS then (s, NoMemory) else FlushSensors(s, s.sensors + [SensorRow(e, 0, 0, false)], good)
  }

  function SensorUpdate(s: Store, i: nat, e: SensorEntry, good: nat): (Store, Err)
    requires |s.sensors| <= MAX_SENSORS
  {
    if i >= |s.sensors| then (s, Invalid) else FlushSensors(s, s.sensors[i := s.sensors[i].(entry := e)], good)
  }

  function SensorRemove(s: Store, i: nat, good: nat): (Store, Err)
    requires |s.sensors| <= MAX_SENSORS
  {
    if i >= |s.sensors| then (s, Invalid) else FlushSensors(s, Without(s.sensors, i), good)
  }

  function SensorClear(s: Store, good: nat): (Store, Err) {
    var (r, err) := Cleared(s.rom, SENSOR_BASE, good);
    (s.(sensors := [], rom := r), err)
  }

  lemma SensorStampedRecords(rows: seq<SensorRow>, n: nat)
    requires n >= |rows|
    ensures SensorRecords(SensorStamped(rows, n)) == SensorRecords(rows)
    ensures forall i :: 0 <= i < |rows| ==>
              SensorStamped(rows, n)[i].entry.crc32 == SensorCrc(SensorStamped(rows, n)[i].entry)
  {
    forall i | 0 <= i < |rows|
      ensures SensorRecord(SensorStamped(rows, n)[i].entry) == SensorRecord(rows[i].entry)
      ensures SensorStamped(rows, n)[i].entry.crc32 == SensorCrc(SensorStamped(rows, n)[i].entry)
    {
      SameSensorFields(rows[i].entry, SensorCrc(rows[i].entry));
    }
  }

  lemma SameSensorFields(e: SensorEntry, c: uint32)
    ensures SensorRecord(e.(crc32 := c)) == SensorRecord(e) && SensorCrc(e.(crc32 := c)) == SensorCrc(e)
  {
    assert SensorFields(e.(crc32 := c)) == SensorFields(e);
  }

  lemma FlushSensorsOwn(s: Store, rows: seq<SensorRow>, good: nat)
    requires |rows| <= MAX_SENSORS && FlushSensors(s, rows, good).1 == Fine
    ensures SensorSync(FlushSensors(s, rows, good).0)
  {
    var recs := SensorRecords(rows);
    FlushImage(s.rom, SENSOR_BASE, SENSOR_LEN, recs, good);
    FlushNeedsWrites(s.rom, SENSOR_BASE, SENSOR_LEN, recs, 0, good);
    SensorStampedRecords(rows, good + 1);
  }

  lemma FlushSensorsSync(s: Store, es: seq<MeshEntry>, rows: seq<SensorRow>, good: nat)
    requires InfraSync(s) && MeshSync(s, es) && |rows| <= MAX_SENSORS && FlushSensors(s, rows, good).1 == Fine
    ensures InSync(FlushSensors(s, rows, good).0, es)
  {
    var recs := SensorRecords(rows);
    FlushSensorsOwn(s, rows, good);
    FlushElsewhere(s.rom, SENSOR_BASE, SENSOR_LEN, recs, 0, good, 0, SENSOR_BASE);
    FlushElsewhere(s.rom, SENSOR_BASE, SENSOR_LEN, recs, 0, good, MESH_BASE, MESH_BASE + MESH_SIZE);
    SameStart(s.rom, FlushSensors(s, rows, good).0.rom, SENSOR_BASE);
    OthersInfra(s, FlushSensors(s, rows, good).0);
    OthersMesh(s, FlushSensors(s, rows, good).0, es);
  }

  lemma SameStart(a: Rom, b: Rom, n: nat)
    requires n <= ROM_SIZE && b[0..n] == a[0..n]
    ensures b[..n] == a[..n]
  {
  }

  lemma SensorClearSync(s: Store, es: seq<MeshEntry>, good: nat)
    requires InfraSync(s) && MeshSync(s, es) && good > 0
    ensures InSync(SensorClear(s, good).0, es)
  {
    var t := SensorClear(s, good).0;
    ClearedImage(s.rom, SENSOR_BASE, SENSOR_LEN);
    assert SensorRecords([]) == [];
    SpliceOutside(s.rom, SENSOR_BASE, Header(0), 0, SENSOR_BASE);
    SpliceOutside(s.rom, SENSOR_BASE, Header(0), MESH_BASE, MESH_BASE + MESH_SIZE);
    OthersInfra(s, t);
    OthersMesh(s, t, es);
  }

  // ----------------------------------------------------------------- mesh table

  /** storage_mesh_add: record, RAM row, header. */
  function MeshAdd(s: Store, e: MeshEntry, good: nat): (Store, Err) {
    var n := |s.mesh|;
    if n >= MAX_DEVICES then (s, NoMemory)
    else if good == 0 then (s, Io)
    else
      var t := MeshAppended(MeshWritten(s, n, e), e);
      if good == 1 then (t, Io) else (MeshCounted(t), Fine)
  }

  /** Record i of the mesh partition is written. */
  function MeshWritten(s: Store, i: nat, e: MeshEntry): Store
    requires i < MAX_DEVICES
  {
    s.(rom := Splice(s.rom, Addr(MESH_BASE, MESH_LEN, i), MeshRecord(e)))
  }

  /** A row is added to the RAM mirror. */
  function MeshAppended(s: Store, e: MeshEntry): Store {
    s.(mesh := s.mesh + [Mirror(e)])
  }

  /** The header counts the rows of the mirror. */
  function MeshCounted(s: Store): Store
    requires |s.mesh| <= MAX_DEVICES
  {
    s.(rom := Splice(s.rom, MESH_BASE, Header(|s.mesh|)))
  }

  /** storage_mesh_update: the record only, not the RAM row. */
  function MeshUpdate(s: Store, i: nat, e: MeshEntry, good: nat): (Store, Err)
    requires |s.mesh| <= MAX_DEVICES
  {
    if i >= |s.mesh| then (s, Invalid)
    else if good == 0 then (s, Io)
    else (s.(rom := Splice(s.rom, Addr(MESH_BASE, MESH_LEN, i), MeshRecord(e))), Fine)
  }

  /** storage_mesh_get; readOk says whether the EEPROM read succeeds. */
  function MeshGet(s: Store, i: nat, readOk: bool): Option<MeshEntry>
    requires |s.mesh| <= MAX_DEVICES
  {
    if i >= |s.mesh| || !readOk then None else ReadMesh(RecordAt(s.rom, MESH_BASE, MESH_LEN, i))
  }

  /** storage_mesh_remove: the RAM rows move first, then the records as one block, then the count. */
  function MeshRemove(s: Store, i: nat, readOk: bool, good: nat): (Store, Err)
    requires |s.mesh| <= MAX_DEVICES
  {
    var n := |s.mesh|;
    if i >= n then (s, Invalid)
    else if i < n - 1 && (!readOk || good == 0) then
      (s.(mesh := Without(s.mesh, i) + [s.mesh[n - 1]]), Io)
    else
      var left := if i < n - 1 then good - 1 else good;
      var moved := Moved(s.rom, MESH_BASE, MESH_LEN, n, i);
      if left == 0 then (s.(mesh := Without(s.mesh, i), rom := moved), Io)
      else (s.(mesh := Without(s.mesh, i), rom := Splice(moved, MESH_BASE, Header(n - 1))), Fine)
  }

  function MeshClear(s: Store, good: nat): (Store, Err) {
    var (r, err) := Cleared(s.rom, MESH_BASE, good);
    (s.(mesh := [], rom := r), err)
  }

  lemma MeshAddSync(s: Store, es: seq<MeshEntry>, e: MeshEntry, good: nat)
    requires InSync(s, es) && MeshAdd(s, e, good).1 == Fine
    ensures InSync(MeshAdd(s, e, good).0, es + [e])
  {
    var (t, n) := (MeshAdd(s, e, good).0, |es|);
    AppendImage(s.rom, MESH_BASE, MESH_LEN, MeshRecords(es), MeshRecord(e));
    EachAppended(MeshRecord, es, e);
    TwoWrites(s.rom, Addr(MESH_BASE, MESH_LEN, n), MeshRecord(e), MESH_BASE, Header(n + 1));
    OthersInfra(s, t);
    OthersSensor(s, t);
  }

  /** Writes behind the first two partitions. */
  lemma TwoWrites(rom: Rom, at: nat, b: seq<byte>, at': nat, b': seq<byte>)
    requires MESH_BASE <= at && at + |b| <= ROM_SIZE && MESH_BASE <= at' && at' + |b'| <= ROM_SIZE
    ensures var t := Splice(Splice(rom, at, b), at', b');
      t[..SENSOR_BASE] == rom[..SENSOR_BASE] && t[SENSOR_BASE..MESH_BASE] == rom[SENSOR_BASE..MESH_BASE]
  {
    OneWrite(rom, at, b);
    OneWrite(Splice(rom, at, b), at', b');
  }

  lemma OneWrite(rom: Rom, at: nat, b: seq<byte>)
    requires MESH_BASE <= at && at + |b| <= ROM_SIZE
    ensures Splice(rom, at, b)[..SENSOR_BASE] == rom[..SENSOR_BASE]
    ensures Splice(rom, at, b)[SENSOR_BASE..MESH_BASE] == rom[SENSOR_BASE..MESH_BASE]
  {
    SpliceOutside(rom, at, b, 0, SENSOR_BASE);
    SpliceOutside(rom, at, b, SENSOR_BASE, MESH_BASE);
    SameStart(rom, Splice(rom, at, b), SENSOR_BASE);
  }

  /** storage_mesh_update by itself keeps RAM and image in step exactly when the entry has the RAM row's
      mirrored fields already. */
  lemma MeshUpdateExact(s: Store, es: seq<MeshEntry>, i: nat, e: MeshEntry, good: nat)
    requires InSync(s, es) && i < |es| && good > 0
    ensures InSync(MeshUpdate(s, i, e, good).0, es[i := e]) <==> s.mesh[i] == Mirror(e)
  {
    var t := MeshUpdate(s, i, e, good).0;
    MeshRecordWritten(s, t, es, i, e);
    if InSync(t, es[i := e]) {
      assert t.mesh[i] == Mirror(es[i := e][i]);
    }
  }

  lemma MeshRecordWritten(s: Store, t: Store, es: seq<MeshEntry>, i: nat, e: MeshEntry)
    requires InSync(s, es) && i < |es| && t.infra == s.infra && t.sensors == s.sensors
    requires Addr(MESH_BASE, MESH_LEN, i) + MESH_LEN <= ROM_SIZE
    requires t.rom == Splice(s.rom, Addr(MESH_BASE, MESH_LEN, i), MeshRecord(e))
    ensures InfraSync(t) && SensorSync(t) && ImageOf(t.rom, MESH_BASE, MESH_LEN, MeshRecords(es[i := e]))
  {
    UpdateImage(s.rom, MESH_BASE, MESH_LEN, MeshRecords(es), i, MeshRecord(e));
    EachUpdated(MeshRecord, es, i, e);
    OneWrite(s.rom, Addr(MESH_BASE, MESH_LEN, i), MeshRecord(e));
    OthersInfra(s, t);
    OthersSensor(s, t);
  }

  lemma MeshRemoveOutcome(s: Store, i: nat, readOk: bool, good: nat)
    requires |s.mesh| <= MAX_DEVICES && MeshRemove(s, i, readOk, good).1 == Fine
    ensures i < |s.mesh|
    ensures MeshRemove(s, i, readOk, good).0 ==
              s.(mesh := Without(s.mesh, i), rom := ShiftOut(s.rom, MESH_BASE, MESH_LEN, |s.mesh|, i))
  {
  }

  lemma MeshRemoveSync(s: Store, es: seq<MeshEntry>, i: nat, readOk: bool, good: nat)
    requires InSync(s, es) && MeshRemove(s, i, readOk, good).1 == Fine
    ensures i < |es| && InSync(MeshRemove(s, i, readOk, good).0, Without(es, i))
  {
    MeshRemoveOutcome(s, i, readOk, good);
    ShiftedSync(s, es, i, MeshRemove(s, i, readOk, good).0);
  }

  lemma ShiftedSync(s: Store, es: seq<MeshEntry>, i: nat, t: Store)
    requires InSync(s, es) && i < |es|
    requires t == s.(mesh := Without(s.mesh, i), rom := ShiftOut(s.rom, MESH_BASE, MESH_LEN, |es|, i))
    ensures InSync(t, Without(es, i))
  {
    ShiftedMesh(s, es, i, t);
    ShiftElsewhere(s.rom, MESH_BASE, MESH_LEN, |es|, i, 0, SENSOR_BASE);
    ShiftElsewhere(s.rom, MESH_BASE, MESH_LEN, |es|, i, SENSOR_BASE, MESH_BASE);
    SameStart(s.rom, t.rom, SENSOR_BASE);
    OthersInfra(s, t);
    OthersSensor(s, t);
  }

  lemma ShiftedMesh(s: Store, es: seq<MeshEntry>, i: nat, t: Store)
    requires MeshSync(s, es) && i < |es| && t.mesh == Without(s.mesh, i)
    requires t.rom == ShiftOut(s.rom, MESH_BASE, MESH_LEN, |es|, i)
    ensures MeshSync(t, Without(es, i))
  {
    ShiftImage(s.rom, MESH_BASE, MESH_LEN, MeshRecords(es), i);
    EachWithout(MeshRecord, es, i);
    ShiftedRows(s.mesh, es, i);
  }

  lemma ShiftedRows(rows: seq<MeshRow>, es: seq<MeshEntry>, i: nat)
    requires i < |es| == |rows| && forall j :: 0 <= j < |es| ==> rows[j] == Mirror(es[j])
    ensures forall j :: 0 <= j < |es| - 1 ==> Without(rows, i)[j] == Mirror(Without(es, i)[j])
  {
  }

  lemma MeshClearSync(s: Store, es: seq<MeshEntry>, good: nat)
    requires InfraSync(s) && SensorSync(s) && good > 0
    ensures InSync(MeshClear(s, good).0, [])
  {
    var t := MeshClear(s, good).0;
    ClearedImage(s.rom, MESH_BASE, MESH_LEN);
    assert MeshRecords([]) == [];
    OneWrite(s.rom, MESH_BASE, Header(0));
    OthersInfra(s, t);
    OthersSensor(s, t);
  }

  // --------------------------------------------------------- update_mesh_storage

  function FindMesh(rows: seq<MeshRow>, id: uint16, i: nat): (r: nat)
    requires i <= |rows|
    ensures i <= r <= |rows|
    ensures r < |rows| ==> rows[r].deviceId == id
    ensures forall j :: i <= j < r ==> rows[j].deviceId != id
    decreases |rows| - i
  {
    if i == |rows| || rows[i].deviceId == id then i else FindMesh(rows, id, i + 1)
  }

  /** The new record: 0xFF and 0xFFFF leave a field as it is. */
  function Merged(e: MeshEntry, hop: uint8, version: uint16, connected: uint16, sensors: uint8): MeshEntry {
    e.(hop := if hop != 0xFF then hop else e.hop, version := version,
       connected := if connected != 0xFFFF then connected else e.connected,
       sensors := if sensors != 0xFF then sensors else e.sensors)
  }

  /** The RAM row takes over the fields that differ from the record. */
  function MergedRow(r: MeshRow, e: MeshEntry, hop: uint8, connected: uint16): MeshRow {
    r.(hop := if hop != 0xFF && e.hop != hop then hop else r.hop,
       connected := if connected != 0xFFFF && e.connected != connected then connected else r.connected)
  }

  /** update_mesh_storage. The search reports NOT_FOUND only from inside its loop, so an empty table gives
      FAILURE. */
  function UpdateMesh(s: Store, id: uint16, hop: uint8, version: uint16, connected: uint16, sensors: uint8,
                      readOk: bool, good: nat): (Store, Status)
    requires |s.mesh| <= MAX_DEVICES
  {
    var i := FindMesh(s.mesh, id, 0);
    if i == |s.mesh| then (s, if |s.mesh| == 0 then Failure else NotFound)
    else match MeshGet(s, i, readOk)
      case None => (s, Failure)
      case Some(e) =>
        var t := s.(mesh := s.mesh[i := MergedRow(s.mesh[i], e, hop, connected)]);
        var (u, err) := MeshUpdate(t, i, Merged(e, hop, version, connected, sensors), good);
        (u, if err == Fine then Success else Failure)
  }

  lemma MeshGets(s: Store, es: seq<MeshEntry>, i: nat)
    requires MeshSync(s, es) && i < |es|
    ensures MeshGet(s, i, true) == Some(es[i])
  {
    assert RecordAt(s.rom, MESH_BASE, MESH_LEN, i) == MeshRecords(es)[i];
    MeshReads(es[i]);
  }

  /** When the EEPROM works, update_mesh_storage finds the device exactly if the table has it, changes its
      record and its RAM row alike, and nothing else. */
  lemma UpdateMeshSync(s: Store, es: seq<MeshEntry>, id: uint16, hop: uint8, version: uint16, connected: uint16,
                       sensors: uint8, good: nat)
    requires InSync(s, es) && good > 0
    ensures var (t, st) := UpdateMesh(s, id, hop, version, connected, sensors, true, good);
      var i := FindMesh(s.mesh, id, 0);
      && (st == Success <==> exists j :: 0 <= j < |s.mesh| && s.mesh[j].deviceId == id)
      && (st == Success ==> i < |es| && InSync(t, es[i := Merged(es[i], hop, version, connected, sensors)]))
      && (st != Success ==> t == s)
  {
    var i := FindMesh(s.mesh, id, 0);
    if i < |s.mesh| {
      var e := Merged(es[i], hop, version, connected, sensors);
      UpdateMeshOutcome(s, es, id, hop, version, connected, sensors, good);
      UpdatedSync(s, es, i, e, UpdateMesh(s, id, hop, version, connected, sensors, true, good).0);
    }
  }

  lemma UpdateMeshFound(s: Store, e: MeshEntry, id: uint16, hop: uint8, version: uint16, connected: uint16,
                        sensors: uint8, good: nat)
    requires |s.mesh| <= MAX_DEVICES && good > 0 && FindMesh(s.mesh, id, 0) < |s.mesh|
    requires var i := FindMesh(s.mesh, id, 0); MeshGet(s, i, true) == Some(e) && s.mesh[i] == Mirror(e)
    ensures var (i, f) := (FindMesh(s.mesh, id, 0), Merged(e, hop, version, connected, sensors));
      UpdateMesh(s, id, hop, version, connected, sensors, true, good) ==
        (s.(mesh := s.mesh[i := Mirror(f)], rom := Splice(s.rom, Addr(MESH_BASE, MESH_LEN, i), MeshRecord(f))), Success)
  {
    MirrorMerged(e, hop, version, connected, sensors);
  }

  lemma UpdateMeshOutcome(s: Store, es: seq<MeshEntry>, id: uint16, hop: uint8, version: uint16, connected: uint16,
                          sensors: uint8, good: nat)
    requires MeshSync(s, es) && good > 0 && FindMesh(s.mesh, id, 0) < |es|
    ensures var i := FindMesh(s.mesh, id, 0);
      var e := Merged(es[i], hop, version, connected, sensors);
      && Addr(MESH_BASE, MESH_LEN, i) + MESH_LEN <= ROM_SIZE
      && UpdateMesh(s, id, hop, version, connected, sensors, true, good) ==
           (s.(mesh := s.mesh[i := Mirror(e)], rom := Splice(s.rom, Addr(MESH_BASE, MESH_LEN, i), MeshRecord(e))),
               Success)
  {
    var i := FindMesh(s.mesh, id, 0);
    MeshGets(s, es, i);
    assert s.mesh[i] == Mirror(es[i]);
    UpdateMeshFound(s, es[i], id, hop, version, connected, sensors, good);
  }

  lemma UpdatedSync(s: Store, es: seq<MeshEntry>, i: nat, e: MeshEntry, t: Store)
    requires InSync(s, es) && i < |es| && Addr(MESH_BASE, MESH_LEN, i) + MESH_LEN <= ROM_SIZE
    requires t == s.(mesh := s.mesh[i := Mirror(e)], rom := Splice(s.rom, Addr(MESH_BASE, MESH_LEN, i), MeshRecord(e)))
    ensures InSync(t, es[i := e])
  {
    MeshRecordWritten(s, t, es, i, e);
    MeshRowsAgree(s, t, es, i, e);
  }

  lemma MirrorMerged(e: MeshEntry, hop: uint8, version: uint16, connected: uint16, sensors: uint8)
    ensures MergedRow(Mirror(e), e, hop, connected) == Mirror(Merged(e, hop, version, connected, sensors))
  {
  }

  lemma MeshRowsAgree(s: Store, t: Store, es: seq<MeshEntry>, i: nat, e: MeshEntry)
    requires MeshSync(s, es) && i < |es| && t.mesh == s.mesh[i := Mirror(e)]
    requires ImageOf(t.rom, MESH_BASE, MESH_LEN, MeshRecords(es[i := e]))
    ensures MeshSync(t, es[i := e])
  {
  }

  // --------------------------------------------------------------------- booting

  function InvalidInfra(): InfraRow {
    InfraRow(InfraEntry(0, 0xFFFF, 0, 0, 0, 0), 0, 0, false)
  }

  function InvalidSensor(): SensorRow {
    SensorRow(SensorEntry(0xFFFF, 0, 0), 0, 0, false)
  }

  function LoadedInfra(b: seq<byte>): InfraRow
    requires |b| == INFRA_LEN
  {
    match ReadInfra(b)
    case None => InvalidInfra()
    case Some(e) => NewInfra(e)
  }

  function LoadedSensor(b: seq<byte>): SensorRow
    requires |b| == SENSOR_LEN
  {
    match ReadSensor(b)
    case None => InvalidSensor()
    case Some(e) => SensorRow(e, 0, 0, false)
  }

  function LoadedMesh(b: seq<byte>): MeshRow
    requires |b| == MESH_LEN
  {
    match ReadMesh(b)
    case None => MeshRow(0, 0, 0, 0, 0)
    case Some(e) => Mirror(e)
  }

  /** The counts as storage_init keeps them: the first two are cut to eight bits. */
  function InfraCount(rom: Rom): nat {
    Count(rom, INFRA_BASE) % 0x100
  }

  function SensorCount(rom: Rom): nat {
    Count(rom, SENSOR_BASE) % 0x100
  }

  function MeshCount(rom: Rom): nat {
    Count(rom, MESH_BASE)
  }

  /** The counts fit the tables. */
  predicate CountsFit(rom: Rom) {
    InfraCount(rom) <= MAX_ANCHORS && SensorCount(rom) <= MAX_SENSORS && MeshCount(rom) <= MAX_DEVICES
  }

  function ZeroInfra(): InfraRow {
    NewInfra(InfraEntry(0, 0, 0, 0, 0, 0))
  }

  function ZeroSensor(): SensorRow {
    SensorRow(SensorEntry(0, 0, 0), 0, 0, false)
  }

  function ZeroMesh(): MeshRow {
    MeshRow(0, 0, 0, 0, 0)
  }

  /** What storage_init makes of the infra partition; bad holds the addresses whose reads fail. */
  function BootInfra(rom: Rom, bad: set<nat>): seq<InfraRow>
    requires CountsFit(rom)
  {
    seq(InfraCount(rom), i requires 0 <= i < InfraCount(rom) =>
      if Addr(INFRA_BASE, INFRA_LEN, i) in bad then InvalidInfra()
      else LoadedInfra(RecordAt(rom, INFRA_BASE, INFRA_LEN, i)))
  }

  /** Sensor rows are loaded by a gateway or an anchor; otherwise they stay zero. */
  function BootSensors(rom: Rom, role: DeviceType, bad: set<nat>): seq<SensorRow>
    requires CountsFit(rom)
  {
    seq(SensorCount(rom), i requires 0 <= i < SensorCount(rom) =>
      if role != Gateway && role != Anchor then ZeroSensor()
      else if Addr(SENSOR_BASE, SENSOR_LEN, i) in bad then InvalidSensor()
      else LoadedSensor(RecordAt(rom, SENSOR_BASE, SENSOR_LEN, i)))
  }

  function BootMesh(rom: Rom, role: DeviceType, bad: set<nat>): seq<MeshRow>
    requires CountsFit(rom)
  {
    seq(MeshCount(rom), i requires 0 <= i < MeshCount(rom) =>
      if role != Gateway || Addr(MESH_BASE, MESH_LEN, i) in bad then ZeroMesh()
      else LoadedMesh(RecordAt(rom, MESH_BASE, MESH_LEN, i)))
  }

  /** storage_init on zeroed RAM: a header that cannot be read ends it, a record that cannot be read does not. */
  function Boot(rom: Rom, role: DeviceType, bad: set<nat>): (Store, Err)
    requires CountsFit(rom)
  {
    var rows, sensors := seq(InfraCount(rom), _ => ZeroInfra()), seq(SensorCount(rom), _ => ZeroSensor());
    if INFRA_BASE in bad then (Store([], [], [], rom), Io)
    else if SENSOR_BASE in bad then (Store(rows, [], [], rom), Io)
    else if MESH_BASE in bad then (Store(rows, sensors, [], rom), Io)
    else (Store(BootInfra(rom, bad), BootSensors(rom, role, bad), BootMesh(rom, role, bad), rom), Fine)
  }

  /** The rows without what is only kept at run time. */
  function RestedInfra(rows: seq<InfraRow>): seq<InfraRow> {
    seq(|rows|, i requires 0 <= i < |rows| => NewInfra(rows[i].entry))
  }

  function RestedSensors(rows: seq<SensorRow>): seq<SensorRow> {
    seq(|rows|, i requires 0 <= i < |rows| => SensorRow(rows[i].entry, 0, 0, false))
  }

  lemma SyncCounts(s: Store, es: seq<MeshEntry>)
    requires InSync(s, es)
    ensures CountsFit(s.rom) && Count(s.rom, INFRA_BASE) == |s.infra|
    ensures Count(s.rom, SENSOR_BASE) == |s.sensors| && Count(s.rom, MESH_BASE) == |s.mesh|
  {
  }

  lemma InfraBoots(s: Store, i: nat)
    requires InfraSync(s) && i < |s.infra|
    ensures Addr(INFRA_BASE, INFRA_LEN, i) + INFRA_LEN <= ROM_SIZE
    ensures LoadedInfra(RecordAt(s.rom, INFRA_BASE, INFRA_LEN, i)) == NewInfra(s.infra[i].entry)
  {
    assert RecordAt(s.rom, INFRA_BASE, INFRA_LEN, i) == InfraRecords(s.infra)[i];
    InfraReads(s.infra[i].entry);
  }

  lemma SensorBoots(s: Store, i: nat)
    requires SensorSync(s) && i < |s.sensors|
    ensures Addr(SENSOR_BASE, SENSOR_LEN, i) + SENSOR_LEN <= ROM_SIZE
    ensures LoadedSensor(RecordAt(s.rom, SENSOR_BASE, SENSOR_LEN, i)) == SensorRow(s.sensors[i].entry, 0, 0, false)
  {
    assert RecordAt(s.rom, SENSOR_BASE, SENSOR_LEN, i) == SensorRecords(s.sensors)[i];
    SensorReads(s.sensors[i].entry);
  }

  lemma MeshBoots(s: Store, es: seq<MeshEntry>, i: nat)
    requires MeshSync(s, es) && i < |es|
    ensures Addr(MESH_BASE, MESH_LEN, i) + MESH_LEN <= ROM_SIZE
    ensures LoadedMesh(RecordAt(s.rom, MESH_BASE, MESH_LEN, i)) == s.mesh[i]
  {
    assert RecordAt(s.rom, MESH_BASE, MESH_LEN, i) == MeshRecords(es)[i];
    MeshReads(es[i]);
  }

  lemma InfraReloads(s: Store)
    requires InfraSync(s) && CountsFit(s.rom) && InfraCount(s.rom) == |s.infra|
    ensures BootInfra(s.rom, {}) == RestedInfra(s.infra)
  {
    forall i | 0 <= i < |s.infra|
      ensures BootInfra(s.rom, {})[i] == RestedInfra(s.infra)[i]
    {
      InfraBoots(s, i);
    }
  }

  lemma SensorsReload(s: Store, role: DeviceType)
    requires SensorSync(s) && CountsFit(s.rom) && SensorCount(s.rom) == |s.sensors|
    requires role == Gateway || role == Anchor
    ensures BootSensors(s.rom, role, {}) == RestedSensors(s.sensors)
  {
    forall i | 0 <= i < |s.sensors|
      ensures BootSensors(s.rom, role, {})[i] == RestedSensors(s.sensors)[i]
    {
      SensorBoots(s, i);
    }
  }

  lemma MeshReloads(s: Store, es: seq<MeshEntry>)
    requires MeshSync(s, es) && CountsFit(s.rom) && MeshCount(s.rom) == |s.mesh|
    ensures BootMesh(s.rom, Gateway, {}) == s.mesh
  {
    forall i | 0 <= i < |s.mesh|
      ensures BootMesh(s.rom, Gateway, {})[i] == s.mesh[i]
    {
      MeshBoots(s, es, i);
    }
  }

  /** The reload law: booting from the image gives exactly the RAM tables of the device's role, with the
      run-time counters at rest. */
  lemma ReloadLaw(s: Store, es: seq<MeshEntry>, role: DeviceType)
    requires InSync(s, es)
    ensures CountsFit(s.rom) && BootInfra(s.rom, {}) == RestedInfra(s.infra)
    ensures role == Gateway || role == Anchor ==> BootSensors(s.rom, role, {}) == RestedSensors(s.sensors)
    ensures role == Gateway ==> BootMesh(s.rom, role, {}) == s.mesh
  {
    SyncCounts(s, es);
    InfraReloads(s);
    if role == Gateway || role == Anchor {
      SensorsReload(s, role);
    }
    MeshReloads(s, es);
  }

  // ------------------------------------------------------------------ whole runs

  /** One storage operation; every one carries the number of EEPROM writes that succeed. */
  datatype Op =
    | AddInfra(ie: InfraEntry) | UpdateInfra(i: nat, ie: InfraEntry) | RemoveInfra(i: nat) | ClearInfra
    | AddSensor(se: SensorEntry) | UpdateSensor(i: nat, se: SensorEntry) | RemoveSensor(i: nat) | ClearSensors
    | AddMesh(me: MeshEntry) | RemoveMesh(i: nat) | ClearMesh
    | UpdateMeshOf(id: uint16, hop: uint8, version: uint16, connected: uint16, sensorCount: uint8)

  ghost predicate Sized(s: Store) {
    |s.infra| <= MAX_ANCHORS && |s.sensors| <= MAX_SENSORS && |s.mesh| <= MAX_DEVICES
  }

  function Apply(s: Store, op: Op, good: nat): (Store, Err)
    requires Sized(s)
  {
    match op
    case AddInfra(e) => InfraAdd(s, e, good)
    case UpdateInfra(i, e) => InfraUpdate(s, i, e, good)
    case RemoveInfra(i) => InfraRemove(s, i, good)
    case ClearInfra => InfraClear(s, good)
    case AddSensor(e) => SensorAdd(s, e, good)
    case UpdateSensor(i, e) => SensorUpdate(s, i, e, good)
    case RemoveSensor(i) => SensorRemove(s, i, good)
    case ClearSensors => SensorClear(s, good)
    case AddMesh(e) => MeshAdd(s, e, good)
    case RemoveMesh(i) => MeshRemove(s, i, true, good)
    case ClearMesh => MeshClear(s, good)
    case UpdateMeshOf(id, hop, version, connected, n) =>
      var (t, st) := UpdateMesh(s, id, hop, version, connected, n, true, good);
      (t, if st == Success then Fine else Invalid)
  }

  lemma ApplySized(s: Store, op: Op, good: nat)
    requires Sized(s)
    ensures Sized(Apply(s, op, good).0)
  {
    match op
    case AddMesh(_) =>
    case RemoveMesh(_) =>
    case UpdateMeshOf(_, _, _, _, _) =>
    case _ =>
  }

  /** The mesh entries in EEPROM after the operation. */
  function EntriesAfter(s: Store, es: seq<MeshEntry>, op: Op): seq<MeshEntry>
    requires |es| == |s.mesh|
  {
    match op
    case AddMesh(e) => if |es| < MAX_DEVICES then es + [e] else es
    case RemoveMesh(i) => if i < |es| then Without(es, i) else es
    case ClearMesh => []
    case UpdateMeshOf(id, hop, version, connected, n) =>
      var i := FindMesh(s.mesh, id, 0);
      if i < |es| then es[i := Merged(es[i], hop, version, connected, n)] else es
    case _ => es
  }

  /** With enough working writes every flush succeeds. */
  lemma KeepInfra(s: Store, es: seq<MeshEntry>, rows: seq<InfraRow>, good: nat)
    requires InSync(s, es) && |rows| <= MAX_ANCHORS && good > MAX_DEVICES
    ensures FlushInfra(s, rows, good).1 == Fine && InSync(FlushInfra(s, rows, good).0, es)
  {
    FlushNeedsWrites(s.rom, INFRA_BASE, INFRA_LEN, InfraRecords(rows), 0, good);
    FlushInfraSync(s, es, rows, good);
  }

  lemma KeepSensors(s: Store, es: seq<MeshEntry>, rows: seq<SensorRow>, good: nat)
    requires InSync(s, es) && |rows| <= MAX_SENSORS && good > MAX_DEVICES
    ensures FlushSensors(s, rows, good).1 == Fine && InSync(FlushSensors(s, rows, good).0, es)
  {
    FlushNeedsWrites(s.rom, SENSOR_BASE, SENSOR_LEN, SensorRecords(rows), 0, good);
    FlushSensorsSync(s, es, rows, good);
  }

  lemma InfraOpsKeep(s: Store, es: seq<MeshEntry>, i: nat, e: InfraEntry, good: nat)
    requires InSync(s, es) && good > MAX_DEVICES
    ensures InSync(InfraAdd(s, e, good).0, es) && InSync(InfraUpdate(s, i, e, good).0, es)
    ensures InSync(InfraRemove(s, i, good).0, es)
  {
    if |s.infra| < MAX_ANCHORS {
      KeepInfra(s, es, Sort(s.infra + [NewInfra(e)]), good);
    }
    if i < |s.infra| {
      KeepInfra(s, es, Sort(s.infra[i := s.infra[i].(entry := e)]), good);
      KeepInfra(s, es, Without(s.infra, i), good);
    }
  }

  lemma SensorOpsKeep(s: Store, es: seq<MeshEntry>, i: nat, e: SensorEntry, good: nat)
    requires InSync(s, es) && good > MAX_DEVICES
    ensures InSync(SensorAdd(s, e, good).0, es) && InSync(SensorUpdate(s, i, e, good).0, es)
    ensures InSync(SensorRemove(s, i, good).0, es)
  {
    if |s.sensors| < MAX_SENSORS {
      KeepSensors(s, es, s.sensors + [SensorRow(e, 0, 0, false)], good);
    }
    if i < |s.sensors| {
      KeepSensors(s, es, s.sensors[i := s.sensors[i].(entry := e)], good);
      KeepSensors(s, es, Without(s.sensors, i), good);
    }
  }

  lemma MeshAddKeeps(s: Store, es: seq<MeshEntry>, e: MeshEntry, good: nat)
    requires InSync(s, es) && good > 1
    ensures InSync(MeshAdd(s, e, good).0, if |es| < MAX_DEVICES then es + [e] else es)
  {
    if |es| < MAX_DEVICES {
      MeshAddSync(s, es, e, good);
    }
  }

  lemma MeshRemoveKeeps(s: Store, es: seq<MeshEntry>, i: nat, good: nat)
    requires InSync(s, es) && good > 1
    ensures InSync(MeshRemove(s, i, true, good).0, if i < |es| then Without(es, i) else es)
  {
    if i < |es| {
      MeshRemoveSync(s, es, i, true, good);
    }
  }

  lemma MeshUpdateKeeps(s: Store, es: seq<MeshEntry>, id: uint16, hop: uint8, version: uint16, connected: uint16,
                        n: uint8, good: nat)
    requires InSync(s, es) && good > 0
    ensures var i := FindMesh(s.mesh, id, 0);
      InSync(UpdateMesh(s, id, hop, version, connected, n, true, good).0,
             if i < |es| then es[i := Merged(es[i], hop, version, connected, n)] else es)
  {
    UpdateMeshSync(s, es, id, hop, version, connected, n, good);
    assert FindMesh(s.mesh, id, 0) < |es| ==> s.mesh[FindMesh(s.mesh, id, 0)].deviceId == id;
  }

  /** Every operation of a run, accepted or rejected, keeps the tables and the image in step, as long as the
      EEPROM works. */
  lemma ApplyKeepsSync(s: Store, es: seq<MeshEntry>, op: Op, good: nat)
    requires InSync(s, es) && good > MAX_DEVICES
    ensures InSync(Apply(s, op, good).0, EntriesAfter(s, es, op))
  {
    match op
    case AddInfra(e) => InfraOpsKeep(s, es, 0, e, good);
    case UpdateInfra(i, e) => InfraOpsKeep(s, es, i, e, good);
    case RemoveInfra(i) => InfraOpsKeep(s, es, i, InvalidInfra().entry, good);
    case ClearInfra => InfraClearSync(s, es, good);
    case AddSensor(e) => SensorOpsKeep(s, es, 0, e, good);
    case UpdateSensor(i, e) => SensorOpsKeep(s, es, i, e, good);
    case RemoveSensor(i) => SensorOpsKeep(s, es, i, InvalidSensor().entry, good);
    case ClearSensors => SensorClearSync(s, es, good);
    case _ => MeshOpsKeep(s, es, op, good);
  }

  lemma MeshOpsKeep(s: Store, es: seq<MeshEntry>, op: Op, good: nat)
    requires InSync(s, es) && good > MAX_DEVICES
    requires op.AddMesh? || op.RemoveMesh? || op.ClearMesh? || op.UpdateMeshOf?
    ensures InSync(Apply(s, op, good).0, EntriesAfter(s, es, op))
  {
    match op
    case AddMesh(e) => MeshAddKeeps(s, es, e, good);
    case RemoveMesh(i) => MeshRemoveKeeps(s, es, i, good);
    case ClearMesh => MeshClearSync(s, es, good);
    case UpdateMeshOf(id, hop, version, connected, n) => MeshUpdateKeeps(s, es, id, hop, version, connected, n, good);
  }

  /** The state after a run of operations, with an EEPROM that takes every write. */
  function Applied(s: Store, es: seq<MeshEntry>, ops: seq<Op>): (r: (Store, seq<MeshEntry>))
    requires InSync(s, es)
    ensures InSync(r.0, r.1)
    decreases |ops|
  {
    if ops == [] then (s, es)
    else
      ApplyKeepsSync(s, es, ops[0], MAX_DEVICES + 1);
      Applied(Apply(s, ops[0], MAX_DEVICES + 1).0, EntriesAfter(s, es, ops[0]), ops[1..])
  }

  /** A device that has never stored anything. */
  lemma BlankInSync(rom: Rom)
    requires Count(rom, INFRA_BASE) == 0 && Count(rom, SENSOR_BASE) == 0 && Count(rom, MESH_BASE) == 0
    ensures InSync(Store([], [], [], rom), [])
  {
  }

  /** The reload law over runs: after any sequence of add, update, remove and clear on the three tables,
      starting from a blank EEPROM, storage_init gives back exactly the tables in RAM. */
  lemma ReloadAfterAnyRun(rom: Rom, ops: seq<Op>, role: DeviceType)
    requires Count(rom, INFRA_BASE) == 0 && Count(rom, SENSOR_BASE) == 0 && Count(rom, MESH_BASE) == 0
    ensures InSync(Store([], [], [], rom), [])
    ensures var s := Applied(Store([], [], [], rom), [], ops).0;
      && CountsFit(s.rom) && BootInfra(s.rom, {}) == RestedInfra(s.infra)
      && (role == Gateway || role == Anchor ==> BootSensors(s.rom, role, {}) == RestedSensors(s.sensors))
      && (role == Gateway ==> BootMesh(s.rom, role, {}) == s.mesh)
  {
    BlankInSync(rom);
    var (s, es) := Applied(Store([], [], [], rom), [], ops);
    ReloadLaw(s, es, role);
  }
}
