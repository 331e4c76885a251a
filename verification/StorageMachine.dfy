/** src/storage.c as it runs: fixed tables with counts, an in-place bubble sort, shift loops and EEPROM
    writes. Every method is tied to the step function of the same operation. */
module StorageMachine {
  import opened Basics
  import opened Pieces
  import opened LargeDataTypes
  import opened InfraOrder
  import opened Eeprom
  import opened StorageTables

  class Storage {
    const infra: array<InfraRow>
    const sensors: array<SensorRow>
    const mesh: array<MeshRow>
    const rom: array<byte>
    var infraCount: nat
    var sensorCount: nat
    var meshCount: nat

    ghost predicate Valid()
      reads this
    {
      && infra.Length == MAX_ANCHORS && sensors.Length == MAX_SENSORS && mesh.Length == MAX_DEVICES
      && rom.Length == ROM_SIZE
      && infraCount <= MAX_ANCHORS && sensorCount <= MAX_SENSORS && meshCount <= MAX_DEVICES
    }

    ghost function Abs(): (s: Store)
      reads this, infra, sensors, mesh, rom
      requires Valid()
      ensures Sized(s)
    {
      Store(infra[..infraCount], sensors[..sensorCount], mesh[..meshCount], rom[..])
    }

    /** The statics before storage_init. */
    constructor (rom: array<byte>)
      requires rom.Length == ROM_SIZE
      ensures Valid() && fresh(infra) && fresh(sensors) && fresh(mesh) && this.rom == rom
      ensures forall i :: 0 <= i < MAX_ANCHORS ==> infra[i] == ZeroInfra()
      ensures forall i :: 0 <= i < MAX_SENSORS ==> sensors[i] == ZeroSensor()
      ensures forall i :: 0 <= i < MAX_DEVICES ==> mesh[i] == ZeroMesh()
    {
      infra := new InfraRow[MAX_ANCHORS](_ => ZeroInfra());
      sensors := new SensorRow[MAX_SENSORS](_ => ZeroSensor());
      mesh := new MeshRow[MAX_DEVICES](_ => ZeroMesh());
      this.rom := rom;
      infraCount, sensorCount, meshCount := 0, 0, 0;
    }

    /** eeprom_write; ok says whether the device takes it. */
    method EepromWrite(at: nat, b: seq<byte>, ok: bool) returns (err: Err)
      requires Valid() && at + |b| <= ROM_SIZE
      modifies rom
      ensures err == (if ok then Fine else Io) && rom[..] == if ok then Splice(old(rom[..]), at, b) else old(rom[..])
    {
      if !ok {
        return Io;
      }
      forall k | 0 <= k < |b| {
        rom[at + k] := b[k];
      }
      assert rom[..] == Splice(old(rom[..]), at, b);
      return Fine;
    }

    // -------------------------------------------------- infrastructure table

    method CompareAndSwap(j: nat)
      requires Valid() && j + 1 < infraCount
      modifies infra
      ensures infra[..infraCount] == Compared(old(infra[..infraCount]), j)
    {
      var swap := false;
      if infra[j].entry.hop > infra[j + 1].entry.hop {
        swap := true;
      } else if infra[j].entry.hop == infra[j + 1].entry.hop && infra[j].entry.rssi < infra[j + 1].entry.rssi {
        swap := true;
      }
      if swap {
        var temp := infra[j];
        infra[j] := infra[j + 1];
        infra[j + 1] := temp;
      }
    }

    /** The inner loop of the sort. */
    method BubblePass(end: nat)
      requires Valid() && end < infraCount
      modifies infra
      ensures infra[..infraCount] == Pass(old(infra[..infraCount]), 0, end)
    {
      ghost var goal := Pass(infra[..infraCount], 0, end);
      var j := 0;
      while j < end
        invariant j <= end && Pass(infra[..infraCount], j, end) == goal
      {
        CompareAndSwap(j);
        j := j + 1;
      }
    }

    /** sort_infra_devices. */
    method SortInfraDevices()
      requires Valid()
      modifies infra
      ensures infra[..infraCount] == Sort(old(infra[..infraCount]))
    {
      if infraCount < 2 {
        return;
      }
      ghost var goal := Passes(infra[..infraCount], 0);
      var i := 0;
      while i < infraCount - 1
        invariant i <= infraCount - 1 && Passes(infra[..infraCount], i) == goal
      {
        BubblePass(infraCount - i - 1);
        i := i + 1;
      }
    }

    /** Stamps row i and writes it; rec is what goes to the EEPROM. */
    method WriteInfraRow(i: nat, ok: bool, ghost rec: seq<byte>) returns (err: Err)
      requires Valid() && i < infraCount && rec == InfraRecord(infra[i].entry)
      modifies infra, rom
      ensures infra[..infraCount] == old(infra[..infraCount])[i := StampInfra(old(infra[i]))]
      ensures err == (if ok then Fine else Io)
      ensures Addr(INFRA_BASE, INFRA_LEN, i) + |rec| <= ROM_SIZE
      ensures rom[..] == if ok then Splice(old(rom[..]), Addr(INFRA_BASE, INFRA_LEN, i), rec) else old(rom[..])
    {
      SameFields(infra[i].entry, InfraCrc(infra[i].entry));
      infra[i] := infra[i].(entry := infra[i].entry.(crc32 := InfraCrc(infra[i].entry)));
      err := EepromWrite(INFRA_BASE + HEADER + i * INFRA_LEN, InfraRecord(infra[i].entry), ok);
    }

    /** The loop of flush_infra_to_eeprom: every row is stamped and written. */
    method FlushInfraRows(good: nat, ghost rows: seq<InfraRow>, ghost recs: seq<seq<byte>>) returns (err: Err)
      requires Valid() && rows == infra[..infraCount] && recs == InfraRecords(rows)
      modifies infra, rom
      ensures err == (if good >= |rows| then Fine else Io)
      ensures err == Fine ==>
        Flushing(StampInfra, INFRA_BASE, INFRA_LEN, recs, rows, infra[..infraCount], old(rom[..]), rom[..], |rows|,
            good)
      ensures err == Io ==> infra[..infraCount] == FirstEach(StampInfra, rows, good + 1)
                            && Flush(old(rom[..]), INFRA_BASE, INFRA_LEN, recs, 0, good) == (rom[..], false)
    {
      ghost var start := rom[..];
      Begin(StampInfra, INFRA_BASE, INFRA_LEN, recs, rows, start, good);
      var i := 0;
      while i < infraCount
        invariant i <= infraCount
        invariant Flushing(StampInfra, INFRA_BASE, INFRA_LEN, recs, rows, infra[..infraCount], start, rom[..], i, good)
      {
        Continue(StampInfra, INFRA_BASE, INFRA_LEN, recs, rows, infra[..infraCount], start, rom[..], i, good);
        assert recs[i] == InfraRecord(infra[i].entry);
        err := WriteInfraRow(i, good > i, recs[i]);
        if err != Fine {
          return;
        }
        i := i + 1;
      }
      return Fine;
    }

    /** flush_infra_to_eeprom: the rows, then the header. */
    method FlushInfraToEeprom(good: nat) returns (err: Err)
      requires Valid()
      modifies infra, rom
      ensures (Abs(), err) == FlushInfra(old(Abs()), old(infra[..infraCount]), good)
    {
      ghost var rows, start := infra[..infraCount], rom[..];
      ghost var recs := InfraRecords(rows);
      err := FlushInfraRows(good, rows, recs);
      if err == Fine {
        Finish(StampInfra, INFRA_BASE, INFRA_LEN, recs, rows, infra[..infraCount], start, rom[..], good);
        err := EepromWrite(INFRA_BASE, Header(infraCount), good > infraCount);
      }
    }

    method StorageInfraAdd(e: InfraEntry, good: nat) returns (err: Err)
      requires Valid()
      modifies this`infraCount, infra, rom
      ensures Valid() && (Abs(), err) == InfraAdd(old(Abs()), e, good)
    {
      if infraCount >= MAX_ANCHORS {
        return NoMemory;
      }
      infra[infraCount] := InfraRow(e, 0, 0, false);
      infraCount := infraCount + 1;
      assert infra[..infraCount] == old(infra[..infraCount]) + [NewInfra(e)];
      SortInfraDevices();
      err := FlushInfraToEeprom(good);
    }

    method StorageInfraUpdate(i: nat, e: InfraEntry, good: nat) returns (err: Err)
      requires Valid()
      modifies infra, rom
      ensures Valid() && (Abs(), err) == InfraUpdate(old(Abs()), i, e, good)
    {
      if i >= infraCount {
        return Invalid;
      }
      infra[i] := infra[i].(entry := e);
      SortInfraDevices();
      err := FlushInfraToEeprom(good);
    }

    /** The rows after index move up by one. */
    method ShiftInfraRows(index: nat)
      requires Valid() && index < infraCount
      modifies infra
      ensures infra[..infraCount - 1] == Without(old(infra[..infraCount]), index)
    {
      var i := index + 1;
      while i < infraCount
        invariant index < i <= infraCount
        invariant forall k :: 0 <= k < infraCount ==>
          infra[k] == if index <= k < i - 1 then old(infra[k + 1]) else old(infra[k])
      {
        infra[i - 1] := infra[i];
        i := i + 1;
      }
    }

    method StorageInfraRemove(index: nat, good: nat) returns (err: Err)
      requires Valid()
      modifies this`infraCount, infra, rom
      ensures Valid() && (Abs(), err) == InfraRemove(old(Abs()), index, good)
    {
      if index >= infraCount {
        return Invalid;
      }
      ghost var s := Abs();
      ShiftInfraRows(index);
      infraCount := infraCount - 1;
      assert Abs() == s.(infra := Without(s.infra, index));
      err := FlushInfraToEeprom(good);
    }

    method StorageInfraClear(good: nat) returns (err: Err)
      requires Valid()
      modifies this`infraCount, infra, rom
      ensures Valid() && (Abs(), err) == InfraClear(old(Abs()), good)
    {
      infraCount := 0;
      for i := 0 to MAX_ANCHORS
        modifies infra
      {
        infra[i] := infra[i].(entry := infra[i].entry.(deviceId := 0xFFFF));
      }
      assert infra[..infraCount] == [];
      err := EepromWrite(INFRA_BASE, Header(0), good > 0);
      assert rom[..] == Cleared(old(rom[..]), INFRA_BASE, good).0;
    }

    // ----------------------------------------------------------- sensor table

    method WriteSensorRow(i: nat, ok: bool, ghost rec: seq<byte>) returns (err: Err)
      requires Valid() && i < sensorCount && rec == SensorRecord(sensors[i].entry)
      modifies sensors, rom
      ensures sensors[..sensorCount] == old(sensors[..sensorCount])[i := StampSensor(old(sensors[i]))]
      ensures err == (if ok then Fine else Io)
      ensures Addr(SENSOR_BASE, SENSOR_LEN, i) + |rec| <= ROM_SIZE
      ensures rom[..] == if ok then Splice(old(rom[..]), Addr(SENSOR_BASE, SENSOR_LEN, i), rec) else old(rom[..])
    {
      SameSensorFields(sensors[i].entry, SensorCrc(sensors[i].entry));
      sensors[i] := sensors[i].(entry := sensors[i].entry.(crc32 := SensorCrc(sensors[i].entry)));
      err := EepromWrite(SENSOR_BASE + HEADER + i * SENSOR_LEN, SensorRecord(sensors[i].entry), ok);
    }

    method FlushSensorRows(good: nat, ghost rows: seq<SensorRow>, ghost recs: seq<seq<byte>>) returns (err: Err)
      requires Valid() && rows == sensors[..sensorCount] && recs == SensorRecords(rows)
      modifies sensors, rom
      ensures err == (if good >= |rows| then Fine else Io)
      ensures err == Fine ==>
        Flushing(StampSensor, SENSOR_BASE, SENSOR_LEN, recs, rows, sensors[..sensorCount], old(rom[..]), rom[..],
            |rows|, good)
      ensures err == Io ==> sensors[..sensorCount] == FirstEach(StampSensor, rows, good + 1)
                            && Flush(old(rom[..]), SENSOR_BASE, SENSOR_LEN, recs, 0, good) == (rom[..], false)
    {
      ghost var start := rom[..];
      Begin(StampSensor, SENSOR_BASE, SENSOR_LEN, recs, rows, start, good);
      var i := 0;
      while i < sensorCount
        invariant i <= sensorCount
        invariant Flushing(StampSensor, SENSOR_BASE, SENSOR_LEN, recs, rows, sensors[..sensorCount], start, rom[..],
                    i, good)
      {
        Continue(StampSensor, SENSOR_BASE, SENSOR_LEN, recs, rows, sensors[..sensorCount], start, rom[..], i, good);
        assert recs[i] == SensorRecord(sensors[i].entry);
        err := WriteSensorRow(i, good > i, recs[i]);
        if err != Fine {
          return;
        }
        i := i + 1;
      }
      return Fine;
    }

    /** flush_sensors_to_eeprom. */
    method FlushSensorsToEeprom(good: nat) returns (err: Err)
      requires Valid()
      modifies sensors, rom
      ensures (Abs(), err) == FlushSensors(old(Abs()), old(sensors[..sensorCount]), good)
    {
      ghost var rows, start := sensors[..sensorCount], rom[..];
      ghost var recs := SensorRecords(rows);
      err := FlushSensorRows(good, rows, recs);
      if err == Fine {
        Finish(StampSensor, SENSOR_BASE, SENSOR_LEN, recs, rows, sensors[..sensorCount], start, rom[..], good);
        err := EepromWrite(SENSOR_BASE, Header(sensorCount), good > sensorCount);
      }
    }

    method StorageSensorAdd(e: SensorEntry, good: nat) returns (err: Err)
      requires Valid()
      modifies this`sensorCount, sensors, rom
      ensures Valid() && (Abs(), err) == SensorAdd(old(Abs()), e, good)
    {
      if sensorCount >= MAX_SENSORS {
        return NoMemory;
      }
      sensors[sensorCount] := SensorRow(e, 0, 0, false);
      sensorCount := sensorCount + 1;
      assert sensors[..sensorCount] == old(sensors[..sensorCount]) + [SensorRow(e, 0, 0, false)];
      err := FlushSensorsToEeprom(good);
    }

    method ShiftSensorRows(index: nat)
      requires Valid() && index < sensorCount
      modifies sensors
      ensures sensors[..sensorCount - 1] == Without(old(sensors[..sensorCount]), index)
    {
      var i := index + 1;
      while i < sensorCount
        invariant index < i <= sensorCount
        invariant forall k :: 0 <= k < sensorCount ==>
          sensors[k] == if index <= k < i - 1 then old(sensors[k + 1]) else old(sensors[k])
      {
        sensors[i - 1] := sensors[i];
        i := i + 1;
      }
    }

    method StorageSensorRemove(index: nat, good: nat) returns (err: Err)
      requires Valid()
      modifies this`sensorCount, sensors, rom
      ensures Valid() && (Abs(), err) == SensorRemove(old(Abs()), index, good)
    {
      if index >= sensorCount {
        return Invalid;
      }
      ghost var s := Abs();
      ShiftSensorRows(index);
      sensorCount := sensorCount - 1;
      assert Abs() == s.(sensors := Without(s.sensors, index));
      err := FlushSensorsToEeprom(good);
    }

    // ------------------------------------------------------------- mesh table

    method StorageMeshAdd(e: MeshEntry, good: nat) returns (err: Err)
      requires Valid()
      modifies this`meshCount, mesh, rom
      ensures Valid() && (Abs(), err) == MeshAdd(old(Abs()), e, good)
    {
      if meshCount >= MAX_DEVICES {
        return NoMemory;
      }
      err := WriteMeshRecord(meshCount, e, good > 0);
      if err == Fine {
        AppendMeshRow(e);
        err := WriteMeshCount(good > 1);
      }
    }

    /** write_entry_with_crc for record i of the mesh partition. */
    method WriteMeshRecord(i: nat, e: MeshEntry, ok: bool) returns (err: Err)
      requires Valid() && i < MAX_DEVICES
      modifies rom
      ensures err == (if ok then Fine else Io)
      ensures Abs() == if ok then MeshWritten(old(Abs()), i, e) else old(Abs())
    {
      err := EepromWrite(MESH_BASE + HEADER + i * MESH_LEN, MeshRecord(e), ok);
    }

    /** The RAM half of storage_mesh_add. */
    method AppendMeshRow(e: MeshEntry)
      requires Valid() && meshCount < MAX_DEVICES
      modifies this`meshCount, mesh
      ensures Valid() && meshCount == old(meshCount) + 1
      ensures Abs() == MeshAppended(old(Abs()), e)
    {
      mesh[meshCount] := MeshRow(e.deviceType, e.deviceId, e.serial, e.connected, e.hop);
      meshCount := meshCount + 1;
      assert mesh[..meshCount] == old(mesh[..meshCount]) + [Mirror(e)];
    }

    /** The header that makes the record count. */
    method WriteMeshCount(ok: bool) returns (err: Err)
      requires Valid()
      modifies rom
      ensures err == if ok then Fine else Io
      ensures Abs() == if ok then MeshCounted(old(Abs())) else old(Abs())
    {
      err := EepromWrite(MESH_BASE, Header(meshCount), ok);
    }

    method StorageMeshUpdate(i: nat, e: MeshEntry, good: nat) returns (err: Err)
      requires Valid()
      modifies rom
      ensures (Abs(), err) == MeshUpdate(old(Abs()), i, e, good)
    {
      if i >= meshCount {
        return Invalid;
      }
      err := WriteMeshRecord(i, e, good > 0);
    }

    method StorageMeshGet(i: nat, readOk: bool) returns (e: Option<MeshEntry>)
      requires Valid()
      ensures e == MeshGet(Abs(), i, readOk)
    {
      if i >= meshCount || !readOk {
        return None;
      }
      e := ReadMesh(rom[Addr(MESH_BASE, MESH_LEN, i)..Addr(MESH_BASE, MESH_LEN, i) + MESH_LEN]);
    }

    /** The search of update_mesh_storage, which gives up from inside its loop only. */
    method FindMeshRow(id: uint16) returns (idx: nat, found: bool)
      requires Valid()
      ensures idx == FindMesh(mesh[..meshCount], id, 0)
      ensures found <==> idx < meshCount || meshCount == 0
    {
      idx := 0;
      while idx < meshCount
        invariant idx <= meshCount
        invariant forall j :: 0 <= j < idx ==> mesh[j].deviceId != id
        invariant idx == meshCount ==> meshCount == 0
      {
        if mesh[idx].deviceId == id {
          break;
        }
        if idx == meshCount - 1 {
          return meshCount, false;
        }
        idx := idx + 1;
      }
      return idx, true;
    }

    /** update_mesh_storage. */
    method UpdateMeshStorage(id: uint16, hop: uint8, version: uint16, connected: uint16, sensorCnt: uint8,
                             readOk: bool, good: nat)
      returns (st: Status)
      requires Valid()
      modifies mesh, rom
      ensures Valid() && (Abs(), st) == UpdateMesh(old(Abs()), id, hop, version, connected, sensorCnt, readOk, good)
    {
      var idx, found := FindMeshRow(id);
      if !found {
        return NotFound;
      }
      var got := StorageMeshGet(idx, readOk);
      if got.None? {
        return Failure;
      }
      st := MergeRecord(idx, got.value, hop, version, connected, sensorCnt, good);
    }

    /** The second half of update_mesh_storage: record e of row idx is changed field by field, its RAM row
        along with it. */
    method MergeRecord(idx: nat, e: MeshEntry, hop: uint8, version: uint16, connected: uint16, sensorCnt: uint8,
                       good: nat)
      returns (st: Status)
      requires Valid() && idx < meshCount
      modifies mesh, rom
      ensures Valid()
      ensures var t := old(Abs()).(mesh := old(mesh[..meshCount])[idx := MergedRow(old(mesh[idx]), e, hop, connected)]);
        var (u, err) := MeshUpdate(t, idx, Merged(e, hop, version, connected, sensorCnt), good);
        Abs() == u && st == if err == Fine then Success else Failure
    {
      var entry := e;
      if entry.hop != hop && hop != 0xFF {
        entry := entry.(hop := hop);
        mesh[idx] := mesh[idx].(hop := hop);
      }
      if entry.version != version {
        entry := entry.(version := version);
      }
      if entry.connected != connected && connected != 0xFFFF {
        entry := entry.(connected := connected);
        mesh[idx] := mesh[idx].(connected := connected);
      }
      if entry.sensors != sensorCnt && sensorCnt != 0xFF {
        entry := entry.(sensors := sensorCnt);
      }
      assert entry == Merged(e, hop, version, connected, sensorCnt);
      assert mesh[..meshCount] == old(mesh[..meshCount])[idx := MergedRow(old(mesh[idx]), e, hop, connected)];
      var err := StorageMeshUpdate(idx, entry, good);
      return if err == Fine then Success else Failure;
    }

    /** Row idx of the RAM table is overwritten by the rows behind it; the last row stays twice. */
    method ShiftMeshRows(index: nat)
      requires Valid() && index < meshCount
      modifies mesh
      ensures mesh[..meshCount] == Without(old(mesh[..meshCount]), index) + [old(mesh[meshCount - 1])]
    {
      var i := index + 1;
      while i < meshCount
        invariant index < i <= meshCount
        invariant forall k :: 0 <= k < meshCount ==>
          mesh[k] == if index <= k < i - 1 then old(mesh[k + 1]) else old(mesh[k])
      {
        mesh[i - 1] := mesh[i];
        i := i + 1;
      }
    }

    method StorageMeshRemove(index: nat, readOk: bool, good: nat) returns (err: Err)
      requires Valid()
      modifies this`meshCount, mesh, rom
      ensures Valid() && (Abs(), err) == MeshRemove(old(Abs()), index, readOk, good)
    {
      if index >= meshCount {
        return Invalid;
      }
      ShiftMeshRows(index);
      var left := if index < meshCount - 1 then good - 1 else good;
      err := MoveMeshBlock(index, readOk, good);
      if err == Fine {
        meshCount := meshCount - 1;
        assert mesh[..meshCount] == Without(old(mesh[..meshCount]), index);
        err := WriteMeshCount(left > 0);
      }
    }

    /** The records behind record i move down by one as a block, if there are any. */
    method MoveMeshBlock(i: nat, readOk: bool, good: nat) returns (err: Err)
      requires Valid() && i < meshCount
      modifies rom
      ensures err == if i < meshCount - 1 && (!readOk || good == 0) then Io else Fine
      ensures rom[..] == if err == Fine then Moved(old(rom[..]), MESH_BASE, MESH_LEN, meshCount, i) else old(rom[..])
    {
      LastHasNoBlock(rom[..], meshCount, i);
      if i == meshCount - 1 {
        return Fine;
      }
      if !readOk {
        return Io;
      }
      var block := rom[Addr(MESH_BASE, MESH_LEN, i + 1)..Addr(MESH_BASE, MESH_LEN, meshCount)];
      err := EepromWrite(Addr(MESH_BASE, MESH_LEN, i), block, good > 0);
    }

    // ---------------------------------------------------------------- booting

    /** read_header. */
    method ReadHeader(base: nat) returns (count: uint16)
      requires Valid() && base + HEADER <= ROM_SIZE
      ensures count == Count(rom[..], base)
    {
      var hdr := rom[base..base + HEADER];
      if hdr[0] != MAGIC_0 || hdr[1] != MAGIC_1 {
        return 0;
      }
      var lo: nat, hi: nat := hdr[2], hdr[3];
      return lo + 0x100 * hi;
    }

    /** One turn of the loop over the infra records. */
    method LoadInfraRow(i: nat, readOk: bool)
      requires Valid() && i < MAX_ANCHORS && infra[i] == ZeroInfra()
      modifies infra
      ensures infra[i] == if readOk then LoadedInfra(RecordAt(rom[..], INFRA_BASE, INFRA_LEN, i)) else InvalidInfra()
      ensures forall k :: 0 <= k < MAX_ANCHORS && k != i ==> infra[k] == old(infra[k])
    {
      if !readOk {
        infra[i] := infra[i].(entry := infra[i].entry.(deviceId := 0xFFFF));
        return;
      }
      var b := rom[Addr(INFRA_BASE, INFRA_LEN, i)..Addr(INFRA_BASE, INFRA_LEN, i) + INFRA_LEN];
      assert b == RecordAt(rom[..], INFRA_BASE, INFRA_LEN, i);
      match ReadInfra(b)
      case None => infra[i] := infra[i].(entry := infra[i].entry.(deviceId := 0xFFFF));
      case Some(e) => infra[i] := InfraRow(e, 0, 0, false);
    }

    method LoadInfra(bad: set<nat>)
      requires Valid() && CountsFit(rom[..]) && infraCount == InfraCount(rom[..])
      requires forall i :: 0 <= i < MAX_ANCHORS ==> infra[i] == ZeroInfra()
      modifies infra
      ensures infra[..infraCount] == BootInfra(rom[..], bad)
    {
      ghost var goal := BootInfra(rom[..], bad);
      for i := 0 to infraCount
        invariant forall k :: i <= k < MAX_ANCHORS ==> infra[k] == ZeroInfra()
        invariant forall k :: 0 <= k < i ==> infra[k] == goal[k]
      {
        LoadInfraRow(i, Addr(INFRA_BASE, INFRA_LEN, i) !in bad);
      }
    }

    method LoadSensorRow(i: nat, readOk: bool)
      requires Valid() && i < MAX_SENSORS && sensors[i] == ZeroSensor()
      modifies sensors
      ensures sensors[i] == if readOk then LoadedSensor(RecordAt(rom[..], SENSOR_BASE, SENSOR_LEN, i))
                else InvalidSensor()
      ensures forall k :: 0 <= k < MAX_SENSORS && k != i ==> sensors[k] == old(sensors[k])
    {
      if !readOk {
        sensors[i] := sensors[i].(entry := sensors[i].entry.(deviceId := 0xFFFF));
        return;
      }
      var b := rom[Addr(SENSOR_BASE, SENSOR_LEN, i)..Addr(SENSOR_BASE, SENSOR_LEN, i) + SENSOR_LEN];
      assert b == RecordAt(rom[..], SENSOR_BASE, SENSOR_LEN, i);
      match ReadSensor(b)
      case None => sensors[i] := sensors[i].(entry := sensors[i].entry.(deviceId := 0xFFFF));
      case Some(e) => sensors[i] := SensorRow(e, 0, 0, false);
    }

    method LoadSensors(bad: set<nat>)
      requires Valid() && CountsFit(rom[..]) && sensorCount == SensorCount(rom[..])
      requires forall i :: 0 <= i < MAX_SENSORS ==> sensors[i] == ZeroSensor()
      modifies sensors
      ensures sensors[..sensorCount] == BootSensors(rom[..], Gateway, bad)
    {
      ghost var goal := BootSensors(rom[..], Gateway, bad);
      for i := 0 to sensorCount
        invariant forall k :: i <= k < MAX_SENSORS ==> sensors[k] == ZeroSensor()
        invariant forall k :: 0 <= k < i ==> sensors[k] == goal[k]
      {
        LoadSensorRow(i, Addr(SENSOR_BASE, SENSOR_LEN, i) !in bad);
      }
    }

    method LoadMeshRow(i: nat, readOk: bool)
      requires Valid() && i < meshCount && mesh[i] == ZeroMesh()
      modifies mesh
      ensures mesh[i] == if readOk then LoadedMesh(RecordAt(rom[..], MESH_BASE, MESH_LEN, i)) else ZeroMesh()
      ensures forall k :: 0 <= k < MAX_DEVICES && k != i ==> mesh[k] == old(mesh[k])
    {
      var e := StorageMeshGet(i, readOk);
      if e.Some? {
        mesh[i] := MeshRow(e.value.deviceType, e.value.deviceId, e.value.serial, e.value.connected, e.value.hop);
      }
    }

    method LoadMesh(bad: set<nat>)
      requires Valid() && CountsFit(rom[..]) && meshCount == MeshCount(rom[..])
      requires forall i :: 0 <= i < MAX_DEVICES ==> mesh[i] == ZeroMesh()
      modifies mesh
      ensures mesh[..meshCount] == BootMesh(rom[..], Gateway, bad)
    {
      ghost var goal := BootMesh(rom[..], Gateway, bad);
      for i := 0 to meshCount
        invariant forall k :: i <= k < MAX_DEVICES ==> mesh[k] == ZeroMesh()
        invariant forall k :: 0 <= k < i ==> mesh[k] == goal[k]
      {
        LoadMeshRow(i, Addr(MESH_BASE, MESH_LEN, i) !in bad);
      }
    }

    /** The three headers of storage_init; a read that fails leaves the counts behind it at zero. */
    method ReadCounts(bad: set<nat>) returns (err: Err)
      requires Valid() && CountsFit(rom[..]) && infraCount == sensorCount == meshCount == 0
      modifies this
      ensures Valid() && err == if INFRA_BASE in bad || SENSOR_BASE in bad || MESH_BASE in bad then Io else Fine
      ensures infraCount == if INFRA_BASE in bad then 0 else InfraCount(rom[..])
      ensures sensorCount == if INFRA_BASE in bad || SENSOR_BASE in bad then 0 else SensorCount(rom[..])
      ensures meshCount == if err == Fine then MeshCount(rom[..]) else 0
    {
      if INFRA_BASE in bad {
        return Io;
      }
      var count := ReadHeader(INFRA_BASE);
      infraCount := count % 0x100;
      if SENSOR_BASE in bad {
        return Io;
      }
      count := ReadHeader(SENSOR_BASE);
      sensorCount := count % 0x100;
      if MESH_BASE in bad {
        return Io;
      }
      meshCount := ReadHeader(MESH_BASE);
      return Fine;
    }

    /** The statics are zero. */
    ghost predicate Zeroed()
      requires Valid()
      reads this, infra, sensors, mesh
    {
      && infraCount == sensorCount == meshCount == 0
      && (forall i :: 0 <= i < MAX_ANCHORS ==> infra[i] == ZeroInfra())
      && (forall i :: 0 <= i < MAX_SENSORS ==> sensors[i] == ZeroSensor())
      && (forall i :: 0 <= i < MAX_DEVICES ==> mesh[i] == ZeroMesh())
    }

    /** storage_init on zeroed statics, with an EEPROM whose counts fit the tables. */
    method StorageInit(role: DeviceType, bad: set<nat>) returns (err: Err)
      requires Valid() && CountsFit(rom[..]) && Zeroed()
      modifies this, infra, sensors, mesh
      ensures Valid() && (Abs(), err) == Boot(old(rom[..]), role, bad)
    {
      err := ReadCounts(bad);
      if err == Fine {
        LoadTables(role, bad);
      } else {
        assert infra[..infraCount] == seq(infraCount, _ => ZeroInfra());
        assert sensors[..sensorCount] == seq(sensorCount, _ => ZeroSensor());
      }
    }

    /** The three loops of storage_init. */
    method LoadTables(role: DeviceType, bad: set<nat>)
      requires Valid() && CountsFit(rom[..])
      requires infraCount == InfraCount(rom[..]) && sensorCount == SensorCount(rom[..]) &&
                 meshCount == MeshCount(rom[..])
      requires forall i :: 0 <= i < MAX_ANCHORS ==> infra[i] == ZeroInfra()
      requires forall i :: 0 <= i < MAX_SENSORS ==> sensors[i] == ZeroSensor()
      requires forall i :: 0 <= i < MAX_DEVICES ==> mesh[i] == ZeroMesh()
      modifies infra, sensors, mesh
      ensures infra[..infraCount] == BootInfra(rom[..], bad) &&
                sensors[..sensorCount] == BootSensors(rom[..], role, bad)
      ensures mesh[..meshCount] == BootMesh(rom[..], role, bad)
    {
      LoadInfra(bad);
      if role == Gateway || role == Anchor {
        LoadSensors(bad);
      }
      if role == Gateway {
        LoadMesh(bad);
      }
      assert sensors[..sensorCount] == BootSensors(rom[..], role, bad);
      assert mesh[..meshCount] == BootMesh(rom[..], role, bad);
    }
  }

  lemma LastHasNoBlock(rom: Rom, n: nat, i: nat)
    requires i < n <= MAX_DEVICES
    ensures i == n - 1 ==> Moved(rom, MESH_BASE, MESH_LEN, n, i) == rom
  {
    assert i == n - 1 ==> Addr(MESH_BASE, MESH_LEN, i + 1) == Addr(MESH_BASE, MESH_LEN, n);
  }

  /** After i rows: those are stamped, and flushing the rest of them from here ends as flushing all of them
      from the start does. */
  ghost predicate Flushing<R>(stamp: R -> R, base: nat, k: nat, recs: seq<seq<byte>>, rows: seq<R>, now: seq<R>,
                              start: Rom, rom: Rom, i: nat, good: nat) {
    && i <= |rows| == |recs| <= 0xFFFF && i <= good && now == FirstEach(stamp, rows, i)
    && Addr(base, k, |recs|) <= ROM_SIZE && (forall j :: 0 <= j < |recs| ==> |recs[j]| == k)
    && Flush(rom, base, k, recs, i, good - i) == Flush(start, base, k, recs, 0, good)
  }

  lemma Begin<R>(stamp: R -> R, base: nat, k: nat, recs: seq<seq<byte>>, rows: seq<R>, start: Rom, good: nat)
    requires |rows| == |recs| <= 0xFFFF && Addr(base, k, |recs|) <= ROM_SIZE
    requires forall j :: 0 <= j < |recs| ==> |recs[j]| == k
    ensures Flushing(stamp, base, k, recs, rows, rows, start, start, 0, good)
  {
    assert FirstEach(stamp, rows, 0) == rows;
  }

  lemma Continue<R>(stamp: R -> R, base: nat, k: nat, recs: seq<seq<byte>>, rows: seq<R>, now: seq<R>,
                    start: Rom, rom: Rom, i: nat, good: nat)
    requires Flushing(stamp, base, k, recs, rows, now, start, rom, i, good) && i < |rows|
    ensures now[i] == rows[i] && Addr(base, k, i) + k <= ROM_SIZE
    ensures good > i ==>
      Flushing(stamp, base, k, recs, rows, now[i := stamp(now[i])], start, Splice(rom, Addr(base, k, i), recs[i]),
          i + 1, good)
    ensures good == i ==>
      now[i := stamp(now[i])] == FirstEach(stamp, rows, good + 1) &&
          Flush(start, base, k, recs, 0, good) == (rom, false)
  {
    FirstEachStep(stamp, rows, i);
    FlushUnfolds(rom, base, k, recs, i, good - i);
  }

  lemma Finish<R>(stamp: R -> R, base: nat, k: nat, recs: seq<seq<byte>>, rows: seq<R>, now: seq<R>,
                  start: Rom, rom: Rom, good: nat)
    requires Flushing(stamp, base, k, recs, rows, now, start, rom, |rows|, good)
    ensures base + HEADER <= ROM_SIZE && now == FirstEach(stamp, rows, good + 1)
    ensures Flush(start, base, k, recs, 0, good) ==
              if good == |rows| then (rom, false) else (Splice(rom, base, Header(|rows|)), true)
  {
    FirstEachAll(stamp, rows, good + 1);
    FlushUnfolds(rom, base, k, recs, |rows|, good - |rows|);
  }

  lemma FlushUnfolds(rom: Rom, base: nat, k: nat, recs: seq<seq<byte>>, i: nat, good: nat)
    requires i <= |recs| <= 0xFFFF && Addr(base, k, |recs|) <= ROM_SIZE
    requires forall j :: 0 <= j < |recs| ==> |recs[j]| == k
    ensures base + HEADER <= ROM_SIZE && (i < |recs| ==> Addr(base, k, i) + k <= ROM_SIZE)
    ensures Flush(rom, base, k, recs, i, good) ==
              if good == 0 then (rom, false)
              else if i == |recs| then (Splice(rom, base, Header(|recs|)), true)
              else Flush(Splice(rom, Addr(base, k, i), recs[i]), base, k, recs, i + 1, good - 1)
  {
    MulMono(0, |recs|, k);
    if i < |recs| {
      AddrMono(base, k, i, |recs|);
    }
  }
}
