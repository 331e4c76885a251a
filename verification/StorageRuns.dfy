/** Runs of the storage operations with reboots in between, for a device of any role (src/storage.c). A role keeps in
    RAM only the tables it loads at start-up; the partitions of the others stay in the EEPROM untouched. */
module StorageRuns {
  import opened LargeDataTypes
  import opened Eeprom
  import opened StorageTables

  datatype Event = Do(op: Op) | Reboot

  predicate LoadsSensors(role: DeviceType) {
    role == Gateway || role == Anchor
  }

  /** The operation works on a table that the role has loaded. */
  predicate Allowed(role: DeviceType, op: Op) {
    match op
    case AddInfra(_) => true
    case UpdateInfra(_, _) => true
    case RemoveInfra(_) => true
    case ClearInfra => true
    case AddSensor(_) => LoadsSensors(role)
    case UpdateSensor(_, _) => LoadsSensors(role)
    case RemoveSensor(_) => LoadsSensors(role)
    case ClearSensors => LoadsSensors(role)
    case _ => role == Gateway
  }

  /** s is as good as g for the role: the same EEPROM and the same tables that it has loaded. */
  ghost predicate Like(role: DeviceType, s: Store, g: Store) {
    && Sized(s) && Sized(g) && s.rom == g.rom && s.infra == g.infra
    && (LoadsSensors(role) ==> s.sensors == g.sensors) && (role == Gateway ==> s.mesh == g.mesh)
  }

  /** The tables the role has loaded are in step with the EEPROM: some whole store in step is like this one. */
  ghost predicate InStepFor(role: DeviceType, s: Store) {
    exists g: Store, es: seq<MeshEntry> :: InSync(g, es) && Like(role, s, g)
  }

  // ------------------------------------------------------------------ operations

  lemma InfraOpsLike(role: DeviceType, s: Store, g: Store, op: Op, good: nat)
    requires Like(role, s, g) && (op.AddInfra? || op.UpdateInfra? || op.RemoveInfra? || op.ClearInfra?)
    ensures Like(role, Apply(s, op, good).0, Apply(g, op, good).0)
  {
  }

  lemma SensorOpsLike(role: DeviceType, s: Store, g: Store, op: Op, good: nat)
    requires Like(role, s, g) && LoadsSensors(role)
    requires op.AddSensor? || op.UpdateSensor? || op.RemoveSensor? || op.ClearSensors?
    ensures Like(role, Apply(s, op, good).0, Apply(g, op, good).0)
  {
  }

  lemma ApplyLike(role: DeviceType, s: Store, g: Store, op: Op, good: nat)
    requires Like(role, s, g) && Allowed(role, op)
    ensures Like(role, Apply(s, op, good).0, Apply(g, op, good).0)
  {
    if op.AddInfra? || op.UpdateInfra? || op.RemoveInfra? || op.ClearInfra? {
      InfraOpsLike(role, s, g, op, good);
    } else if op.AddSensor? || op.UpdateSensor? || op.RemoveSensor? || op.ClearSensors? {
      SensorOpsLike(role, s, g, op, good);
    } else {
      assert s == g;
      ApplySized(g, op, good);
    }
  }

  // --------------------------------------------------------------------- reboots

  /** The whole store with its run-time counters at rest. */
  function Rested(g: Store): Store {
    g.(infra := RestedInfra(g.infra), sensors := RestedSensors(g.sensors))
  }

  lemma RestedInfraSync(g: Store)
    requires InfraSync(g)
    ensures InfraSync(Rested(g))
  {
    assert InfraRecords(RestedInfra(g.infra)) == InfraRecords(g.infra);
  }

  lemma RestedSensorSync(g: Store)
    requires SensorSync(g)
    ensures SensorSync(Rested(g))
  {
    assert SensorRecords(RestedSensors(g.sensors)) == SensorRecords(g.sensors);
  }

  lemma RestedInSync(g: Store, es: seq<MeshEntry>)
    requires InSync(g, es)
    ensures InSync(Rested(g), es)
  {
    RestedInfraSync(g);
    RestedSensorSync(g);
  }

  /** What storage_init makes of an EEPROM that can be read is again in step for the role. */
  lemma BootLike(role: DeviceType, s: Store, g: Store, es: seq<MeshEntry>)
    requires InSync(g, es) && Like(role, s, g)
    ensures CountsFit(s.rom) && Like(role, Boot(s.rom, role, {}).0, Rested(g)) && Boot(s.rom, role, {}).1 == Fine
  {
    ReloadLaw(g, es, role);
  }

  // ------------------------------------------------------------------ whole runs

  lemma DoKeeps(role: DeviceType, s: Store, op: Op)
    requires InStepFor(role, s) && Allowed(role, op)
    ensures Sized(s) && InStepFor(role, Apply(s, op, MAX_DEVICES + 1).0)
  {
    var g: Store, es: seq<MeshEntry> :| InSync(g, es) && Like(role, s, g);
    ApplyKeepsSync(g, es, op, MAX_DEVICES + 1);
    ApplyLike(role, s, g, op, MAX_DEVICES + 1);
  }

  lemma RebootKeeps(role: DeviceType, s: Store)
    requires InStepFor(role, s)
    ensures CountsFit(s.rom) && InStepFor(role, Boot(s.rom, role, {}).0)
  {
    var g: Store, es: seq<MeshEntry> :| InSync(g, es) && Like(role, s, g);
    BootLike(role, s, g, es);
    RestedInSync(g, es);
  }

  /** The state after a run, with an EEPROM that takes every write and can be read. */
  ghost function After(role: DeviceType, s: Store, evs: seq<Event>): (t: Store)
    requires InStepFor(role, s) && forall e :: e in evs && e.Do? ==> Allowed(role, e.op)
    ensures InStepFor(role, t)
    decreases |evs|
  {
    if evs == [] then s
    else
      match evs[0]
      case Do(op) =>
        assert evs[0] in evs;
        DoKeeps(role, s, op);
        After(role, Apply(s, op, MAX_DEVICES + 1).0, evs[1..])
      case Reboot =>
        RebootKeeps(role, s);
        After(role, Boot(s.rom, role, {}).0, evs[1..])
  }

  lemma BlankInStep(role: DeviceType, rom: Rom)
    requires Count(rom, INFRA_BASE) == 0 && Count(rom, SENSOR_BASE) == 0 && Count(rom, MESH_BASE) == 0
    ensures InStepFor(role, Store([], [], [], rom))
  {
    var s := Store([], [], [], rom);
    BlankInSync(rom);
    assert Like(role, s, s);
  }

  /** The reload law over runs with reboots: after any sequence of add, update, remove, clear and reboot, starting
      from a blank EEPROM, one more storage_init gives back exactly the tables that the role keeps in RAM. */
  lemma ReloadAcrossReboots(role: DeviceType, rom: Rom, evs: seq<Event>)
    requires Count(rom, INFRA_BASE) == 0 && Count(rom, SENSOR_BASE) == 0 && Count(rom, MESH_BASE) == 0
    requires forall e :: e in evs && e.Do? ==> Allowed(role, e.op)
    ensures InStepFor(role, Store([], [], [], rom))
    ensures var s := After(role, Store([], [], [], rom), evs);
      && CountsFit(s.rom)
      && var (t, err) := Boot(s.rom, role, {});
         && err == Fine && t.rom == s.rom && t.infra == RestedInfra(s.infra)
         && (LoadsSensors(role) ==> t.sensors == RestedSensors(s.sensors))
         && (role == Gateway ==> t.mesh == s.mesh)
  {
    BlankInStep(role, rom);
    var s := After(role, Store([], [], [], rom), evs);
    var g: Store, es: seq<MeshEntry> :| InSync(g, es) && Like(role, s, g);
    ReloadLaw(g, es, role);
  }
}
