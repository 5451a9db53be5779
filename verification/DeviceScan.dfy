/** The loops over a device list: searching, counting and the limit validators. */
module DeviceScan {
  import opened Wrappers
  import opened ControllerAddress
  import opened DeviceList
  import opened UnitCapacity
  import opened Allocator

  /** FindControllerByBus */
  method FindControllerByBus(slots: Slots, kind: Kind, bus: int) returns (at: Option<nat>)
    ensures at == FindByBus(slots, kind, bus)
  {
    for n := 0 to |slots|
      invariant forall i :: 0 <= i < n ==> !IsBus(slots[i], kind, bus)
    {
      if IsBus(slots[n], kind, bus) {
        return Some(n);
      }
    }
    return None;
  }

  /** countDisksOnController */
  method CountDisksOnController(slots: Slots, c: Slot) returns (count: nat)
    ensures count == CountDisksOn(slots, c.key)
  {
    count := 0;
    for n := 0 to |slots|
      invariant count == CountDisksOn(slots[..n], c.key)
    {
      assert slots[..n + 1][..n] == slots[..n];
      if slots[n].role.Disk? && slots[n].controllerKey == c.key {
        count := count + 1;
      }
    }
    assert slots[..|slots|] == slots;
  }

  /** validateControllerDiskCapacity for one more disk. */
  method ValidateControllerDiskCapacity(slots: Slots, c: Slot) returns (ok: bool)
    requires c.role.Controller?
    ensures ok == RoomForDisk(slots, c)
  {
    var current := CountDisksOnController(slots, c);
    ok := current + 1 <= MaxDisks(c.role.model);
  }

  /** countControllersByKind: a table of counts, absent meaning zero. */
  method CountControllersByKind(slots: Slots) returns (counts: map<Kind, nat>)
    ensures forall kind :: CountKind(slots, kind) == if kind in counts then counts[kind] else 0
  {
    counts := map[];
    for n := 0 to |slots|
      invariant forall kind :: CountKind(slots[..n], kind) == if kind in counts then counts[kind] else 0
    {
      assert slots[..n + 1][..n] == slots[..n];
      if slots[n].role.Controller? {
        var kind := KindOf(slots[n].role.model);
        if kind.Some? {
          counts := counts[kind.value := (if kind.value in counts then counts[kind.value] else 0) + 1];
        }
      }
    }
    assert slots[..|slots|] == slots;
  }

  /** validateControllerCount for one more controller. */
  method ValidateControllerCount(slots: Slots, kind: Kind) returns (ok: bool)
    ensures ok == RoomForController(slots, kind)
  {
    var counts := CountControllersByKind(slots);
    ok := (if kind in counts then counts[kind] else 0) + 1 <= MAX_CONTROLLERS_PER_TYPE;
  }

  /** The inner loop of countVirtualDisksByKind: the kind behind a controller key. */
  method KindBehindKey(slots: Slots, key: int) returns (kind: Option<Kind>)
    ensures kind == KindOfKey(slots, key)
  {
    for n := 0 to |slots|
      invariant KindOfKey(slots, key) == KindOfKey(slots[n..], key)
    {
      if slots[n].role.Controller? && slots[n].key == key {
        return KindOf(slots[n].role.model);
      }
      assert slots[n..][1..] == slots[n + 1..];
    }
    return None;
  }

  /** countVirtualDisksByKind */
  method CountVirtualDisksByKind(slots: Slots) returns (counts: map<Kind, nat>)
    ensures forall kind :: CountDisksByKind(slots, slots, kind) == if kind in counts then counts[kind] else 0
  {
    counts := map[];
    for n := 0 to |slots|
      invariant forall kind :: CountDisksByKind(slots[..n], slots, kind) == if kind in counts then counts[kind] else 0
    {
      assert slots[..n + 1][..n] == slots[..n];
      if !slots[n].role.Disk? {
        continue;
      }
      var kind := KindBehindKey(slots, slots[n].controllerKey);
      if kind.Some? {
        counts := counts[kind.value := (if kind.value in counts then counts[kind.value] else 0) + 1];
      }
    }
    assert slots[..|slots|] == slots;
  }

  /** hasPVSCSIControllerOnVM */
  method HasPvscsiController(slots: Slots) returns (found: bool)
    ensures found == HasPvscsi(slots)
  {
    for n := 0 to |slots|
      invariant forall i :: 0 <= i < n ==> !(slots[i].role.Controller? && slots[i].role.model == ScsiModel(true))
    {
      if slots[n].role.Controller? && slots[n].role.model == ScsiModel(true) {
        return true;
      }
    }
    return false;
  }

  /** validateAggregateStorageCapacity */
  method ValidateAggregateStorageCapacity(slots: Slots) returns (ok: bool)
    ensures ok == WithinAggregate(slots)
  {
    var counts := CountVirtualDisksByKind(slots);
    if SATA in counts && counts[SATA] > 120 {
      return false;
    }
    if NVMe in counts && counts[NVMe] > 60 {
      return false;
    }
    var pvscsi := HasPvscsiController(slots);
    var scsiMax := if pvscsi then 256 else 60;
    return !(SCSI in counts && counts[SCSI] > scsiMax);
  }

  /** ValidateControllerUnitRuntime */
  method ValidateControllerUnitRuntime(slots: Slots, raw: string, pending: set<string>) returns (ok: bool)
    ensures ok == RuntimeAdmits(slots, raw, pending)
  {
    hide Parse;
    var a := Parse(raw);
    if a.None? {
      return false;
    }
    if raw in pending {
      return false;
    }
    var at := FindControllerByBus(slots, a.value.kind, a.value.bus);
    if at.None? {
      return true;
    }
    var c := slots[at.value];
    if a.value.unit > MaxUnit(c.role.model) {
      return false;
    }
    var occupied := OccupiedUnits(slots, c);
    return a.value.unit !in occupied;
  }
}
