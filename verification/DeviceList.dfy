/**
 The part of a virtual device that the disk allocator decides on, and the
 operations of the device list it uses. The list operations of the govmomi
 library appear here as functions whose `ensures` are the contract relied on.
 */
module DeviceList {
  import opened Wrappers
  import opened ControllerAddress

  /** Concrete controller device classes, as far as the allocator tells them apart. */
  datatype Model = ScsiModel(paravirtual: bool) | NvmeModel | SataModel | OtherModel

  datatype Role =
    | Controller(model: Model, bus: int, ownUnit: int)
    | Disk
    | OtherDevice

  /** Key, attachment point and role of one device. A nil unit number is None. */
  datatype Slot = Slot(key: int, controllerKey: int, unit: Option<int>, role: Role)

  type Slots = seq<Slot>

  /**
   A disk_controller_type entry. An unlisted string is accepted by the library
   iff it happens to know a SCSI controller of that name.
   */
  datatype ControllerType =
    | LsiLogic | LsiLogicSas | Pvscsi | Scsi | Nvme | Sata
    | Unlisted(name: string, known: bool)

  const MAX_CONTROLLERS_PER_TYPE: nat := 4
  const SCSI_RESERVED_UNIT: nat := 7
  const MAX_LSI_UNIT: nat := 15
  const MAX_PVSCSI_UNIT: nat := 64
  const MAX_NVME_UNIT: nat := 14
  const MAX_SATA_UNIT: nat := 29
  const MAX_LSI_DISKS: nat := 15
  const MAX_PVSCSI_DISKS: nat := 64

  // ----- kinds and limits -----

  function KindOf(model: Model): Option<Kind> {
    match model
    case ScsiModel(_) => Some(SCSI)
    case NvmeModel => Some(NVMe)
    case SataModel => Some(SATA)
    case OtherModel => None
  }

  /** controllerKindForType */
  function KindForType(t: ControllerType): Kind {
    match t
    case Nvme => NVMe
    case Sata => SATA
    case _ => SCSI
  }

  function ModelForType(t: ControllerType): (m: Model)
    ensures KindOf(m) == Some(KindForType(t))
    ensures m == ScsiModel(true) <==> t == Pvscsi
  {
    match t
    case Nvme => NvmeModel
    case Sata => SataModel
    case _ => ScsiModel(t == Pvscsi)
  }

  /** maxUnitForKind of the controller's own kind; a controller without a bus counts as SCSI. */
  function MaxUnit(model: Model): nat {
    match model
    case ScsiModel(pv) => if pv then MAX_PVSCSI_UNIT else MAX_LSI_UNIT
    case NvmeModel => MAX_NVME_UNIT
    case SataModel => MAX_SATA_UNIT
    case OtherModel => MAX_LSI_UNIT
  }

  /** maxDisksPerController */
  function MaxDisks(model: Model): nat {
    match model
    case ScsiModel(pv) => if pv then MAX_PVSCSI_DISKS else MAX_LSI_DISKS
    case _ => MaxUnit(model) + 1
  }

  predicate Reserved(model: Model, unit: int) {
    model.ScsiModel? && unit == SCSI_RESERVED_UNIT
  }

  /** A unit a disk may sit at: within the controller's range and not the SCSI controller's own. */
  predicate Usable(model: Model, unit: int) {
    0 <= unit <= MaxUnit(model) && !Reserved(model, unit)
  }

  predicate IsKind(s: Slot, kind: Kind) {
    s.role.Controller? && KindOf(s.role.model) == Some(kind)
  }

  predicate IsBus(s: Slot, kind: Kind, bus: int) {
    IsKind(s, kind) && s.role.bus == bus
  }

  predicate IsDiskOn(s: Slot, key: int) {
    s.role.Disk? && s.controllerKey == key
  }

  // ----- library contracts -----

  /** NewKey: negative, and smaller than every key in the list. */
  function NewKey(slots: Slots): (key: int)
    ensures key < 0
    ensures forall i :: 0 <= i < |slots| ==> key < slots[i].key
  {
    if slots == [] then -201
    else
      var rest, last := NewKey(slots[..|slots| - 1]), slots[|slots| - 1].key;
      if last <= rest then last - 1 else rest
  }

  /** The lowest bus number from `from` on that no controller of the kind uses. */
  function FreeBusFrom(slots: Slots, kind: Kind, from: nat): (bus: nat)
    ensures bus >= from
    ensures forall i :: 0 <= i < |slots| ==> !IsBus(slots[i], kind, bus)
    decreases |(set i | 0 <= i < |slots| && IsKind(slots[i], kind) && slots[i].role.bus >= from)|
  {
    if exists i :: 0 <= i < |slots| && IsBus(slots[i], kind, from) then
      var here := set i | 0 <= i < |slots| && IsKind(slots[i], kind) && slots[i].role.bus >= from;
      var next := set i | 0 <= i < |slots| && IsKind(slots[i], kind) && slots[i].role.bus >= from + 1;
      assert next < here by {
        var i :| 0 <= i < |slots| && IsBus(slots[i], kind, from);
        assert i in here && i !in next;
      }
      SubsetIsSmaller(next, here);
      FreeBusFrom(slots, kind, from + 1)
    else
      from
  }

  lemma {:induction false} SubsetIsSmaller<T>(a: set<T>, b: set<T>)
    requires a < b
    ensures |a| < |b|
  {
    var x :| x in b && x !in a;
    assert a <= b - {x};
    SubsetIsNoLarger(a, b - {x});
  }

  lemma {:induction false} SubsetIsNoLarger<T>(a: set<T>, b: set<T>)
    requires a <= b
    ensures |a| <= |b|
  {
    if a != {} {
      var x :| x in a;
      SubsetIsNoLarger(a - {x}, b - {x});
    }
  }

  /**
   createController: a fresh controller of the type's model, with a fresh key and
   a bus its kind does not use yet, attached nowhere. SCSI controllers sit on
   their own unit 7. An unlisted type the library does not know is refused.
   */
  function CreateController(slots: Slots, t: ControllerType): (r: Option<Slot>)
    ensures r.None? <==> t.Unlisted? && !t.known
    ensures r.Some? ==>
              && r.value.key == NewKey(slots) && r.value.controllerKey == 0 && r.value.unit == None
              && r.value.role.Controller? && r.value.role.model == ModelForType(t)
              && (r.value.role.model.ScsiModel? ==> r.value.role.ownUnit == SCSI_RESERVED_UNIT)
              && forall i :: 0 <= i < |slots| ==> !IsBus(slots[i], KindForType(t), r.value.role.bus)
  {
    if t.Unlisted? && !t.known then None
    else
      var role := Controller(ModelForType(t), FreeBusFrom(slots, KindForType(t), 0), SCSI_RESERVED_UNIT);
      Some(Slot(NewKey(slots), 0, None, role))
  }

  /** OccupiedUnits, as a membership test: a child's unit, or the SCSI controller's own. */
  predicate Occupied(slots: Slots, c: Slot, unit: int)
    requires c.role.Controller?
  {
    || (c.role.model.ScsiModel? && unit == c.role.ownUnit)
    || exists i :: 0 <= i < |slots| && slots[i].controllerKey == c.key && slots[i].unit == Some(unit)
  }

  /**
   AssignController: the lowest unoccupied unit within the controller's range, or
   -1 when there is none.
   */
  function AssignedUnit(slots: Slots, c: Slot): (unit: int)
    requires c.role.Controller?
    ensures unit == -1 || (0 <= unit <= MaxUnit(c.role.model) && !Occupied(slots, c, unit))
    ensures unit == -1 <==> forall u :: 0 <= u <= MaxUnit(c.role.model) ==> Occupied(slots, c, u)
  {
    AssignedUnitFrom(slots, c, 0)
  }

  function AssignedUnitFrom(slots: Slots, c: Slot, from: nat): (unit: int)
    requires c.role.Controller?
    ensures unit == -1 || (from <= unit <= MaxUnit(c.role.model) && !Occupied(slots, c, unit))
    ensures unit == -1 <==> forall u :: from <= u <= MaxUnit(c.role.model) ==> Occupied(slots, c, u)
    decreases MaxUnit(c.role.model) + 1 - from
  {
    if from > MaxUnit(c.role.model) then -1
    else if !Occupied(slots, c, from) then from
    else AssignedUnitFrom(slots, c, from + 1)
  }

  // ----- searching and counting -----

  /** FindControllerByBus: the first controller of that kind and bus. */
  function FindByBus(slots: Slots, kind: Kind, bus: int): (r: Option<nat>)
    ensures r.Some? ==> r.value < |slots| && IsBus(slots[r.value], kind, bus)
                        && forall i :: 0 <= i < r.value ==> !IsBus(slots[i], kind, bus)
    ensures r.None? ==> forall i :: 0 <= i < |slots| ==> !IsBus(slots[i], kind, bus)
  {
    if slots == [] then None
    else
      var front := FindByBus(slots[..|slots| - 1], kind, bus);
      if front.Some? then front
      else if IsBus(slots[|slots| - 1], kind, bus) then Some(|slots| - 1)
      else None
  }

  ghost predicate OnList(slots: Slots, kind: Kind, bus: int) {
    exists i :: 0 <= i < |slots| && IsBus(slots[i], kind, bus)
  }

  /** countControllersByKind */
  function CountKind(slots: Slots, kind: Kind): nat {
    if slots == [] then 0
    else CountKind(slots[..|slots| - 1], kind) + (if IsKind(slots[|slots| - 1], kind) then 1 else 0)
  }

  /** countDisksOnController */
  function CountDisksOn(slots: Slots, key: int): nat {
    if slots == [] then 0
    else CountDisksOn(slots[..|slots| - 1], key) + (if IsDiskOn(slots[|slots| - 1], key) then 1 else 0)
  }

  /** The kind of the first controller with the key, if it has a bus. */
  function KindOfKey(slots: Slots, key: int): (r: Option<Kind>) {
    if slots == [] then None
    else if slots[0].role.Controller? && slots[0].key == key then KindOf(slots[0].role.model)
    else KindOfKey(slots[1..], key)
  }

  /** countVirtualDisksByKind over the devices in `disks`, looking controllers up in `slots`. */
  function CountDisksByKind(disks: Slots, slots: Slots, kind: Kind): nat {
    if disks == [] then 0
    else
      var last := disks[|disks| - 1];
      CountDisksByKind(disks[..|disks| - 1], slots, kind)
      + (if last.role.Disk? && KindOfKey(slots, last.controllerKey) == Some(kind) then 1 else 0)
  }

  // ----- validators -----

  /** validateControllerCount for one more controller. */
  predicate RoomForController(slots: Slots, kind: Kind) {
    CountKind(slots, kind) + 1 <= MAX_CONTROLLERS_PER_TYPE
  }

  /** validateControllerDiskCapacity for one more disk. */
  predicate RoomForDisk(slots: Slots, c: Slot)
    requires c.role.Controller?
  {
    CountDisksOn(slots, c.key) + 1 <= MaxDisks(c.role.model)
  }

  predicate HasPvscsi(slots: Slots) {
    exists i :: 0 <= i < |slots| && slots[i].role.Controller? && slots[i].role.model == ScsiModel(true)
  }

  /** validateAggregateStorageCapacity */
  predicate WithinAggregate(slots: Slots) {
    && CountDisksByKind(slots, slots, SATA) <= 120
    && CountDisksByKind(slots, slots, NVMe) <= 60
    && CountDisksByKind(slots, slots, SCSI) <= (if HasPvscsi(slots) then 256 else 60)
  }

  // ----- invariants of a device list -----

  /** Device keys identify devices. */
  ghost predicate DistinctKeys(slots: Slots) {
    forall i, j :: 0 <= i < j < |slots| ==> slots[i].key != slots[j].key
  }

  /** No device hangs off a key the list has yet to hand out. */
  ghost predicate Linked(slots: Slots) {
    forall i :: 0 <= i < |slots| ==> NewKey(slots) < slots[i].controllerKey
  }

  /** At most one device per controller and unit. */
  ghost predicate OnePerUnit(slots: Slots) {
    forall i, j :: (0 <= i < j < |slots| && slots[i].controllerKey == slots[j].controllerKey
                    && slots[i].unit.Some?) ==> slots[i].unit != slots[j].unit
  }

  /** Every controller carries no more disks than it supports. */
  ghost predicate WithinDiskLimits(slots: Slots) {
    forall i :: 0 <= i < |slots| && slots[i].role.Controller? ==>
                  CountDisksOn(slots, slots[i].key) <= MaxDisks(slots[i].role.model)
  }

  ghost predicate WithinControllerLimits(slots: Slots) {
    forall kind: Kind :: CountKind(slots, kind) <= MAX_CONTROLLERS_PER_TYPE
  }

}
