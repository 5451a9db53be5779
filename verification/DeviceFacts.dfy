/**
 What the tables and counts of the device list say, in plain numbers: kinds, unit
 ranges and capacities by controller type, and each count as the size of a set of
 places in the list.
 */
module DeviceFacts {
  import opened Wrappers
  import opened ControllerAddress
  import opened DeviceList
  import opened Allocator

  // ----- by controller type -----

  /** The kind a pool entry makes, the units its controller offers, and how many disks it takes. */
  lemma TypesOffer(slots: Slots, t: ControllerType)
    ensures CreateController(slots, t).None? <==> t.Unlisted? && !t.known
    ensures CreateController(slots, t).Some? ==>
            var c := CreateController(slots, t).value;
            match t
            case Sata =>
              c.role.model == SataModel && KindForType(t) == SATA && IsKind(c, SATA)
              && MaxDisks(c.role.model) == 30 && forall u: int :: Usable(c.role.model, u) <==> 0 <= u <= 29
            case Nvme =>
              c.role.model == NvmeModel && KindForType(t) == NVMe && IsKind(c, NVMe)
              && MaxDisks(c.role.model) == 15 && forall u: int :: Usable(c.role.model, u) <==> 0 <= u <= 14
            case Pvscsi =>
              c.role.model == ScsiModel(true) && KindForType(t) == SCSI && IsKind(c, SCSI) && c.role.ownUnit == 7
              && MaxDisks(c.role.model) == 64 && forall u: int :: Usable(c.role.model, u) <==> 0 <= u <= 64 && u != 7
            case _ =>
              c.role.model == ScsiModel(false) && KindForType(t) == SCSI && IsKind(c, SCSI) && c.role.ownUnit == 7
              && MaxDisks(c.role.model) == 15 && forall u: int :: Usable(c.role.model, u) <==> 0 <= u <= 15 && u != 7
  {
    hide NewKey, FreeBusFrom;
  }

  /**
   The run-time check: the address parses and is not pending, and if its bus has a
   controller, the unit is in range, not the SCSI controller's own, and no device's.
   */
  lemma RuntimeAdmitsIff(slots: Slots, raw: string, pending: set<string>)
    ensures RuntimeAdmits(slots, raw, pending) <==>
              && Parse(raw).Some? && raw !in pending
              && var a := Parse(raw).value;
                 var found := FindByBus(slots, a.kind, a.bus);
                 found.Some? ==>
                   var c := slots[found.value];
                   && a.unit <= (match c.role.model
                                 case ScsiModel(pv) => if pv then 64 else 15
                                 case NvmeModel => 14
                                 case SataModel => 29
                                 case OtherModel => 15)
                   && !(c.role.model.ScsiModel? && a.unit == c.role.ownUnit)
                   && forall i :: 0 <= i < |slots| ==>
                        !(slots[i].controllerKey == c.key && slots[i].unit == Some(a.unit))
  {
    hide Parse, FindByBus;
  }

  /** The first controller of that kind on that bus, or none. */
  lemma FindByBusIs(slots: Slots, kind: Kind, bus: int)
    ensures var found := FindByBus(slots, kind, bus);
            if found.Some? then
              found.value < |slots| && OnBus(slots[found.value], kind, bus)
              && forall i :: 0 <= i < found.value ==> !OnBus(slots[i], kind, bus)
            else forall i :: 0 <= i < |slots| ==> !OnBus(slots[i], kind, bus)
  {
    hide FindByBus;
    assert forall s :: IsBus(s, kind, bus) <==> OnBus(s, kind, bus);
  }

  predicate OnBus(s: Slot, kind: Kind, bus: int) {
    OfKind(s, kind) && s.role.bus == bus
  }

  /** The unit the library assigns is the lowest of the controller's range that no device has. */
  lemma AssignedUnitIs(slots: Slots, c: Slot)
    requires c.role.Controller?
    ensures var unit := AssignedUnit(slots, c);
            unit >= 0 ==>
              forall u :: 0 <= u < unit ==>
                || (c.role.model.ScsiModel? && u == c.role.ownUnit)
                || exists i :: 0 <= i < |slots| && slots[i].controllerKey == c.key && slots[i].unit == Some(u)
  {
    AssignedFromIs(slots, c, 0);
    hide AssignedUnitFrom;
    forall u | 0 <= u < AssignedUnit(slots, c)
      ensures || (c.role.model.ScsiModel? && u == c.role.ownUnit)
              || exists i :: 0 <= i < |slots| && slots[i].controllerKey == c.key && slots[i].unit == Some(u)
    {
      assert Occupied(slots, c, u);
    }
  }

  lemma {:induction false} AssignedFromIs(slots: Slots, c: Slot, from: nat)
    requires c.role.Controller?
    ensures forall u :: from <= u < AssignedUnitFrom(slots, c, from) ==> Occupied(slots, c, u)
    decreases MaxUnit(c.role.model) + 1 - from
  {
    hide Occupied;
    if from <= MaxUnit(c.role.model) && Occupied(slots, c, from) {
      AssignedFromIs(slots, c, from + 1);
    }
  }

  // ----- counts -----

  /** A count that grows by one for each place kept is the number of places kept. */
  lemma OneMorePlace(front: set<nat>, n: nat, all: set<nat>, keep: bool)
    requires n !in front && all == if keep then front + {n} else front
    ensures |all| == |front| + if keep then 1 else 0
  {
  }

  /** The places of the disks attached to a controller key. */
  ghost function DisksAt(slots: Slots, key: int): set<nat> {
    set i: nat | i < |slots| && slots[i].role.Disk? && slots[i].controllerKey == key
  }

  lemma DisksAtStep(slots: Slots, key: int)
    requires slots != []
    ensures var n, front := |slots| - 1, DisksAt(slots[..|slots| - 1], key);
            n !in front
            && DisksAt(slots, key)
               == if slots[n].role.Disk? && slots[n].controllerKey == key then front + {n} else front
  {
  }

  lemma CountDisksOnUnfolds(slots: Slots, key: int)
    ensures slots == [] ==> CountDisksOn(slots, key) == 0 && DisksAt(slots, key) == {}
    ensures slots != [] ==>
              var last := slots[|slots| - 1];
              CountDisksOn(slots, key)
              == CountDisksOn(slots[..|slots| - 1], key)
                 + if last.role.Disk? && last.controllerKey == key then 1 else 0
  {
  }

  lemma {:induction false} CountDisksOnIs(slots: Slots, key: int)
    ensures CountDisksOn(slots, key) == |DisksAt(slots, key)|
  {
    hide *;
    CountDisksOnUnfolds(slots, key);
    if slots != [] {
      var last := slots[|slots| - 1];
      CountDisksOnIs(slots[..|slots| - 1], key);
      DisksAtStep(slots, key);
      OneMorePlace(DisksAt(slots[..|slots| - 1], key), |slots| - 1, DisksAt(slots, key),
                   last.role.Disk? && last.controllerKey == key);
    }
  }

  /** The places of the controllers of a kind. */
  ghost function KindAt(slots: Slots, kind: Kind): set<nat> {
    set i: nat | i < |slots| && OfKind(slots[i], kind)
  }

  lemma KindAtStep(slots: Slots, kind: Kind)
    requires slots != []
    ensures var n, front := |slots| - 1, KindAt(slots[..|slots| - 1], kind);
            n !in front && KindAt(slots, kind) == if OfKind(slots[n], kind) then front + {n} else front
  {
    hide OfKind;
  }

  lemma CountKindUnfolds(slots: Slots, kind: Kind)
    ensures slots == [] ==> CountKind(slots, kind) == 0 && KindAt(slots, kind) == {}
    ensures slots != [] ==>
              CountKind(slots, kind)
              == CountKind(slots[..|slots| - 1], kind) + if OfKind(slots[|slots| - 1], kind) then 1 else 0
  {
  }

  lemma {:induction false} CountKindIs(slots: Slots, kind: Kind)
    ensures CountKind(slots, kind) == |KindAt(slots, kind)|
  {
    hide *;
    CountKindUnfolds(slots, kind);
    if slots != [] {
      CountKindIs(slots[..|slots| - 1], kind);
      KindAtStep(slots, kind);
      OneMorePlace(KindAt(slots[..|slots| - 1], kind), |slots| - 1, KindAt(slots, kind),
                   OfKind(slots[|slots| - 1], kind));
    }
  }

  predicate OfKind(s: Slot, kind: Kind) {
    && s.role.Controller?
    && match kind
       case SCSI => s.role.model.ScsiModel?
       case NVMe => s.role.model == NvmeModel
       case SATA => s.role.model == SataModel
  }

  /** No controller before place i has the key. */
  predicate FirstWithKey(slots: Slots, key: int, i: nat)
    requires i < |slots|
  {
    slots[i].key == key && forall j :: 0 <= j < i ==> !(slots[j].role.Controller? && slots[j].key == key)
  }

  /** The disk hangs off a controller of the kind, the first one with its key. */
  predicate BehindKind(slots: Slots, d: Slot, kind: Kind) {
    exists i: nat :: i < |slots| && FirstWithKey(slots, d.controllerKey, i) && OfKind(slots[i], kind)
  }

  lemma KindOfKeyUnfolds(slots: Slots, key: int, kind: Kind)
    ensures slots == [] ==> KindOfKey(slots, key) == None
    ensures slots != [] && slots[0].role.Controller? && slots[0].key == key ==>
              (KindOfKey(slots, key) == Some(kind) <==> OfKind(slots[0], kind))
    ensures slots != [] && !(slots[0].role.Controller? && slots[0].key == key) ==>
              KindOfKey(slots, key) == KindOfKey(slots[1..], key)
  {
  }

  lemma {:induction false} KindOfKeyIff(slots: Slots, d: Slot, kind: Kind)
    ensures KindOfKey(slots, d.controllerKey) == Some(kind) <==> BehindKind(slots, d, kind)
  {
    hide KindOfKey, OfKind;
    KindOfKeyUnfolds(slots, d.controllerKey, kind);
    if slots != [] {
      OfKindIsController(slots[0], kind);
      var rest := slots[1..];
      if slots[0].role.Controller? && slots[0].key == d.controllerKey {
        assert FirstWithKey(slots, d.controllerKey, 0);
      } else {
        KindOfKeyIff(rest, d, kind);
        forall i: nat | i < |rest|
          ensures FirstWithKey(rest, d.controllerKey, i) <==> FirstWithKey(slots, d.controllerKey, i + 1)
        {
          assert forall j :: 0 <= j < i ==> rest[j] == slots[j + 1];
          assert forall j :: 0 < j < i + 1 ==> slots[j] == rest[j - 1];
        }
        if BehindKind(slots, d, kind) {
          var i: nat :| i < |slots| && FirstWithKey(slots, d.controllerKey, i) && OfKind(slots[i], kind);
          assert rest[i - 1] == slots[i];
        }
      }
    }
  }

  lemma OfKindIsController(s: Slot, kind: Kind)
    ensures OfKind(s, kind) ==> s.role.Controller?
  {
  }

  lemma CountDisksByKindUnfolds(disks: Slots, slots: Slots, kind: Kind)
    requires disks != []
    ensures var last := disks[|disks| - 1];
            CountDisksByKind(disks, slots, kind)
            == CountDisksByKind(disks[..|disks| - 1], slots, kind)
               + (if last.role.Disk? && KindOfKey(slots, last.controllerKey) == Some(kind) then 1 else 0)
  {
    hide KindOfKey;
  }

  /** The places of the disks behind controllers of the kind. */
  ghost function DisksBehind(disks: Slots, slots: Slots, kind: Kind): set<nat> {
    set i: nat | i < |disks| && disks[i].role.Disk? && BehindKind(slots, disks[i], kind)
  }

  lemma DisksBehindStep(disks: Slots, slots: Slots, kind: Kind)
    requires disks != []
    ensures var n, front := |disks| - 1, DisksBehind(disks[..|disks| - 1], slots, kind);
            n !in front
            && DisksBehind(disks, slots, kind)
               == if disks[n].role.Disk? && BehindKind(slots, disks[n], kind) then front + {n} else front
  {
    hide BehindKind;
  }

  lemma {:induction false} CountDisksByKindIs(disks: Slots, slots: Slots, kind: Kind)
    ensures CountDisksByKind(disks, slots, kind) == |DisksBehind(disks, slots, kind)|
  {
    hide *;
    if disks == [] {
      NoDisksBehind(slots, kind);
    } else {
      var last := disks[|disks| - 1];
      CountDisksByKindIs(disks[..|disks| - 1], slots, kind);
      CountDisksByKindUnfolds(disks, slots, kind);
      KindOfKeyIff(slots, last, kind);
      DisksBehindStep(disks, slots, kind);
      OneMorePlace(DisksBehind(disks[..|disks| - 1], slots, kind), |disks| - 1, DisksBehind(disks, slots, kind),
                   last.role.Disk? && BehindKind(slots, last, kind));
    }
  }

  lemma NoDisksBehind(slots: Slots, kind: Kind)
    ensures CountDisksByKind([], slots, kind) == 0 && DisksBehind([], slots, kind) == {}
  {
    hide BehindKind;
  }

  /** The aggregate validation in numbers. */
  lemma AggregateIs(slots: Slots)
    ensures WithinAggregate(slots) <==>
              && |DisksBehind(slots, slots, SATA)| <= 120 && |DisksBehind(slots, slots, NVMe)| <= 60
              && |DisksBehind(slots, slots, SCSI)| <=
                 if exists i :: 0 <= i < |slots| && slots[i].role.Controller? && slots[i].role.model == ScsiModel(true)
                 then 256 else 60
  {
    hide CountDisksByKind, DisksBehind;
    CountDisksByKindIs(slots, slots, SATA);
    CountDisksByKindIs(slots, slots, NVMe);
    CountDisksByKindIs(slots, slots, SCSI);
  }

  /** One more controller of a kind is allowed while there are fewer than four. */
  lemma ControllerRoomIs(slots: Slots, kind: Kind)
    ensures RoomForController(slots, kind) <==> |KindAt(slots, kind)| < 4
  {
    CountKindIs(slots, kind);
    hide CountKind, KindAt;
  }

  /** One more disk is allowed on a controller while it has fewer than it takes. */
  lemma DiskRoomIs(slots: Slots, c: Slot)
    requires c.role.Controller?
    ensures RoomForDisk(slots, c) <==>
              |DisksAt(slots, c.key)|
              < match c.role.model
                case ScsiModel(pv) => if pv then 64 else 15
                case NvmeModel => 15
                case SataModel => 30
                case OtherModel => 16
  {
    CountDisksOnIs(slots, c.key);
    hide CountDisksOn, DisksAt;
  }
}
