/**
 What every run of the allocator keeps: device keys stay distinct, no unit gets
 two devices, and no controller or controller kind exceeds its limit. The last
 makes the final aggregate validation redundant.
 */
module AllocatorSafety {
  import opened Wrappers
  import opened ControllerAddress
  import opened DeviceList
  import opened UnitCapacity
  import opened Allocator
  import opened AllocatorOrder

  /** Keys identify devices and new keys are unused. */
  ghost predicate WellKeyed(slots: Slots) {
    DistinctKeys(slots) && Linked(slots)
  }

  ghost predicate WithinLimits(slots: Slots) {
    WithinDiskLimits(slots) && WithinControllerLimits(slots)
  }

  // ----- appending one device -----

  lemma {:induction false} AppendedCounts(slots: Slots, x: Slot)
    ensures forall key ::
            CountDisksOn(slots + [x], key) == CountDisksOn(slots, key) + (if IsDiskOn(x, key) then 1 else 0)
    ensures forall kind :: CountKind(slots + [x], kind) == CountKind(slots, kind) + (if IsKind(x, kind) then 1 else 0)
    ensures NewKey(slots + [x]) <= NewKey(slots)
  {
  }

  lemma {:induction false} NothingOnUnusedKey(slots: Slots, key: int)
    requires forall i :: 0 <= i < |slots| ==> slots[i].controllerKey != key
    ensures CountDisksOn(slots, key) == 0
  {
    if slots != [] {
      NothingOnUnusedKey(slots[..|slots| - 1], key);
    }
  }

  lemma {:induction false} AppendKeepsKeys(slots: Slots, x: Slot)
    requires WellKeyed(slots)
    requires x.key == NewKey(slots) && x.controllerKey > NewKey(slots)
    ensures WellKeyed(slots + [x])
  {
  }

  lemma {:induction false} AppendControllerKeeps(slots: Slots, t: ControllerType)
    requires WellKeyed(slots) && AddController(slots, t).Some?
    ensures var s := AddController(slots, t).value;
            && WellKeyed(s)
            && (OnePerUnit(slots) ==> OnePerUnit(s))
            && (WithinLimits(slots) ==> WithinLimits(s))
  {
    var c := CreateController(slots, t).value;
    AppendKeepsKeys(slots, c);
    AppendedCounts(slots, c);
    NothingOnUnusedKey(slots, c.key);
  }

  /** A disk put on a controller of the list with room, at a unit no sibling holds. */
  lemma {:induction false} AppendDiskKeeps(slots: Slots, at: nat, unit: int)
    requires WellKeyed(slots) && at < |slots| && slots[at].role.Controller?
    requires RoomForDisk(slots, slots[at])
    requires forall i :: 0 <= i < |slots| && slots[i].controllerKey == slots[at].key ==> slots[i].unit != Some(unit)
    ensures var s := slots + [Slot(NewKey(slots), slots[at].key, Some(unit), Disk)];
            && WellKeyed(s)
            && (OnePerUnit(slots) ==> OnePerUnit(s))
            && (WithinLimits(slots) ==> WithinLimits(s))
  {
    var x := Slot(NewKey(slots), slots[at].key, Some(unit), Disk);
    AppendKeepsKeys(slots, x);
    AppendedCounts(slots, x);
    var s := slots + [x];
    if WithinLimits(slots) {
      forall i | 0 <= i < |s| && s[i].role.Controller?
        ensures CountDisksOn(s, s[i].key) <= MaxDisks(s[i].role.model)
      {
        assert s[i] == slots[i];
        assert i != at ==> slots[i].key != slots[at].key;
      }
    }
  }

  // ----- the legacy phase -----

  /** Controllers created for legacy blocks: only well-placed disks hang off them. */
  ghost predicate OwnControllers(slots: Slots, base: nat, count: nat) {
    && base + count <= |slots|
    && forall j :: base <= j < base + count ==>
         && slots[j].role.Controller? && slots[j].key < 0
         && OnOwnUnit(slots[j]) && WellPlaced(slots, slots[j])
         && OnlyDisks(slots, slots[j].key)
  }

  ghost predicate OnlyDisks(slots: Slots, key: int) {
    forall i :: 0 <= i < |slots| && slots[i].controllerKey == key ==> slots[i].role.Disk?
  }

  lemma {:induction false} AddControllersKeeps(slots: Slots, base: nat, types: seq<ControllerType>)
    requires WellKeyed(slots) && base <= |slots| && OwnControllers(slots, base, |slots| - base)
    requires AddControllers(slots, types).Some?
    ensures var s := AddControllers(slots, types).value;
            && WellKeyed(s) && OwnControllers(s, base, |s| - base)
            && (OnePerUnit(slots) ==> OnePerUnit(s))
            && (WithinLimits(slots) ==> WithinLimits(s))
    decreases |types|
  {
    hide *;
    if types == [] {
      AddNothing(slots);
    } else {
      AddControllersFirst(slots, types);
      AppendControllerKeeps(slots, types[0]);
      NewOwnController(slots, base, types[0]);
      AddControllersKeeps(AddController(slots, types[0]).value, base, types[1..]);
    }
  }

  lemma AddNothing(slots: Slots)
    ensures AddControllers(slots, []) == Some(slots)
  {
  }

  lemma AddControllersFirst(slots: Slots, types: seq<ControllerType>)
    requires types != []
    ensures var first := AddController(slots, types[0]);
            AddControllers(slots, types) == if first.None? then None else AddControllers(first.value, types[1..])
  {
  }

  /** A new controller carries nothing, and nothing else changes for those before it. */
  lemma {:induction false} NewOwnController(slots: Slots, base: nat, t: ControllerType)
    requires WellKeyed(slots) && base <= |slots| && OwnControllers(slots, base, |slots| - base)
    requires AddController(slots, t).Some?
    ensures var next := AddController(slots, t).value; OwnControllers(next, base, |next| - base)
  {
    var next, c := AddController(slots, t).value, CreateController(slots, t).value;
    hide NewKey, CountKind;
    assert next == slots + [c];
    forall j | base <= j < |next|
      ensures next[j].role.Controller? && next[j].key < 0 && OnOwnUnit(next[j])
      ensures WellPlaced(next, next[j]) && OnlyDisks(next, next[j].key)
    {
      if j < |slots| {
        WellPlacedGrows(slots, slots[j], c);
      }
    }
  }

  lemma {:induction false} WellPlacedGrows(slots: Slots, c: Slot, x: Slot)
    requires c.role.Controller? && WellPlaced(slots, c) && OnlyDisks(slots, c.key)
    requires x.controllerKey == c.key ==>
               && x.role.Disk? && x.unit.Some? && Usable(c.role.model, x.unit.value)
               && !Occupied(slots, c, x.unit.value)
    ensures WellPlaced(slots + [x], c) && OnlyDisks(slots + [x], c.key)
  {
  }

  lemma {:induction false} OwnControllersGrow(slots: Slots, base: nat, count: nat, at: nat, x: Slot)
    requires DistinctKeys(slots) && OwnControllers(slots, base, count) && base <= at < base + count
    requires x.role.Disk? && x.controllerKey == slots[at].key && x.unit.Some?
    requires Usable(slots[at].role.model, x.unit.value) && !Occupied(slots, slots[at], x.unit.value)
    ensures OwnControllers(slots + [x], base, count)
  {
    forall j | base <= j < base + count
      ensures WellPlaced(slots + [x], slots[j]) && OnlyDisks(slots + [x], slots[j].key)
    {
      assert j != at ==> slots[j].key != slots[at].key;
      WellPlacedGrows(slots, slots[j], x);
    }
  }

  lemma {:induction false} LegacyStepKeeps(st: State, base: nat, count: nat, block: Block, i: nat)
    requires WellKeyed(st.slots) && OwnControllers(st.slots, base, count)
    requires LegacyStep(st, base, count, block, i).Success?
    ensures var next := LegacyStep(st, base, count, block, i).value;
            var disk := next.slots[|st.slots|];
            && WellKeyed(next.slots) && OwnControllers(next.slots, base, count)
            && (OnePerUnit(st.slots) ==> OnePerUnit(next.slots))
            && (WithinLimits(st.slots) ==> WithinLimits(next.slots))
            && disk.controllerKey == st.slots[base + block.controllerIndex].key
            && Usable(st.slots[base + block.controllerIndex].role.model, disk.unit.value)
  {
    var slots, at := st.slots, base + block.controllerIndex;
    var c := slots[at];
    RoomFindsUnit(slots, c);
    var unit := AssignedUnit(slots, c);
    AppendDiskKeeps(slots, at, unit);
    OwnControllersGrow(slots, base, count, at, Slot(NewKey(slots), c.key, Some(unit), Disk));
  }

  lemma {:induction false} LegacyRunKeeps(st: State, base: nat, count: nat, storage: seq<Block>, order: seq<nat>)
    requires WellKeyed(st.slots) && OwnControllers(st.slots, base, count) && Indexes(order, |storage|)
    requires LegacyRun(st, base, count, storage, order).Success?
    ensures var done := LegacyRun(st, base, count, storage, order).value;
            && WellKeyed(done.slots)
            && (OnePerUnit(st.slots) ==> OnePerUnit(done.slots))
            && (WithinLimits(st.slots) ==> WithinLimits(done.slots))
    decreases |order|
  {
    if order != [] {
      LegacyStepKeeps(st, base, count, storage[order[0]], order[0]);
      LegacyRunKeeps(LegacyStep(st, base, count, storage[order[0]], order[0]).value, base, count, storage, order[1..]);
    }
  }

  lemma {:induction false} LegacyPhaseKeeps(slots: Slots, types: seq<ControllerType>, storage: seq<Block>)
    requires WellKeyed(slots) && LegacyPhase(slots, types, storage).Success?
    ensures var done := LegacyPhase(slots, types, storage).value;
            && WellKeyed(done.slots)
            && (OnePerUnit(slots) ==> OnePerUnit(done.slots))
            && (WithinLimits(slots) ==> WithinLimits(done.slots))
  {
    var order := LegacyBlocks(storage);
    if order != [] {
      AddControllersKeeps(slots, |slots|, types);
      AddedAreControllers(slots, types);
      LegacyRunKeeps(Init(AddControllers(slots, types).value), |slots|, |types|, storage, order);
    }
  }

  // ----- the explicit phase -----

  lemma {:induction false} ExplicitStepKeeps(st: State, types: seq<ControllerType>, block: Block, i: nat)
    requires WellKeyed(st.slots) && ExplicitStep(st, types, block, i).Success?
    ensures var next := ExplicitStep(st, types, block, i).value;
            && WellKeyed(next.slots)
            && (OnePerUnit(st.slots) ==> OnePerUnit(next.slots))
            && (WithinLimits(st.slots) ==> WithinLimits(next.slots))
  {
    var a := Parse(block.controllerUnit).value;
    var found := FindByBus(st.slots, a.kind, a.bus);
    if found.Some? {
      AppendDiskKeeps(st.slots, found.value, a.unit);
    } else {
      var opening := OpenBus(st, types, a).value;
      AppendControllerKeeps(st.slots, types[st.typeIndex]);
      AppendDiskKeeps(opening.slots, |st.slots|, a.unit);
    }
  }

  lemma {:induction false} ExplicitRunKeeps(st: State, types: seq<ControllerType>, storage: seq<Block>, order: seq<nat>)
    requires WellKeyed(st.slots) && Indexes(order, |storage|)
    requires ExplicitRun(st, types, storage, order).Success?
    ensures var done := ExplicitRun(st, types, storage, order).value;
            && WellKeyed(done.slots)
            && (OnePerUnit(st.slots) ==> OnePerUnit(done.slots))
            && (WithinLimits(st.slots) ==> WithinLimits(done.slots))
    decreases |order|
  {
    if order != [] {
      ExplicitStepKeeps(st, types, storage[order[0]], order[0]);
      ExplicitRunKeeps(ExplicitStep(st, types, storage[order[0]], order[0]).value, types, storage, order[1..]);
    }
  }

  // ----- whole runs -----

  /** Allocation safety, for every mix of legacy and explicit blocks. */
  lemma {:induction false} RunKeepsInvariants(slots: Slots, types: seq<ControllerType>, storage: seq<Block>,
                                              aggregate: bool)
    requires WellKeyed(slots) && Run(slots, types, storage, aggregate).Success?
    ensures var done := Run(slots, types, storage, aggregate).value;
            && slots <= done.slots && WellKeyed(done.slots)
            && (OnePerUnit(slots) ==> OnePerUnit(done.slots))
            && (WithinLimits(slots) ==> WithinLimits(done.slots))
  {
    RunIsLogged(slots, types, storage, aggregate);
    hide LogIsExact;
    if storage != [] {
      LegacyPhaseKeeps(slots, types, storage);
      ExplicitRunKeeps(LegacyPhase(slots, types, storage).value, types, storage, ExplicitBlocks(storage));
    }
  }

  // ----- the aggregate validation -----

  /** Disks of all controllers of a kind, one controller at a time. */
  ghost function DisksOnKind(controllers: Slots, disks: Slots, kind: Kind): nat {
    if controllers == [] then 0
    else
      var c := controllers[|controllers| - 1];
      DisksOnKind(controllers[..|controllers| - 1], disks, kind)
      + (if IsKind(c, kind) then CountDisksOn(disks, c.key) else 0)
  }

  /** Controllers of the kind with the key: at most one, when keys are distinct. */
  ghost function CountOwners(controllers: Slots, kind: Kind, key: int): nat {
    if controllers == [] then 0
    else
      var c := controllers[|controllers| - 1];
      CountOwners(controllers[..|controllers| - 1], kind, key) + (if IsKind(c, kind) && c.key == key then 1 else 0)
  }

  lemma {:induction false} KindOfKeyIs(slots: Slots, at: nat)
    requires DistinctKeys(slots) && at < |slots| && slots[at].role.Controller?
    ensures KindOfKey(slots, slots[at].key) == KindOf(slots[at].role.model)
  {
    if at > 0 {
      assert slots[0].key != slots[at].key;
      KindOfKeyIs(slots[1..], at - 1);
    }
  }

  lemma {:induction false} KindOfMissingKey(slots: Slots, key: int)
    requires forall i :: 0 <= i < |slots| && slots[i].role.Controller? ==> slots[i].key != key
    ensures KindOfKey(slots, key) == None
  {
    if slots != [] {
      KindOfMissingKey(slots[1..], key);
    }
  }

  lemma {:induction false} NoOwner(controllers: Slots, kind: Kind, key: int)
    requires forall i :: 0 <= i < |controllers| && IsKind(controllers[i], kind) ==> controllers[i].key != key
    ensures CountOwners(controllers, kind, key) == 0
  {
    if controllers != [] {
      NoOwner(controllers[..|controllers| - 1], kind, key);
    }
  }

  lemma {:induction false} OneOwner(controllers: Slots, kind: Kind, at: nat)
    requires DistinctKeys(controllers) && at < |controllers|
    ensures CountOwners(controllers, kind, controllers[at].key) == if IsKind(controllers[at], kind) then 1 else 0
  {
    var n := |controllers| - 1;
    if at == n {
      NoOwner(controllers[..n], kind, controllers[at].key);
    } else {
      assert controllers[at].key != controllers[n].key;
      OneOwner(controllers[..n], kind, at);
    }
  }

  lemma {:induction false} OwnersAreKind(slots: Slots, kind: Kind, key: int)
    requires DistinctKeys(slots)
    ensures CountOwners(slots, kind, key) == if KindOfKey(slots, key) == Some(kind) then 1 else 0
  {
    if at :| 0 <= at < |slots| && slots[at].role.Controller? && slots[at].key == key {
      OneOwner(slots, kind, at);
      KindOfKeyIs(slots, at);
    } else {
      KindOfMissingKey(slots, key);
      NoOwner(slots, kind, key);
    }
  }

  /** One more disk raises the per-controller total once for each controller of the kind it hangs off. */
  lemma {:induction false} DiskJoinsKind(controllers: Slots, disks: Slots, x: Slot, kind: Kind)
    ensures DisksOnKind(controllers, disks + [x], kind)
            == DisksOnKind(controllers, disks, kind)
               + (if x.role.Disk? then CountOwners(controllers, kind, x.controllerKey) else 0)
  {
    if controllers != [] {
      DiskJoinsKind(controllers[..|controllers| - 1], disks, x, kind);
      AppendedCounts(disks, x);
    }
  }

  lemma {:induction false} NoDisksOnKind(controllers: Slots, kind: Kind)
    ensures DisksOnKind(controllers, [], kind) == 0
  {
    if controllers != [] {
      NoDisksOnKind(controllers[..|controllers| - 1], kind);
    }
  }

  /** Double counting: disks counted by kind are the disks of that kind's controllers. */
  lemma {:induction false} DisksByKindIsSum(disks: Slots, slots: Slots, kind: Kind)
    requires DistinctKeys(slots)
    ensures CountDisksByKind(disks, slots, kind) == DisksOnKind(slots, disks, kind)
  {
    if disks == [] {
      NoDisksOnKind(slots, kind);
    } else {
      var front, x := disks[..|disks| - 1], disks[|disks| - 1];
      DisksByKindIsSum(front, slots, kind);
      DiskJoinsKind(slots, front, x, kind);
      assert disks == front + [x];
      OwnersAreKind(slots, kind, x.controllerKey);
    }
  }

  lemma {:induction false} KindTotalBounded(controllers: Slots, disks: Slots, kind: Kind, most: nat)
    requires forall i :: 0 <= i < |controllers| && IsKind(controllers[i], kind) ==>
            CountDisksOn(disks, controllers[i].key) <= most
    ensures DisksOnKind(controllers, disks, kind) <= CountKind(controllers, kind) * most
  {
    if controllers != [] {
      var front := controllers[..|controllers| - 1];
      KindTotalBounded(front, disks, kind, most);
      assert (CountKind(front, kind) + 1) * most == CountKind(front, kind) * most + most;
    }
  }

  lemma {:induction false} LimitsImplyAggregate(slots: Slots)
    requires DistinctKeys(slots) && WithinLimits(slots)
    ensures WithinAggregate(slots)
  {
    DisksByKindIsSum(slots, slots, SATA);
    DisksByKindIsSum(slots, slots, NVMe);
    DisksByKindIsSum(slots, slots, SCSI);
    KindTotalBounded(slots, slots, SATA, MAX_SATA_UNIT + 1);
    KindTotalBounded(slots, slots, NVMe, MAX_NVME_UNIT + 1);
    KindTotalBounded(slots, slots, SCSI, if HasPvscsi(slots) then MAX_PVSCSI_DISKS else MAX_LSI_DISKS);
  }

  /**
   The final aggregate validation never rejects what the per-disk checks let
   through: with or without it, the run is the same.
   */
  lemma {:induction false} AggregateIsImplied(slots: Slots, types: seq<ControllerType>, storage: seq<Block>)
    requires WellKeyed(slots) && WithinLimits(slots)
    ensures Run(slots, types, storage, true) == Run(slots, types, storage, false)
  {
    if Run(slots, types, storage, false).Success? {
      RunKeepsInvariants(slots, types, storage, false);
      LimitsImplyAggregate(Run(slots, types, storage, false).value.slots);
    }
  }
}
