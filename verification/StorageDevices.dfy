/**
 AddStorageDevices on real device objects. Controllers are shared: the list
 handed in and the list worked on hold the same objects, and attaching a disk
 extends its controller's child list in place. Each method is tied to the
 allocator function on the slots of the list.
 */
module StorageDevices {
  import opened Wrappers
  import opened ControllerAddress
  import opened DeviceList
  import opened Allocator
  import opened AllocatorSafety
  import opened AllocatorOrder
  import opened DeviceScan

  /** Per-disk placement; an empty name or nil reference leaves that part unset. */
  datatype DiskDatastore = DiskDatastore(name: string, ref: Option<string>)

  /** Capacity and backing of a disk. */
  datatype DiskBody = DiskBody(
    capacityInKB: int,
    thinProvisioned: bool,
    eagerlyScrub: bool,
    fileName: string,
    datastore: Option<string>)

  const NO_BODY := DiskBody(0, false, false, "", None)

  class Device {
    var key: int
    var controllerKey: int
    var unit: Option<int>
    /** Keys of the devices attached to a controller. */
    var children: seq<int>
    const role: Role
    const body: DiskBody

    constructor (slot: Slot, body: DiskBody)
      ensures AsSlot() == slot && this.body == body && children == []
    {
      key, controllerKey, unit, role := slot.key, slot.controllerKey, slot.unit, slot.role;
      children := [];
      this.body := body;
    }

    function AsSlot(): Slot
      reads `key, `controllerKey, `unit
    {
      Slot(key, controllerKey, unit, role)
    }
  }

  type VirtualDeviceList = seq<Device>

  function SlotsOf(devices: VirtualDeviceList): (slots: Slots)
    reads devices`key, devices`controllerKey, devices`unit
    ensures |slots| == |devices|
    ensures forall i :: 0 <= i < |devices| ==> slots[i] == devices[i].AsSlot()
  {
    if devices == [] then [] else SlotsOf(devices[..|devices| - 1]) + [devices[|devices| - 1].AsSlot()]
  }

  /** A device to add, with the storage policy profile of its spec. */
  datatype ConfigSpec = ConfigSpec(device: Device, profile: Option<string>)

  datatype StorageConfig = StorageConfig(
    diskControllerType: seq<ControllerType>,
    storage: seq<Block>,
    diskDatastores: seq<DiskDatastore>)

  /** The backing and capacity block i asks for, with the placement at index i. */
  function BodyOf(config: StorageConfig, i: nat): DiskBody
    requires i < |config.storage|
  {
    var block := config.storage[i];
    var placement := if i < |config.diskDatastores| then config.diskDatastores[i] else DiskDatastore("", None);
    DiskBody(
      block.size * 1024,
      block.thinProvisioned,
      block.eagerlyScrub,
      if placement.name != "" then "[" + placement.name + "]" else "",
      placement.ref)
  }

  function DisksIn(devices: VirtualDeviceList): VirtualDeviceList {
    if devices == [] then []
    else
      var last := devices[|devices| - 1];
      DisksIn(devices[..|devices| - 1]) + (if last.role.Disk? then [last] else [])
  }

  /** The disks of the list carry the bodies of the blocks served, in that order. */
  ghost predicate BodiesMatch(config: StorageConfig, devices: VirtualDeviceList, blocks: seq<nat>) {
    var disks := DisksIn(devices);
    && |disks| == |blocks| && Indexes(blocks, |config.storage|)
    && forall k :: 0 <= k < |disks| ==> disks[k].body == BodyOf(config, blocks[k])
  }

  /** Keys of the disks attached to a controller key, in list order. */
  ghost function KeysOn(slots: Slots, key: int): seq<int> {
    if slots == [] then []
    else
      var last := slots[|slots| - 1];
      KeysOn(slots[..|slots| - 1], key) + (if IsDiskOn(last, key) then [last.key] else [])
  }

  ghost function ChildrenOf(devices: VirtualDeviceList): (was: seq<seq<int>>)
    reads devices`children
    ensures |was| == |devices|
    ensures forall i :: 0 <= i < |devices| ==> was[i] == devices[i].children
  {
    if devices == [] then [] else ChildrenOf(devices[..|devices| - 1]) + [devices[|devices| - 1].children]
  }

  // ----- appending to the lists -----

  lemma {:induction false} SlotsAppend(devices: VirtualDeviceList, d: Device)
    ensures SlotsOf(devices + [d]) == SlotsOf(devices) + [d.AsSlot()]
  {
  }

  lemma {:induction false} DisksAppend(config: StorageConfig, devices: VirtualDeviceList, blocks: seq<nat>, d: Device,
                                       i: nat)
    requires BodiesMatch(config, devices, blocks)
    requires d.role.Disk? ==> i < |config.storage| && d.body == BodyOf(config, i)
    ensures BodiesMatch(config, devices + [d], if d.role.Disk? then blocks + [i] else blocks)
  {
  }

  lemma {:induction false} NothingLinked(linked: Slots, key: int)
    requires forall k :: 0 <= k < |linked| ==> linked[k].controllerKey != key
    ensures KeysOn(linked, key) == []
  {
    if linked != [] {
      NothingLinked(linked[..|linked| - 1], key);
    }
  }

  lemma KeysOnUnfolds(slots: Slots, key: int)
    requires slots != []
    ensures var last := slots[|slots| - 1];
            KeysOn(slots, key)
            == KeysOn(slots[..|slots| - 1], key)
               + if last.role.Disk? && last.controllerKey == key then [last.key] else []
  {
  }

  /** KeysOn lists the key of every disk with that controller key and of no other device, in list order. */
  lemma {:induction false} KeysOnAt(slots: Slots, key: int) returns (at: seq<nat>)
    ensures |at| == |KeysOn(slots, key)|
    ensures forall k :: 0 <= k < |at| ==>
              && at[k] < |slots| && slots[at[k]].role.Disk? && slots[at[k]].controllerKey == key
              && KeysOn(slots, key)[k] == slots[at[k]].key
    ensures forall j, k :: 0 <= j < k < |at| ==> at[j] < at[k]
    ensures forall i :: 0 <= i < |slots| && slots[i].role.Disk? && slots[i].controllerKey == key ==> i in at
  {
    if slots == [] {
      at := [];
    } else {
      hide KeysOn;
      KeysOnUnfolds(slots, key);
      var n := |slots| - 1;
      var front := slots[..n];
      at := KeysOnAt(front, key);
      assert forall i :: 0 <= i < n && slots[i].role.Disk? && slots[i].controllerKey == key ==>
                           front[i] == slots[i] && i in at;
      if slots[n].role.Disk? && slots[n].controllerKey == key {
        at := at + [n];
        assert at[|at| - 1] == n;
      }
    }
  }

  /** Linked disks hang off keys already in the list. */
  ghost predicate LinksKnown(slots: Slots, linked: Slots) {
    forall k :: 0 <= k < |linked| ==> linked[k].controllerKey > NewKey(slots)
  }

  /**
   When keys identify devices, each child list is the one given (empty for a new
   device) extended by the keys of the linked disks on that device, in order.
   */
  ghost predicate ListsExact(slots: Slots, lists: seq<seq<int>>, was: seq<seq<int>>, linked: Slots) {
    |lists| == |slots| &&
    (DistinctKeys(slots) ==>
       && |was| <= |slots| && LinksKnown(slots, linked)
       && forall i :: 0 <= i < |slots| ==>
            lists[i] == (if i < |was| then was[i] else []) + KeysOn(linked, slots[i].key))
  }

  lemma {:induction false} DistinctPrefix(slots: Slots, x: Slot)
    requires DistinctKeys(slots + [x])
    ensures DistinctKeys(slots)
  {
    assert forall i :: 0 <= i < |slots| ==> (slots + [x])[i] == slots[i];
  }

  /** A new device starts with no children: nothing linked so far hangs off its key. */
  lemma {:induction false} ListsAppend(slots: Slots, lists: seq<seq<int>>, was: seq<seq<int>>, linked: Slots, x: Slot)
    requires ListsExact(slots, lists, was, linked) && x.key == NewKey(slots)
    ensures ListsExact(slots + [x], lists + [[]], was, linked)
  {
    if DistinctKeys(slots + [x]) {
      DistinctPrefix(slots, x);
      AppendedCounts(slots, x);
      NothingLinked(linked, x.key);
    }
  }

  /** Linking a disk to the controller at one place extends that list only. */
  lemma {:induction false} ListsLink(slots: Slots, lists: seq<seq<int>>, was: seq<seq<int>>, linked: Slots, at: nat,
                                     x: Slot)
    requires ListsExact(slots, lists, was, linked) && at < |slots|
    requires x.role.Disk? && x.controllerKey == slots[at].key
    ensures ListsExact(slots, lists[at := lists[at] + [x.key]], was, linked + [x])
  {
  }

  /** Devices other than disks in the linked list do not matter. */
  lemma {:induction false} ListsSkip(slots: Slots, lists: seq<seq<int>>, was: seq<seq<int>>, linked: Slots, x: Slot)
    requires ListsExact(slots, lists, was, linked) && !x.role.Disk? && x.controllerKey > NewKey(slots)
    ensures ListsExact(slots, lists, was, linked + [x])
  {
  }

  // ----- library contracts on device objects -----

  method CreateControllerDevice(devices: VirtualDeviceList, t: ControllerType) returns (d: Device?)
    ensures d == null <==> CreateController(SlotsOf(devices), t).None?
    ensures d != null ==> fresh(d) && Some(d.AsSlot()) == CreateController(SlotsOf(devices), t) && d.children == []
  {
    var slot := CreateController(SlotsOf(devices), t);
    if slot.None? {
      return null;
    }
    d := new Device(slot.value, NO_BODY);
  }

  /** AssignController: picks the unit and links the key. */
  method AssignController(devices: VirtualDeviceList, disk: Device, controller: Device)
    requires controller.role.Controller? && disk !in devices && disk != controller
    modifies disk`controllerKey, disk`unit, controller`children
    ensures disk.controllerKey == controller.key
    ensures disk.unit == Some(AssignedUnit(SlotsOf(devices), controller.AsSlot()))
    ensures controller.children == old(controller.children) + [disk.key]
  {
    disk.controllerKey := controller.key;
    disk.unit := Some(AssignedUnit(SlotsOf(devices), controller.AsSlot()));
    controller.children := controller.children + [disk.key];
  }

  // ----- the allocator -----

  /** buildDisk */
  method BuildDisk(config: StorageConfig, devices: VirtualDeviceList, i: nat) returns (disk: Device)
    requires i < |config.storage|
    ensures fresh(disk) && disk.role == Disk && disk.children == []
    ensures disk.key == NewKey(SlotsOf(devices)) && disk.body == BodyOf(config, i)
  {
    disk := new Device(Slot(NewKey(SlotsOf(devices)), 0, None, Disk), BodyOf(config, i));
  }

  /** assignDiskAtUnit */
  method AssignDiskAtUnit(devices: VirtualDeviceList, disk: Device, controller: Device, unit: int, linkController: bool)
    requires disk != controller
    modifies disk`controllerKey, disk`unit, disk`key, controller`children
    ensures disk.controllerKey == controller.key && disk.unit == Some(unit)
    ensures disk.key == if old(disk.key) == 0 then NewKey(old(SlotsOf(devices))) else old(disk.key)
    ensures controller.children == if linkController then old(controller.children) + [disk.key]
            else old(controller.children)
  {
    var newKey := NewKey(SlotsOf(devices));
    disk.controllerKey := controller.key;
    disk.unit := Some(unit);
    if disk.key == 0 {
      disk.key := newKey;
    }
    if linkController {
      controller.children := controller.children + [disk.key];
    }
  }

  /** createController, validateControllerCount and the appends, for one type. */
  method AppendController(devices: VirtualDeviceList, t: ControllerType) returns (d: Device?)
    ensures d == null <==> AddController(SlotsOf(devices), t).None?
    ensures d != null ==>
              && fresh(d) && d.children == [] && d.role.Controller? && d.key == NewKey(SlotsOf(devices))
                   && d.controllerKey == 0
              && AddController(SlotsOf(devices), t) == Some(SlotsOf(devices) + [d.AsSlot()])
  {
    d := CreateControllerDevice(devices, t);
    if d != null {
      var room := ValidateControllerCount(SlotsOf(devices), KindForType(t));
      if !room {
        d := null;
      }
    }
  }

  /** One controller per type for the legacy blocks. */
  method CreateLegacyControllers(existing: VirtualDeviceList, types: seq<ControllerType>)
    returns (created: VirtualDeviceList, ok: bool)
    ensures forall k :: 0 <= k < |created| ==>
            fresh(created[k]) && created[k].children == [] && created[k].role.Controller?
    ensures ok == AddControllers(SlotsOf(existing), types).Some?
    ensures ok ==> SlotsOf(existing + created) == AddControllers(SlotsOf(existing), types).value
  {
    hide *;
    created := [];
    var devices := existing;
    assert types[0..] == types;
    for n := 0 to |types|
      invariant devices == existing + created
      invariant AddControllers(SlotsOf(existing), types) == AddControllers(SlotsOf(devices), types[n..])
      invariant forall k :: 0 <= k < |created| ==>
              fresh(created[k]) && created[k].children == [] && created[k].role.Controller?
    {
      AddControllersUnfolds(SlotsOf(devices), types, n);
      var d := AppendController(devices, types[n]);
      if d == null {
        return created, false;
      }
      SlotsAppend(devices, d);
      assert devices + [d] == existing + (created + [d]);
      devices, created := devices + [d], created + [d];
    }
    AddControllersEnds(SlotsOf(devices), types);
    return created, true;
  }

  lemma {:induction false} AddControllersUnfolds(slots: Slots, types: seq<ControllerType>, n: nat)
    requires n < |types|
    ensures AddControllers(slots, types[n..])
            == var first := AddController(slots, types[n]);
               if first.None? then None else AddControllers(first.value, types[n + 1..])
  {
  }

  lemma {:induction false} AddControllersEnds(slots: Slots, types: seq<ControllerType>)
    ensures AddControllers(slots, types[|types|..]) == Some(slots)
  {
  }

  /** With distinct keys, writing one controller's list is a write at its one place. */
  lemma {:induction false} OnePlace(devices: VirtualDeviceList, lists: seq<seq<int>>, at: nat, key: int)
    requires at < |devices| == |lists| && DistinctKeys(SlotsOf(devices))
    requires forall i :: 0 <= i < |devices| ==>
               devices[i].children == if devices[i] == devices[at] then lists[i] + [key] else lists[i]
    ensures ChildrenOf(devices) == lists[at := lists[at] + [key]]
  {
  }

  lemma {:induction false} LegacyStepIs(st: State, base: nat, count: nat, block: Block, i: nat)
    requires base + count <= |st.slots|
    requires forall j :: base <= j < base + count ==> st.slots[j].role.Controller?
    ensures LegacyStep(st, base, count, block, i)
            == if block.controllerIndex >= count then Failure(Rejected(Some(i)))
               else if block.controllerIndex < 0 then Failure(IndexPanic(i))
               else
                 var c := st.slots[base + block.controllerIndex];
                 if !RoomForDisk(st.slots, c) then Failure(Rejected(Some(i)))
                 else Success(PlaceDisk(st, block, i, c.key, AssignedUnit(st.slots, c)))
  {
  }

  lemma PlaceDiskIs(st: State, block: Block, i: nat, controllerKey: int, unit: int)
    ensures var next := PlaceDisk(st, block, i, controllerKey, unit);
            && next.slots == st.slots + [Slot(NewKey(st.slots), controllerKey, Some(unit), Disk)]
            && next.policies == WithPolicy(st.policies, NewKey(st.slots), block)
            && next.blocks == st.blocks + [i] && next.typeIndex == st.typeIndex && next.pending == st.pending
  {
  }

  lemma SlotIs(d: Device)
    ensures d.AsSlot() == Slot(d.key, d.controllerKey, d.unit, d.role)
  {
  }

  /**
   Builds block i's disk and hangs it off a controller of the list: at the given
   unit, or where AssignController puts it. The caller appends the disk.
   */
  method Attach(config: StorageConfig, existing: VirtualDeviceList, created: VirtualDeviceList, controller: Device,
                i: nat, explicitUnit: Option<int>, link: bool, ghost at: nat, ghost st: State, ghost was: seq<seq<int>>,
                ghost linked: Slots)
    returns (disk: Device)
    requires at < |existing + created| && (existing + created)[at] == controller
    requires controller.role.Controller? && (explicitUnit.None? ==> link) && i < |config.storage|
    requires SlotsOf(existing + created) == st.slots && BodiesMatch(config, created, st.blocks)
    requires ListsExact(st.slots, ChildrenOf(existing + created), was, linked)
    modifies controller`children
    ensures fresh(disk) && disk.role.Disk?
    ensures disk.AsSlot() == Slot(NewKey(st.slots), st.slots[at].key,
                                  Some(if explicitUnit.Some? then explicitUnit.value
                                       else AssignedUnit(st.slots, st.slots[at])), Disk)
    ensures SlotsOf(existing + (created + [disk])) == st.slots + [disk.AsSlot()]
    ensures BodiesMatch(config, created + [disk], st.blocks + [i])
    ensures ListsExact(st.slots + [disk.AsSlot()], ChildrenOf(existing + (created + [disk])), was,
                       if link then linked + [disk.AsSlot()] else linked)
    ensures !link ==> controller.children == old(controller.children)
  {
    hide *;
    var devices := existing + created;
    assert st.slots[at] == SlotsOf(devices)[at] == controller.AsSlot();
    SlotIs(controller);
    disk := BuildDisk(config, devices, i);
    ghost var lists := ChildrenOf(devices);
    if explicitUnit.None? {
      AssignController(devices, disk, controller);
    } else {
      AssignDiskAtUnit(devices, disk, controller, explicitUnit.value, link);
    }
    SlotIs(disk);
    DiskAppended(config, existing, created, st.blocks, disk, i);
    if link {
      LinkedDisk(existing, created, lists, was, linked, at, disk);
    } else {
      assert ChildrenOf(devices) == lists;
      UnlinkedDisk(existing, created, lists, was, linked, disk);
    }
  }

  lemma {:induction false} DiskAppended(config: StorageConfig, existing: VirtualDeviceList, created: VirtualDeviceList,
                                        blocks: seq<nat>, d: Device, i: nat)
    requires BodiesMatch(config, created, blocks) && d.role.Disk? && i < |config.storage| && d.body == BodyOf(config, i)
    ensures SlotsOf(existing + (created + [d])) == SlotsOf(existing + created) + [d.AsSlot()]
    ensures BodiesMatch(config, created + [d], blocks + [i])
  {
  }

  /** The child lists after a disk was linked and appended. */
  lemma {:induction false} LinkedDisk(existing: VirtualDeviceList, created: VirtualDeviceList, lists: seq<seq<int>>,
                                      was: seq<seq<int>>, linked: Slots, at: nat, disk: Device)
    requires at < |existing + created| == |lists| && disk.role.Disk? && disk.children == []
    requires ListsExact(SlotsOf(existing + created), lists, was, linked)
    requires forall i :: 0 <= i < |lists| ==>
               (existing + created)[i].children
               == if (existing + created)[i] == (existing + created)[at] then lists[i] + [disk.key] else lists[i]
    requires disk.controllerKey == (existing + created)[at].key && disk.key == NewKey(SlotsOf(existing + created))
    ensures ListsExact(SlotsOf(existing + (created + [disk])), ChildrenOf(existing + (created + [disk])), was, linked
                       + [disk.AsSlot()])
  {
    hide NewKey, KeysOn, LinksKnown;
    var devices := existing + created;
    assert existing + (created + [disk]) == devices + [disk];
    SlotsAppend(devices, disk);
    ChildrenAppend(devices, disk);
    var slots := SlotsOf(devices);
    if DistinctKeys(slots + [disk.AsSlot()]) {
      DistinctPrefix(slots, disk.AsSlot());
      OnePlace(devices, lists, at, disk.key);
      ListsLink(slots, lists, was, linked, at, disk.AsSlot());
      ListsAppend(slots, ChildrenOf(devices), was, linked + [disk.AsSlot()], disk.AsSlot());
    }
  }

  lemma {:induction false} UnlinkedDisk(existing: VirtualDeviceList, created: VirtualDeviceList, lists: seq<seq<int>>,
                                        was: seq<seq<int>>, linked: Slots, disk: Device)
    requires disk.children == [] && lists == ChildrenOf(existing + created)
    requires ListsExact(SlotsOf(existing + created), lists, was, linked)
    requires disk.key == NewKey(SlotsOf(existing + created))
    ensures ListsExact(SlotsOf(existing + (created + [disk])), ChildrenOf(existing + (created + [disk])), was, linked)
  {
    hide *;
    SlotIs(disk);
    assert existing + (created + [disk]) == (existing + created) + [disk];
    SlotsAppend(existing + created, disk);
    ChildrenAppend(existing + created, disk);
    ListsAppend(SlotsOf(existing + created), lists, was, linked, disk.AsSlot());
  }

  lemma {:induction false} ChildrenAppend(devices: VirtualDeviceList, d: Device)
    ensures ChildrenOf(devices + [d]) == ChildrenOf(devices) + [d.children]
  {
  }

  // ----- the two loops -----

  /** State shared with a loop: the new devices, and child lists against `linked`. */
  ghost predicate Tracks(config: StorageConfig, existing: VirtualDeviceList, created: VirtualDeviceList, st: State,
                         was: seq<seq<int>>, linked: Slots)
    reads (existing + created)`key, (existing + created)`controllerKey, (existing + created)`unit,
            (existing + created)`children
  {
    && SlotsOf(existing + created) == st.slots
    && BodiesMatch(config, created, st.blocks)
    && ListsExact(st.slots, ChildrenOf(existing + created), was, linked)
  }

  lemma {:induction false} TracksIs(config: StorageConfig, existing: VirtualDeviceList, created: VirtualDeviceList,
                                    st: State, was: seq<seq<int>>, linked: Slots)
    ensures Tracks(config, existing, created, st, was, linked) <==>
              && SlotsOf(existing + created) == st.slots
              && BodiesMatch(config, created, st.blocks)
              && ListsExact(st.slots, ChildrenOf(existing + created), was, linked)
  {
  }

  /** The checks of one legacy block, in order. */
  method CheckLegacyBlock(slots: Slots, base: nat, count: nat, block: Block, i: nat) returns (err: Option<AllocError>)
    requires base + count <= |slots|
    requires forall j :: base <= j < base + count ==> slots[j].role.Controller?
    ensures err.Some? ==> forall st: State :: st.slots == slots ==>
            LegacyStep(st, base, count, block, i) == Failure(err.value)
    ensures err.None? ==> 0 <= block.controllerIndex < count && RoomForDisk(slots, slots[base + block.controllerIndex])
  {
    if block.controllerIndex >= count {
      return Some(Rejected(Some(i)));
    }
    if block.controllerIndex < 0 {
      return Some(IndexPanic(i));
    }
    var room := ValidateControllerDiskCapacity(slots, slots[base + block.controllerIndex]);
    return if room then None else Some(Rejected(Some(i)));
  }

  /** One legacy block. */
  method AttachLegacyDisk(config: StorageConfig, existing: VirtualDeviceList, created: VirtualDeviceList, count: nat,
                          i: nat, ghost st: State, ghost was: seq<seq<int>>, ghost linked: Slots)
    returns (disk: Device?, err: Option<AllocError>, ghost next: State)
    requires count <= |created| && i < |config.storage|
    requires forall k :: 0 <= k < count ==> created[k].role.Controller?
    requires Tracks(config, existing, created, st, was, linked)
    modifies created[..count]`children
    ensures |existing| + count <= |st.slots|
    ensures forall j :: |existing| <= j < |existing| + count ==> st.slots[j].role.Controller?
    ensures LegacyStep(st, |existing|, count, config.storage[i], i) == if err.Some? then Failure(err.value)
            else Success(next)
    ensures err.None? ==>
              && disk != null && fresh(disk) && disk.role.Disk?
              && next.slots == st.slots + [disk.AsSlot()]
              && next.policies == WithPolicy(st.policies, disk.key, config.storage[i])
              && Tracks(config, existing, created + [disk], next, was, linked + [disk.AsSlot()])
  {
    TracksIs(config, existing, created, st, was, linked);
    hide *;
    disk, next := null, st;
    var devices := existing + created;
    var slots := SlotsOf(devices);
    forall j | |existing| <= j < |existing| + count
      ensures st.slots[j].role.Controller?
    {
      assert devices[j] == created[j - |existing|];
      SlotIs(devices[j]);
    }
    err := CheckLegacyBlock(slots, |existing|, count, config.storage[i], i);
    if err.Some? {
      return;
    }
    var index := config.storage[i].controllerIndex;
    ghost var at := |existing| + index;
    LegacyStepIs(st, |existing|, count, config.storage[i], i);
    assert devices[at] == created[index];
    disk := Attach(config, existing, created, created[index], i, None, true, at, st, was, linked);
    next := PlaceDisk(st, config.storage[i], i, st.slots[at].key, AssignedUnit(st.slots, st.slots[at]));
    PlaceDiskIs(st, config.storage[i], i, st.slots[at].key, AssignedUnit(st.slots, st.slots[at]));
    TracksIs(config, existing, created + [disk], next, was, linked + [disk.AsSlot()]);
    SlotIs(disk);
  }

  lemma {:induction false} LegacyRunUnfolds(st: State, base: nat, count: nat, storage: seq<Block>, order: seq<nat>,
                                            n: nat)
    requires n < |order| && Indexes(order, |storage|)
    requires base + count <= |st.slots|
    requires forall j :: base <= j < base + count ==> st.slots[j].role.Controller?
    ensures order[n] < |storage| && Indexes(order[n..], |storage|) && Indexes(order[n + 1..], |storage|)
    ensures var step := LegacyStep(st, base, count, storage[order[n]], order[n]);
            && (step.Failure? ==> LegacyRun(st, base, count, storage, order[n..]) == step)
            && (step.Success? ==>
                  && (base + count <= |step.value.slots|)
                  && (forall j :: base <= j < base + count ==> step.value.slots[j].role.Controller?)
                  && LegacyRun(st, base, count, storage, order[n..])
                     == LegacyRun(step.value, base, count, storage, order[n + 1..]))
  {
  }

  lemma {:induction false} LegacyRunEnds(st: State, base: nat, count: nat, storage: seq<Block>, order: seq<nat>)
    requires base + count <= |st.slots|
    requires forall j :: base <= j < base + count ==> st.slots[j].role.Controller?
    ensures LegacyRun(st, base, count, storage, order[|order|..]) == Success(st)
  {
  }

  /** The legacy loop: a disk per block on the controllers created for them. */
  method AttachLegacyDisks(config: StorageConfig, existing: VirtualDeviceList, controllers: VirtualDeviceList,
                           order: seq<nat>, ghost first: State, ghost was: seq<seq<int>>, ghost linkedFirst: Slots)
    returns (created: VirtualDeviceList, policies: map<int, string>, err: Option<AllocError>, ghost st: State)
    requires Indexes(order, |config.storage|) && first.policies == map[]
    requires forall k :: 0 <= k < |controllers| ==> controllers[k].role.Controller?
    requires Tracks(config, existing, controllers, first, was, linkedFirst)
    modifies controllers`children
    ensures |existing| + |controllers| <= |first.slots|
    ensures forall j :: |existing| <= j < |existing| + |controllers| ==> first.slots[j].role.Controller?
    ensures LegacyRun(first, |existing|, |controllers|, config.storage, order)
            == if err.Some? then Failure(err.value) else Success(st)
    ensures err.None? ==>
              && policies == st.policies && controllers <= created && first.slots <= st.slots
              && (forall k :: |controllers| <= k < |created| ==> fresh(created[k]))
              && Tracks(config, existing, created, st, was, linkedFirst + st.slots[|first.slots|..])
  {
    hide *;
    created, policies, err, st := controllers, map[], None, first;
    ghost var base, count := |existing|, |controllers|;
    ControllersInPlace(config, existing, controllers, first, was, linkedFirst, count);
    assert order[0..] == order && linkedFirst + first.slots[|first.slots|..] == linkedFirst;
    for n := 0 to |order|
      invariant err.None? && policies == st.policies && controllers <= created && first.slots <= st.slots
      invariant forall k :: count <= k < |created| ==> fresh(created[k])
      invariant Tracks(config, existing, created, st, was, linkedFirst + st.slots[|first.slots|..])
      invariant base + count <= |st.slots| && forall j :: base <= j < base + count ==> st.slots[j].role.Controller?
      invariant Indexes(order[n..], |config.storage|)
      invariant LegacyRun(first, base, count, config.storage, order)
              == LegacyRun(st, base, count, config.storage, order[n..])
    {
      LegacyRunUnfolds(st, base, count, config.storage, order, n);
      ghost var linked, next := linkedFirst + st.slots[|first.slots|..], st;
      var disk: Device?;
      disk, err, next := AttachLegacyDisk(config, existing, created, |controllers|, order[n], st, was, linked);
      if err.Some? {
        return;
      }
      assert linked + [disk.AsSlot()] == linkedFirst + next.slots[|first.slots|..];
      policies := WithPolicy(policies, disk.key, config.storage[order[n]]);
      created := created + [disk];
      st := next;
    }
    LegacyRunEnds(st, base, count, config.storage, order);
  }

  lemma {:induction false} ControllersInPlace(config: StorageConfig, existing: VirtualDeviceList,
                                              created: VirtualDeviceList, st: State, was: seq<seq<int>>, linked: Slots,
                                              count: nat)
    requires count <= |created| && Tracks(config, existing, created, st, was, linked)
    requires forall k :: 0 <= k < count ==> created[k].role.Controller?
    ensures |existing| + count <= |st.slots|
    ensures forall j :: |existing| <= j < |existing| + count ==> st.slots[j].role.Controller?
  {
  }

  // ----- explicit blocks -----

  lemma {:induction false} OpenBusIs(st: State, types: seq<ControllerType>, a: Address)
    ensures OpenBus(st, types, a)
            == if st.typeIndex >= |types| then None
               else
                 var added := AddController(st.slots, types[st.typeIndex]);
                 if added.None? || !IsBus(added.value[|st.slots|], a.kind, a.bus) then None
                 else Some(st.(typeIndex := st.typeIndex + 1, slots := added.value))
  {
  }

  lemma AdmittedParses(slots: Slots, raw: string, pending: set<string>)
    requires RuntimeAdmits(slots, raw, pending)
    ensures Parse(raw).Some?
  {
  }

  lemma {:induction false} ControllerAppended(config: StorageConfig, existing: VirtualDeviceList,
                                              created: VirtualDeviceList, st: State, was: seq<seq<int>>, linked: Slots,
                                              d: Device, link: bool)
    requires Tracks(config, existing, created, st, was, linked)
    requires d.role.Controller? && d.key == NewKey(st.slots) && d.controllerKey == 0 && d.children == []
    ensures Tracks(config, existing, created + [d], st.(slots := st.slots + [d.AsSlot()]), was,
                   if link then linked + [d.AsSlot()] else linked)
  {
    hide *;
    SlotIs(d);
    var more := if link then linked + [d.AsSlot()] else linked;
    TracksIs(config, existing, created, st, was, linked);
    TracksIs(config, existing, created + [d], st.(slots := st.slots + [d.AsSlot()]), was, more);
    assert existing + (created + [d]) == (existing + created) + [d];
    SlotsAppend(existing + created, d);
    ChildrenAppend(existing + created, d);
    DisksAppend(config, created, st.blocks, d, 0);
    ListsAppend(st.slots, ChildrenOf(existing + created), was, linked, d.AsSlot());
    ListsSkip(st.slots + [d.AsSlot()], ChildrenOf(existing + (created + [d])), was, linked, d.AsSlot());
  }

  /** Creates the controller a new bus needs, from the next unused type. */
  method OpenBusController(config: StorageConfig, existing: VirtualDeviceList, created: VirtualDeviceList,
                           typeIndex: nat, a: Address, link: bool, ghost st: State, ghost was: seq<seq<int>>,
                           ghost linked: Slots)
    returns (d: Device?, ghost opening: State)
    requires typeIndex == st.typeIndex && Tracks(config, existing, created, st, was, linked)
    ensures OpenBus(st, config.diskControllerType, a) == if d == null then None else Some(opening)
    ensures d != null ==>
              && fresh(d) && d.role.Controller?
                   && opening == st.(typeIndex := st.typeIndex + 1, slots := st.slots + [d.AsSlot()])
              && Tracks(config, existing, created + [d], opening, was, if link then linked + [d.AsSlot()] else linked)
  {
    TracksIs(config, existing, created, st, was, linked);
    OpenBusIs(st, config.diskControllerType, a);
    hide *;
    d, opening := null, st;
    if typeIndex >= |config.diskControllerType| {
      return;
    }
    d := AppendController(existing + created, config.diskControllerType[typeIndex]);
    if d == null {
      return;
    }
    var matches := IsBus(d.AsSlot(), a.kind, a.bus);
    if !matches {
      d := null;
      return;
    }
    opening := st.(typeIndex := st.typeIndex + 1, slots := st.slots + [d.AsSlot()]);
    ControllerAppended(config, existing, created, st, was, linked, d, link);
    TypeIndexUntracked(config, existing, created + [d], st.(slots := st.slots + [d.AsSlot()]), was,
                       if link then linked + [d.AsSlot()] else linked, typeIndex + 1);
  }

  lemma TypeIndexUntracked(config: StorageConfig, existing: VirtualDeviceList, created: VirtualDeviceList, st: State,
                           was: seq<seq<int>>, linked: Slots, typeIndex: nat)
    requires Tracks(config, existing, created, st, was, linked)
    ensures Tracks(config, existing, created, st.(typeIndex := typeIndex), was, linked)
  {
  }

  lemma PendingUntracked(config: StorageConfig, existing: VirtualDeviceList, created: VirtualDeviceList, st: State,
                         was: seq<seq<int>>, linked: Slots, pending: set<string>)
    requires Tracks(config, existing, created, st, was, linked)
    ensures Tracks(config, existing, created, st.(pending := pending), was, linked)
  {
  }

  /** A disk at an explicit unit of a controller of the list, once all checks passed. */
  method AttachAtUnit(config: StorageConfig, existing: VirtualDeviceList, created: VirtualDeviceList,
                      controller: Device, i: nat, unit: int, link: bool, ghost at: nat, ghost st: State,
                      ghost was: seq<seq<int>>, ghost linked: Slots)
    returns (disk: Device, ghost next: State)
    requires at < |existing + created| && (existing + created)[at] == controller
    requires controller.role.Controller? && i < |config.storage|
    requires Tracks(config, existing, created, st, was, linked)
    modifies controller`children
    ensures |st.slots| == |existing + created| && next == PlaceDisk(st, config.storage[i], i, st.slots[at].key, unit)
    ensures fresh(disk) && disk.role.Disk? && next.slots == st.slots + [disk.AsSlot()]
    ensures next.policies == WithPolicy(st.policies, disk.key, config.storage[i])
    ensures Tracks(config, existing, created + [disk], next, was, if link then linked + [disk.AsSlot()] else linked)
    ensures !link ==> controller.children == old(controller.children)
  {
    TracksIs(config, existing, created, st, was, linked);
    hide *;
    disk := Attach(config, existing, created, controller, i, Some(unit), link, at, st, was, linked);
    next := PlaceDisk(st, config.storage[i], i, st.slots[at].key, unit);
    PlaceDiskIs(st, config.storage[i], i, st.slots[at].key, unit);
    SlotIs(disk);
    TracksIs(config, existing, created + [disk], next, was, if link then linked + [disk.AsSlot()] else linked);
  }

  /** Everything before the capacity check: where block i's disk will hang. */
  ghost predicate HostOf(st: State, types: seq<ControllerType>, raw: string, a: Address, ready: State, at: nat) {
    && RuntimeAdmits(st.slots, raw, st.pending) && Parse(raw) == Some(a)
    && var found := FindByBus(st.slots, a.kind, a.bus);
       && at == (if found.Some? then found.value else |st.slots|)
       && (if found.Some? then ready == st else OpenBus(st, types, a) == Some(ready))
  }

  /** No host: the address is refused or its controller cannot be created. */
  ghost predicate NoHost(st: State, types: seq<ControllerType>, raw: string) {
    RuntimeAdmits(st.slots, raw, st.pending) ==>
      Parse(raw).Some? && FindByBus(st.slots, Parse(raw).value.kind, Parse(raw).value.bus).None?
      && OpenBus(st, types, Parse(raw).value).None?
  }

  lemma {:induction false} HostedStep(st: State, types: seq<ControllerType>, block: Block, i: nat, a: Address,
                                      ready: State, at: nat)
    requires HostOf(st, types, block.controllerUnit, a, ready, at)
    ensures at < |ready.slots| && ready.slots[at].role.Controller? && st.slots <= ready.slots
    ensures ready.pending == st.pending && ready.policies == st.policies
    ensures ExplicitStep(st, types, block, i)
            == if !RoomForDisk(ready.slots, ready.slots[at]) then Failure(Rejected(Some(i)))
               else
                 var done := PlaceDisk(ready, block, i, ready.slots[at].key, a.unit);
                 Success(done.(pending := done.pending + {block.controllerUnit}))
  {
    hide Parse, NewKey, CountDisksOn, CreateController, AddController, RuntimeAdmits, PlaceDisk;
  }

  lemma {:induction false} UnhostedStep(st: State, types: seq<ControllerType>, block: Block, i: nat)
    requires NoHost(st, types, block.controllerUnit)
    ensures ExplicitStep(st, types, block, i) == Failure(Rejected(Some(i)))
  {
  }

  lemma RefusedHasNoHost(st: State, types: seq<ControllerType>, raw: string)
    requires !RuntimeAdmits(st.slots, raw, st.pending)
    ensures NoHost(st, types, raw)
  {
  }

  lemma {:induction false} HostCases(st: State, types: seq<ControllerType>, raw: string, a: Address)
    requires RuntimeAdmits(st.slots, raw, st.pending) && Parse(raw) == Some(a)
    ensures var found := FindByBus(st.slots, a.kind, a.bus);
            && (found.Some? ==> HostOf(st, types, raw, a, st, found.value) && st.slots[found.value].role.Controller?)
            && (found.None? && OpenBus(st, types, a).None? ==> NoHost(st, types, raw))
            && (found.None? && OpenBus(st, types, a).Some? ==>
                HostOf(st, types, raw, a, OpenBus(st, types, a).value, |st.slots|))
  {
  }

  /** Validates the address and finds or creates its controller. */
  method FindOrOpenHost(config: StorageConfig, existing: VirtualDeviceList, created: VirtualDeviceList, raw: string,
                        typeIndex: nat, pending: set<string>, link: bool,
                        ghost st: State, ghost was: seq<seq<int>>, ghost linked: Slots)
    returns (host: Device?, a: Address, grown: VirtualDeviceList, typeIndex': nat, ghost at: nat, ghost ready: State,
             ghost links: Slots)
    requires typeIndex == st.typeIndex && pending == st.pending
    requires Tracks(config, existing, created, st, was, linked)
    ensures host == null ==> NoHost(st, config.diskControllerType, raw)
    ensures host != null ==>
              && HostOf(st, config.diskControllerType, raw, a, ready, at) && typeIndex' == ready.typeIndex
              && host.role.Controller?
              && at < |existing + grown| && (existing + grown)[at] == host
                   && (host in existing + created || fresh(host))
              && created <= grown && (forall k :: |created| <= k < |grown| ==> fresh(grown[k]))
              && Tracks(config, existing, grown, ready, was, links)
              && links == (if link then linked + ready.slots[|st.slots|..] else linked)
  {
    TracksIs(config, existing, created, st, was, linked);
    hide *;
    host, a, grown, typeIndex', at, ready, links := null, Address(SCSI, 0, 0), created, typeIndex, 0, st, linked;
    var devices := existing + created;
    var ok := ValidateControllerUnitRuntime(SlotsOf(devices), raw, pending);
    if !ok {
      RefusedHasNoHost(st, config.diskControllerType, raw);
      return;
    }
    AdmittedParses(SlotsOf(devices), raw, pending);
    a := Parse(raw).value;
    HostCases(st, config.diskControllerType, raw, a);
    var found := FindControllerByBus(SlotsOf(devices), a.kind, a.bus);
    if found.Some? {
      host, at := devices[found.value], found.value;
      SlotIs(host);
      assert linked + st.slots[|st.slots|..] == linked;
      return;
    }
    var opening: State;
    host, ready := OpenBusController(config, existing, created, typeIndex, a, link, st, was, linked);
    if host != null {
      grown, typeIndex', at := created + [host], typeIndex + 1, |devices|;
      links := if link then linked + [host.AsSlot()] else linked;
      assert ready.slots[|st.slots|..] == [host.AsSlot()];
    }
  }

  /** One explicit block. */
  method AttachExplicitDisk(config: StorageConfig, existing: VirtualDeviceList, created: VirtualDeviceList,
                            all: VirtualDeviceList, i: nat, typeIndex: nat, pending: set<string>,
                            policies: map<int, string>, link: bool, ghost st: State, ghost was: seq<seq<int>>,
                            ghost linked: Slots)
    returns (created': VirtualDeviceList, typeIndex': nat, policies': map<int, string>, err: Option<AllocError>,
             ghost next: State, ghost links: Slots)
    requires i < |config.storage| && typeIndex == st.typeIndex && pending == st.pending && policies == st.policies
    requires Tracks(config, existing, created, st, was, linked) && all == existing + created
    modifies all`children
    ensures ExplicitStep(st, config.diskControllerType, config.storage[i], i)
            == if err.Some? then Failure(err.value) else Success(next)
    ensures err.None? ==>
              && created <= created' && (forall k :: |created| <= k < |created'| ==> fresh(created'[k]))
              && Tracks(config, existing, created', next, was, links)
              && st.slots <= next.slots && links == (if link then linked + next.slots[|st.slots|..] else linked)
              && typeIndex' == next.typeIndex && policies' == next.policies
              && next.pending == pending + {config.storage[i].controllerUnit}
    ensures !link ==> forall d :: d in existing ==> d.children == old(d.children)
  {
    hide *;
    created', typeIndex', policies', next, links := created, typeIndex, policies, st, linked;
    var host: Device?, a: Address, grown: VirtualDeviceList;
    ghost var at, ready;
    host, a, grown, typeIndex', at, ready, links :=
      FindOrOpenHost(config, existing, created, config.storage[i].controllerUnit, typeIndex, pending, link, st, was,
                     linked);
    if host == null {
      UnhostedStep(st, config.diskControllerType, config.storage[i], i);
      err := Some(Rejected(Some(i)));
      return;
    }
    HostedStep(st, config.diskControllerType, config.storage[i], i, a, ready, at);
    TracksIs(config, existing, grown, ready, was, links);
    assert ready.slots[at] == SlotsOf(existing + grown)[at] == host.AsSlot();
    var room := ValidateControllerDiskCapacity(SlotsOf(existing + grown), host.AsSlot());
    if !room {
      err := Some(Rejected(Some(i)));
      return;
    }
    err := None;
    var disk;
    disk, next := AttachAtUnit(config, existing, grown, host, i, a.unit, link, at, ready, was, links);
    assert links + [disk.AsSlot()] == linked + next.slots[|st.slots|..] || !link;
    created', policies' := grown + [disk], WithPolicy(policies, disk.key, config.storage[i]);
    PlaceDiskIs(ready, config.storage[i], i, ready.slots[at].key, a.unit);
    links := if link then links + [disk.AsSlot()] else links;
    PendingUntracked(config, existing, created', next, was, links, next.pending + {config.storage[i].controllerUnit});
    next := next.(pending := next.pending + {config.storage[i].controllerUnit});
  }

  lemma {:induction false} ExplicitRunUnfolds(st: State, types: seq<ControllerType>, storage: seq<Block>,
                                              order: seq<nat>, n: nat)
    requires n < |order| && Indexes(order, |storage|)
    ensures order[n] < |storage| && Indexes(order[n..], |storage|) && Indexes(order[n + 1..], |storage|)
    ensures var step := ExplicitStep(st, types, storage[order[n]], order[n]);
            ExplicitRun(st, types, storage, order[n..])
            == if step.Failure? then step else ExplicitRun(step.value, types, storage, order[n + 1..])
  {
  }

  lemma {:induction false} ExplicitRunEnds(st: State, types: seq<ControllerType>, storage: seq<Block>, order: seq<nat>)
    ensures ExplicitRun(st, types, storage, order[|order|..]) == Success(st)
  {
  }

  /** What was added up to one list and from there to another is what was added in all. */
  lemma TailsJoin(linked: Slots, first: Slots, seen: Slots, now: Slots)
    requires first <= seen <= now
    ensures linked + seen[|first|..] + now[|seen|..] == linked + now[|first|..]
  {
    assert now[..|seen|] == seen;
    assert now[|first|..] == seen[|first|..] + now[|seen|..];
  }

  /** The explicit loop. */
  method AttachExplicitDisks(config: StorageConfig, existing: VirtualDeviceList, before: VirtualDeviceList,
                             order: seq<nat>, typeIndex0: nat, policies0: map<int, string>, link: bool,
                             ghost first: State, ghost was: seq<seq<int>>, ghost linkedFirst: Slots)
    returns (created: VirtualDeviceList, policies: map<int, string>, err: Option<AllocError>, ghost st: State)
    requires Indexes(order, |config.storage|)
    requires typeIndex0 == first.typeIndex && policies0 == first.policies && first.pending == {}
    requires Tracks(config, existing, before, first, was, linkedFirst)
    modifies (existing + before)`children
    ensures ExplicitRun(first, config.diskControllerType, config.storage, order)
            == if err.Some? then Failure(err.value) else Success(st)
    ensures err.None? ==>
              && policies == st.policies && before <= created && first.slots <= st.slots
              && (forall k :: |before| <= k < |created| ==> fresh(created[k]))
              && Tracks(config, existing, created, st, was, if link then linkedFirst + st.slots[|first.slots|..]
                        else linkedFirst)
    ensures !link ==> forall d :: d in existing ==> d.children == old(d.children)
  {
    hide *;
    var typeIndex, pending := typeIndex0, {};
    created, policies, err, st := before, policies0, None, first;
    ghost var links := linkedFirst;
    assert order[0..] == order && linkedFirst + first.slots[|first.slots|..] == linkedFirst;
    for n := 0 to |order|
      invariant err.None? && typeIndex == st.typeIndex && policies == st.policies && pending == st.pending
      invariant before <= created && first.slots <= st.slots
      invariant forall k :: |before| <= k < |created| ==> fresh(created[k])
      invariant links == if link then linkedFirst + st.slots[|first.slots|..] else linkedFirst
      invariant Tracks(config, existing, created, st, was, links)
      invariant Indexes(order[n..], |config.storage|)
      invariant ExplicitRun(first, config.diskControllerType, config.storage, order)
                == ExplicitRun(st, config.diskControllerType, config.storage, order[n..])
      invariant !link ==> forall d :: d in existing ==> d.children == old(d.children)
    {
      ExplicitRunUnfolds(st, config.diskControllerType, config.storage, order, n);
      ghost var next := st;
      ghost var seen := st.slots;
      var all := existing + created;
      forall k | 0 <= k < |all|
        ensures all[k] in existing + before || fresh(all[k])
      {
        assert k < |existing + before| ==> all[k] == (existing + before)[k];
      }
      created, typeIndex, policies, err, next, links :=
        AttachExplicitDisk(config, existing, created, all, order[n], typeIndex, pending, policies, link, st, was,
                           links);
      if err.Some? {
        return;
      }
      pending := pending + {config.storage[order[n]].controllerUnit};
      st := next;
      TailsJoin(linkedFirst, first.slots, seen, st.slots);
    }
    ExplicitRunEnds(st, config.diskControllerType, config.storage, order);
  }

  // ----- the whole operation -----

  /** Splits the blocks into legacy and explicit ones, each in storage order. */
  method PartitionBlocks(storage: seq<Block>) returns (legacyDisks: seq<nat>, explicitDisks: seq<nat>)
    ensures legacyDisks == LegacyBlocks(storage) && explicitDisks == ExplicitBlocks(storage)
  {
    legacyDisks, explicitDisks := [], [];
    for i := 0 to |storage|
      invariant legacyDisks == LegacyBelow(storage, i) && explicitDisks == ExplicitBelow(storage, i)
    {
      if storage[i].controllerUnit != "" {
        explicitDisks := explicitDisks + [i];
      } else {
        legacyDisks := legacyDisks + [i];
      }
    }
  }

  lemma {:induction false} NoKeysWithoutDisks(linked: Slots, key: int)
    requires forall k :: 0 <= k < |linked| ==> !linked[k].role.Disk?
    ensures KeysOn(linked, key) == []
  {
    if linked != [] {
      NoKeysWithoutDisks(linked[..|linked| - 1], key);
    }
  }

  lemma {:induction false} AddedAreUnattached(slots: Slots, types: seq<ControllerType>)
    requires AddControllers(slots, types).Some?
    ensures forall j :: |slots| <= j < |AddControllers(slots, types).value| ==>
            AddControllers(slots, types).value[j].controllerKey == 0
    decreases |types|
  {
    if types != [] {
      var first := AddController(slots, types[0]).value;
      AddedAreUnattached(first, types[1..]);
      assert AddControllers(slots, types).value[|slots|] == first[|slots|];
    }
  }

  lemma {:induction false} NothingAttached(slots: Slots, lists: seq<seq<int>>, was: seq<seq<int>>, base: nat)
    requires |lists| == |slots| && |was| == base <= |slots|
    requires forall i :: 0 <= i < |slots| ==> lists[i] == if i < base then was[i] else []
    requires forall j :: base <= j < |slots| ==> slots[j].role.Controller? && slots[j].controllerKey == 0
    ensures ListsExact(slots, lists, was, slots[base..])
  {
    hide KeysOn;
    forall key
      ensures KeysOn(slots[base..], key) == []
    {
      NoKeysWithoutDisks(slots[base..], key);
    }
  }

  lemma {:induction false} FirstTracked(config: StorageConfig, existing: VirtualDeviceList, created: VirtualDeviceList)
    requires forall k :: 0 <= k < |created| ==>
            created[k].children == [] && created[k].role.Controller? && created[k].controllerKey == 0
    ensures Tracks(config, existing, created, Init(SlotsOf(existing + created)), ChildrenOf(existing),
                   SlotsOf(existing + created)[|existing|..])
  {
    hide ListsExact, SlotsOf, ChildrenOf;
    var devices := existing + created;
    var slots := SlotsOf(devices);
    forall j | |existing| <= j < |slots|
      ensures slots[j].role.Controller? && slots[j].controllerKey == 0
    {
      assert devices[j] == created[j - |existing|];
    }
    assert forall i :: 0 <= i < |existing| ==> devices[i] == existing[i];
    NothingAttached(slots, ChildrenOf(devices), ChildrenOf(existing), |existing|);
    NoDisksIn(created);
  }

  lemma {:induction false} NoDisksIn(devices: VirtualDeviceList)
    requires forall k :: 0 <= k < |devices| ==> !devices[k].role.Disk?
    ensures DisksIn(devices) == []
  {
    if devices != [] {
      NoDisksIn(devices[..|devices| - 1]);
    }
  }

  lemma {:induction false} LegacyPhaseIs(slots: Slots, types: seq<ControllerType>, storage: seq<Block>)
    ensures var ready := AddControllers(slots, types);
            && (LegacyBlocks(storage) == [] ==> LegacyPhase(slots, types, storage) == Success(Init(slots)))
            && (LegacyBlocks(storage) != [] && ready.None? ==>
                LegacyPhase(slots, types, storage) == Failure(Rejected(None)))
            && (LegacyBlocks(storage) != [] && ready.Some? ==>
                  && |slots| + |types| <= |ready.value|
                  && (forall j :: |slots| <= j < |slots| + |types| ==> ready.value[j].role.Controller?)
                  && var ran := LegacyRun(Init(ready.value), |slots|, |types|, storage, LegacyBlocks(storage));
                     LegacyPhase(slots, types, storage)
                     == if ran.Failure? then ran else Success(ran.value.(typeIndex := |types|)))
  {
    AddedAreControllers(slots, types);
    hide LegacyRun;
  }

  /** The legacy phase. */
  method AttachLegacy(config: StorageConfig, existing: VirtualDeviceList, order: seq<nat>)
    returns (created: VirtualDeviceList, policies: map<int, string>, typeIndex: nat, err: Option<AllocError>,
             ghost st: State)
    requires order == LegacyBlocks(config.storage)
    ensures LegacyPhase(SlotsOf(existing), config.diskControllerType, config.storage)
            == if err.Some? then Failure(err.value) else Success(st)
    ensures err.None? ==>
              && policies == st.policies && typeIndex == st.typeIndex && st.pending == {}
              && (forall k :: 0 <= k < |created| ==> fresh(created[k]))
              && |existing| <= |st.slots|
              && Tracks(config, existing, created, st, ChildrenOf(existing), st.slots[|existing|..])
  {
    LegacyPhaseIs(SlotsOf(existing), config.diskControllerType, config.storage);
    hide *;
    ghost var was := ChildrenOf(existing);
    created, policies, typeIndex, err, st := [], map[], 0, None, Init(SlotsOf(existing));
    assert existing + [] == existing;
    FirstTracked(config, existing, []);
    InitIs(SlotsOf(existing));
    if |order| == 0 {
      return;
    }
    var controllers, ok := CreateLegacyControllers(existing, config.diskControllerType);
    if !ok {
      err := Some(Rejected(None));
      return;
    }
    AddedAreUnattached(SlotsOf(existing), config.diskControllerType);
    FreshUnattached(existing, controllers, config.diskControllerType);
    FirstTracked(config, existing, controllers);
    ghost var ready := SlotsOf(existing + controllers);
    InitIs(ready);
    LegacyOrderIndexes(config.storage);
    created, policies, err, st :=
      AttachLegacyDisks(config, existing, controllers, order, Init(ready), was, ready[|existing|..]);
    if err.Some? {
      return;
    }
    assert ready[|existing|..] + st.slots[|ready|..] == st.slots[|existing|..];
    LegacyRunCarries(Init(ready), |existing|, |controllers|, config.storage, order);
    typeIndex := |config.diskControllerType|;
    TypeIndexUntracked(config, existing, created, st, was, st.slots[|existing|..], typeIndex);
    st := st.(typeIndex := typeIndex);
    forall k | 0 <= k < |created|
      ensures fresh(created[k])
    {
      assert k < |controllers| ==> created[k] == controllers[k];
    }
  }

  lemma InitIs(slots: Slots)
    ensures var st := Init(slots);
            st.slots == slots && st.typeIndex == 0 && st.policies == map[] && st.pending == {} && st.blocks == []
  {
  }

  lemma {:induction false} LegacyOrderIndexes(storage: seq<Block>)
    ensures Indexes(LegacyBlocks(storage), |storage|) && Indexes(ExplicitBlocks(storage), |storage|)
  {
  }

  lemma {:induction false} FreshUnattached(existing: VirtualDeviceList, created: VirtualDeviceList,
                                           types: seq<ControllerType>)
    requires AddControllers(SlotsOf(existing), types) == Some(SlotsOf(existing + created))
    requires forall j :: |existing| <= j < |existing + created| ==> SlotsOf(existing + created)[j].controllerKey == 0
    ensures forall k :: 0 <= k < |created| ==> created[k].controllerKey == 0
    ensures |created| == |types|
  {
    hide AddControllers;
    forall k | 0 <= k < |created|
      ensures created[k].controllerKey == 0
    {
      assert (existing + created)[|existing| + k] == created[k];
      SlotIs(created[k]);
    }
  }

  function DevicesOf(specs: seq<ConfigSpec>): (devices: VirtualDeviceList)
    ensures |devices| == |specs|
    ensures forall k :: 0 <= k < |specs| ==> devices[k] == specs[k].device
  {
    if specs == [] then [] else DevicesOf(specs[..|specs| - 1]) + [specs[|specs| - 1].device]
  }

  /** ConfigSpec for the new devices, then the pass that sets storage profiles by key. */
  method BuildSpecs(created: VirtualDeviceList, policyByKey: map<int, string>) returns (specs: seq<ConfigSpec>)
    ensures DevicesOf(specs) == created
    ensures forall k :: 0 <= k < |specs| ==> specs[k].profile == Profile(policyByKey, specs[k].device.key)
  {
    specs := [];
    for n := 0 to |created|
      invariant |specs| == n && forall k :: 0 <= k < n ==> specs[k] == ConfigSpec(created[k], None)
    {
      specs := specs + [ConfigSpec(created[n], None)];
    }
    for n := 0 to |specs|
      invariant |specs| == |created|
      invariant forall k :: 0 <= k < |specs| ==> specs[k].device == created[k]
      invariant forall k :: 0 <= k < n ==> specs[k].profile == Profile(policyByKey, created[k].key)
      invariant forall k :: n <= k < |specs| ==> specs[k].profile == None
    {
      if created[n].key in policyByKey {
        specs := specs[n := ConfigSpec(created[n], Some(policyByKey[created[n].key]))];
      }
    }
  }

  /** The disks linked to controllers: all new ones, or only the legacy ones. */
  ghost function LinkedSlots(given: Slots, config: StorageConfig, run: State, link: bool): Slots
    requires |given| <= |run.slots|
  {
    if link then run.slots[|given|..]
    else
      var legacy := LegacyPhase(given, config.diskControllerType, config.storage);
      if config.storage != [] && legacy.Success? && |given| <= |legacy.value.slots| then legacy.value.slots[|given|..]
        else []
  }

  /** What a successful run hands out. */
  ghost predicate Emitted(config: StorageConfig, existing: VirtualDeviceList, specs: seq<ConfigSpec>, run: State)
    reads (existing + DevicesOf(specs))`key, (existing + DevicesOf(specs))`controllerKey,
            (existing + DevicesOf(specs))`unit
  {
    && SlotsOf(existing + DevicesOf(specs)) == run.slots
    && BodiesMatch(config, DevicesOf(specs), run.blocks)
    && forall k :: 0 <= k < |specs| ==> specs[k].profile == Profile(run.policies, run.slots[|existing| + k].key)
  }

  lemma {:induction false} RunIs(slots: Slots, config: StorageConfig, aggregate: bool)
    ensures var types, storage := config.diskControllerType, config.storage;
            var legacy := LegacyPhase(slots, types, storage);
            && Indexes(ExplicitBlocks(storage), |storage|)
            && Run(slots, types, storage, aggregate)
               == if storage == [] then Success(Init(slots))
                  else if legacy.Failure? then legacy
                  else
                    var done := ExplicitRun(legacy.value, types, storage, ExplicitBlocks(storage));
                    if done.Failure? then done
                    else if aggregate && !WithinAggregate(done.value.slots) then Failure(Rejected(None)) else done
  {
  }

  // ----- the disks a run hands out, block by block -----

  /** Places in a list, in order, of all devices the predicate picks. */
  ghost predicate Picks(devices: VirtualDeviceList, picked: VirtualDeviceList, at: seq<nat>, pick: Role -> bool) {
    && |at| == |picked|
    && (forall k :: 0 <= k < |at| ==> at[k] < |devices| && pick(devices[at[k]].role) && picked[k] == devices[at[k]])
    && (forall j, k :: 0 <= j < k < |at| ==> at[j] < at[k])
    && (forall i :: 0 <= i < |devices| && pick(devices[i].role) ==> i in at)
  }

  lemma PicksOneMore(devices: VirtualDeviceList, picked: VirtualDeviceList, at: seq<nat>, pick: Role -> bool)
    requires devices != [] && Picks(devices[..|devices| - 1], picked, at, pick)
    ensures var n, last := |devices| - 1, devices[|devices| - 1];
            if pick(last.role) then Picks(devices, picked + [last], at + [n], pick)
            else Picks(devices, picked, at, pick)
  {
    var n := |devices| - 1;
    forall i | 0 <= i < |devices| && pick(devices[i].role)
      ensures i in at + [n]
      ensures i < n ==> i in at
    {
      assert i < n ==> devices[..n][i] == devices[i];
    }
  }

  /** DisksIn lists all disks and nothing else, in list order. */
  lemma {:induction false} DisksAt(devices: VirtualDeviceList) returns (at: seq<nat>)
    ensures Picks(devices, DisksIn(devices), at, (role: Role) => role.Disk?)
  {
    if devices == [] {
      at := [];
    } else {
      var n := |devices| - 1;
      at := DisksAt(devices[..n]);
      PicksOneMore(devices, DisksIn(devices[..n]), at, (role: Role) => role.Disk?);
      if devices[n].role.Disk? {
        at := at + [n];
      }
    }
  }

  /** The disk of the spec is what block i asks for, on the datastore placed for index i. */
  ghost predicate AsAsked(config: StorageConfig, i: nat, spec: ConfigSpec)
    requires i < |config.storage|
  {
    var block, body := config.storage[i], spec.device.body;
    && body.capacityInKB == block.size * 1024
    && body.thinProvisioned == block.thinProvisioned && body.eagerlyScrub == block.eagerlyScrub
    && spec.profile == (if block.policy == "" then None else Some(block.policy))
    && if i >= |config.diskDatastores| then body.fileName == "" && body.datastore == None
       else
         var name := config.diskDatastores[i].name;
         && body.datastore == config.diskDatastores[i].ref
         && body.fileName == if name == "" then "" else "[" + name + "]"
  }

  /**
   The disks among the specs, at places `at`, are one per storage block: the k-th is
   what block order[k] asks for.
   */
  ghost predicate DisksAsAsked(config: StorageConfig, specs: seq<ConfigSpec>, order: seq<nat>, at: seq<nat>) {
    && |at| == |order| == |config.storage| && Indexes(order, |config.storage|)
    && (forall k :: 0 <= k < |at| ==>
          at[k] < |specs| && specs[at[k]].device.role.Disk? && AsAsked(config, order[k], specs[at[k]]))
    && (forall j, k :: 0 <= j < k < |at| ==> at[j] < at[k])
    && (forall s :: 0 <= s < |specs| && specs[s].device.role.Disk? ==> s in at)
  }

  lemma BodyAsAsked(config: StorageConfig, i: nat, spec: ConfigSpec)
    requires i < |config.storage| && spec.device.body == BodyOf(config, i)
    requires spec.profile == BlockProfile(config.storage[i])
    ensures AsAsked(config, i, spec)
  {
  }

  lemma ProfileOfDisk(storage: seq<Block>, policies: map<int, string>, blocks: seq<nat>, keys: seq<int>, k: nat)
    requires PoliciesExact(storage, policies, blocks, keys) && k < |keys|
    ensures blocks[k] < |storage| && Profile(policies, keys[k]) == BlockProfile(storage[blocks[k]])
  {
  }

  lemma LogIs(base: nat, storage: seq<Block>, st: State)
    requires LogIsExact(base, storage, st)
    ensures PoliciesExact(storage, st.policies, st.blocks, st.keys)
  {
  }

  lemma {:induction false} KeysOfDisks(devices: VirtualDeviceList)
    ensures var keys, disks := DiskKeys(SlotsOf(devices)), DisksIn(devices);
            |keys| == |disks| && forall k :: 0 <= k < |disks| ==> keys[k] == disks[k].key
  {
    if devices != [] {
      var front := devices[..|devices| - 1];
      KeysOfDisks(front);
      assert SlotsOf(devices)[..|devices| - 1] == SlotsOf(front);
    }
  }

  lemma EmittedBodies(config: StorageConfig, existing: VirtualDeviceList, specs: seq<ConfigSpec>, run: State)
    requires Emitted(config, existing, specs, run) && Indexes(run.blocks, |config.storage|)
    ensures var disks := DisksIn(DevicesOf(specs));
            |disks| == |run.blocks| && forall k :: 0 <= k < |disks| ==> disks[k].body == BodyOf(config, run.blocks[k])
  {
  }

  /** Of a successful run. */
  lemma {:induction false} RunAsAsked(config: StorageConfig, given: Slots, existing: VirtualDeviceList,
                                      specs: seq<ConfigSpec>, run: State, aggregate: bool)
    requires Run(given, config.diskControllerType, config.storage, aggregate) == Success(run)
    requires |given| == |existing| <= |run.slots| && Emitted(config, existing, specs, run)
    ensures exists at :: DisksAsAsked(config, specs, Order(config.storage), at)
  {
    hide *;
    var disks := DisksIn(DevicesOf(specs));
    RunIsLogged(given, config.diskControllerType, config.storage, aggregate);
    OrderIsStablePartition(config.storage);
    LogIs(|given|, config.storage, run);
    EmittedSlots(config, existing, specs, run);
    EmittedBodies(config, existing, specs, run);
    KeysOfDisks(DevicesOf(specs));
    var at := DisksAt(DevicesOf(specs));
    PicksDisks(specs, disks, at);
    forall k | 0 <= k < |at|
      ensures AsAsked(config, run.blocks[k], specs[at[k]])
    {
      ProfileOfDisk(config.storage, run.policies, run.blocks, run.keys, k);
      SlotIs(specs[at[k]].device);
      BodyAsAsked(config, run.blocks[k], specs[at[k]]);
    }
    AllAsAsked(config, specs, run.blocks, at);
  }

  lemma PicksDisks(specs: seq<ConfigSpec>, disks: VirtualDeviceList, at: seq<nat>)
    requires Picks(DevicesOf(specs), disks, at, (role: Role) => role.Disk?)
    ensures |at| == |disks|
    ensures forall k :: 0 <= k < |at| ==>
              at[k] < |specs| && specs[at[k]].device.role.Disk? && disks[k] == specs[at[k]].device
    ensures forall j, k :: 0 <= j < k < |at| ==> at[j] < at[k]
    ensures forall s :: 0 <= s < |specs| && specs[s].device.role.Disk? ==> s in at
  {
    hide DevicesOf;
    forall s | 0 <= s < |specs| && specs[s].device.role.Disk?
      ensures s in at
    {
      assert DevicesOf(specs)[s].role.Disk?;
    }
  }

  lemma AllAsAsked(config: StorageConfig, specs: seq<ConfigSpec>, order: seq<nat>, at: seq<nat>)
    requires |at| == |order| == |config.storage| && Indexes(order, |config.storage|)
    requires forall k :: 0 <= k < |at| ==>
               at[k] < |specs| && specs[at[k]].device.role.Disk? && AsAsked(config, order[k], specs[at[k]])
    requires forall j, k :: 0 <= j < k < |at| ==> at[j] < at[k]
    requires forall s :: 0 <= s < |specs| && specs[s].device.role.Disk? ==> s in at
    ensures DisksAsAsked(config, specs, order, at)
  {
    hide AsAsked;
  }

  /** addStorageDevices */
  method AddDevices(config: StorageConfig, existing: VirtualDeviceList, link: bool, aggregate: bool)
    returns (specs: Result<seq<ConfigSpec>, AllocError>, ghost run: State)
    modifies existing`children
    ensures Run(old(SlotsOf(existing)), config.diskControllerType, config.storage, aggregate)
            == if specs.Failure? then Failure(specs.error) else Success(run)
    ensures specs.Success? ==>
              && |existing| <= |run.slots|
              && Emitted(config, existing, specs.value, run)
              && (exists at :: DisksAsAsked(config, specs.value, Order(config.storage), at))
              && (forall k :: 0 <= k < |specs.value| ==> fresh(specs.value[k].device))
              && ListsExact(run.slots, ChildrenOf(existing + DevicesOf(specs.value)), old(ChildrenOf(existing)),
                            LinkedSlots(old(SlotsOf(existing)), config, run, link))
    ensures !link ==> forall d :: d in existing ==> d.children == old(d.children)
  {
    RunIs(SlotsOf(existing), config, aggregate);
    hide *;
    ghost var given, was := SlotsOf(existing), ChildrenOf(existing);
    specs, run := Success([]), Init(given);
    if |config.storage| == 0 {
      InitIs(given);
      FirstTracked(config, existing, []);
      NothingEmitted(config, existing);
      NoStorageLinks(given, config, run, link);
      TracksIs(config, existing, [], run, was, given[|existing|..]);
      assert existing + [] == existing && given[|existing|..] == [];
      RunAsAsked(config, given, existing, [], run, aggregate);
      return;
    }
    var legacyDisks, explicitDisks := PartitionBlocks(config.storage);
    var created, policies, typeIndex, err;
    ghost var legacy;
    created, policies, typeIndex, err, legacy := AttachLegacy(config, existing, legacyDisks);
    if err.Some? {
      specs := Failure(err.value);
      return;
    }
    created, policies, err, run :=
      AttachExplicitDisks(config, existing, created, explicitDisks, typeIndex, policies, link, legacy, was,
                          legacy.slots[|existing|..]);
    if err.Some? {
      specs := Failure(err.value);
      return;
    }
    var links := if link then legacy.slots[|existing|..] + run.slots[|legacy.slots|..] else legacy.slots[|existing|..];
    TracksIs(config, existing, created, run, was, links);
    if aggregate {
      var ok := ValidateAggregateStorageCapacity(SlotsOf(existing + created));
      if !ok {
        specs := Failure(Rejected(None));
        return;
      }
    }
    var list := EmitSpecs(config, existing, created, policies, run);
    specs := Success(list);
    RunAsAsked(config, given, existing, list, run, aggregate);
    LinkedSlotsIs(given, config, run, link, legacy);
  }

  method EmitSpecs(config: StorageConfig, existing: VirtualDeviceList, created: VirtualDeviceList,
                   policies: map<int, string>, ghost run: State)
    returns (specs: seq<ConfigSpec>)
    requires SlotsOf(existing + created) == run.slots && BodiesMatch(config, created, run.blocks)
            && policies == run.policies
    ensures DevicesOf(specs) == created && |existing| <= |run.slots| && Emitted(config, existing, specs, run)
  {
    hide BodiesMatch, Profile;
    specs := BuildSpecs(created, policies);
    forall k | 0 <= k < |specs|
      ensures specs[k].profile == Profile(run.policies, run.slots[|existing| + k].key)
    {
      assert (existing + created)[|existing| + k] == specs[k].device;
    }
  }

  lemma NothingEmitted(config: StorageConfig, existing: VirtualDeviceList)
    ensures Emitted(config, existing, [], Init(SlotsOf(existing)))
    ensures DevicesOf([]) == []
  {
  }

  lemma {:induction false} NoStorageLinks(given: Slots, config: StorageConfig, run: State, link: bool)
    requires config.storage == [] && run.slots == given
    ensures LinkedSlots(given, config, run, link) == []
  {
  }

  lemma {:induction false} LinkedSlotsIs(given: Slots, config: StorageConfig, run: State, link: bool, legacy: State)
    requires config.storage != [] && LegacyPhase(given, config.diskControllerType, config.storage) == Success(legacy)
    requires |given| <= |legacy.slots| && legacy.slots <= run.slots
    ensures LinkedSlots(given, config, run, link)
            == if link then legacy.slots[|given|..] + run.slots[|legacy.slots|..] else legacy.slots[|given|..]
  {
  }

  /** AddStorageDevices: the run that clone and create apply. */
  method AddStorageDevices(config: StorageConfig, existing: VirtualDeviceList)
    returns (specs: Result<seq<ConfigSpec>, AllocError>, ghost run: State)
    modifies existing`children
    ensures Run(old(SlotsOf(existing)), config.diskControllerType, config.storage, true)
            == if specs.Failure? then Failure(specs.error) else Success(run)
    ensures specs.Success? ==>
              && |existing| <= |run.slots|
              && Emitted(config, existing, specs.value, run)
              && (exists at :: DisksAsAsked(config, specs.value, Order(config.storage), at))
              && ListsExact(run.slots, ChildrenOf(existing + DevicesOf(specs.value)), old(ChildrenOf(existing)),
                            run.slots[|existing|..])
  {
    specs, run := AddDevices(config, existing, true, true);
  }

  /** AddStorageDevicesForPlacement: the run Storage DRS is asked about. */
  method AddStorageDevicesForPlacement(config: StorageConfig, existing: VirtualDeviceList)
    returns (specs: Result<seq<ConfigSpec>, AllocError>, ghost run: State)
    modifies existing`children
    ensures Run(old(SlotsOf(existing)), config.diskControllerType, config.storage, false)
            == if specs.Failure? then Failure(specs.error) else Success(run)
    ensures specs.Success? ==>
              |existing| <= |run.slots| && Emitted(config, existing, specs.value, run)
              && (exists at :: DisksAsAsked(config, specs.value, Order(config.storage), at))
              && forall k :: 0 <= k < |specs.value| ==> fresh(specs.value[k].device)
    ensures forall d :: d in existing ==> d.children == old(d.children)
  {
    var devices := existing;
    specs, run := AddDevices(config, devices, false, false);
  }

  /**
   A placement run followed by a real one on the same list of device objects, for
   any datastores chosen in between: both succeed or fail alike and name the same
   devices at the same places with the same policies; only the backings differ,
   and only the second run touches the controllers the list shares.
   */
  method PlacementThenClone(types: seq<ControllerType>, storage: seq<Block>, datastores: seq<DiskDatastore>,
                            existing: VirtualDeviceList)
    returns (placement: Result<seq<ConfigSpec>, AllocError>, clone: Result<seq<ConfigSpec>, AllocError>)
    requires WellKeyed(SlotsOf(existing)) && WithinLimits(SlotsOf(existing))
    modifies existing`children
    ensures placement.Success? == clone.Success? && (placement.Failure? ==> placement.error == clone.error)
    ensures placement.Success? ==>
              var a, b := DevicesOf(placement.value), DevicesOf(clone.value);
              && |a| == |b|
              && (forall k :: 0 <= k < |a| ==> a[k].AsSlot() == b[k].AsSlot())
              && (forall k :: 0 <= k < |a| ==> placement.value[k].profile == clone.value[k].profile)
              && (forall i :: 0 <= i < |existing| ==>
                    existing[i].children == old(existing[i].children) + KeysOn(SlotsOf(b), existing[i].key))
  {
    hide *;
    ghost var given, was := SlotsOf(existing), ChildrenOf(existing);
    ghost var first, second;
    placement, first := AddStorageDevicesForPlacement(StorageConfig(types, storage, []), existing);
    assert ChildrenOf(existing) == was;
    if placement.Success? {
      EmittedSlots(StorageConfig(types, storage, []), existing, placement.value, first);
    }
    clone, second := AddStorageDevices(StorageConfig(types, storage, datastores), existing);
    AggregateIsImplied(given, types, storage);
    if placement.Success? {
      EmittedSlots(StorageConfig(types, storage, datastores), existing, clone.value, second);
      RunKeepsInvariants(given, types, storage, true);
      DistinctLists(existing, DevicesOf(clone.value), second.slots, was);
    }
  }

  lemma {:induction false} EmittedSlots(config: StorageConfig, existing: VirtualDeviceList, specs: seq<ConfigSpec>,
                                        run: State)
    requires |existing| <= |run.slots| && Emitted(config, existing, specs, run)
    ensures |run.slots| == |existing| + |specs| && SlotsOf(DevicesOf(specs)) == run.slots[|existing|..]
    ensures SlotsOf(existing + DevicesOf(specs)) == run.slots
    ensures forall k :: 0 <= k < |specs| ==>
              && DevicesOf(specs)[k].AsSlot() == run.slots[|existing| + k]
              && specs[k].profile == Profile(run.policies, run.slots[|existing| + k].key)
  {
    hide BodiesMatch, Profile;
    forall k | 0 <= k < |specs|
      ensures DevicesOf(specs)[k].AsSlot() == run.slots[|existing| + k]
    {
      assert (existing + DevicesOf(specs))[|existing| + k] == DevicesOf(specs)[k];
    }
  }

  lemma {:induction false} DistinctLists(existing: VirtualDeviceList, created: VirtualDeviceList, slots: Slots,
                                         was: seq<seq<int>>)
    requires WellKeyed(slots) && |was| == |existing| && SlotsOf(existing + created) == slots
    requires ListsExact(slots, ChildrenOf(existing + created), was, slots[|existing|..])
    ensures forall i :: 0 <= i < |existing| ==>
            existing[i].children == was[i] + KeysOn(slots[|existing|..], existing[i].key)
  {
  }

  // ----- the placement request -----

  /** The new disks' keys, in spec order: newVirtualDiskKeysFromConfigSpec over added devices. */
  method NewVirtualDiskKeys(specs: seq<ConfigSpec>) returns (keys: seq<int>)
    ensures keys == DiskKeys(SlotsOf(DevicesOf(specs)))
  {
    keys := [];
    var devices := DevicesOf(specs);
    for n := 0 to |specs|
      invariant keys == DiskKeys(SlotsOf(devices[..n]))
    {
      assert devices[..n + 1][..n] == devices[..n];
      var slots := SlotsOf(devices[..n + 1]);
      assert slots[..n] == SlotsOf(devices[..n]);
      if specs[n].device.role.Disk? {
        keys := keys + [specs[n].device.key];
      }
    }
    assert devices[..|devices|] == devices;
  }

  /** The single disk a primary resize applies to; none or several are refused. */
  method FindDisk(devices: VirtualDeviceList) returns (disk: Option<Device>)
    ensures disk.Some? ==> DisksIn(devices) == [disk.value]
    ensures disk.None? ==> |DisksIn(devices)| != 1
  {
    var disks := [];
    for n := 0 to |devices|
      invariant disks == DisksIn(devices[..n])
    {
      assert devices[..n + 1][..n] == devices[..n];
      if devices[n].role.Disk? {
        disks := disks + [devices[n]];
      }
    }
    assert devices[..|devices|] == devices;
    return if |disks| == 1 then Some(disks[0]) else None;
  }

  /** buildPrimaryDiskResizeSpec: a resized copy of the single disk; the disk itself stays as it is. */
  method BuildPrimaryDiskResizeSpec(devices: VirtualDeviceList, diskSize: int) returns (resized: Option<Device>)
    ensures resized.Some? <==> |DisksIn(devices)| == 1
    ensures resized.Some? ==> fresh(resized.value) && IsResizedCopy(resized.value, DisksIn(devices)[0], diskSize)
    ensures resized.Some? ==>
              var copy, disk := resized.value, DisksIn(devices)[0];
              && copy.key == disk.key && copy.controllerKey == disk.controllerKey && copy.unit == disk.unit
              && copy.body.capacityInKB == diskSize * 1024
              && copy.body.(capacityInKB := disk.body.capacityInKB) == disk.body
  {
    var disk := FindDisk(devices);
    if disk.None? {
      return None;
    }
    var copy := new Device(disk.value.AsSlot(), disk.value.body.(capacityInKB := diskSize * 1024));
    return Some(copy);
  }

  ghost predicate IsResizedCopy(copy: Device, disk: Device, diskSize: int)
    reads {copy, disk}`key, {copy, disk}`controllerKey, {copy, disk}`unit
  {
    copy.AsSlot() == disk.AsSlot() && copy.body == disk.body.(capacityInKB := diskSize * 1024)
  }

  /** A primary resize, when one is asked for, finds exactly one disk. */
  predicate Resizable(existing: VirtualDeviceList, primaryDiskSize: int) {
    primaryDiskSize > 0 && existing != [] ==> |DisksIn(existing)| == 1
  }

  /** What Storage DRS is asked: an edit of the primary disk, devices to add, and the keys of the new disks. */
  datatype PlacementRequest = PlacementRequest(resize: Option<Device>, added: seq<ConfigSpec>, keys: seq<int>)

  /**
   BuildStoragePlacementConfigSpec: the resized primary disk, when asked for, then
   the run's devices, with the new disks' keys in serving order. The resize is an
   edit, so it contributes no key.
   */
  method BuildStoragePlacementConfigSpec(config: StorageConfig, existing: VirtualDeviceList, primaryDiskSize: int)
    returns (request: Option<PlacementRequest>, ghost run: State)
    modifies existing`children
    ensures forall d :: d in existing ==> d.children == old(d.children)
    ensures request.Some? <==>
              && (primaryDiskSize > 0 && existing != [] ==> |DisksIn(existing)| == 1)
              && Run(old(SlotsOf(existing)), config.diskControllerType, config.storage, false).Success?
    ensures request.Some? ==>
              && Run(old(SlotsOf(existing)), config.diskControllerType, config.storage, false) == Success(run)
              && |existing| <= |run.slots| && Emitted(config, existing, request.value.added, run)
              && request.value.keys == run.keys && |run.keys| == |config.storage| && run.blocks == Order(config.storage)
              && (request.value.resize.Some? <==> primaryDiskSize > 0 && existing != [])
              && (request.value.resize.Some? ==>
                    IsResizedCopy(request.value.resize.value, DisksIn(existing)[0], primaryDiskSize))
  {
    DisksAreListed(existing);
    hide *;
    ghost var given := SlotsOf(existing);
    request, run := None, Init(given);
    ResizableIs(existing, primaryDiskSize);
    var resize := None;
    if primaryDiskSize > 0 && |existing| > 0 {
      resize := BuildPrimaryDiskResizeSpec(existing, primaryDiskSize);
      if resize.None? {
        return;
      }
    }
    var specs;
    specs, run := AddStorageDevicesForPlacement(config, existing);
    if specs.Failure? {
      return;
    }
    var keys := NewVirtualDiskKeys(specs.value);
    RunIsLogged(given, config.diskControllerType, config.storage, false);
    EmittedSlots(config, existing, specs.value, run);
    request := Some(PlacementRequest(resize, specs.value, keys));
  }

  lemma {:induction false} DisksAreListed(devices: VirtualDeviceList)
    ensures forall k :: 0 <= k < |DisksIn(devices)| ==> DisksIn(devices)[k] in devices && DisksIn(devices)[k].role.Disk?
  {
    if devices != [] {
      DisksAreListed(devices[..|devices| - 1]);
    }
  }

  lemma ResizableIs(existing: VirtualDeviceList, primaryDiskSize: int)
    ensures Resizable(existing, primaryDiskSize)
            <==> (primaryDiskSize > 0 && existing != [] ==> |DisksIn(existing)| == 1)
  {
  }

  /** SelectByType over the controllers. */
  function ControllersIn(devices: VirtualDeviceList): VirtualDeviceList {
    if devices == [] then []
    else
      var last := devices[|devices| - 1];
      ControllersIn(devices[..|devices| - 1]) + (if last.role.Controller? then [last] else [])
  }

  /** ControllersIn lists all controllers and nothing else, in list order. */
  lemma {:induction false} ControllersAt(devices: VirtualDeviceList) returns (at: seq<nat>)
    ensures Picks(devices, ControllersIn(devices), at, (role: Role) => role.Controller?)
  {
    if devices == [] {
      at := [];
    } else {
      var n := |devices| - 1;
      at := ControllersAt(devices[..n]);
      PicksOneMore(devices, ControllersIn(devices[..n]), at, (role: Role) => role.Controller?);
      if devices[n].role.Controller? {
        at := at + [n];
      }
    }
  }

  /** StorageExistingDevices: the disks, then the controllers, each in list order; nothing else. */
  method StorageExistingDevices(devices: VirtualDeviceList) returns (existing: VirtualDeviceList)
    ensures existing == DisksIn(devices) + ControllersIn(devices)
  {
    var disks, controllers := [], [];
    for n := 0 to |devices|
      invariant disks == DisksIn(devices[..n]) && controllers == ControllersIn(devices[..n])
    {
      assert devices[..n + 1][..n] == devices[..n];
      match devices[n].role {
        case Disk => disks := disks + [devices[n]];
        case Controller(_, _, _) => controllers := controllers + [devices[n]];
        case OtherDevice =>
      }
    }
    assert devices[..|devices|] == devices;
    return disks + controllers;
  }

}
