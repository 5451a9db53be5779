/**
 Datastores are chosen by disk key and applied by block index. Through a placement
 run and the clone that follows, the two agree exactly when no explicit block
 precedes a legacy one; otherwise disks end up on each other's datastores.
 */
module AnswerOrder {
  import opened Wrappers
  import opened ControllerAddress
  import opened DeviceList
  import opened UnitCapacity
  import opened Allocator
  import opened AllocatorOrder
  import opened AllocatorSafety
  import opened Lockstep
  import opened StorageDrs
  import opened StorageDevices
  import opened ClonePlacement

  /** DiskDatastoreFrom */
  function Placement(ds: Datastore): DiskDatastore {
    DiskDatastore(ds.name, Some(ds.ref))
  }

  function Placements(chosen: seq<Datastore>): (placements: seq<DiskDatastore>)
    ensures |placements| == |chosen| && forall i :: 0 <= i < |chosen| ==> placements[i] == Placement(chosen[i])
  {
    seq(|chosen|, i requires 0 <= i < |chosen| => Placement(chosen[i]))
  }

  predicate DistinctRefs(chosen: seq<Datastore>) {
    forall i, j :: 0 <= i < j < |chosen| ==> chosen[i].ref != chosen[j].ref
  }

  // ----- the devices of a clone -----

  /** The k-th disk a clone adds has the run's k-th key and the placement at its block's index. */
  lemma {:induction false} ClonedDisks(types: seq<ControllerType>, storage: seq<Block>, existing: VirtualDeviceList,
                                       slots: Slots, specs: seq<ConfigSpec>, run: State, chosen: seq<Datastore>)
    requires |chosen| == |storage| && |slots| == |existing| && Run(slots, types, storage, true) == Success(run)
    requires |existing| <= |run.slots|
            && Emitted(StorageConfig(types, storage, Placements(chosen)), existing, specs, run)
    ensures |Order(storage)| == |storage| && Indexes(Order(storage), |storage|)
    ensures var disks := DisksIn(DevicesOf(specs));
            && |disks| == |storage| == |run.keys|
            && forall k :: 0 <= k < |storage| ==>
                 var ds := chosen[Order(storage)[k]];
                 && disks[k].key == run.keys[k] && disks[k].body.datastore == Some(ds.ref)
                 && disks[k].body.fileName == if ds.name == "" then "" else "[" + ds.name + "]"
  {
    hide *;
    var config := StorageConfig(types, storage, Placements(chosen));
    RunIsLogged(slots, types, storage, true);
    OrderIsStablePartition(storage);
    EmittedSlots(config, existing, specs, run);
    EmittedBodies(config, existing, specs, run);
    KeysOfDisks(DevicesOf(specs));
    forall k | 0 <= k < |storage|
      ensures var body, ds := DisksIn(DevicesOf(specs))[k].body, chosen[Order(storage)[k]];
              body.datastore == Some(ds.ref) && body.fileName == if ds.name == "" then "" else "[" + ds.name + "]"
    {
      PlacedBody(types, storage, chosen, Order(storage)[k]);
    }
  }

  lemma PlacedBody(types: seq<ControllerType>, storage: seq<Block>, chosen: seq<Datastore>, i: nat)
    requires i < |storage| == |chosen|
    ensures var body := BodyOf(StorageConfig(types, storage, Placements(chosen)), i);
            && body.datastore == Some(chosen[i].ref)
            && body.fileName == if chosen[i].name == "" then "" else "[" + chosen[i].name + "]"
  {
  }

  /** Every disk is on the datastore chosen for its own key exactly when keys come in storage order. */
  lemma {:induction false} OwnDatastoreIff(storage: seq<Block>, chosen: seq<Datastore>)
    requires |chosen| == |storage|
    ensures |Order(storage)| == |storage| && Indexes(Order(storage), |storage|)
    ensures LegacyFirst(storage) ==> forall k :: 0 <= k < |storage| ==> chosen[Order(storage)[k]].ref == chosen[k].ref
    ensures DistinctRefs(chosen) && !LegacyFirst(storage) ==>
              exists k :: 0 <= k < |storage| && chosen[Order(storage)[k]].ref != chosen[k].ref
  {
    OrderIsStablePartition(storage);
    StorageOrderIff(storage);
    hide LegacyFirst;
    var order := Order(storage);
    if DistinctRefs(chosen) && forall k :: 0 <= k < |storage| ==> chosen[order[k]].ref == chosen[k].ref {
      forall k | 0 <= k < |storage|
        ensures order[k] == k
      {
        assert chosen[order[k]].ref == chosen[k].ref;
      }
      assert order == Iota(|storage|);
    }
  }

  /** With datastores applied by block index, the disk of the k-th key is on the k-th datastore chosen. */
  ghost predicate PlacedByKey(types: seq<ControllerType>, storage: seq<Block>, chosen: seq<Datastore>, k: nat)
    requires |chosen| == |storage| && k < |storage| == |Order(storage)| && Indexes(Order(storage), |storage|)
  {
    BodyOf(StorageConfig(types, storage, Placements(chosen)), Order(storage)[k]).datastore == Some(chosen[k].ref)
  }

  /**
   The answers that can be given: every one of them reaches the disks it is meant
   for exactly when no explicit block precedes a legacy one.
   */
  lemma {:induction false} AnswersMatchKeysIff(types: seq<ControllerType>, storage: seq<Block>)
    ensures |Order(storage)| == |storage| && Indexes(Order(storage), |storage|)
    ensures (forall chosen: seq<Datastore> | |chosen| == |storage| ::
               forall k :: 0 <= k < |storage| ==> PlacedByKey(types, storage, chosen, k))
            <==> LegacyFirst(storage)
  {
    OrderIsStablePartition(storage);
    hide Order, LegacyFirst;
    if LegacyFirst(storage) {
      forall chosen: seq<Datastore>, k | |chosen| == |storage| && 0 <= k < |storage|
        ensures PlacedByKey(types, storage, chosen, k)
      {
        OwnDatastoreIff(storage, chosen);
        PlacedBody(types, storage, chosen, Order(storage)[k]);
      }
    } else {
      var distinct := NumberedDatastores(|storage|);
      OwnDatastoreIff(storage, distinct);
      var k :| 0 <= k < |storage| && distinct[Order(storage)[k]].ref != distinct[k].ref;
      PlacedBody(types, storage, distinct, Order(storage)[k]);
      assert !PlacedByKey(types, storage, distinct, k);
    }
  }

  lemma NumberedDatastores(n: nat) returns (list: seq<Datastore>)
    ensures |list| == n && DistinctRefs(list)
  {
    list := seq(n, i requires 0 <= i < n => Datastore("", Numeral(i)));
    forall i, j | 0 <= i < j < n
      ensures list[i].ref != list[j].ref
    {
      if Numeral(i) == Numeral(j) {
        NumeralInjective(i, j);
      }
    }
  }

  /**
   Cloning with a datastore cluster: datastores are chosen for the template's run,
   then the same blocks are added to the devices read again. The k-th new disk has
   the k-th key of the request and the datastore chosen for the index of its block:
   its own, for every block, whenever no explicit block precedes a legacy one, and
   for some block another's, whenever one does and the datastores differ.
   */
  method PlaceAndAttach(cluster: Cluster, types: seq<ControllerType>, storage: seq<Block>, template: VirtualDeviceList,
                        devices: VirtualDeviceList, primaryDiskSize: int)
    returns (choice: Option<(seq<Datastore>, bool)>, specs: Result<seq<ConfigSpec>, AllocError>, ghost run: State)
    requires WellKeyed(SlotsOf(template)) && WithinLimits(SlotsOf(template)) && SlotsOf(devices) == SlotsOf(template)
    modifies template`children, devices`children
    ensures choice
            == Choice(cluster, StorageConfig(types, storage, []), template, old(SlotsOf(template)), primaryDiskSize)
    ensures choice.Some? ==>
              && specs.Success? && Run(old(SlotsOf(template)), types, storage, false) == Success(run)
              && |choice.value.0| == |storage| == |Order(storage)| && Indexes(Order(storage), |storage|)
              && var disks, chosen := DisksIn(DevicesOf(specs.value)), choice.value.0;
                 && |disks| == |storage| == |run.keys|
                 && (forall k :: 0 <= k < |storage| ==>
                       disks[k].key == run.keys[k] && disks[k].body.datastore == Some(chosen[Order(storage)[k]].ref))
                 && (LegacyFirst(storage) ==> forall k :: 0 <= k < |storage| ==>
                     disks[k].body.datastore == Some(chosen[k].ref))
                 && (DistinctRefs(chosen) && !LegacyFirst(storage) ==>
                       exists k :: 0 <= k < |storage| && disks[k].body.datastore != Some(chosen[k].ref))
  {
    hide *;
    ghost var slots := SlotsOf(template);
    ghost var config := StorageConfig(types, storage, []);
    ChoiceCovers(cluster, config, template, slots, primaryDiskSize);
    ChoiceIs(cluster, config, template, slots, primaryDiskSize);
    choice := SelectDatastoresForDisks(cluster, StorageConfig(types, storage, []), template, primaryDiskSize);
    var chosen := if choice.Some? then choice.value.0 else [];
    specs, run := AddStorageDevices(StorageConfig(types, storage, Placements(chosen)), devices);
    if choice.Some? {
      AggregateIsImplied(slots, types, storage);
      SameLength(template, devices);
      ClonedDisks(types, storage, devices, slots, specs.value, run, chosen);
      OwnDatastoreIff(storage, chosen);
    }
  }

  lemma SameLength(a: VirtualDeviceList, b: VirtualDeviceList)
    requires SlotsOf(a) == SlotsOf(b)
    ensures |SlotsOf(a)| == |a| == |b|
  {
  }

  // ----- two disks swapped -----

  const LEGACY_BLOCK: Block := Block(1024, false, true, 0, "", "")

  const DATASTORE_A: Datastore := Datastore("A", "A")
  const DATASTORE_B: Datastore := Datastore("B", "B")

  /** An LSI Logic controller as the first device of an empty list. */
  const NEW_SCSI: Slot := Slot(-201, 0, None, Controller(ScsiModel(false), 0, SCSI_RESERVED_UNIT))

  /** A recommendation that maps the first key to A and the second to B. */
  function OnePerKey(keys: seq<int>): Option<seq<Action>> {
    if |keys| == 2 then Some([PlacementAction(None, [Locator(keys[0], "A"), Locator(keys[1], "B")])]) else None
  }

  function ByReference(ref: Ref): Option<Datastore> {
    Some(Datastore(ref, ref))
  }

  lemma NewScsi()
    ensures AddControllers([], [LsiLogic]) == Some([NEW_SCSI])
  {
    assert FreeBusFrom([], SCSI, 0) == 0;
    assert CreateController([], LsiLogic) == Some(NEW_SCSI);
    assert [] + [NEW_SCSI] == [NEW_SCSI];
    assert AddController([], LsiLogic) == Some([NEW_SCSI]);
    assert [LsiLogic][1..] == [];
  }

  lemma FirstUnitIsZero()
    ensures AssignedUnit([NEW_SCSI], NEW_SCSI) == 0 && RoomForDisk([NEW_SCSI], NEW_SCSI) && NewKey([NEW_SCSI]) == -202
  {
    var one := [NEW_SCSI];
    assert one[..0] == [];
    assert CountDisksOn(one, -201) == 0;
  }

  /** The legacy block is served first. */
  lemma LegacyBlockFirst(storage: seq<Block>)
    requires storage == [ExplicitBlock(Address(SCSI, 0, 1)), LEGACY_BLOCK]
    ensures LegacyBlocks(storage) == [1] && ExplicitBlocks(storage) == [0] && !LegacyFirst(storage)
  {
    ExplicitBlockParses(Address(SCSI, 0, 1));
    hide ExplicitBlock, Parse;
    assert storage[0].controllerUnit != "" && storage[1].controllerUnit == "";
    assert LegacyBelow(storage, 0) == [] && ExplicitBelow(storage, 0) == [];
    assert LegacyBelow(storage, 1) == [] + [] && ExplicitBelow(storage, 1) == [] + [0];
    assert LegacyBelow(storage, 2) == [] + [1] && ExplicitBelow(storage, 2) == [0] + [];
  }

  /** It gets unit 0 of the new controller. */
  lemma {:induction false} LegacyBlockPlaced(storage: seq<Block>)
    requires storage == [ExplicitBlock(Address(SCSI, 0, 1)), LEGACY_BLOCK]
    ensures LegacyPhase([], [LsiLogic], storage)
            == Success(State([NEW_SCSI, Slot(-202, -201, Some(0), Disk)], 1, map[], {}, [1], [-202]))
  {
    LegacyBlockFirst(storage);
    NewScsi();
    FirstUnitIsZero();
    AddedAreControllers([], [LsiLogic]);
    hide ExplicitBlock, Parse, AddControllers, LegacyBlocks, AssignedUnit, RoomForDisk, NewKey;
    var st := Init([NEW_SCSI]);
    assert [1][1..] == []
           && st.slots + [Slot(-202, -201, Some(0), Disk)] == [NEW_SCSI, Slot(-202, -201, Some(0), Disk)];
    assert [] + [1] == [1] && [] + [-202] == [-202];
    assert LegacyStep(st, 0, 1, LEGACY_BLOCK, 1)
        == Success(State([NEW_SCSI, Slot(-202, -201, Some(0), Disk)], 0, map[], {}, [1], [-202]));
  }

  lemma SecondUnitIsFree(slots: Slots)
    requires slots == [NEW_SCSI, Slot(-202, -201, Some(0), Disk)]
    ensures FindByBus(slots, SCSI, 0) == Some(0) && NewKey(slots) == -203
    ensures UnitAdmitted(slots, NEW_SCSI, 1) && RoomForDisk(slots, NEW_SCSI)
  {
    var one := [NEW_SCSI];
    assert slots[..1] == one && one[..0] == [];
    assert FindByBus(one, SCSI, 0) == Some(0);
    assert CountDisksOn(one, -201) == 0 && NewKey(one) == -202;
  }

  /** The explicit block joins that controller at unit 1. */
  lemma {:induction false} ExplicitBlockJoins(st: State)
    requires st == State([NEW_SCSI, Slot(-202, -201, Some(0), Disk)], 1, map[], {}, [1], [-202])
    ensures var step := ExplicitStep(st, [LsiLogic], ExplicitBlock(Address(SCSI, 0, 1)), 0);
            step.Success? && step.value.keys == [-202, -203] && step.value.blocks == [1, 0]
  {
    ExplicitBlockParses(Address(SCSI, 0, 1));
    SecondUnitIsFree(st.slots);
    hide Parse, ExplicitBlock, FindByBus, NewKey, UnitAdmitted, RoomForDisk;
    assert [-202] + [-203] == [-202, -203];
  }

  lemma {:induction false} SwapRuns(storage: seq<Block>)
    requires storage == [ExplicitBlock(Address(SCSI, 0, 1)), LEGACY_BLOCK]
    ensures var run := Run([], [LsiLogic], storage, false);
            run.Success? && run.value.keys == [-202, -203] && Order(storage) == [1, 0]
  {
    LegacyBlockFirst(storage);
    LegacyBlockPlaced(storage);
    var st := LegacyPhase([], [LsiLogic], storage).value;
    ExplicitBlockJoins(st);
    hide ExplicitBlock, ExplicitStep, LegacyPhase, LegacyBlocks, ExplicitBlocks;
    var next := ExplicitStep(st, [LsiLogic], storage[0], 0);
    assert [0][1..] == [];
    assert ExplicitRun(st, [LsiLogic], storage, [0]) == ExplicitRun(next.value, [LsiLogic], storage, []);
  }

  lemma {:induction false} OnePerKeyPlaces(keys: seq<int>, locators: seq<Locator>)
    requires |keys| == 2 && keys[0] != keys[1] && locators == [Locator(keys[0], "A"), Locator(keys[1], "B")]
    ensures Placed(keys, locators, [], ByReference, 0) == Some(DATASTORE_A)
    ensures Placed(keys, locators, [], ByReference, 1) == Some(DATASTORE_B)
  {
    assert locators[..1] == [locators[0]] && [locators[0]][..0] == [];
    assert LastMapping(locators, keys[1], ByReference) == Some(DATASTORE_B);
    assert LastMapping(locators[..1], keys[0], ByReference) == Some(DATASTORE_A);
  }

  lemma OnePerKeyRead(locators: seq<Locator>)
    ensures var actions := [PlacementAction(None, locators)];
            Mappings(actions) == locators && Destinations(actions) == [] && Resolved([], ByReference) == []
  {
    assert [PlacementAction(None, locators)][..0] == [];
  }

  lemma {:induction false} OnePerKeyAnswers(keys: seq<int>, fallback: Datastore)
    requires |keys| == 2 && keys[0] != keys[1]
    ensures Answer(OnePerKey(keys).value, keys, fallback, ByReference) == Some([DATASTORE_A, DATASTORE_B])
  {
    hide Placed, LastMapping, Mappings, Destinations, Resolved;
    var locators := [Locator(keys[0], "A"), Locator(keys[1], "B")];
    OnePerKeyRead(locators);
    OnePerKeyPlaces(keys, locators);
    assert Filled(keys, locators, [], ByReference).value == [DATASTORE_A, DATASTORE_B];
  }

  /**
   An explicit block before a legacy one, on a template without storage. Storage DRS
   puts the first key, the legacy block's disk, on A and the second, the explicit
   block's, on B; the clone attaches the first on B and the second on A.
   */
  method DisksSwapped() returns (choice: Option<(seq<Datastore>, bool)>, specs: Result<seq<ConfigSpec>, AllocError>)
    ensures choice == Some(([DATASTORE_A, DATASTORE_B], true)) && specs.Success?
    ensures var disks := DisksIn(DevicesOf(specs.value));
            && |disks| == 2 && disks[0].key == -202 && disks[1].key == -203
            && OnePerKey([disks[0].key, disks[1].key])
               == Some([PlacementAction(None, [Locator(disks[0].key, "A"), Locator(disks[1].key, "B")])])
            && disks[0].body.datastore == Some("B") && disks[1].body.datastore == Some("A")
  {
    var storage := [ExplicitBlock(Address(SCSI, 0, 1)), LEGACY_BLOCK];
    var cluster := Cluster(Some([DATASTORE_A]), OnePerKey, ByReference);
    SwapRuns(storage);
    OnePerKeyAnswers([-202, -203], DATASTORE_A);
    EmptyListIsSound();
    assert Resizable([], 0);
    ghost var run;
    choice, specs, run := PlaceAndAttach(cluster, [LsiLogic], storage, [], [], 0);
    ChoiceIs(cluster, StorageConfig([LsiLogic], storage, []), [], [], 0);
  }
}
