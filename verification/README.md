# Storage placement and its neighbours, verified

This project models the parts of the vSphere Packer plugin that keep state and
make decisions, and proves properties of them for every input and every run.

**The disk and controller allocator.** `StorageConfig.addStorageDevices` creates
controllers, hands out keys and units, enforces limits and emits an ordered list
of device specs. It is modelled as a function on lists of values, and as methods on mutable
objects that are proved to refine it:

- `DeviceList`, `Allocator`: lists of device values and the run as a function on them,
  with what the allocator needs of the virtual device library as explicit contracts;
- `AllocatorSafety`, `AllocatorOrder`, `UnitCapacity`, `UnitText`: what every run keeps, the
  order and policies of the disks, the arithmetic of free units and the text that lists them;
- `DeviceFacts`: kinds, unit ranges, capacities and counts in plain numbers;
- `DeviceScan`, `StorageDevices`: the loops and the mutable device objects, with the
  controllers' child lists and the two entry points that share one template.

`ControllerAddress` is the address parser and printer. `StoragePrepare` is the static
check made before any device is read, and `PrepareReport` says on the configuration's own
fields what it reports. `Lockstep` relates its predictions to the run, `RunSuccess` and
`AnyRunSuccess` say exactly when a run succeeds, and `RunFailure` what a failed one names.

**Placement.** `StorageDrs` fills in a recommendation and `DrsAnswer` states the answer by
positions in it. `DatastorePlacement` places disks by storage policy with a cache,
`ClonePlacement` is the datastore step followed by the placement section of the clone step,
and `AnswerOrder` follows the chosen datastores into the clone.

**Smaller cores.** `VApp` (property specs), `TagConfig` and `Tags` (tag configuration, creation
and attachment on a server that may fail), `TagRetry` (retry loop and back-off), `WaitForIp`
(the settling loop) and `FolderCreation` (two ways of creating a folder path).

## How the model is set up

- An error is one constructor carrying at most the block index; texts are not modelled.
- Library calls, servers, clocks and samples are contracts or arbitrary functions: a policy
  solver may answer every lookup differently, a tag server may refuse or lose the reply of
  any request, an inventory may refuse any folder.
- Device keys, units and sizes are unbounded integers, durations are whole nanoseconds, the
  back-off factor is an exact non-negative real.
- A legacy block with a negative controller index stops the Go program; the model reports it
  as `IndexPanic`.

## Findings

Where the code and its comments part, the model follows the code.

- The run-time check returns early for a bus without a controller
  (builder/vsphere/driver/controller_address.go:538-541), so the first disk on a new explicit
  controller is range-checked by the static check alone (`RuntimeAloneIsNotEnough`). The static
  check in turn predicts the wrong pool entry once a referenced bus already exists, as its
  comment concedes (builder/vsphere/clone/storage_prepare.go:47-52; `ExistingBusShiftsPool`, with
  the exact condition in `DiskUsableIff` and `AllDisksUsableIff`).
- Acceptance by the static check does not mean that the run succeeds, even when no referenced
  bus exists: bus numbers, limits per kind, respelled addresses and pool length are left to run
  time (builder/vsphere/driver/disk.go:141-175). `AcceptedButFails` is an input,
  `AcceptedRunSucceedsIff` the exact condition, and `RunSucceedsIff` the one for any run.
- Two checks are implied by others: the aggregate validation
  (builder/vsphere/driver/disk.go:191-195; `AggregateIsImplied`) and the set of raw addresses
  already used (builder/vsphere/driver/disk.go:129-132; `PendingIsRedundant`, `RunWithoutPending`).
- Storage DRS answers come in serving order, legacy blocks first
  (builder/vsphere/driver/storage_placement.go:69-83), and are applied in storage order
  (builder/vsphere/driver/disk.go:226-234). They fit exactly when no explicit block precedes a
  legacy one (`PlaceAndAttach`, `AnswersMatchKeysIff`); `DisksSwapped` is an input on which two
  disks trade datastores.
- The retry loop does not cap the first delay, the closed form does
  (builder/vsphere/common/tags_retry.go:53 and 145-150; `BackoffAgreesIff`). The plugin never
  builds such a configuration: its tag manager uses only the default, whose initial delay is
  within the cap, and nothing but the repository's tests calls the closed form.
- The duplicate test for tags compares joined strings and refuses some distinct pairs
  (builder/vsphere/common/tags_manager.go:169; `KeyIsUniqueIff`, `DistinctPairsRefused`).
- A tag whose creation loses its reply fails that run, since the retry meets the name it took
  (builder/vsphere/common/tags_manager.go:493-516; `LostCreateFails`); a later run finds the tag
  (`CreatedThenFound`).

## Model

| member | source | states |
|---|---|---|
| AllocatorSafety.AggregateIsImplied | builder/vsphere/driver/disk.go:115-195 | From any keyed list within the per-kind and per-controller limits, a run with the final aggregate validation and one without it give the same result: the validation never fails |
| AllocatorSafety.LimitsImplyAggregate | builder/vsphere/driver/controller_address.go:501-524 | At most four controllers per kind, each within its own disk limit, already keep SATA at 120, NVMe at 60 and SCSI at 60, or 256 with a PVSCSI controller |
| AllocatorSafety.DisksByKindIsSum | builder/vsphere/driver/controller_address.go:463-486 | Counting disks through the controller behind each disk's key equals adding up the disks on each controller of the kind (double counting) |
| AllocatorSafety.RunKeepsInvariants | builder/vsphere/driver/disk.go:68-217 | Every successful run, whatever the mix of legacy and explicit blocks, keeps keys distinct, every disk linked, one device per controller and unit, and the limits, and only appends to the list |
| AllocatorSafety.LegacyStepKeeps | builder/vsphere/driver/disk.go:109-124 | A legacy block lands on a free unit of a controller created for the run and keeps all invariants |
| AllocatorSafety.ExplicitStepKeeps | builder/vsphere/driver/disk.go:130-189 | An explicit block, on an existing or a newly opened bus, keeps all invariants |
| AllocatorSafety.AddControllersKeeps | builder/vsphere/driver/disk.go:89-107 | Creating one controller per pool entry keeps keys distinct and the per-kind limit |
| AllocatorOrder.OrderIsStablePartition | builder/vsphere/driver/disk.go:77-85 | Serving legacy blocks first visits every block exactly once and keeps storage order within legacy and within explicit blocks |
| AllocatorOrder.StorageOrderIff | builder/vsphere/driver/disk.go:77-85 | That order is storage order exactly when no explicit block precedes a legacy one |
| AllocatorOrder.RunIsLogged | builder/vsphere/driver/disk.go:109-214 | A run appends exactly one disk per block, in that order, and each block's policy, or none, reaches its own disk and no other device |
| AllocatorOrder.PendingIsRedundant | builder/vsphere/driver/disk.go:129-189 | The set of raw addresses rejects nothing that unit occupancy would not: the explicit phase without it succeeds alike with the same devices |
| AllocatorOrder.RunWithoutPending | builder/vsphere/driver/disk.go:68-217 | From any device list, the whole run without that set comes out the same |
| AllocatorOrder.RespelledAddressRejected | builder/vsphere/driver/disk.go:129-189 | Two blocks whose addresses parse alike, however spelled, never both get in, whatever stands between them |
| UnitCapacity.FreePlusChildren | builder/vsphere/driver/controller_address.go:374-391 | On a controller whose devices sit on distinct usable units, free units plus devices is the controller's capacity (15, 64 or 30) |
| UnitCapacity.AdmittedUnitHasRoom | builder/vsphere/driver/controller_address.go:526-557 | When the run-time address check admits a unit on an existing controller, the capacity check for one more disk cannot fail |
| UnitCapacity.RoomFindsUnit | builder/vsphere/driver/controller_address.go:441-461 | When the capacity check passes, the automatic choice finds a free, usable unit in range |
| UnitCapacity.OccupiedUnits | builder/vsphere/driver/controller_address.go:355-372 | The scan returns exactly the units held by the controller's devices and the controller's own unit |
| UnitCapacity.ListAvailableUnits | builder/vsphere/driver/controller_address.go:374-391 | The list is the strictly increasing complement, within range, of occupied and reserved units |
| UnitCapacity.FreeBelow | builder/vsphere/driver/controller_address.go:374-391 | The units listed below a bound are strictly increasing and are exactly the free ones |
| UnitCapacity.CompactUnits | builder/vsphere/driver/controller_address.go:393-413 | The ranges built from a strictly increasing list expand to that list and are maximal |
| UnitCapacity.IncreasingIsApart | builder/vsphere/driver/controller_address.go:393-413 | Maximal ranges of an increasing list are disjoint, with a gap between any two |
| UnitCapacity.MaximalRangesUnique | builder/vsphere/driver/controller_address.go:393-413 | No other maximal ranges print the same list: the grouping is determined by the units |
| UnitText.FormatAvailableUnits | builder/vsphere/driver/controller_address.go:393-420 | The text is none for no units and otherwise the maximal ranges of the list, separated by commas |
| UnitText.TextIsExact | builder/vsphere/driver/controller_address.go:393-420 | Two listings of units read the same exactly when the lists are the same: the text loses nothing |
| UnitText.RangesTextInjective | builder/vsphere/driver/controller_address.go:393-420 | Different ranges never print the same |
| UnitText.ListsExample | builder/vsphere/driver/controller_address.go:393-420 | For example 0, 1, 2, 5, 10, 11 reads 0-2, 5, 10-11, and nothing reads none |
| ControllerAddress.ParseExactly | builder/vsphere/driver/controller_address.go:55-126 | A string parses to an address exactly when it is that address's prefix, bus and unit with any leading zeros, between any white space |
| ControllerAddress.ParsePrint | builder/vsphere/driver/controller_address.go:83-126 | Parsing what an address prints gives the address back, for every kind, bus 0 to 3 and any unit |
| ControllerAddress.ReprintIsCanonical | builder/vsphere/driver/controller_address.go:83-126 | Reprinting an accepted string parses to the same address, and two accepted strings reprint alike exactly when they parse alike |
| ControllerAddress.WordsParse | builder/vsphere/driver/controller_address.go:99-126 | The words scsi, nvme and sata, each followed by a bus from 0 to 3, a colon and a unit in decimal, parse to SCSI, NVMe and SATA with that bus and unit |
| ControllerAddress.AcceptedReads | builder/vsphere/driver/controller_address.go:57-57 | Conversely an accepted string, trimmed, begins with the word of its kind, the digit of its bus and a colon, and the rest is digits |
| ControllerAddress.NumeralIsDecimal | builder/vsphere/driver/controller_address.go:83-85 | A numeral is the digits of the number, without leading zeros |
| ControllerAddress.TrimIs | builder/vsphere/driver/controller_address.go:100-100 | Trimming leaves what stands between the outermost characters that are not white space |
| ControllerAddress.SpacesAre | builder/vsphere/driver/controller_address.go:100-100 | White space is the characters the trim of the standard library drops |
| DeviceScan.FindControllerByBus | builder/vsphere/driver/controller_address.go:326-338 | Finds the first controller of the kind on the bus, or reports that there is none |
| DeviceScan.CountDisksOnController | builder/vsphere/driver/controller_address.go:422-435 | Counts the disks that carry the controller's key |
| DeviceScan.ValidateControllerDiskCapacity | builder/vsphere/driver/controller_address.go:441-461 | Passes exactly when the controller has room for one more disk |
| DeviceScan.CountControllersByKind | builder/vsphere/driver/controller_address.go:580-593 | The map holds the number of controllers of each kind |
| DeviceScan.ValidateControllerCount | builder/vsphere/driver/controller_address.go:595-601 | Passes exactly when one more controller of the kind stays within four |
| DeviceScan.CountVirtualDisksByKind | builder/vsphere/driver/controller_address.go:463-486 | The map holds, for each kind, the disks whose controller key leads to that kind |
| DeviceScan.HasPvscsiController | builder/vsphere/driver/controller_address.go:488-499 | True exactly when some controller is paravirtual SCSI |
| DeviceScan.ValidateAggregateStorageCapacity | builder/vsphere/driver/controller_address.go:501-524 | Passes exactly when the per-machine totals are within 120, 60 and 60 or 256 |
| DeviceScan.ValidateControllerUnitRuntime | builder/vsphere/driver/controller_address.go:526-557 | Passes exactly when the address parses, is not pending and, if the bus has a controller, its unit is in range, not reserved and free; a missing bus is not range-checked |
| DeviceFacts.TypesOffer | builder/vsphere/driver/controller_address.go:214-256 | A pool entry makes a controller of its kind: SATA takes 30 disks at units 0 to 29, NVMe 15 at 0 to 14, PVSCSI 64 at 0 to 64 without 7, every other SCSI type 15 at 0 to 15 without 7 |
| DeviceFacts.RuntimeAdmitsIff | builder/vsphere/driver/controller_address.go:526-557 | The run-time check with its limits written out: parsed, not pending, and on a bus with a controller within 64, 15, 14 or 29, not the SCSI controller's own unit and no device's |
| DeviceFacts.FindByBusIs | builder/vsphere/driver/controller_address.go:326-338 | The search finds the first controller of that kind on that bus, or there is none |
| DeviceFacts.CountDisksOnIs | builder/vsphere/driver/controller_address.go:422-435 | The count on a controller is the number of places in the list that hold a disk with its key |
| DeviceFacts.CountKindIs | builder/vsphere/driver/controller_address.go:580-593 | The count of a kind is the number of places in the list that hold a controller of it |
| DeviceFacts.KindOfKeyIff | builder/vsphere/driver/controller_address.go:463-486 | A disk counts for the kind of the first controller with its key |
| DeviceFacts.CountDisksByKindIs | builder/vsphere/driver/controller_address.go:463-486 | The per-machine count is the number of places that hold a disk behind a controller of the kind |
| DeviceFacts.AggregateIs | builder/vsphere/driver/controller_address.go:501-524 | The aggregate validation in numbers: at most 120 SATA, 60 NVMe, and 60 SCSI disks, or 256 with a paravirtual controller |
| DeviceFacts.ControllerRoomIs | builder/vsphere/driver/controller_address.go:595-601 | One more controller of a kind is allowed while the list has fewer than four |
| DeviceFacts.DiskRoomIs | builder/vsphere/driver/controller_address.go:441-461 | One more disk is allowed while the controller has fewer than 64, 15, 15 or 30 |
| DeviceFacts.AssignedUnitIs | builder/vsphere/driver/disk.go:118-118 | The unit assigned automatically is the lowest in range that no device has |
| DeviceList.NewKey | builder/vsphere/driver/disk.go:236-239 | The key for a new device is below every key in the list |
| DeviceList.FreeBusFrom | builder/vsphere/driver/controller_address.go:603-612 | The bus number chosen for a new controller is used by no controller of its kind |
| DeviceList.CreateController | builder/vsphere/driver/controller_address.go:603-612 | A new controller has a new key, the kind of its type, an unused bus, own unit 7 when SCSI, and is paravirtual exactly for the pvscsi type |
| StorageDevices.BuildDisk | builder/vsphere/driver/disk.go:219-243 | The disk has a new key and the body the block asks for at its index; what that body is, field by field, is stated by AddStorageDevices |
| StorageDevices.AssignController | builder/vsphere/driver/disk.go:118-118 | Puts the disk on the unit the controller offers next and appends its key to the controller's list |
| StorageDevices.AssignDiskAtUnit | builder/vsphere/driver/controller_address.go:614-624 | Puts the disk at the unit, draws a key only if it has none, and extends the controller's list only when asked to |
| StorageDevices.AppendController | builder/vsphere/driver/disk.go:90-107 | A controller is created exactly when the type is known and its kind has room |
| StorageDevices.CreateLegacyControllers | builder/vsphere/driver/disk.go:89-107 | One new controller per pool entry, in order, or failure |
| StorageDevices.AttachLegacyDisks | builder/vsphere/driver/disk.go:109-124 | The loop over legacy blocks yields the specified devices and policies, and links each disk to its controller's list |
| StorageDevices.OpenBusController | builder/vsphere/driver/disk.go:142-175 | Draws the next pool entry for a missing bus and keeps the controller only if its kind and bus match the address |
| StorageDevices.AttachExplicitDisks | builder/vsphere/driver/disk.go:130-189 | The loop over explicit blocks yields the specified devices and policies, and links disks to controllers only in a real run |
| StorageDevices.PartitionBlocks | builder/vsphere/driver/disk.go:77-85 | Splits block indices into legacy and explicit, each in storage order |
| StorageDevices.BuildSpecs | builder/vsphere/driver/disk.go:197-214 | One spec per created device, in order, carrying a profile exactly where the key map has one |
| StorageDevices.AddDevices | builder/vsphere/driver/disk.go:68-217 | The run on device objects refines the run on values: same outcome and devices; the disks among the specs are one per block, in serving order, each as its block asks; and every controller's child list grows by exactly the keys linked to it, in order |
| StorageDevices.AddStorageDevices | builder/vsphere/driver/disk.go:52-54 | The clone run: aggregate validation on, every new disk linked to its controller; the k-th new disk has 1024 times the size, the thin and scrub flags and the policy of the k-th block served, and the file name and datastore placed for that block's index, both unset beyond the placements |
| StorageDevices.RunAsAsked | builder/vsphere/driver/disk.go:68-243 | The same law for any successful run: which specs hold disks, that they are all of them, and each one's fields in terms of its block |
| StorageDevices.DisksAt | builder/vsphere/driver/storage_placement.go:69-83 | The disks of a list are all its disks and nothing else, in list order |
| StorageDevices.KeysOnAt | builder/vsphere/driver/controller_address.go:614-624 | The keys linked to a controller are those of all disks with its key and of nothing else, in list order |
| StorageDevices.AddStorageDevicesForPlacement | builder/vsphere/driver/disk.go:58-61 | The placement run: no aggregate validation, and no child list of a given controller changes |
| StorageDevices.PlacementThenClone | builder/vsphere/driver/disk.go:52-61 | Run one after the other on one list of device objects they succeed or fail alike with the same keys, controllers, units and policies; the given controllers gain exactly the second run's disks, once |
| StorageDevices.FindDisk | builder/vsphere/driver/disk.go:248-264 | Returns the only disk of the list; none or several are refused |
| StorageDevices.StorageExistingDevices | builder/vsphere/driver/storage_placement.go:22-27 | The list handed to the allocator is the disks followed by the controllers; every other device is dropped |
| StorageDevices.ControllersAt | builder/vsphere/driver/storage_placement.go:22-27 | The controllers of a list are all its controllers and nothing else, in list order |
| StorageDevices.BuildPrimaryDiskResizeSpec | builder/vsphere/driver/storage_placement.go:51-67 | A copy of the only disk at the same place with 1024 times the size as capacity and everything else as it was, or failure when there is not exactly one |
| StorageDevices.NewVirtualDiskKeys | builder/vsphere/driver/storage_placement.go:69-83 | The keys of the new disks among the specs, in spec order |
| StorageDevices.BuildStoragePlacementConfigSpec | builder/vsphere/driver/storage_placement.go:31-49 | Succeeds exactly when the resize finds its single disk and the run succeeds; then it holds a resized copy of that disk when asked for, the run's devices, and the keys the run handed out, one per block, in serving order |
| StoragePrepare.PrepareStorage | builder/vsphere/clone/storage_prepare.go:20-103 | The method reports exactly the listed errors, in order; PrepareReport states which these are on the configuration's own fields |
| StoragePrepare.CheckBlocks | builder/vsphere/clone/storage_prepare.go:62-96 | The loop, with its running index and two maps, reports the errors that first use of buses and first use of addresses define |
| StoragePrepare.BlockCheck | builder/vsphere/clone/storage_prepare.go:63-91 | The three tests of one explicit block: exclusive fields, unit range for the predicted type, address used before |
| StoragePrepare.NumberingStep | builder/vsphere/clone/storage_prepare.go:69-78 | The map from bus to pool index always numbers the distinct buses in order of first use, after the legacy offset |
| StoragePrepare.AcceptedIff | builder/vsphere/clone/storage_prepare.go:20-103 | No error is reported exactly when all types are supported, legacy blocks have a pool, and every explicit block sets no index, repeats no earlier address and suits its predicted entry |
| PrepareReport.BadUnitIff | builder/vsphere/driver/controller_address.go:138-235 | With a legacy block, or past the pool, a parsed address is reported exactly when it is SCSI unit 7 or exceeds 14 for NVMe, 29 for SATA, 64 for SCSI with pvscsi listed, 15 for SCSI otherwise; within the pool exactly when it is SCSI unit 7, the kind is not the entry's, or the unit exceeds that entry's limit; the entry is the number of buses first referred to before its own |
| PrepareReport.UnparsedIsReported | builder/vsphere/driver/controller_address.go:138-150 | An address that does not parse is always reported |
| PrepareReport.PredictedEntry | builder/vsphere/clone/storage_prepare.go:47-78 | The entry predicted for a block is the number of distinct buses referred to before the first block on its own bus, after the whole pool when there is a legacy block |
| PrepareReport.OthersIff | builder/vsphere/clone/storage_prepare.go:27-101 | An unsupported type, a missing pool, an index beside a unit and a repeated address are reported exactly when the configuration has them, the last with the first block that used the address |
| PrepareReport.ReportInOrder | builder/vsphere/clone/storage_prepare.go:20-103 | Every error comes once: unsupported types first, then block by block in the order of the three tests, the missing pool last |
| Lockstep.TypesDrawn | builder/vsphere/driver/disk.go:141-153 | Before each block the run has drawn one pool entry per distinct bus seen so far that was not on the device list |
| Lockstep.DrawnIndex | builder/vsphere/clone/storage_prepare.go:67-78 | The entry drawn for a new bus is the predicted index minus the number of earlier distinct buses that already had a controller |
| Lockstep.AcceptedRunIsUsable | builder/vsphere/clone/storage_prepare.go:39-93 | With explicit blocks only, no reported error and no referenced bus present beforehand, a successful run creates controllers of exactly the predicted types and puts every disk on a unit its controller offers, never on SCSI unit 7 |
| Lockstep.StepUsableIff | builder/vsphere/driver/controller_address.go:526-557 | One explicit step lands on a usable unit exactly when the bus had a controller or the unit suits the type drawn |
| Lockstep.DiskUsableIff | builder/vsphere/driver/disk.go:130-189 | When its block has been served a disk is on a usable unit exactly when, from the input alone, its bus existed or was used before, or the unit suits the predicted entry shifted by the buses that existed |
| Lockstep.AllDisksUsableIff | builder/vsphere/driver/disk.go:130-189 | A successful run of explicit blocks leaves every new disk on a usable unit exactly when every block's unit suits, judged from the input alone |
| AnyRunSuccess.RunSucceedsIff | builder/vsphere/driver/disk.go:68-217 | For any mix of blocks and any list whose keys identify its devices, a run succeeds exactly when the pool's controllers can be made and have room for the legacy blocks, if any, and every explicit block is taken: its address is new, and its controller, given, made by the run or made for it, has the unit and the room; from a list within its limits the final validation makes no difference |
| AnyRunSuccess.LegacyPhaseIff | builder/vsphere/driver/disk.go:87-127 | The legacy phase succeeds exactly when every pool entry is a known type whose kind has room after those before it, and every legacy block picks a controller with room after the legacy blocks before it |
| AnyRunSuccess.AddControllersIff | builder/vsphere/driver/disk.go:89-107 | Controllers for the whole pool can be made exactly when each entry is known and its kind stays within four |
| AnyRunSuccess.MidwayIff | builder/vsphere/driver/disk.go:129-189 | The explicit phase reaches block n exactly when the list it starts from takes every earlier block, and then every controller carries what it was given with and exactly the disks of the blocks on its bus |
| AnyRunSuccess.StepIff | builder/vsphere/driver/disk.go:130-189 | In such a state the next explicit block succeeds exactly when it is taken |
| AnyRunSuccess.JoinIff | builder/vsphere/driver/controller_address.go:526-557 | On a controller of the list, the unit and the room a disk needs are free exactly when the account of earlier blocks says so |
| RunFailure.RunFailsAt | builder/vsphere/driver/disk.go:87-189 | What a failed run names: no block when the pool's controllers cannot be made, else the first legacy block not taken, with a crash exactly when its index is negative, and with those all taken the first explicit block not taken |
| RunFailure.ExplicitFailsAt | builder/vsphere/driver/disk.go:130-189 | The explicit phase stops at the first block that is not taken and names it |
| RunFailure.LegacyFailsAt | builder/vsphere/driver/disk.go:109-124 | The legacy phase stops at the first block that is not taken and names it |
| RunSuccess.AcceptedRunSucceedsIff | builder/vsphere/clone/storage_prepare.go:47-52 | With or without the final validation, from a list within its limits, accepted explicit storage with no referenced bus present runs through exactly when no parsed address repeats, the pool covers the distinct buses, no kind exceeds four controllers, and every new bus is the lowest its kind does not use by then |
| RunSuccess.AcceptedButFails | builder/vsphere/clone/storage_prepare.go:47-52 | Counterexample: scsi1:1 alone on an empty list is accepted, and its run fails because the first controller made is on bus 0 |
| RunSuccess.StepFits | builder/vsphere/driver/disk.go:130-189 | After a successful start, the next accepted block succeeds exactly when it fits |
| RunSuccess.LowestFree | builder/vsphere/driver/controller_address.go:603-612 | A new controller gets a bus exactly when it is the lowest its kind does not use |
| RunSuccess.HostOccupied | builder/vsphere/driver/controller_address.go:355-372 | On a controller made for a bus, a unit is taken exactly when an earlier block has it |
| Lockstep.MixedRunIsUsable | builder/vsphere/driver/disk.go:87-189 | With at least one legacy block every disk of a successful run is on a usable unit, with no static check |
| Lockstep.PoolUsedUp | builder/vsphere/driver/disk.go:126-150 | Once the pool is used up explicit disks only join existing controllers and are all range-checked |
| Lockstep.RuntimeAloneIsNotEnough | builder/vsphere/driver/controller_address.go:538-541 | Counterexample: on an empty list scsi0:20 is placed on an LSI Logic controller, beyond its last unit |
| Lockstep.ExistingBusShiftsPool | builder/vsphere/clone/storage_prepare.go:47-52 | Counterexample: with a bus already present, an accepted configuration puts a disk at unit 40 of an LSI Logic controller |
| StorageDrs.DiskDatastoreMappings | builder/vsphere/driver/storage_placement.go:90-105 | The mappings are the locators of all placement actions, every one of them and nothing else, ordered by action and then by place in the action |
| StorageDrs.DestinationOnlyActions | builder/vsphere/driver/storage_placement.go:107-120 | The destinations are the references of exactly those placement actions that have a destination and no locator, in order |
| StorageDrs.ApplyMappings | builder/vsphere/driver/storage_drs.go:186-197 | After the first phase a disk has a datastore exactly if a mapping for its key resolves, and it is the last such one |
| StorageDrs.ApplyDestinations | builder/vsphere/driver/storage_drs.go:199-221 | After the second phase the k-th unmapped disk has the k-th destination that resolves |
| StorageDrs.ApplyDefault | builder/vsphere/driver/storage_drs.go:223-245 | The third phase gives every remaining disk the datastore of the lowest index filled so far, or rejects when there is none |
| StorageDrs.DatastoresForNewDisks | builder/vsphere/driver/storage_drs.go:170-246 | The three phases together meet the closed form for two or more disks, and the special cases for none and for one |
| StorageDrs.DistinctKeysOutcome | builder/vsphere/driver/storage_drs.go:170-246 | With distinct keys the fill is rejected exactly when no mapping for a known key and no destination resolves, and mapped disks keep their last mapping |
| StorageDrs.FirstPlacedNone | builder/vsphere/driver/storage_drs.go:223-239 | There is no first filled disk exactly when none is mapped and no destination is available |
| StorageDrs.LastMappingIs | builder/vsphere/driver/storage_drs.go:186-197 | The last mapping for a key is the one no later resolvable mapping for it follows |
| DrsAnswer.AnswerByPosition | builder/vsphere/driver/storage_drs.go:170-246 | The whole answer by positions in the recommendation: each disk has the datastore of the last locator that names its key and resolves, the n-th disk without one that of the n-th action without locators whose destination resolves, and the rest that of the lowest disk that has one; none at all is a rejection; a single disk prefers the first datastore offered |
| DrsAnswer.MappedDisksOnly | builder/vsphere/driver/storage_drs.go:170-246 | When no action without locators offers a datastore that resolves, mapped disks have their own, all others that of the lowest mapped one, and the answer is rejected exactly when none is mapped |
| DrsAnswer.DestinationOfMappingUnused | builder/vsphere/driver/storage_placement.go:107-120 | For example, an action that maps the first key to A and has destination D gives A to both of two disks, and A to a single one |
| DrsAnswer.OfferedAt | builder/vsphere/driver/storage_placement.go:107-120 | The datastores offered are those of all placement actions without locators whose destination resolves, in order |
| DrsAnswer.LastMappingByPosition | builder/vsphere/driver/storage_placement.go:90-105 | A key's mapping is the last locator, by action and place, that names it and resolves |
| DatastorePlacement.ResolveStoragePolicyPlacement | builder/vsphere/common/step_resolve_datastore.go:183-247 | Skipped for an explicit datastore, a cluster or no policy; otherwise one placement per disk, equal policies placed alike, each from the seed or from a lookup of that very policy, each unseeded policy looked up once, and the name filled in when blank |
| DatastorePlacement.PlaceByPolicy | builder/vsphere/common/step_resolve_datastore.go:207-236 | The cached loop: on success the lookups made are exactly the distinct unseeded policies in order of first use |
| DatastorePlacement.PolicyService.FindCompatibleDatastore | builder/vsphere/common/step_resolve_datastore.go:227-227 | Each lookup is logged and may be answered differently |
| DatastorePlacement.FreshPolicies | builder/vsphere/common/step_resolve_datastore.go:222-231 | The policies to look up are the distinct, non-blank, unseeded ones |
| DatastorePlacement.FreshByFirstUse | builder/vsphere/common/step_resolve_datastore.go:222-231 | Of two policies looked up the one used first is looked up first |
| ClonePlacement.FirstStoragePolicyName | builder/vsphere/common/storage_config.go:70-77 | The first non-blank policy, or blank when there is none |
| ClonePlacement.ResolveDatastore | builder/vsphere/common/step_resolve_datastore.go:51-115 | Success, the lookup made and all three state entries (datastore, selection method, policy id) in each of the four cases, failures included |
| ClonePlacement.DisksFromStorageConfig | builder/vsphere/clone/step_clone.go:400-420 | Every block is carried over in order with its policy name replaced by the id and nothing else changed; it fails exactly when some non-blank policy has no id |
| ClonePlacement.SeedTakesHead | builder/vsphere/common/step_resolve_datastore.go:207-210 | Seeding the first policy removes exactly that one lookup |
| ClonePlacement.PlaceByPoliciesOnly | builder/vsphere/clone/step_clone.go:442-478 | With neither datastore nor cluster, the step and the per-disk placement together look up each distinct policy exactly once on success, and every disk gets an answer given for its own policy |
| ClonePlacement.DuplicateDatastore | builder/vsphere/driver/storage_drs.go:257-263 | One copy per disk |
| ClonePlacement.SelectDatastoresForDisks | builder/vsphere/driver/storage_drs.go:74-127 | Succeeds exactly with a datastore in the cluster, storage, a resizable primary disk and a successful run; the answer is that for the run's keys when the recommendation settles one, and else the cluster's first datastore for every block |
| ClonePlacement.ChoiceCovers | builder/vsphere/driver/storage_drs.go:74-127 | A choice has exactly one datastore per block |
| ClonePlacement.ResolveMultiDiskPlacement | builder/vsphere/common/step_resolve_datastore.go:123-171 | Empty without a cluster or with one disk; otherwise the choice, or copies of the primary datastore when no choice can be made, or empty when there is none |
| ClonePlacement.PlaceForClone | builder/vsphere/clone/step_clone.go:454-484 | The list handed to the clone is the cluster's choice, copies of the primary datastore, placements that follow the disks' policies at one lookup per policy, or empty, never covering only some blocks; and which name goes with it in each case |
| StorageDrs.FilledIs | builder/vsphere/driver/storage_drs.go:170-246 | The outcome is nothing when no disk has a datastore, and otherwise every disk without one gets that of the lowest disk that has one |
| AnswerOrder.ClonedDisks | builder/vsphere/driver/disk.go:68-243 | The k-th disk a real run adds has the k-th key of the run and the file name and datastore for the index of its block |
| AnswerOrder.PlaceAndAttach | builder/vsphere/clone/step_clone.go:454-484 | Choosing for the template's run and then adding the same blocks to the devices read again succeeds; the k-th new disk has the k-th requested key; every disk gets the datastore chosen for its own key if no explicit block precedes a legacy one, and some disk does not if one does and the datastores differ |
| AnswerOrder.OwnDatastoreIff | builder/vsphere/driver/disk.go:77-85 | With distinct datastores, reading a list made in serving order by block index gives every disk its own entry exactly when no explicit block precedes a legacy one |
| AnswerOrder.AnswersMatchKeysIff | builder/vsphere/clone/step_clone.go:465-467 | Every answer that can be given reaches the disks it is meant for exactly when no explicit block precedes a legacy one |
| AnswerOrder.DisksSwapped | builder/vsphere/driver/disk.go:226-234 | Counterexample, run from placement to clone: with scsi0:1 before a legacy block, the disk recommended for A is attached on B and the one for B on A |
| AnswerOrder.SwapRuns | builder/vsphere/driver/disk.go:68-217 | That input runs: the legacy block's disk gets the first key |
| VApp.MaxKey | builder/vsphere/driver/vapp.go:43-51 | The largest key, or 0 |
| VApp.SortIds | builder/vsphere/driver/vapp.go:70-153 | The ids are visited once each, in increasing order |
| VApp.BuildVAppConfigSpec | builder/vsphere/driver/vapp.go:70-153 | With the feature not enabled it succeeds exactly when every id exists and is configurable; no information and an empty list give the same spec when enabled; the specs are the specified ones in id order, the two guest transports come exactly with the first properties, and each error says what is wrong |
| VApp.CollectSpecs | builder/vsphere/driver/vapp.go:97-142 | The loop emits an edit per existing id and an add per missing one, with keys counting up from the maximum |
| VApp.SpecAt | builder/vsphere/driver/vapp.go:17-41 | The n-th change: the last property with the id is edited under its own key, any other is added under the next key above all present, user-configurable, of kind string, with the label and description known for that id |
| VApp.ExistingIs | builder/vsphere/driver/vapp.go:84-96 | The property looked up by id is the last one that has it |
| VApp.LessIff | builder/vsphere/driver/vapp.go:97-99 | The order of ids: a proper prefix first, else the first character that differs decides |
| VApp.NewVAppConfigSpec | builder/vsphere/driver/vapp.go:155-176 | Without information every id is added with keys from 1 and the same defaults |
| VApp.SpecIsOverlay | builder/vsphere/driver/vapp.go:97-142 | Applying the edits and adds gives the old properties with new values laid over them, followed by the new ones |
| VApp.OverlayKeepsDistinct | builder/vsphere/driver/vapp.go:97-142 | After applying, ids and keys are distinct, every named property has its requested value, and every other one is as it was |
| VApp.OverlayCovers | builder/vsphere/driver/vapp.go:97-142 | Every requested id is present afterwards |
| TagConfig.ValidUrnIff | builder/vsphere/common/tags_manager.go:192-220 | A tag id is valid exactly when it is the fixed prefix, a UUID and :GLOBAL |
| TagConfig.ValidateConfig | builder/vsphere/common/tags_manager.go:71-190 | Accepts exactly the well-formed configurations whose ids are distinct and whose category:name keys are distinct, and every error is one that some id or block has |
| TagConfig.AcceptsIff | builder/vsphere/common/tags_manager.go:71-190 | Acceptance on the configuration's own fields: valid and different direct ids, and every block with an id alone that nothing before it has, or with a category and a name whose joined text no earlier block has |
| TagConfig.ValidUrnSpelled | builder/vsphere/common/tags_manager.go:192-220 | A valid id letter by letter: the prefix, five groups of 8, 4, 4, 4 and 12 hexadecimal digits joined by hyphens, and :GLOBAL |
| TagConfig.AcceptedPairsAreDistinct | builder/vsphere/common/tags_manager.go:168-178 | An accepted configuration names no category and name twice |
| TagConfig.ExactWithoutSeparator | builder/vsphere/common/tags_manager.go:168-178 | Where no category contains a colon, the duplicate test is exact |
| TagConfig.KeyIsUniqueIff | builder/vsphere/common/tags_manager.go:169-169 | A pair shares its key with no other pair exactly when neither part contains a colon |
| TagConfig.DistinctPairsRefused | builder/vsphere/common/tags_manager.go:169-178 | Counterexample: a and b:c, and a:b and c, are refused as duplicates |
| Tags.TagManager.WithRetry | builder/vsphere/common/tags_retry.go:47-87 | One to three attempts are made, a retryable error is returned only by the last or on cancellation, and together they have the effect and answer of a single one on a server that may lose replies; with no fault possible there is one attempt |
| Tags.Again | builder/vsphere/common/tags_retry.go:55-84 | A failed attempt followed by another amounts to one attempt; at most one tag is created |
| Tags.LostCreateFails | builder/vsphere/common/tags_manager.go:493-516 | A create that took effect and lost its reply fails for good: every later attempt meets the name it took |
| Tags.CreatedThenFound | builder/vsphere/common/tags_manager.go:468-529 | When a tag is made but the call fails, the next call on a fault-free server finds that very tag and changes nothing |
| Tags.TagManager.GetTagById | builder/vsphere/common/tags_manager.go:325-362 | Returns a tag with that id, cached or not, and leaves the store as it was |
| Tags.TagManager.GetCategoryByName | builder/vsphere/common/tags_manager.go:364-418 | Returns a category of that name; without faults it fails only if there is none |
| Tags.TagManager.GetTagByCategoryAndName | builder/vsphere/common/tags_manager.go:420-466 | Returns a tag of that name and category, if any; a tag that cannot be read is passed over |
| Tags.TagManager.ResolveOrCreateTag | builder/vsphere/common/tags_manager.go:468-529 | Resolves to a tag the pair names, creating at most that tag; without faults an existing tag changes nothing and a usable category suffices |
| Tags.TagManager.ResolveTagIds | builder/vsphere/common/tags_manager.go:223-323 | The ids are, in order of first mention and without repetition, the direct ids and for each block its own id or that of a tag with its name in a category of its category name that takes virtual machines; success or not, only tags that blocks ask for were created |
| Tags.FirstSeenIs | builder/vsphere/common/tags_manager.go:254-257 | Dropping repeated ids loses none and adds none |
| Tags.FirstSeenOrder | builder/vsphere/common/tags_manager.go:254-257 | Of two ids the one mentioned first comes first |
| Tags.TagManager.ApplyTags | builder/vsphere/common/tags_manager.go:536-595 | On success every direct id and every block's id is attached, and for every block without one a tag of its name in a category of its category name that takes virtual machines; at any outcome nothing else is attached or created; without faults it succeeds when the ids exist and the categories are there, and no request is sent in vain |
| Tags.NamedIsMentioned | builder/vsphere/common/tags_manager.go:223-323 | What the entries name is, place by place, what the configuration's fields say |
| Tags.OnlyConfiguredIs | builder/vsphere/common/tags_manager.go:536-595 | Every new tag is one that a block asks for by category and name, and every id newly attached is given or that of such a tag |
| Tags.TagManager.AttachMissing | builder/vsphere/common/tags_manager.go:574-592 | Success attaches exactly the given ids in addition; a failure midway leaves some of them attached and nothing else; when all are attached already nothing is sent, however faulty the server, and without faults one request is sent per missing id |
| Tags.AppliedIsSettled | builder/vsphere/common/tags_manager.go:536-595 | After a success every tag any entry names is attached |
| Tags.ApplyTwice | builder/vsphere/common/tags_manager.go:536-595 | Once a run has succeeded, on however faulty a server, another by any manager on a fault-free server succeeds and changes nothing |
| TagRetry.WithRetry | builder/vsphere/common/tags_retry.go:47-87 | The operation is called one to MaxAttempts times, each call but the last having failed retryably without cancellation; success, giving up, exhaustion and cancellation are told apart by how the last call ended, and one completed wait of the carried delay stands between calls |
| TagRetry.NextDelay | builder/vsphere/common/tags_retry.go:52-84 | The delay is the configured one first, then each time the whole part of the previous one times the factor, cut at the cap |
| TagRetry.BackoffAgreesIff | builder/vsphere/common/tags_retry.go:139-154 | For an integral factor the carried delays equal the closed form at every attempt exactly when the initial delay is within the cap |
| TagRetry.LoopDelayAtMostClosed | builder/vsphere/common/tags_retry.go:82-83 | With the initial delay within the cap, and for any non-negative factor, the carried delay never exceeds the closed form |
| TagRetry.WholeDelaysAgree | builder/vsphere/common/tags_retry.go:82-83 | With the initial delay within the cap, and for any non-negative factor, fractional ones too, the carried delay is the closed form as long as every earlier uncapped delay is a whole number or beyond the cap |
| TagRetry.FractionIsLost | builder/vsphere/common/tags_retry.go:82-83 | Counterexample: with factor 1.5 a 1 ns delay never grows, while the closed form does |
| TagRetry.TotalSleepBounded | builder/vsphere/common/tags_retry.go:76-84 | Total waiting is at most one maximal delay per retry |
| WaitForIp.DoGetIp | builder/vsphere/common/step_wait_for_ip.go:187-247 | The loop computes the specified outcome for every sequence of turns |
| WaitForIp.SettledIff | builder/vsphere/common/step_wait_for_ip.go:187-247 | Success with an address happens exactly when a first turn shows it again after more than the settle time since its current run of equal readings began, with no error or cancellation before |
| WaitForIp.FailedIff | builder/vsphere/common/step_wait_for_ip.go:187-247 | Failure happens exactly when the first turn that ends the loop is one that fails it |
| WaitForIp.TurnEnds | builder/vsphere/common/step_wait_for_ip.go:187-247 | A turn settles the wait when it is not cancelled and shows the run's address beyond the settle time; it fails it on an error, a cancellation, or an interrupted wait without an address or within the settle time |
| WaitForIp.RunStartNone | builder/vsphere/common/step_wait_for_ip.go:213-246 | No run has begun exactly while no address has been read |
| WaitForIp.SettledIsStable | builder/vsphere/common/step_wait_for_ip.go:187-247 | On success the address was shown on an earlier turn and on the turn that ended the wait, every non-empty reading between them equals it, and the clock of the last passed that of the first by more than the settle time |
| WaitForIp.EmptyTurnIsNeutral | builder/vsphere/common/step_wait_for_ip.go:213-246 | A turn without an address neither resets nor advances the window: leaving it out changes nothing |
| FolderCreation.CreateBottomUp | post-processor/vsphere-template/step_create_folder.go:30-78 | Creates the missing folders on the way to the target, in order, up to the first refusal; success is all of them and ends at the target; a missing base fails with nothing created |
| FolderCreation.CreateSaved | post-processor/vsphere-template/step_create_folder.go:65-78 | The backward pass over the saved names creates exactly the missing folders, shallowest first |
| FolderCreation.ClimbStep | post-processor/vsphere-template/step_create_folder.go:48-59 | Each step up keeps path plus reversed saved names equal to the target, and reaches the datacenter only if the base is missing |
| FolderCreation.CleanAt | builder/vsphere/driver/folder.go:34-66 | The names kept of a request are those other than blank and dot, all of them and in order |
| FolderCreation.FindFolder | builder/vsphere/driver/folder.go:34-66 | The descent has the same outcome, for requests with blank or dot names too |
| FolderCreation.SuccessAddsPrefixes | builder/vsphere/driver/folder.go:34-66 | A success adds the prefixes of the target and nothing else |
| FolderCreation.StaysPrefixClosed | post-processor/vsphere-template/step_create_folder.go:65-78 | Every outcome, a failure midway included, leaves no folder without its parent |
| FolderCreation.RerunCreatesNothing | post-processor/vsphere-template/step_create_folder.go:30-78 | After a success by either way a rerun of either succeeds and creates nothing |

## Left out

- Input and output: SOAP and REST calls, logins, sessions, contexts, tasks, state other than the entries named, messages and logs.
- The virtual device library: govmomi is not part of this model beyond the stated contracts. Its own table of taken slots, 32-bit keys and device naming are left out; a name finds the device just appended.
- Integer widths: overflow when parsing very long units, and conversion of a unit to 32 bits.
- Go slice aliasing: the placement run works on a copy of the list, so sharing of backing arrays is not modelled; sharing of device objects is.
- The capacity in bytes of a resized disk, which is always 1024 times its capacity in kilobytes.
- Fractional back-off factors: `WholeDelaysAgree` is a sufficient condition for agreement with the closed form, not a necessary one, because a fraction dropped once may be too small to show later.
- Finding datastores and clusters by name, cluster lookups and recommendation requests: their answers are parameters.
- CD-ROM, floppy and network devices: filtered out before the allocator runs.
- Template interpolation of tag ids, categories and names: taken as the identity.
- Tag descriptions and category cardinality: carried along by the program, never read by it.
- Classification of errors by their text in the retry loop: whether an error is retryable is a parameter.
- ClonePlacement.PlaceByPoliciesOnly: assumes that the server never resolves a policy name to a blank id, which the code would treat as no policy.
- AnyRunSuccess.RunSucceedsIff: judges explicit blocks by the list the legacy phase leaves; which units the legacy disks take on the new controllers is stated by `AssignedUnit`, the lowest free one, and not spelled out per block.
- Negative back-off factors and the rounding of floating-point delays.
- One-second pauses in the settling loop: they only move the clock, which is arbitrary.
- Folder requests with ".." and inventory objects that are not folders; `Folder.Path`, which reads names from the server.
- Datastore filters and selectors, OVF and content library deployment, guest customization, boot commands, generated schema files: they pass values between the user, the server and the console and decide nothing the properties above depend on.
