/**
 Which disk belongs to which storage block: the order of the new disks, the
 policy each receives, and why the set of raw addresses already placed rejects
 nothing that unit occupancy would not.
 */
module AllocatorOrder {
  import opened Wrappers
  import opened ControllerAddress
  import opened DeviceList
  import opened Allocator

  /** The order in which blocks get their disks. */
  function Order(storage: seq<Block>): seq<nat> {
    LegacyBlocks(storage) + ExplicitBlocks(storage)
  }

  predicate Ascending(order: seq<nat>) {
    forall i, j :: 0 <= i < j < |order| ==> order[i] < order[j]
  }

  function Iota(n: nat): (s: seq<nat>)
    ensures |s| == n && forall k :: 0 <= k < n ==> s[k] == k
  {
    seq(n, k => k)
  }

  lemma {:induction false} PartitionBelow(storage: seq<Block>, n: nat)
    requires n <= |storage|
    ensures Ascending(LegacyBelow(storage, n)) && Ascending(ExplicitBelow(storage, n))
    ensures |LegacyBelow(storage, n)| + |ExplicitBelow(storage, n)| == n
  {
    if n > 0 {
      PartitionBelow(storage, n - 1);
    }
  }

  lemma {:induction false} BlockIsOrdered(storage: seq<Block>, n: nat, i: nat)
    requires i < n <= |storage|
    ensures storage[i].controllerUnit == "" ==> i in LegacyBelow(storage, n)
    ensures storage[i].controllerUnit != "" ==> i in ExplicitBelow(storage, n)
  {
    if i < n - 1 {
      BlockIsOrdered(storage, n - 1, i);
    }
  }

  /** The order is the stable partition of the blocks, legacy first. */
  lemma {:induction false} OrderIsStablePartition(storage: seq<Block>)
    ensures |Order(storage)| == |storage|
    ensures Indexes(Order(storage), |storage|)
    ensures forall i :: 0 <= i < |storage| ==> i in Order(storage)
    ensures forall j, k :: 0 <= j < k < |storage| ==>
                             var a, b := Order(storage)[j], Order(storage)[k];
                             && a != b
                             && (storage[a].controllerUnit != "" ==> storage[b].controllerUnit != "")
                             && ((storage[a].controllerUnit == "") == (storage[b].controllerUnit == "") ==> a < b)
  {
    PartitionBelow(storage, |storage|);
    forall i | 0 <= i < |storage|
      ensures i in Order(storage)
    {
      BlockIsOrdered(storage, |storage|, i);
    }
  }

  /** No explicit block stands before a legacy one. */
  predicate LegacyFirst(storage: seq<Block>) {
    forall i, j :: 0 <= i < j < |storage| ==> storage[i].controllerUnit == "" || storage[j].controllerUnit != ""
  }

  /** Disks come out in storage order exactly when no explicit block precedes a legacy one. */
  lemma {:induction false} StorageOrderIff(storage: seq<Block>)
    ensures Order(storage) == Iota(|storage|) <==> LegacyFirst(storage)
  {
    PartitionBelow(storage, |storage|);
    if LegacyFirst(storage) {
      LegacyFirstIsIota(storage, |storage|);
    }
    if Order(storage) == Iota(|storage|) {
      var legacy, explicit := LegacyBlocks(storage), ExplicitBlocks(storage);
      forall i, j | 0 <= i < j < |storage|
        ensures storage[i].controllerUnit == "" || storage[j].controllerUnit != ""
      {
        assert Order(storage)[i] == i && Order(storage)[j] == j;
        assert j < |legacy| ==> i < |legacy| && legacy[i] == i;
        assert j >= |legacy| ==> explicit[j - |legacy|] == j;
      }
    }
  }

  lemma {:induction false} AppendFirst<T>(a: seq<T>, b: seq<T>, x: T)
    requires b == []
    ensures (a + [x]) + b == (a + b) + [x]
  {
  }

  lemma {:induction false} AppendLast<T>(a: seq<T>, b: seq<T>, x: T)
    ensures a + (b + [x]) == (a + b) + [x]
  {
  }

  lemma {:induction false} IotaGrows(n: nat)
    requires n > 0
    ensures Iota(n) == Iota(n - 1) + [n - 1]
  {
  }

  lemma {:induction false} LegacyFirstIsIota(storage: seq<Block>, n: nat)
    requires n <= |storage| && LegacyFirst(storage)
    ensures LegacyBelow(storage, n) + ExplicitBelow(storage, n) == Iota(n)
  {
    hide *;
    if n == 0 {
      NothingCounted(storage);
    } else {
      LegacyFirstIsIota(storage, n - 1);
      BelowStep(storage, n);
      var legacy, explicit := LegacyBelow(storage, n - 1), ExplicitBelow(storage, n - 1);
      if storage[n - 1].controllerUnit == "" {
        NoExplicitYet(storage, n);
        AppendFirst(legacy, explicit, n - 1);
      } else {
        AppendLast(legacy, explicit, n - 1);
      }
      IotaGrows(n);
    }
  }

  lemma NothingCounted(storage: seq<Block>)
    ensures LegacyBelow(storage, 0) + ExplicitBelow(storage, 0) == Iota(0)
  {
  }

  lemma BelowStep(storage: seq<Block>, n: nat)
    requires 0 < n <= |storage|
    ensures LegacyBelow(storage, n)
            == if storage[n - 1].controllerUnit == "" then LegacyBelow(storage, n - 1) + [n - 1]
              else LegacyBelow(storage, n - 1)
    ensures ExplicitBelow(storage, n)
            == if storage[n - 1].controllerUnit != "" then ExplicitBelow(storage, n - 1) + [n - 1]
              else ExplicitBelow(storage, n - 1)
  {
  }

  /** Before a legacy block there is no explicit one. */
  lemma {:induction false} NoExplicitYet(storage: seq<Block>, n: nat)
    requires 0 < n <= |storage| && LegacyFirst(storage) && storage[n - 1].controllerUnit == ""
    ensures ExplicitBelow(storage, n - 1) == []
  {
    assert forall i :: 0 <= i < n - 1 ==> storage[i].controllerUnit == "";
    hide LegacyFirst;
    NoExplicitBelow(storage, n - 1);
  }

  lemma {:induction false} NoExplicitBelow(storage: seq<Block>, n: nat)
    requires n <= |storage| && forall i :: 0 <= i < n ==> storage[i].controllerUnit == ""
    ensures ExplicitBelow(storage, n) == []
  {
    if n > 0 {
      NoExplicitBelow(storage, n - 1);
    }
  }

  /** Keys of the disks in a list, in list order. */
  function DiskKeys(slots: Slots): seq<int> {
    if slots == [] then []
    else DiskKeys(slots[..|slots| - 1]) + (if slots[|slots| - 1].role.Disk? then [slots[|slots| - 1].key] else [])
  }

  /** The profile the policy pass sets on the spec of a device. */
  function Profile(policies: map<int, string>, key: int): Option<string> {
    if key in policies then Some(policies[key]) else None
  }

  function BlockProfile(block: Block): Option<string> {
    if block.policy != "" then Some(block.policy) else None
  }

  /** `keys` are the disks added after the first `base` devices, in order; all are taken and distinct. */
  ghost predicate KeysLogged(base: nat, slots: Slots, keys: seq<int>) {
    && base <= |slots|
    && DiskKeys(slots[base..]) == keys
    && (forall k :: 0 <= k < |keys| ==> NewKey(slots) < keys[k])
    && (forall j, k :: 0 <= j < k < |keys| ==> keys[j] > keys[k])
  }

  /** Each key has exactly its block's policy, and no other key has any. */
  ghost predicate PoliciesExact(storage: seq<Block>, policies: map<int, string>, blocks: seq<nat>, keys: seq<int>) {
    && |blocks| == |keys| && Indexes(blocks, |storage|)
    && (forall k :: 0 <= k < |keys| ==> Profile(policies, keys[k]) == BlockProfile(storage[blocks[k]]))
    && (forall key :: key in policies ==> key in keys)
  }

  ghost predicate LogIsExact(base: nat, storage: seq<Block>, st: State) {
    KeysLogged(base, st.slots, st.keys) && PoliciesExact(storage, st.policies, st.blocks, st.keys)
  }

  lemma {:induction false} KeysLoggedGrows(base: nat, slots: Slots, keys: seq<int>, x: Slot)
    requires KeysLogged(base, slots, keys) && x.key == NewKey(slots)
    ensures KeysLogged(base, slots + [x], if x.role.Disk? then keys + [x.key] else keys)
  {
    var more := slots + [x];
    assert more[..|slots|] == slots;
    var tail := more[base..];
    assert tail[..|tail| - 1] == slots[base..];
  }

  lemma {:induction false} PoliciesGrow(storage: seq<Block>, policies: map<int, string>, blocks: seq<nat>,
                                        keys: seq<int>, i: nat, key: int)
    requires PoliciesExact(storage, policies, blocks, keys) && i < |storage| && key !in keys
    ensures PoliciesExact(storage, WithPolicy(policies, key, storage[i]), blocks + [i], keys + [key])
  {
  }

  lemma {:induction false} PlaceDiskKeepsLog(base: nat, storage: seq<Block>, st: State, i: nat, controllerKey: int,
                                             unit: int)
    requires LogIsExact(base, storage, st) && i < |storage|
    ensures LogIsExact(base, storage, PlaceDisk(st, storage[i], i, controllerKey, unit))
  {
    var key := NewKey(st.slots);
    KeysLoggedGrows(base, st.slots, st.keys, Slot(key, controllerKey, Some(unit), Disk));
    PoliciesGrow(storage, st.policies, st.blocks, st.keys, i, key);
  }

  lemma {:induction false} ShiftFirst<T>(a: seq<T>, b: seq<T>)
    requires b != []
    ensures (a + [b[0]]) + b[1..] == a + b
  {
  }

  lemma {:induction false} LegacyRunGrows(st: State, base: nat, count: nat, storage: seq<Block>, order: seq<nat>)
    requires base + count <= |st.slots| && Indexes(order, |storage|)
    requires forall j :: base <= j < base + count ==> st.slots[j].role.Controller?
    requires LegacyRun(st, base, count, storage, order).Success?
    ensures var done := LegacyRun(st, base, count, storage, order).value;
            done.blocks == st.blocks + order && st.slots <= done.slots
    decreases |order|
  {
    if order != [] {
      var next := LegacyStep(st, base, count, storage[order[0]], order[0]).value;
      assert forall j :: base <= j < base + count ==> next.slots[j] == st.slots[j];
      LegacyRunGrows(next, base, count, storage, order[1..]);
      ShiftFirst(st.blocks, order);
    }
  }

  lemma {:induction false} LegacyRunKeepsLog(st: State, base: nat, count: nat, storage: seq<Block>, order: seq<nat>)
    requires base + count <= |st.slots| && Indexes(order, |storage|)
    requires forall j :: base <= j < base + count ==> st.slots[j].role.Controller?
    requires LogIsExact(base, storage, st)
    requires LegacyRun(st, base, count, storage, order).Success?
    ensures LogIsExact(base, storage, LegacyRun(st, base, count, storage, order).value)
    decreases |order|
  {
    if order != [] {
      var i := order[0];
      var next := LegacyStep(st, base, count, storage[i], i).value;
      var c := st.slots[base + storage[i].controllerIndex];
      PlaceDiskKeepsLog(base, storage, st, i, c.key, AssignedUnit(st.slots, c));
      assert forall j :: base <= j < base + count ==> next.slots[j] == st.slots[j];
      LegacyRunKeepsLog(next, base, count, storage, order[1..]);
    }
  }

  lemma {:induction false} ExplicitStepKeepsLog(st: State, types: seq<ControllerType>, base: nat, storage: seq<Block>,
                                                i: nat)
    requires i < |storage| && LogIsExact(base, storage, st)
    requires ExplicitStep(st, types, storage[i], i).Success?
    ensures var next := ExplicitStep(st, types, storage[i], i).value;
            LogIsExact(base, storage, next) && next.blocks == st.blocks + [i] && st.slots <= next.slots
  {
    var a := Parse(storage[i].controllerUnit).value;
    var found := FindByBus(st.slots, a.kind, a.bus);
    if found.Some? {
      PlaceDiskKeepsLog(base, storage, st, i, st.slots[found.value].key, a.unit);
    } else {
      var opening := OpenBus(st, types, a).value;
      KeysLoggedGrows(base, st.slots, st.keys, opening.slots[|st.slots|]);
      PlaceDiskKeepsLog(base, storage, opening, i, opening.slots[|st.slots|].key, a.unit);
    }
  }

  lemma {:induction false} ExplicitRunGrows(st: State, types: seq<ControllerType>, storage: seq<Block>, order: seq<nat>)
    requires Indexes(order, |storage|)
    requires ExplicitRun(st, types, storage, order).Success?
    ensures st.slots <= ExplicitRun(st, types, storage, order).value.slots
    decreases |order|
  {
    if order != [] {
      ExplicitRunGrows(ExplicitStep(st, types, storage[order[0]], order[0]).value, types, storage, order[1..]);
    }
  }

  lemma {:induction false} ExplicitRunServes(st: State, types: seq<ControllerType>, storage: seq<Block>,
                                             order: seq<nat>)
    requires Indexes(order, |storage|)
    requires ExplicitRun(st, types, storage, order).Success?
    ensures ExplicitRun(st, types, storage, order).value.blocks == st.blocks + order
    decreases |order|
  {
    if order != [] {
      var next := ExplicitStep(st, types, storage[order[0]], order[0]).value;
      ExplicitRunServes(next, types, storage, order[1..]);
      ShiftFirst(st.blocks, order);
    }
  }

  lemma {:induction false} ExplicitRunKeepsLog(st: State, types: seq<ControllerType>, base: nat, storage: seq<Block>,
                                               order: seq<nat>)
    requires Indexes(order, |storage|) && LogIsExact(base, storage, st)
    requires ExplicitRun(st, types, storage, order).Success?
    ensures LogIsExact(base, storage, ExplicitRun(st, types, storage, order).value)
    decreases |order|
  {
    if order != [] {
      ExplicitStepKeepsLog(st, types, base, storage, order[0]);
      ExplicitRunKeepsLog(ExplicitStep(st, types, storage[order[0]], order[0]).value, types, base, storage, order[1..]);
    }
  }

  lemma {:induction false} NoDiskKeys(slots: Slots)
    requires forall j :: 0 <= j < |slots| ==> !slots[j].role.Disk?
    ensures DiskKeys(slots) == []
  {
    if slots != [] {
      NoDiskKeys(slots[..|slots| - 1]);
    }
  }

  lemma {:induction false} LegacyPhaseIsLogged(slots: Slots, types: seq<ControllerType>, storage: seq<Block>)
    requires LegacyPhase(slots, types, storage).Success?
    ensures var done := LegacyPhase(slots, types, storage).value;
            LogIsExact(|slots|, storage, done) && done.blocks == LegacyBlocks(storage) && slots <= done.slots
  {
    var order := LegacyBlocks(storage);
    if order == [] {
      NoDiskKeys(slots[|slots|..]);
    } else {
      var ready := AddControllers(slots, types).value;
      AddedAreControllers(slots, types);
      NoDiskKeys(ready[|slots|..]);
      LegacyRunGrows(Init(ready), |slots|, |types|, storage, order);
      LegacyRunKeepsLog(Init(ready), |slots|, |types|, storage, order);
    }
  }

  /**
   A successful run leaves the given devices in front, adds exactly one disk per
   storage block, in legacy-then-explicit order, and its policy pass gives every
   block's policy to that block's disk and to no other device.
   */
  lemma {:induction false} RunIsLogged(slots: Slots, types: seq<ControllerType>, storage: seq<Block>, aggregate: bool)
    requires Run(slots, types, storage, aggregate).Success?
    ensures var done := Run(slots, types, storage, aggregate).value;
            && slots <= done.slots
            && done.blocks == Order(storage)
            && DiskKeys(done.slots[|slots|..]) == done.keys
            && |done.keys| == |storage|
            && LogIsExact(|slots|, storage, done)
  {
    PartitionBelow(storage, |storage|);
    if storage == [] {
      NoDiskKeys(slots[|slots|..]);
    } else {
      LegacyPhaseIsLogged(slots, types, storage);
      var legacy := LegacyPhase(slots, types, storage).value;
      ExplicitRunGrows(legacy, types, storage, ExplicitBlocks(storage));
      ExplicitRunServes(legacy, types, storage, ExplicitBlocks(storage));
      ExplicitRunKeepsLog(legacy, types, |slots|, storage, ExplicitBlocks(storage));
    }
  }

  // ----- raw addresses already placed -----

  /** The address is taken: its controller exists and its unit is occupied. */
  predicate Taken(slots: Slots, a: Address) {
    var found := FindByBus(slots, a.kind, a.bus);
    found.Some? && Occupied(slots, slots[found.value], a.unit)
  }

  ghost predicate PendingTaken(st: State) {
    forall raw :: raw in st.pending ==> Parse(raw).Some? && Taken(st.slots, Parse(raw).value)
  }

  lemma {:induction false} TakenGrows(slots: Slots, more: Slots, a: Address)
    requires |slots| <= |more| && more[..|slots|] == slots && Taken(slots, a)
    ensures Taken(more, a)
  {
  }

  lemma {:induction false} DiskTakes(slots: Slots, a: Address, x: Slot)
    requires FindByBus(slots, a.kind, a.bus).Some?
    requires x.controllerKey == slots[FindByBus(slots, a.kind, a.bus).value].key && x.unit == Some(a.unit)
    ensures Taken(slots + [x], a)
  {
    var at := FindByBus(slots, a.kind, a.bus).value;
    var more := slots + [x];
    assert more[..|slots|] == slots;
    assert FindByBus(more, a.kind, a.bus) == Some(at);
    assert more[|slots|] == x;
  }

  lemma {:induction false} OpenedBusIsFound(st: State, types: seq<ControllerType>, a: Address)
    requires OpenBus(st, types, a).Some? && FindByBus(st.slots, a.kind, a.bus).None?
    ensures FindByBus(OpenBus(st, types, a).value.slots, a.kind, a.bus) == Some(|st.slots|)
  {
  }

  /** After its step an address is taken. */
  lemma {:induction false} StepTakes(st: State, types: seq<ControllerType>, block: Block, i: nat)
    requires ExplicitStep(st, types, block, i).Success?
    ensures Taken(ExplicitStep(st, types, block, i).value.slots, Parse(block.controllerUnit).value)
  {
    hide Parse, FindByBus, OpenBus, Taken, CountDisksOn;
    var a := Parse(block.controllerUnit).value;
    var found := FindByBus(st.slots, a.kind, a.bus);
    if found.Some? {
      DiskTakes(st.slots, a, Slot(NewKey(st.slots), st.slots[found.value].key, Some(a.unit), Disk));
    } else {
      OpenedBusIsFound(st, types, a);
      var slots := OpenBus(st, types, a).value.slots;
      DiskTakes(slots, a, Slot(NewKey(slots), slots[|st.slots|].key, Some(a.unit), Disk));
    }
  }

  /** What a step leaves in the account of addresses. */
  lemma {:induction false} StepMarks(st: State, types: seq<ControllerType>, block: Block, i: nat)
    requires ExplicitStep(st, types, block, i).Success?
    ensures var next := ExplicitStep(st, types, block, i).value;
            && Parse(block.controllerUnit).Some? && RuntimeAdmits(st.slots, block.controllerUnit, st.pending)
            && next.pending == st.pending + {block.controllerUnit}
            && |st.slots| <= |next.slots| && next.slots[..|st.slots|] == st.slots
  {
    hide Parse, FindByBus, CountDisksOn, NewKey;
  }

  lemma {:induction false} StepKeepsPendingTaken(st: State, types: seq<ControllerType>, block: Block, i: nat)
    requires PendingTaken(st) && ExplicitStep(st, types, block, i).Success?
    ensures PendingTaken(ExplicitStep(st, types, block, i).value)
  {
    hide ExplicitStep, Taken, Parse, RuntimeAdmits;
    var next := ExplicitStep(st, types, block, i).value;
    StepMarks(st, types, block, i);
    StepTakes(st, types, block, i);
    forall raw | raw in next.pending
      ensures Parse(raw).Some? && Taken(next.slots, Parse(raw).value)
    {
      if raw in st.pending {
        TakenGrows(st.slots, next.slots, Parse(raw).value);
      }
    }
  }

  /** The explicit phase without the raw-string check. */
  function UncheckedRun(st: State, types: seq<ControllerType>, storage: seq<Block>, order: seq<nat>)
    : Result<State, AllocError>
    requires Indexes(order, |storage|)
    decreases |order|
  {
    if order == [] then Success(st)
    else
      var next :- ExplicitStep(st.(pending := {}), types, storage[order[0]], order[0]);
      UncheckedRun(next, types, storage, order[1..])
  }

  function Forget(r: Result<State, AllocError>): Result<State, AllocError> {
    if r.Success? then Success(r.value.(pending := {})) else r
  }

  lemma {:induction false} StepIgnoresPending(st: State, types: seq<ControllerType>, block: Block, i: nat)
    requires PendingTaken(st)
    ensures Forget(ExplicitStep(st, types, block, i)) == Forget(ExplicitStep(st.(pending := {}), types, block, i))
  {
    hide Parse, CreateController, CountDisksOn;
    var raw := block.controllerUnit;
    assert RuntimeAdmits(st.slots, raw, st.pending) == RuntimeAdmits(st.slots, raw, {});
  }

  /** The raw-string set rejects nothing that occupancy would not. */
  lemma {:induction false} PendingIsRedundant(st: State, unchecked: State, types: seq<ControllerType>,
                                              storage: seq<Block>, order: seq<nat>)
    requires Indexes(order, |storage|) && PendingTaken(st) && st.(pending := {}) == unchecked.(pending := {})
    ensures Forget(ExplicitRun(st, types, storage, order)) == Forget(UncheckedRun(unchecked, types, storage, order))
    decreases |order|
  {
    if order != [] {
      var i := order[0];
      StepIgnoresPending(st, types, storage[i], i);
      var step, free :=
        ExplicitStep(st, types, storage[i], i), ExplicitStep(unchecked.(pending := {}), types, storage[i], i);
      if step.Success? {
        StepKeepsPendingTaken(st, types, storage[i], i);
        PendingIsRedundant(step.value, free.value, types, storage, order[1..]);
      }
    }
  }

  /** The whole run without the raw-string check. */
  function UncheckedWhole(slots: Slots, types: seq<ControllerType>, storage: seq<Block>, aggregate: bool)
    : Result<State, AllocError> {
    if storage == [] then Success(Init(slots))
    else
      var legacy :- LegacyPhase(slots, types, storage);
      var done :- UncheckedRun(legacy, types, storage, ExplicitBlocks(storage));
      if aggregate && !WithinAggregate(done.slots) then Failure(Rejected(None)) else Success(done)
  }

  /** From any device list, a run without the raw-string set comes out the same. */
  lemma {:induction false} RunWithoutPending(slots: Slots, types: seq<ControllerType>, storage: seq<Block>,
                                             aggregate: bool)
    ensures Forget(Run(slots, types, storage, aggregate)) == Forget(UncheckedWhole(slots, types, storage, aggregate))
  {
    hide ExplicitRun, UncheckedRun, WithinAggregate, LegacyPhase, ExplicitBelow, Taken, Parse;
    var legacy := LegacyPhase(slots, types, storage);
    LegacyLeavesNoPending(slots, types, storage);
    if storage != [] && legacy.Success? {
      PendingIsRedundant(legacy.value, legacy.value, types, storage, ExplicitBlocks(storage));
    }
  }

  /** The legacy loop leaves the explicit phase's bookkeeping alone. */
  lemma {:induction false} LegacyRunCarries(st: State, base: nat, count: nat, storage: seq<Block>, order: seq<nat>)
    requires base + count <= |st.slots| && Indexes(order, |storage|)
    requires forall j :: base <= j < base + count ==> st.slots[j].role.Controller?
    ensures var done := LegacyRun(st, base, count, storage, order);
            done.Success? ==> done.value.pending == st.pending && done.value.typeIndex == st.typeIndex
    decreases |order|
  {
    if order != [] {
      var step := LegacyStep(st, base, count, storage[order[0]], order[0]);
      if step.Success? {
        assert forall j :: base <= j < base + count ==> step.value.slots[j] == st.slots[j];
        LegacyRunCarries(step.value, base, count, storage, order[1..]);
      }
    }
  }

  lemma {:induction false} LegacyLeavesNoPending(slots: Slots, types: seq<ControllerType>, storage: seq<Block>)
    ensures LegacyPhase(slots, types, storage).Success? ==>
              LegacyPhase(slots, types, storage).value.pending == {}
              && LegacyPhase(slots, types, storage).value.typeIndex
                   == (if LegacyBlocks(storage) == [] then 0 else |types|)
  {
    var order := LegacyBlocks(storage);
    hide LegacyRun, LegacyBelow;
    if order != [] && LegacyPhase(slots, types, storage).Success? {
      AddedAreControllers(slots, types);
      LegacyRunCarries(Init(AddControllers(slots, types).value), |slots|, |types|, storage, order);
    }
  }

  lemma {:induction false} TakenStepFails(st: State, types: seq<ControllerType>, block: Block, i: nat)
    requires Parse(block.controllerUnit).Some? && Taken(st.slots, Parse(block.controllerUnit).value)
    ensures ExplicitStep(st, types, block, i).Failure?
  {
  }

  lemma {:induction false} UnparsedStepFails(st: State, types: seq<ControllerType>, block: Block, i: nat)
    ensures ExplicitStep(st, types, block, i).Success? ==> Parse(block.controllerUnit).Some?
  {
  }

  lemma {:induction false} TakenBlocksRun(st: State, types: seq<ControllerType>, storage: seq<Block>, order: seq<nat>,
                                          k: nat)
    requires Indexes(order, |storage|) && k < |order|
    requires Parse(storage[order[k]].controllerUnit).Some?
    requires Taken(st.slots, Parse(storage[order[k]].controllerUnit).value)
    ensures ExplicitRun(st, types, storage, order).Failure?
    decreases |order|
  {
    hide Parse, ExplicitStep, Taken;
    var step := ExplicitStep(st, types, storage[order[0]], order[0]);
    if k == 0 {
      TakenStepFails(st, types, storage[order[0]], order[0]);
    }
    if k > 0 && step.Success? {
      TakenGrows(st.slots, step.value.slots, Parse(storage[order[k]].controllerUnit).value);
      TakenBlocksRun(step.value, types, storage, order[1..], k - 1);
    }
  }

  lemma {:induction false} SameAddressBlocksRun(st: State, types: seq<ControllerType>, storage: seq<Block>,
                                                order: seq<nat>, j: nat, k: nat)
    requires Indexes(order, |storage|) && j < k < |order|
    requires Parse(storage[order[j]].controllerUnit) == Parse(storage[order[k]].controllerUnit)
    ensures ExplicitRun(st, types, storage, order).Failure?
    decreases |order|
  {
    hide Parse, ExplicitStep, Taken;
    var step := ExplicitStep(st, types, storage[order[0]], order[0]);
    if step.Success? {
      if j == 0 {
        assert Parse(storage[order[0]].controllerUnit).Some? by {
          UnparsedStepFails(st, types, storage[order[0]], order[0]);
        }
        StepTakes(st, types, storage[order[0]], order[0]);
        TakenBlocksRun(step.value, types, storage, order[1..], k - 1);
      } else {
        SameAddressBlocksRun(step.value, types, storage, order[1..], j - 1, k - 1);
      }
    }
  }

  /** Two blocks with the same address are rejected, however either is spelled. */
  lemma {:induction false} RespelledAddressRejected(slots: Slots, types: seq<ControllerType>, storage: seq<Block>,
                                                    i: nat, j: nat, aggregate: bool)
    requires i < j < |storage|
    requires storage[i].controllerUnit != "" && storage[j].controllerUnit != ""
    requires Parse(storage[i].controllerUnit) == Parse(storage[j].controllerUnit)
    ensures Run(slots, types, storage, aggregate).Failure?
  {
    BlockIsOrdered(storage, |storage|, i);
    BlockIsOrdered(storage, |storage|, j);
    PartitionBelow(storage, |storage|);
    var order := ExplicitBlocks(storage);
    var a :| 0 <= a < |order| && order[a] == i;
    var b :| 0 <= b < |order| && order[b] == j;
    var legacy := LegacyPhase(slots, types, storage);
    if legacy.Success? {
      SameAddressBlocksRun(legacy.value, types, storage, order, a, b);
    }
  }
}
