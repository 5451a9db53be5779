/**
 The disk and controller allocator (addStorageDevices) as a function on device
 lists. Devices are only ever appended, so a state is the list so far plus the
 bookkeeping the code carries: the next disk_controller_type entry, the policy
 of each new key, the raw addresses already placed, and the blocks served so far
 with the keys they received.
 */
module Allocator {
  import opened Wrappers
  import opened ControllerAddress
  import opened DeviceList
  import opened UnitCapacity

  /** One storage block; an empty controllerUnit selects controllerIndex instead. */
  datatype Block = Block(
    size: int,
    eagerlyScrub: bool,
    thinProvisioned: bool,
    controllerIndex: int,
    controllerUnit: string,
    policy: string)

  /** A rejected run; a negative controller index crashes the program instead. */
  datatype AllocError = Rejected(block: Option<nat>) | IndexPanic(at: nat)

  datatype State = State(
    slots: Slots,
    typeIndex: nat,
    policies: map<int, string>,
    pending: set<string>,
    blocks: seq<nat>,
    keys: seq<int>)

  function Init(slots: Slots): State {
    State(slots, 0, map[], {}, [], [])
  }

  // ----- order of the blocks -----

  predicate Indexes(order: seq<nat>, n: nat) {
    forall k :: 0 <= k < |order| ==> order[k] < n
  }

  function LegacyBelow(storage: seq<Block>, n: nat): (order: seq<nat>)
    requires n <= |storage|
    ensures Indexes(order, n)
    ensures forall k :: 0 <= k < |order| ==> storage[order[k]].controllerUnit == ""
  {
    if n == 0 then []
    else LegacyBelow(storage, n - 1) + (if storage[n - 1].controllerUnit == "" then [n - 1] else [])
  }

  function ExplicitBelow(storage: seq<Block>, n: nat): (order: seq<nat>)
    requires n <= |storage|
    ensures Indexes(order, n)
    ensures forall k :: 0 <= k < |order| ==> storage[order[k]].controllerUnit != ""
  {
    if n == 0 then []
    else ExplicitBelow(storage, n - 1) + (if storage[n - 1].controllerUnit != "" then [n - 1] else [])
  }

  function LegacyBlocks(storage: seq<Block>): seq<nat> {
    LegacyBelow(storage, |storage|)
  }

  function ExplicitBlocks(storage: seq<Block>): seq<nat> {
    ExplicitBelow(storage, |storage|)
  }

  // ----- steps -----

  /** The policy map with the block's policy, if it has one, under the key of its disk. */
  function WithPolicy(policies: map<int, string>, key: int, block: Block): map<int, string> {
    if block.policy != "" then policies[key := block.policy] else policies
  }

  function PlaceDisk(st: State, block: Block, i: nat, controllerKey: int, unit: int): State {
    var key := NewKey(st.slots);
    st.(slots := st.slots + [Slot(key, controllerKey, Some(unit), Disk)],
        policies := WithPolicy(st.policies, key, block),
        blocks := st.blocks + [i],
        keys := st.keys + [key])
  }

  /** createController followed by validateControllerCount, then both appends. */
  function AddController(slots: Slots, t: ControllerType): (r: Option<Slots>)
    ensures r.Some? ==> |r.value| == |slots| + 1 && slots <= r.value
  {
    var c := CreateController(slots, t);
    if c.None? || !RoomForController(slots, KindForType(t)) then None else Some(slots + [c.value])
  }

  /** One controller per type, in order. */
  function AddControllers(slots: Slots, types: seq<ControllerType>): (r: Option<Slots>)
    ensures r.Some? ==> |r.value| == |slots| + |types| && slots <= r.value
    decreases |types|
  {
    if types == [] then Some(slots)
    else
      var first := AddController(slots, types[0]);
      if first.None? then None
      else
        AddControllers(first.value, types[1..])
  }

  /** A legacy block: controller `base + controllerIndex` was created for it. */
  function LegacyStep(st: State, base: nat, count: nat, block: Block, i: nat): (r: Result<State, AllocError>)
    requires base + count <= |st.slots|
    requires forall j :: base <= j < base + count ==> st.slots[j].role.Controller?
    ensures r.Success? ==> st.slots < r.value.slots && r.value.blocks == st.blocks + [i]
  {
    if block.controllerIndex >= count then Failure(Rejected(Some(i)))
    else if block.controllerIndex < 0 then Failure(IndexPanic(i))
    else
      var c := st.slots[base + block.controllerIndex];
      if !RoomForDisk(st.slots, c) then Failure(Rejected(Some(i)))
      else Success(PlaceDisk(st, block, i, c.key, AssignedUnit(st.slots, c)))
  }

  function LegacyRun(st: State, base: nat, count: nat, storage: seq<Block>, order: seq<nat>)
    : (r: Result<State, AllocError>)
    requires base + count <= |st.slots|
    requires forall j :: base <= j < base + count ==> st.slots[j].role.Controller?
    requires Indexes(order, |storage|)
    decreases |order|
  {
    if order == [] then Success(st)
    else
      var next :- LegacyStep(st, base, count, storage[order[0]], order[0]);
      assert forall j :: base <= j < base + count ==> next.slots[j] == st.slots[j];
      LegacyRun(next, base, count, storage, order[1..])
  }

  /** ValidateControllerUnitRuntime: addresses of missing controllers pass unchecked. */
  predicate RuntimeAdmits(slots: Slots, raw: string, pending: set<string>) {
    && Parse(raw).Some?
    && raw !in pending
    && var a := Parse(raw).value;
       var found := FindByBus(slots, a.kind, a.bus);
       found.Some? ==> UnitAdmitted(slots, slots[found.value], a.unit)
  }

  /** Creates the controller for a bus that has none, from the next unused type. */
  function OpenBus(st: State, types: seq<ControllerType>, a: Address): (r: Option<State>)
    ensures r.Some? ==>
              && st.typeIndex < |types|
              && r.value == st.(typeIndex := st.typeIndex + 1, slots := r.value.slots)
              && AddController(st.slots, types[st.typeIndex]) == Some(r.value.slots)
              && IsBus(r.value.slots[|st.slots|], a.kind, a.bus)
  {
    if st.typeIndex >= |types| then None
    else
      var added := AddController(st.slots, types[st.typeIndex]);
      if added.None? || !IsBus(added.value[|st.slots|], a.kind, a.bus) then None
      else Some(st.(typeIndex := st.typeIndex + 1, slots := added.value))
  }

  /** An explicit block. */
  function ExplicitStep(st: State, types: seq<ControllerType>, block: Block, i: nat): (r: Result<State, AllocError>)
    ensures r.Success? ==> st.slots < r.value.slots && r.value.blocks == st.blocks + [i]
  {
    var raw := block.controllerUnit;
    if !RuntimeAdmits(st.slots, raw, st.pending) then Failure(Rejected(Some(i)))
    else
      var a := Parse(raw).value;
      var found := FindByBus(st.slots, a.kind, a.bus);
      var ready := if found.Some? then Some(st) else OpenBus(st, types, a);
      if ready.None? then Failure(Rejected(Some(i)))
      else
        var c := ready.value.slots[if found.Some? then found.value else |st.slots|];
        if !RoomForDisk(ready.value.slots, c) then Failure(Rejected(Some(i)))
        else
          var done := PlaceDisk(ready.value, block, i, c.key, a.unit);
          Success(done.(pending := done.pending + {raw}))
  }

  function ExplicitRun(st: State, types: seq<ControllerType>, storage: seq<Block>, order: seq<nat>)
    : (r: Result<State, AllocError>)
    requires Indexes(order, |storage|)
    decreases |order|
  {
    if order == [] then Success(st)
    else
      var next :- ExplicitStep(st, types, storage[order[0]], order[0]);
      ExplicitRun(next, types, storage, order[1..])
  }

  // ----- the whole run -----

  /** The legacy phase: skipped, controllers and all, when no block is legacy. */
  function LegacyPhase(slots: Slots, types: seq<ControllerType>, storage: seq<Block>): Result<State, AllocError> {
    var order := LegacyBlocks(storage);
    if order == [] then Success(Init(slots))
    else
      var ready := AddControllers(slots, types);
      if ready.None? then Failure(Rejected(None))
      else
        AddedAreControllers(slots, types);
        var done :- LegacyRun(Init(ready.value), |slots|, |types|, storage, order);
        Success(done.(typeIndex := |types|))
  }

  lemma {:induction false} AddedAreControllers(slots: Slots, types: seq<ControllerType>)
    ensures var r := AddControllers(slots, types);
            r.Some? ==> forall j :: |slots| <= j < |r.value| ==>
                                      r.value[j].role.Controller?
                                        && r.value[j].role.model == ModelForType(types[j - |slots|])
    decreases |types|
  {
    var r := AddControllers(slots, types);
    if types != [] && r.Some? {
      var first := AddController(slots, types[0]).value;
      AddedAreControllers(first, types[1..]);
      assert r == AddControllers(first, types[1..]);
      assert r.value[|slots|] == first[|slots|];
      assert first[|slots|].role.model == ModelForType(types[0]);
      forall j | |first| <= j < |r.value|
        ensures r.value[j].role.Controller? && r.value[j].role.model == ModelForType(types[j - |slots|])
      {
        var rest := types[1..];
        assert rest[j - |first|] == types[j - |slots|];
        assert r.value[j].role.model == ModelForType(rest[j - |first|]);
      }
    }
  }

  /** addStorageDevices, with or without the final aggregate validation. */
  function Run(slots: Slots, types: seq<ControllerType>, storage: seq<Block>, aggregate: bool)
    : (r: Result<State, AllocError>)
  {
    if storage == [] then Success(Init(slots))
    else
      var legacy :- LegacyPhase(slots, types, storage);
      var done :- ExplicitRun(legacy, types, storage, ExplicitBlocks(storage));
      if aggregate && !WithinAggregate(done.slots) then Failure(Rejected(None)) else Success(done)
  }
}
