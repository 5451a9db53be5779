/**
 The static check and the runtime allocator draw from the disk_controller_type
 pool in lockstep. When no block is legacy and no referenced bus exists yet, an
 accepted configuration puts every disk on a usable unit of a controller of the
 predicted type; when a bus exists already, the prediction can be wrong.
 */
module Lockstep {
  import opened Wrappers
  import opened ControllerAddress
  import opened DeviceList
  import opened UnitCapacity
  import opened Allocator
  import opened AllocatorOrder
  import opened AllocatorSafety
  import opened StoragePrepare

  // ----- intermediate states of an all-explicit run -----

  predicate AllExplicit(storage: seq<Block>) {
    forall i :: 0 <= i < |storage| ==> storage[i].controllerUnit != ""
  }

  /** The state before block i, when every block is explicit. */
  function Before(slots: Slots, types: seq<ControllerType>, storage: seq<Block>, i: nat): Result<State, AllocError>
    requires i <= |storage|
  {
    if i == 0 then Success(Init(slots))
    else
      var st :- Before(slots, types, storage, i - 1);
      ExplicitStep(st, types, storage[i - 1], i - 1)
  }

  lemma {:induction false} ExplicitRunSplits(st: State, types: seq<ControllerType>, storage: seq<Block>,
                                             order: seq<nat>, last: nat)
    requires Indexes(order + [last], |storage|) && Indexes(order, |storage|) && last < |storage|
    ensures ExplicitRun(st, types, storage, order + [last])
            == var mid := ExplicitRun(st, types, storage, order);
               if mid.Success? then ExplicitStep(mid.value, types, storage[last], last) else mid
    decreases |order|
  {
    hide ExplicitStep;
    if order == [] {
      assert (order + [last])[1..] == [];
    } else {
      assert (order + [last])[1..] == order[1..] + [last];
      var next := ExplicitStep(st, types, storage[order[0]], order[0]);
      if next.Success? {
        ExplicitRunSplits(next.value, types, storage, order[1..], last);
      }
    }
  }

  lemma {:induction false} BeforeIsRun(slots: Slots, types: seq<ControllerType>, storage: seq<Block>, i: nat)
    requires i <= |storage|
    ensures Before(slots, types, storage, i) == ExplicitRun(Init(slots), types, storage, Iota(i))
  {
    hide ExplicitStep;
    if i > 0 {
      BeforeIsRun(slots, types, storage, i - 1);
      IotaGrows(i);
      ExplicitRunSplits(Init(slots), types, storage, Iota(i - 1), i - 1);
    }
  }

  lemma {:induction false} AllExplicitOrder(storage: seq<Block>)
    requires AllExplicit(storage)
    ensures LegacyBlocks(storage) == [] && ExplicitBlocks(storage) == Iota(|storage|)
    ensures !HasLegacy(storage)
  {
    StorageOrderIff(storage);
    NoLegacyBelow(storage, |storage|);
  }

  lemma {:induction false} NoLegacyBelow(storage: seq<Block>, n: nat)
    requires AllExplicit(storage) && n <= |storage|
    ensures LegacyBelow(storage, n) == []
  {
    if n > 0 {
      NoLegacyBelow(storage, n - 1);
    }
  }

  lemma {:induction false} RunIsBefore(slots: Slots, types: seq<ControllerType>, storage: seq<Block>)
    requires AllExplicit(storage)
    ensures Run(slots, types, storage, false) == Before(slots, types, storage, |storage|)
  {
    AllExplicitOrder(storage);
    BeforeIsRun(slots, types, storage, |storage|);
  }

  // ----- lockstep -----

  /** How many of the buses already have a controller on the list. */
  ghost function CountOnList(slots: Slots, buses: seq<Bus>): (n: nat)
    ensures n <= |buses|
  {
    if buses == [] then 0
    else
      var b := buses[|buses| - 1];
      CountOnList(slots, buses[..|buses| - 1]) + (if OnList(slots, b.kind, b.number) then 1 else 0)
  }

  /** The buses with a controller are those given plus those referenced so far. */
  ghost predicate BusesTracked(given: Slots, now: Slots, buses: seq<Bus>) {
    forall b: Bus :: OnList(now, b.kind, b.number) <==> OnList(given, b.kind, b.number) || b in buses
  }

  lemma {:induction false} FoundIsOnList(slots: Slots, kind: Kind, bus: nat)
    ensures FindByBus(slots, kind, bus).Some? <==> OnList(slots, kind, bus)
  {
  }

  /** An explicit step gives its bus a controller if it has none, drawing one type. */
  lemma {:induction false} StepTracksBuses(st: State, types: seq<ControllerType>, block: Block, i: nat)
    requires ExplicitStep(st, types, block, i).Success?
    ensures BusOf(block.controllerUnit).Some?
    ensures var b, next := BusOf(block.controllerUnit).value, ExplicitStep(st, types, block, i).value;
            && next.typeIndex == (if OnList(st.slots, b.kind, b.number) then st.typeIndex else st.typeIndex + 1)
            && BusesTracked(st.slots, next.slots, [b])
  {
    var a := Parse(block.controllerUnit).value;
    var next := ExplicitStep(st, types, block, i).value;
    hide Parse, CountDisksOn;
    FoundIsOnList(st.slots, a.kind, a.bus);
    if OnList(st.slots, a.kind, a.bus) {
      DiskAddsNoBus(st.slots, next.slots[|st.slots|]);
    } else {
      var slots := OpenBus(st, types, a).value.slots;
      ControllerAddsBus(st.slots, slots[|st.slots|]);
      DiskAddsNoBus(slots, next.slots[|slots|]);
    }
  }

  lemma {:induction false} DiskAddsNoBus(slots: Slots, x: Slot)
    requires x.role.Disk?
    ensures forall kind, bus :: OnList(slots + [x], kind, bus) <==> OnList(slots, kind, bus)
  {
    forall kind, bus | OnList(slots, kind, bus)
      ensures OnList(slots + [x], kind, bus)
    {
      var i :| 0 <= i < |slots| && IsBus(slots[i], kind, bus);
      assert IsBus((slots + [x])[i], kind, bus);
    }
  }

  lemma {:induction false} ControllerAddsBus(slots: Slots, x: Slot)
    ensures forall kind, bus :: OnList(slots + [x], kind, bus) <==> OnList(slots, kind, bus) || IsBus(x, kind, bus)
  {
    forall kind, bus | OnList(slots, kind, bus) || IsBus(x, kind, bus)
      ensures OnList(slots + [x], kind, bus)
    {
      if i :| 0 <= i < |slots| && IsBus(slots[i], kind, bus) {
        assert IsBus((slots + [x])[i], kind, bus);
      } else {
        assert (slots + [x])[|slots|] == x;
      }
    }
  }

  /**
   Lockstep: before each block the runtime has drawn one type for every distinct
   bus seen so far that was not already on the list.
   */
  lemma {:induction false} TypesDrawn(slots: Slots, types: seq<ControllerType>, storage: seq<Block>, i: nat)
    requires i <= |storage| && Before(slots, types, storage, i).Success?
    ensures var st := Before(slots, types, storage, i).value;
            && st.typeIndex == |BusOrder(storage, i)| - CountOnList(slots, BusOrder(storage, i))
            && BusesTracked(slots, st.slots, BusOrder(storage, i))
  {
    hide *;
    BeforeStep(slots, types, storage, i);
    if i == 0 {
      NothingDrawn(slots);
    } else {
      TypesDrawn(slots, types, storage, i - 1);
      var st, next := Before(slots, types, storage, i - 1).value, Before(slots, types, storage, i).value;
      StepTracksBuses(st, types, storage[i - 1], i - 1);
      BusOrderStep(storage, i);
      OneMoreDrawn(slots, st.slots, next.slots, BusOrder(storage, i - 1), BusOf(storage[i - 1].controllerUnit).value);
    }
  }

  lemma NothingDrawn(slots: Slots)
    ensures Init(slots).typeIndex == 0 && CountOnList(slots, []) == 0 && BusesTracked(slots, slots, [])
  {
  }

  /** One more bus: it counts as drawn unless it was seen before or had a controller. */
  lemma {:induction false} OneMoreDrawn(given: Slots, now: Slots, next: Slots, order: seq<Bus>, b: Bus)
    requires BusesTracked(given, now, order) && BusesTracked(now, next, [b])
    ensures var order' := if b in order then order else order + [b];
            && BusesTracked(given, next, order')
            && |order'| - CountOnList(given, order')
               == |order| - CountOnList(given, order) + (if OnList(now, b.kind, b.number) then 0 else 1)
  {
    hide OnList;
    assert (order + [b])[..|order|] == order;
  }

  /**
   The entry the runtime draws for a new bus is the static prediction minus the
   number of earlier distinct buses that already had a controller.
   */
  lemma {:induction false} DrawnIndex(slots: Slots, types: seq<ControllerType>, storage: seq<Block>, i: nat)
    requires AllExplicit(storage) && i < |storage|
    requires Before(slots, types, storage, i).Success? && BusOf(storage[i].controllerUnit).Some?
    requires var b := BusOf(storage[i].controllerUnit).value;
             !OnList(Before(slots, types, storage, i).value.slots, b.kind, b.number)
    ensures Before(slots, types, storage, i).value.typeIndex
            == StaticIndex(types, storage, i) - CountOnList(slots, BusOrder(storage, i))
  {
    hide ExplicitStep, BusOf;
    TypesDrawn(slots, types, storage, i);
    AllExplicitOrder(storage);
    IndexOfLast(BusOf(storage[i].controllerUnit).value, BusOrder(storage, i));
  }

  // ----- usable units -----

  /** The disk hangs off a controller of the list, at a unit a disk may use there. */
  ghost predicate UsableDisk(slots: Slots, d: Slot) {
    exists j :: 0 <= j < |slots| && slots[j].role.Controller? && slots[j].key == d.controllerKey
                && d.unit.Some? && Usable(slots[j].role.model, d.unit.value)
  }

  /** SCSI controllers sit on their own unit 7. */
  ghost predicate OwnUnits(slots: Slots) {
    forall j :: 0 <= j < |slots| && slots[j].role.Controller? ==> OnOwnUnit(slots[j])
  }

  /** The last device is a disk at this address, on the controller found for its bus. */
  ghost predicate LandsAt(slots: Slots, a: Address) {
    var at := FindByBus(slots, a.kind, a.bus);
    && slots != [] && at.Some?
    && var disk := slots[|slots| - 1];
       disk.role.Disk? && disk.controllerKey == slots[at.value].key && disk.unit == Some(a.unit)
  }

  /** What a step appends, in full. */
  lemma {:induction false} StepShape(st: State, types: seq<ControllerType>, block: Block, i: nat)
    requires ExplicitStep(st, types, block, i).Success?
    ensures var a, next := Parse(block.controllerUnit).value, ExplicitStep(st, types, block, i).value.slots;
            var found, n := FindByBus(st.slots, a.kind, a.bus), |st.slots|;
            if found.Some? then
              && UnitAdmitted(st.slots, st.slots[found.value], a.unit)
              && next == st.slots + [Slot(NewKey(st.slots), st.slots[found.value].key, Some(a.unit), Disk)]
            else
              && |next| == n + 2 && st.typeIndex < |types|
              && next[n].key == NewKey(st.slots) && next[n].controllerKey == 0 && next[n].unit == None
              && IsBus(next[n], a.kind, a.bus)
              && next[n].role.model == ModelForType(types[st.typeIndex]) && OnOwnUnit(next[n])
              && next == st.slots + [next[n]] + [Slot(NewKey(st.slots + [next[n]]), next[n].key, Some(a.unit), Disk)]
  {
    hide Parse, CountDisksOn, NewKey, FindByBus;
  }

  lemma {:induction false} FindStays(slots: Slots, x: Slot, kind: Kind, bus: int)
    requires FindByBus(slots, kind, bus).Some?
    ensures FindByBus(slots + [x], kind, bus) == FindByBus(slots, kind, bus)
  {
    assert (slots + [x])[..|slots|] == slots;
  }

  lemma ControllerFound(slots: Slots, c: Slot, b: Bus)
    requires FindByBus(slots, b.kind, b.number).None? && IsBus(c, b.kind, b.number)
    ensures FindByBus(slots + [c], b.kind, b.number) == Some(|slots|)
  {
    assert (slots + [c])[..|slots|] == slots;
  }

  /** A unit admitted on a controller is one a disk may use there. */
  lemma AdmittedIsUsable(slots: Slots, c: Slot, unit: nat)
    requires c.role.Controller? && OnOwnUnit(c) && UnitAdmitted(slots, c, unit)
    ensures Usable(c.role.model, unit)
  {
  }

  /**
   An explicit step puts its disk at its address. Exactly when that is a usable
   unit: on a controller that existed it always is; on one it just created nothing
   was checked, so the unit must suit the type that was drawn.
   */
  lemma {:induction false} StepUsableIff(st: State, types: seq<ControllerType>, block: Block, i: nat)
    requires ExplicitStep(st, types, block, i).Success?
    ensures var a, next := Parse(block.controllerUnit).value, ExplicitStep(st, types, block, i).value.slots;
            var at := FindByBus(next, a.kind, a.bus);
            && LandsAt(next, a)
            && (OwnUnits(st.slots) ==>
                  (Usable(next[at.value].role.model, a.unit) <==>
                     || FindByBus(st.slots, a.kind, a.bus).Some?
                     || Usable(ModelForType(types[st.typeIndex]), a.unit)))
  {
    hide *;
    StepMarks(st, types, block, i);
    StepShape(st, types, block, i);
    var a, next := Parse(block.controllerUnit).value, ExplicitStep(st, types, block, i).value.slots;
    var found, n := FindByBus(st.slots, a.kind, a.bus), |st.slots|;
    if found.Some? {
      LandsOnGiven(st.slots, next[n], a);
      if OwnUnits(st.slots) {
        GivenOnOwnUnit(st.slots, found.value);
        AdmittedIsUsable(st.slots, st.slots[found.value], a.unit);
      }
    } else {
      LandsOnMade(st.slots, next[n], next[n + 1], a);
    }
  }

  lemma LandsOnGiven(slots: Slots, disk: Slot, a: Address)
    requires FindByBus(slots, a.kind, a.bus).Some?
    requires disk.role.Disk? && disk.unit == Some(a.unit)
    requires disk.controllerKey == slots[FindByBus(slots, a.kind, a.bus).value].key
    ensures LandsAt(slots + [disk], a)
    ensures FindByBus(slots + [disk], a.kind, a.bus) == FindByBus(slots, a.kind, a.bus)
    ensures slots[FindByBus(slots, a.kind, a.bus).value].role.Controller?
  {
    FindStays(slots, disk, a.kind, a.bus);
    hide FindByBus;
  }

  lemma LandsOnMade(slots: Slots, c: Slot, disk: Slot, a: Address)
    requires FindByBus(slots, a.kind, a.bus).None? && IsBus(c, a.kind, a.bus)
    requires disk.role.Disk? && disk.unit == Some(a.unit) && disk.controllerKey == c.key
    ensures LandsAt(slots + [c] + [disk], a)
    ensures FindByBus(slots + [c] + [disk], a.kind, a.bus) == Some(|slots|)
  {
    ControllerFound(slots, c, Bus(a.kind, a.bus));
    FindStays(slots + [c], disk, a.kind, a.bus);
    hide FindByBus;
  }

  lemma GivenOnOwnUnit(slots: Slots, at: nat)
    requires OwnUnits(slots) && at < |slots| && slots[at].role.Controller?
    ensures OnOwnUnit(slots[at])
  {
  }

  /** The model of each bus's controller is the one its predicted pool entry names. */
  ghost predicate Served(slots: Slots, types: seq<ControllerType>, buses: seq<Bus>) {
    && |buses| <= |types|
    && forall m :: 0 <= m < |buses| ==>
         var at := FindByBus(slots, buses[m].kind, buses[m].number);
         at.Some? && slots[at.value].role.model == ModelForType(types[m])
  }

  lemma {:induction false} ServedStays(slots: Slots, x: Slot, types: seq<ControllerType>, buses: seq<Bus>)
    requires Served(slots, types, buses)
    ensures Served(slots + [x], types, buses)
  {
  }

  lemma {:induction false} StepServes(st: State, types: seq<ControllerType>, block: Block, i: nat, buses: seq<Bus>)
    requires Served(st.slots, types, buses) && st.typeIndex == |buses|
    requires ExplicitStep(st, types, block, i).Success?
    requires var b := BusOf(block.controllerUnit).value;
             BusOf(block.controllerUnit).Some? && (b in buses <==> OnList(st.slots, b.kind, b.number))
    ensures var b := BusOf(block.controllerUnit).value;
            Served(ExplicitStep(st, types, block, i).value.slots, types, if b in buses then buses else buses + [b])
  {
    var a := Parse(block.controllerUnit).value;
    hide Parse, CountDisksOn, Usable;
    var next := ExplicitStep(st, types, block, i).value.slots;
    FoundIsOnList(st.slots, a.kind, a.bus);
    if FindByBus(st.slots, a.kind, a.bus).Some? {
      ServedStays(st.slots, next[|st.slots|], types, buses);
    } else {
      var slots := OpenBus(st, types, a).value.slots;
      OpenedBusIsFound(st, types, a);
      ServedStays(st.slots, slots[|st.slots|], types, buses);
      assert slots == st.slots + [slots[|st.slots|]];
      assert Served(slots, types, buses + [Bus(a.kind, a.bus)]);
      ServedStays(slots, next[|slots|], types, buses + [Bus(a.kind, a.bus)]);
    }
  }

  /** No bus the configuration references has a controller yet. */
  ghost predicate NoBusPreexists(slots: Slots, storage: seq<Block>) {
    forall i :: 0 <= i < |storage| && BusOf(storage[i].controllerUnit).Some? ==>
                  var b := BusOf(storage[i].controllerUnit).value; !OnList(slots, b.kind, b.number)
  }

  lemma {:induction false} NoneOnList(slots: Slots, storage: seq<Block>, i: nat)
    requires i <= |storage| && NoBusPreexists(slots, storage)
    ensures CountOnList(slots, BusOrder(storage, i)) == 0
    ensures forall b :: b in BusOrder(storage, i) ==> !OnList(slots, b.kind, b.number)
  {
    hide BusOf;
    if i > 0 {
      NoneOnList(slots, storage, i - 1);
      var order, bus := BusOrder(storage, i - 1), BusOf(storage[i - 1].controllerUnit);
      if bus.Some? && bus.value !in order {
        assert BusOrder(storage, i)[..|order|] == order;
      }
    }
  }

  lemma {:induction false} BusesServed(slots: Slots, types: seq<ControllerType>, storage: seq<Block>, i: nat)
    requires i <= |storage| && Before(slots, types, storage, i).Success? && NoBusPreexists(slots, storage)
    ensures Served(Before(slots, types, storage, i).value.slots, types, BusOrder(storage, i))
  {
    hide ExplicitStep, BusOf, Served;
    if i == 0 {
      NothingServed(slots, types);
    } else {
      BusesServed(slots, types, storage, i - 1);
      TypesDrawn(slots, types, storage, i - 1);
      NoneOnList(slots, storage, i - 1);
      var st := Before(slots, types, storage, i - 1).value;
      StepTracksBuses(st, types, storage[i - 1], i - 1);
      StepServes(st, types, storage[i - 1], i - 1, BusOrder(storage, i - 1));
    }
  }

  lemma NothingServed(slots: Slots, types: seq<ControllerType>)
    ensures Served(slots, types, [])
  {
  }

  // ----- accepted configurations -----

  /** Every disk after the first `base` devices is on a usable unit. */
  ghost predicate AllUsable(base: nat, slots: Slots) {
    forall n :: base <= n < |slots| && slots[n].role.Disk? ==> UsableDisk(slots, slots[n])
  }

  /** Every controller after the first `base` devices is one the static check predicted. */
  ghost predicate AllPredicted(base: nat, slots: Slots, types: seq<ControllerType>, buses: seq<Bus>) {
    forall n :: base <= n < |slots| && slots[n].role.Controller? ==>
      exists m :: 0 <= m < |buses| && m < |types| && IsBus(slots[n], buses[m].kind, buses[m].number)
                  && slots[n].role.model == ModelForType(types[m])
  }

  lemma {:induction false} UsableStays(slots: Slots, x: Slot, d: Slot)
    requires UsableDisk(slots, d)
    ensures UsableDisk(slots + [x], d)
  {
    var j :| 0 <= j < |slots| && slots[j].role.Controller? && slots[j].key == d.controllerKey
             && d.unit.Some? && Usable(slots[j].role.model, d.unit.value);
    assert (slots + [x])[j] == slots[j];
  }

  lemma {:induction false} AllUsableGrows(base: nat, slots: Slots, x: Slot)
    requires AllUsable(base, slots) && (x.role.Disk? ==> UsableDisk(slots + [x], x))
    ensures AllUsable(base, slots + [x])
  {
    forall n | base <= n < |slots + [x]| && (slots + [x])[n].role.Disk?
      ensures UsableDisk(slots + [x], (slots + [x])[n])
    {
      if n < |slots| {
        UsableStays(slots, x, slots[n]);
      }
    }
  }

  lemma {:induction false} StaticUnitIsUsable(raw: string, types: seq<ControllerType>, typeIndex: nat)
    requires StaticUnitOk(raw, types, typeIndex) && typeIndex < |types|
    ensures Usable(ModelForType(types[typeIndex]), Parse(raw).value.unit)
  {
  }

  /** What one explicit step appends: possibly a controller, then the disk. */
  lemma {:induction false} StepAppends(st: State, types: seq<ControllerType>, block: Block, i: nat)
    requires ExplicitStep(st, types, block, i).Success?
    ensures var a, next := Parse(block.controllerUnit).value, ExplicitStep(st, types, block, i).value.slots;
            var disk := next[|next| - 1];
            && disk.role.Disk?
            && (if FindByBus(st.slots, a.kind, a.bus).Some? then next == st.slots + [disk]
                else
                  && st.typeIndex < |types| && |next| == |st.slots| + 2
                  && next == st.slots + [next[|st.slots|]] + [disk]
                  && IsBus(next[|st.slots|], a.kind, a.bus)
                  && next[|st.slots|].role.model == ModelForType(types[st.typeIndex])
                  && OnOwnUnit(next[|st.slots|]))
  {
  }

  lemma {:induction false} StepKeepsUsable(base: nat, st: State, types: seq<ControllerType>, block: Block, i: nat)
    requires AllUsable(base, st.slots) && ExplicitStep(st, types, block, i).Success?
    requires var next := ExplicitStep(st, types, block, i).value.slots; UsableDisk(next, next[|next| - 1])
    ensures AllUsable(base, ExplicitStep(st, types, block, i).value.slots)
  {
    StepAppends(st, types, block, i);
    hide Parse, ExplicitStep, UsableDisk, AllUsable;
    var next := ExplicitStep(st, types, block, i).value.slots;
    var a := Parse(block.controllerUnit).value;
    if FindByBus(st.slots, a.kind, a.bus).Some? {
      AllUsableGrows(base, st.slots, next[|next| - 1]);
    } else {
      AllUsableGrows(base, st.slots, next[|st.slots|]);
      AllUsableGrows(base, st.slots + [next[|st.slots|]], next[|next| - 1]);
    }
  }

  /** The disk of an accepted block lands on a usable unit of a controller of the predicted type. */
  lemma {:induction false} AcceptedBlockIsUsable(slots: Slots, types: seq<ControllerType>, storage: seq<Block>, i: nat)
    requires AllExplicit(storage) && i < |storage| && Before(slots, types, storage, i + 1).Success?
    requires NoBusPreexists(slots, storage) && PrepareErrors(types, storage) == []
    ensures var next := Before(slots, types, storage, i + 1).value.slots;
            var index := StaticIndex(types, storage, i);
            && index < |types|
            && UsableDisk(next, next[|next| - 1])
            && exists j :: 0 <= j < |next| && next[j].key == next[|next| - 1].controllerKey
                           && next[j].role.Controller? && next[j].role.model == ModelForType(types[index])
  {
    hide ExplicitStep, UsableDisk, PrepareErrors, NoBusPreexists, BusOf, Parse, Usable, BusOrder, StaticIndex,
         FindByBus;
    var st := Before(slots, types, storage, i).value;
    var raw := storage[i].controllerUnit;
    AcceptedIff(types, storage);
    assert CleanBlock(types, storage, i);
    StepUsableIff(st, types, storage[i], i);
    PredictedModel(slots, types, storage, i);
    StaticUnitIsUsable(raw, types, StaticIndex(types, storage, i));
    var next := Before(slots, types, storage, i + 1).value.slots;
    UsableOn(next, next[|next| - 1], FindByBus(next, Parse(raw).value.kind, Parse(raw).value.bus).value);
  }

  /** After block i, the controller found for its address has the predicted type's model. */
  lemma {:induction false} PredictedModel(slots: Slots, types: seq<ControllerType>, storage: seq<Block>, i: nat)
    requires AllExplicit(storage) && i < |storage| && Before(slots, types, storage, i + 1).Success?
    requires NoBusPreexists(slots, storage) && Parse(storage[i].controllerUnit).Some?
    ensures var a, next := Parse(storage[i].controllerUnit).value, Before(slots, types, storage, i + 1).value.slots;
            var index, at := StaticIndex(types, storage, i), FindByBus(next, a.kind, a.bus);
            index < |types| && at.Some? && next[at.value].role.model == ModelForType(types[index])
  {
    hide Before, NoBusPreexists, FindByBus, Parse;
    BusesServed(slots, types, storage, i + 1);
    AllExplicitOrder(storage);
    BusIsOrdered(storage, i + 1, i);
  }

  lemma {:induction false} UsableOn(slots: Slots, d: Slot, j: nat)
    requires j < |slots| && slots[j].role.Controller? && slots[j].key == d.controllerKey
    requires d.unit.Some? && Usable(slots[j].role.model, d.unit.value)
    ensures UsableDisk(slots, d)
  {
  }

  lemma {:induction false} AcceptedPrefixIsUsable(slots: Slots, types: seq<ControllerType>, storage: seq<Block>, i: nat)
    requires AllExplicit(storage) && i <= |storage| && Before(slots, types, storage, i).Success?
    requires NoBusPreexists(slots, storage) && PrepareErrors(types, storage) == []
    ensures AllUsable(|slots|, Before(slots, types, storage, i).value.slots)
  {
    hide ExplicitStep, UsableDisk, BusOf, PrepareErrors, NoBusPreexists;
    if i > 0 {
      AcceptedPrefixIsUsable(slots, types, storage, i - 1);
      AcceptedBlockIsUsable(slots, types, storage, i - 1);
      StepKeepsUsable(|slots|, Before(slots, types, storage, i - 1).value, types, storage[i - 1], i - 1);
    }
  }

  lemma {:induction false} CreatedArePredicted(slots: Slots, types: seq<ControllerType>, storage: seq<Block>, i: nat)
    requires i <= |storage| && Before(slots, types, storage, i).Success? && NoBusPreexists(slots, storage)
    ensures AllPredicted(|slots|, Before(slots, types, storage, i).value.slots, types, BusOrder(storage, i))
  {
    hide ExplicitStep, NoBusPreexists, AllPredicted, BusOf, Parse, FindByBus, OnList, BusOrder, CountOnList, Before;
    BeforeStep(slots, types, storage, i);
    if i == 0 {
      NothingPredicted(slots, types);
    } else {
      CreatedArePredicted(slots, types, storage, i - 1);
      TypesDrawn(slots, types, storage, i - 1);
      NoneOnList(slots, storage, i - 1);
      BusIsNew(slots, storage, i - 1);
      var st := Before(slots, types, storage, i - 1).value;
      BeforeExtends(slots, types, storage, i - 1);
      StepPredicts(|slots|, st, types, storage, i - 1);
    }
  }

  lemma BeforeStep(slots: Slots, types: seq<ControllerType>, storage: seq<Block>, i: nat)
    requires i <= |storage|
    ensures i == 0 ==> Before(slots, types, storage, i) == Success(Init(slots)) && BusOrder(storage, i) == []
    ensures Init(slots).slots == slots
    ensures i > 0 ==>
              var before := Before(slots, types, storage, i - 1);
              if before.Failure? then Before(slots, types, storage, i).Failure?
              else Before(slots, types, storage, i) == ExplicitStep(before.value, types, storage[i - 1], i - 1)
  {
  }

  lemma NothingPredicted(slots: Slots, types: seq<ControllerType>)
    ensures AllPredicted(|slots|, slots, types, [])
  {
  }

  lemma {:induction false} BeforeExtends(slots: Slots, types: seq<ControllerType>, storage: seq<Block>, i: nat)
    requires i <= |storage| && Before(slots, types, storage, i).Success?
    ensures slots <= Before(slots, types, storage, i).value.slots
  {
    hide ExplicitStep;
    if i > 0 {
      BeforeExtends(slots, types, storage, i - 1);
    }
  }

  lemma {:induction false} DiskPredicted(base: nat, slots: Slots, types: seq<ControllerType>, order: seq<Bus>,
                                         disk: Slot)
    requires AllPredicted(base, slots, types, order) && disk.role.Disk?
    ensures AllPredicted(base, slots + [disk], types, order)
  {
  }

  /** A controller for the next bus, of the next type. */
  lemma {:induction false} ControllerPredicted(base: nat, slots: Slots, types: seq<ControllerType>, order: seq<Bus>,
                                               c: Slot, b: Bus)
    requires AllPredicted(base, slots, types, order) && |order| < |types|
    requires IsBus(c, b.kind, b.number) && c.role.model == ModelForType(types[|order|])
    ensures AllPredicted(base, slots + [c], types, order + [b])
  {
    hide IsBus, ModelForType;
    var more, order' := slots + [c], order + [b];
    forall n | base <= n < |more| && more[n].role.Controller?
      ensures exists m :: 0 <= m < |order'| && m < |types| && IsBus(more[n], order'[m].kind, order'[m].number)
                          && more[n].role.model == ModelForType(types[m])
    {
      if n < |slots| {
        var m :| 0 <= m < |order| && m < |types| && IsBus(slots[n], order[m].kind, order[m].number)
                 && slots[n].role.model == ModelForType(types[m]);
        assert order'[m] == order[m];
      } else {
        assert order'[|order|] == b;
      }
    }
  }

  lemma {:induction false} StepPredicts(base: nat, st: State, types: seq<ControllerType>, storage: seq<Block>, i: nat)
    requires i < |storage| && base <= |st.slots| && ExplicitStep(st, types, storage[i], i).Success?
    requires AllPredicted(base, st.slots, types, BusOrder(storage, i)) && st.typeIndex == |BusOrder(storage, i)|
    requires var bus := BusOf(storage[i].controllerUnit);
             bus.Some? ==> (bus.value in BusOrder(storage, i) <==> OnList(st.slots, bus.value.kind, bus.value.number))
    ensures AllPredicted(base, ExplicitStep(st, types, storage[i], i).value.slots, types, BusOrder(storage, i + 1))
  {
    hide *;
    StepAppends(st, types, storage[i], i);
    StepTracksBuses(st, types, storage[i], i);
    BusOrderStep(storage, i + 1);
    BusIs(storage[i].controllerUnit);
    var a, next := Parse(storage[i].controllerUnit).value, ExplicitStep(st, types, storage[i], i).value.slots;
    var b := BusOf(storage[i].controllerUnit).value;
    FoundIsOnList(st.slots, a.kind, a.bus);
    BusIs(storage[i].controllerUnit);
    if b in BusOrder(storage, i) {
      DiskPredicted(base, st.slots, types, BusOrder(storage, i), next[|next| - 1]);
    } else {
      ControllerPredicted(base, st.slots, types, BusOrder(storage, i), next[|st.slots|], b);
      DiskPredicted(base, st.slots + [next[|st.slots|]], types, BusOrder(storage, i + 1), next[|next| - 1]);
    }
  }

  lemma BusIsNew(slots: Slots, storage: seq<Block>, i: nat)
    requires i < |storage| && NoBusPreexists(slots, storage)
    ensures var b := BusOf(storage[i].controllerUnit); b.Some? ==> !OnList(slots, b.value.kind, b.value.number)
  {
    hide BusOf, OnList;
  }

  lemma BusIs(raw: string)
    ensures BusOf(raw) == if Parse(raw).Some? then Some(Bus(Parse(raw).value.kind, Parse(raw).value.bus)) else None
  {
  }

  /**
   The guarantee of the static check. With explicit blocks only, no error reported
   and no referenced bus present yet, a successful run creates exactly controllers
   of the predicted types and puts every new disk on a unit its controller offers,
   never on SCSI unit 7.
   */
  lemma {:induction false} AcceptedRunIsUsable(slots: Slots, types: seq<ControllerType>, storage: seq<Block>)
    requires AllExplicit(storage) && NoBusPreexists(slots, storage) && PrepareErrors(types, storage) == []
    requires Run(slots, types, storage, false).Success?
    ensures var done := Run(slots, types, storage, false).value.slots;
            && AllUsable(|slots|, done)
            && AllPredicted(|slots|, done, types, BusOrder(storage, |storage|))
  {
    RunIsBefore(slots, types, storage);
    AcceptedPrefixIsUsable(slots, types, storage, |storage|);
    CreatedArePredicted(slots, types, storage, |storage|);
  }

  // ----- when the prediction fails -----

  lemma {:induction false} OwnUnitsKept(slots: Slots, types: seq<ControllerType>, storage: seq<Block>, i: nat)
    requires OwnUnits(slots) && i <= |storage| && Before(slots, types, storage, i).Success?
    ensures OwnUnits(Before(slots, types, storage, i).value.slots)
  {
    hide ExplicitStep, OwnUnits;
    if i > 0 {
      OwnUnitsKept(slots, types, storage, i - 1);
      StepKeepsOwnUnits(Before(slots, types, storage, i - 1).value, types, storage[i - 1], i - 1);
    }
  }

  lemma {:induction false} StepKeepsOwnUnits(st: State, types: seq<ControllerType>, block: Block, i: nat)
    requires OwnUnits(st.slots) && ExplicitStep(st, types, block, i).Success?
    ensures OwnUnits(ExplicitStep(st, types, block, i).value.slots)
  {
  }

  /**
   The unit of block i suits its controller, judged from the input alone: its bus
   existed or was referenced before, or the unit suits the type drawn, which is the
   predicted entry shifted by the earlier buses that existed.
   */
  ghost predicate Suits(slots: Slots, types: seq<ControllerType>, storage: seq<Block>, i: nat)
    requires i < |storage| && Parse(storage[i].controllerUnit).Some?
  {
    var a := Parse(storage[i].controllerUnit).value;
    var b, drawn := Bus(a.kind, a.bus), StaticIndex(types, storage, i) - CountOnList(slots, BusOrder(storage, i));
    || OnList(slots, b.kind, b.number)
    || b in BusOrder(storage, i)
    || (0 <= drawn < |types| && Usable(ModelForType(types[drawn]), a.unit))
  }

  /** Exactly when the disk of block i lands on a usable unit. */
  lemma {:induction false} DiskUsableIff(slots: Slots, types: seq<ControllerType>, storage: seq<Block>, i: nat)
    requires AllExplicit(storage) && OwnUnits(slots) && i < |storage|
    requires Before(slots, types, storage, i + 1).Success?
    ensures var a, next := Parse(storage[i].controllerUnit).value, Before(slots, types, storage, i + 1).value.slots;
            var at := FindByBus(next, a.kind, a.bus);
            && Parse(storage[i].controllerUnit).Some? && LandsAt(next, a)
            && (Usable(next[at.value].role.model, a.unit) <==> Suits(slots, types, storage, i))
  {
    hide ExplicitStep, Parse, FindByBus, Usable, StaticIndex, OnList, BusOrder, CountOnList;
    var st := Before(slots, types, storage, i).value;
    StepTracksBuses(st, types, storage[i], i);
    var a := Parse(storage[i].controllerUnit).value;
    OwnUnitsKept(slots, types, storage, i);
    StepUsableIff(st, types, storage[i], i);
    TypesDrawn(slots, types, storage, i);
    StepAppends(st, types, storage[i], i);
    FoundIsOnList(st.slots, a.kind, a.bus);
    if !OnList(st.slots, a.kind, a.bus) {
      DrawnIndex(slots, types, storage, i);
    }
  }

  /** The newest disk is usable exactly if its unit is usable on the controller it landed on. */
  lemma {:induction false} LandedUsableIff(slots: Slots, a: Address)
    requires WellKeyed(slots) && LandsAt(slots, a)
    ensures slots != [] && FindByBus(slots, a.kind, a.bus).Some?
    ensures UsableDisk(slots, slots[|slots| - 1]) <==>
              Usable(slots[FindByBus(slots, a.kind, a.bus).value].role.model, a.unit)
  {
    hide FindByBus, Usable;
    var at := FindByBus(slots, a.kind, a.bus).value;
    if Usable(slots[at].role.model, a.unit) {
      UsableOn(slots, slots[|slots| - 1], at);
    }
  }

  /** A device appended later makes no disk usable that was not. */
  lemma {:induction false} UsableBefore(slots: Slots, x: Slot, d: Slot)
    requires x.key == NewKey(slots) && d.controllerKey > NewKey(slots) && UsableDisk(slots + [x], d)
    ensures UsableDisk(slots, d)
  {
  }

  lemma {:induction false} AllUsableBefore(base: nat, slots: Slots, x: Slot)
    requires Linked(slots) && x.key == NewKey(slots)
    requires forall n :: base <= n < |slots| && slots[n].role.Disk? ==> UsableDisk(slots + [x], slots[n])
    ensures AllUsable(base, slots)
  {
    hide UsableDisk;
    forall n | base <= n < |slots| && slots[n].role.Disk?
      ensures UsableDisk(slots, slots[n])
    {
      UsableBefore(slots, x, slots[n]);
    }
  }

  lemma {:induction false} AllUsableAppended(base: nat, slots: Slots, x: Slot)
    requires base <= |slots| && Linked(slots) && x.key == NewKey(slots)
    ensures AllUsable(base, slots + [x]) <==> AllUsable(base, slots) && (x.role.Disk? ==> UsableDisk(slots + [x], x))
  {
    hide UsableDisk;
    var more := slots + [x];
    if AllUsable(base, more) {
      forall n | base <= n < |slots| && slots[n].role.Disk?
        ensures UsableDisk(more, slots[n])
      {
        assert more[n] == slots[n];
      }
      AllUsableBefore(base, slots, x);
      assert more[|slots|] == x;
    }
    if AllUsable(base, slots) && (x.role.Disk? ==> UsableDisk(more, x)) {
      AllUsableGrows(base, slots, x);
    }
  }

  /** A step leaves all disks usable exactly if they were and its own disk is. */
  lemma {:induction false} StepUsable(base: nat, st: State, types: seq<ControllerType>, block: Block, i: nat)
    requires base <= |st.slots| && WellKeyed(st.slots) && ExplicitStep(st, types, block, i).Success?
    ensures var next := ExplicitStep(st, types, block, i).value.slots;
            && next != []
            && (AllUsable(base, next) <==> AllUsable(base, st.slots) && UsableDisk(next, next[|next| - 1]))
  {
    StepAppends(st, types, block, i);
    StepKeys(st, types, block, i);
    hide Parse, ExplicitStep, UsableDisk, AllUsable, FindByBus;
    var next := ExplicitStep(st, types, block, i).value.slots;
    var a := Parse(block.controllerUnit).value;
    if FindByBus(st.slots, a.kind, a.bus).Some? {
      AllUsableAppended(base, st.slots, next[|next| - 1]);
    } else {
      var c := next[|st.slots|];
      AllUsableAppended(base, st.slots, c);
      AppendKeepsKeys(st.slots, c);
      AllUsableAppended(base, st.slots + [c], next[|next| - 1]);
    }
  }

  lemma {:induction false} StepKeys(st: State, types: seq<ControllerType>, block: Block, i: nat)
    requires ExplicitStep(st, types, block, i).Success? && WellKeyed(st.slots)
    ensures var a, next, n :=
            Parse(block.controllerUnit).value, ExplicitStep(st, types, block, i).value.slots, |st.slots|;
            && n < |next| && next[n].key == NewKey(st.slots) && NewKey(st.slots) < 0
            && (FindByBus(st.slots, a.kind, a.bus).None? ==>
                  && |next| == n + 2 && next[n].controllerKey == 0 && next[n + 1].key == NewKey(st.slots + [next[n]]))
  {
    hide Parse, CountDisksOn, NewKey, FindByBus;
  }

  lemma {:induction false} BeforeUsableIff(slots: Slots, types: seq<ControllerType>, storage: seq<Block>, i: nat)
    requires AllExplicit(storage) && WellKeyed(slots) && OwnUnits(slots) && i <= |storage|
    requires Before(slots, types, storage, i).Success?
    ensures slots <= Before(slots, types, storage, i).value.slots
            && WellKeyed(Before(slots, types, storage, i).value.slots)
    ensures forall j :: 0 <= j < i ==> Parse(storage[j].controllerUnit).Some?
    ensures AllUsable(|slots|, Before(slots, types, storage, i).value.slots)
            <==> forall j :: 0 <= j < i ==> Suits(slots, types, storage, j)
  {
    hide *;
    BeforeStep(slots, types, storage, i);
    if i == 0 {
      NoDisksYet(|slots|, slots);
    } else {
      BeforeUsableIff(slots, types, storage, i - 1);
      var st, next := Before(slots, types, storage, i - 1).value, Before(slots, types, storage, i).value.slots;
      ExplicitStepKeeps(st, types, storage[i - 1], i - 1);
      BeforeExtends(slots, types, storage, i);
      DiskUsableIff(slots, types, storage, i - 1);
      LandedUsableIff(next, Parse(storage[i - 1].controllerUnit).value);
      StepUsable(|slots|, st, types, storage[i - 1], i - 1);
    }
  }

  /**
   Exactly when a successful run of explicit blocks leaves every new disk on a unit
   its controller offers: when the unit of every block suits.
   */
  lemma {:induction false} AllDisksUsableIff(slots: Slots, types: seq<ControllerType>, storage: seq<Block>)
    requires AllExplicit(storage) && WellKeyed(slots) && OwnUnits(slots) && Run(slots, types, storage, false).Success?
    ensures forall i :: 0 <= i < |storage| ==> Parse(storage[i].controllerUnit).Some?
    ensures AllUsable(|slots|, Run(slots, types, storage, false).value.slots) <==>
              forall i :: 0 <= i < |storage| ==> Suits(slots, types, storage, i)
  {
    hide *;
    RunIsBefore(slots, types, storage);
    BeforeUsableIff(slots, types, storage, |storage|);
  }

  /**
   In storage with a legacy block the pool is used up before explicit blocks are
   placed, so explicit disks only ever join controllers that exist, and every new
   disk is range-checked at run time, whatever the static check said.
   */
  lemma {:induction false} PoolUsedUp(st: State, types: seq<ControllerType>, storage: seq<Block>, order: seq<nat>,
                                      base: nat)
    requires Indexes(order, |storage|) && st.typeIndex == |types|
    requires OwnUnits(st.slots) && AllUsable(base, st.slots)
    requires ExplicitRun(st, types, storage, order).Success?
    ensures AllUsable(base, ExplicitRun(st, types, storage, order).value.slots)
    decreases |order|
  {
    hide ExplicitStep, Parse, FindByBus, UsableDisk, AllUsable, Usable, OwnUnits, OnList;
    if order != [] {
      var i := order[0];
      var next := ExplicitStep(st, types, storage[i], i).value;
      StepAppends(st, types, storage[i], i);
      StepUsableIff(st, types, storage[i], i);
      StepTracksBuses(st, types, storage[i], i);
      var a := Parse(storage[i].controllerUnit).value;
      UsableOn(next.slots, next.slots[|next.slots| - 1], FindByBus(next.slots, a.kind, a.bus).value);
      StepKeepsUsable(base, st, types, storage[i], i);
      FoundIsOnList(st.slots, a.kind, a.bus);
      StepKeepsOwnUnits(st, types, storage[i], i);
      PoolUsedUp(next, types, storage, order[1..], base);
    }
  }

  lemma {:induction false} LegacyRunIsUsable(st: State, first: nat, count: nat, storage: seq<Block>, order: seq<nat>,
                                             base: nat)
    requires WellKeyed(st.slots) && OwnControllers(st.slots, first, count) && Indexes(order, |storage|)
    requires AllUsable(base, st.slots) && OwnUnits(st.slots)
    requires LegacyRun(st, first, count, storage, order).Success?
    ensures var done := LegacyRun(st, first, count, storage, order).value;
            AllUsable(base, done.slots) && OwnUnits(done.slots)
    decreases |order|
  {
    hide AllUsable, WellKeyed, OwnUnits, LegacyStep;
    if order != [] {
      LegacyStepKeeps(st, first, count, storage[order[0]], order[0]);
      LegacyStepIsUsable(st, first, count, storage[order[0]], order[0], base);
      LegacyRunIsUsable(LegacyStep(st, first, count, storage[order[0]], order[0]).value, first, count, storage,
                        order[1..], base);
    }
  }

  lemma {:induction false} LegacyStepIsUsable(st: State, first: nat, count: nat, block: Block, i: nat, base: nat)
    requires WellKeyed(st.slots) && OwnControllers(st.slots, first, count)
    requires AllUsable(base, st.slots) && OwnUnits(st.slots)
    requires LegacyStep(st, first, count, block, i).Success?
    ensures var next := LegacyStep(st, first, count, block, i).value;
            AllUsable(base, next.slots) && OwnUnits(next.slots)
  {
    hide AllUsable, UsableDisk, Usable, WellKeyed, OwnUnits, RoomForDisk, AssignedUnit;
    LegacyStepKeeps(st, first, count, block, i);
    var next := LegacyStep(st, first, count, block, i).value;
    var disk := next.slots[|st.slots|];
    UsableOn(next.slots, disk, first + block.controllerIndex);
    AllUsableGrows(base, st.slots, disk);
    DiskKeepsOwnUnits(st.slots, disk);
  }

  lemma {:induction false} DiskKeepsOwnUnits(slots: Slots, x: Slot)
    requires OwnUnits(slots) && x.role.Disk?
    ensures OwnUnits(slots + [x])
  {
  }

  lemma {:induction false} AddControllersOwnUnits(slots: Slots, types: seq<ControllerType>)
    requires OwnUnits(slots) && AddControllers(slots, types).Some?
    ensures OwnUnits(AddControllers(slots, types).value)
    decreases |types|
  {
    if types != [] {
      AddControllersOwnUnits(AddController(slots, types[0]).value, types[1..]);
    }
  }

  lemma {:induction false} LegacyPhaseIsUsable(slots: Slots, types: seq<ControllerType>, storage: seq<Block>)
    requires WellKeyed(slots) && OwnUnits(slots) && LegacyBlocks(storage) != []
    requires LegacyPhase(slots, types, storage).Success?
    ensures var done := LegacyPhase(slots, types, storage).value;
            AllUsable(|slots|, done.slots) && OwnUnits(done.slots) && done.typeIndex == |types|
  {
    hide AllUsable, OwnUnits, WellKeyed, OwnControllers, AddControllers, LegacyRun, LegacyBelow;
    var ready := AddControllers(slots, types).value;
    AddControllersOwnUnits(slots, types);
    AddedAreControllers(slots, types);
    NoneOwned(slots);
    AddControllersKeeps(slots, |slots|, types);
    NoDisksYet(|slots|, ready);
    LegacyRunIsUsable(Init(ready), |slots|, |types|, storage, LegacyBlocks(storage), |slots|);
  }

  /**
   With at least one legacy block, a successful run puts every new disk on a unit
   its controller offers: no static check is needed.
   */
  lemma {:induction false} MixedRunIsUsable(slots: Slots, types: seq<ControllerType>, storage: seq<Block>,
                                            aggregate: bool)
    requires WellKeyed(slots) && OwnUnits(slots) && HasLegacy(storage)
    requires Run(slots, types, storage, aggregate).Success?
    ensures AllUsable(|slots|, Run(slots, types, storage, aggregate).value.slots)
  {
    hide AllUsable, OwnUnits, WellKeyed, LegacyPhase, LegacyBelow, ExplicitBelow, ExplicitRun, WithinAggregate;
    var i :| 0 <= i < |storage| && storage[i].controllerUnit == "";
    BlockIsOrdered(storage, |storage|, i);
    LegacyPhaseIsUsable(slots, types, storage);
    PoolUsedUp(LegacyPhase(slots, types, storage).value, types, storage, ExplicitBlocks(storage), |slots|);
  }

  lemma NoneOwned(slots: Slots)
    ensures OwnControllers(slots, |slots|, 0)
  {
  }

  lemma {:induction false} NoDisksYet(base: nat, slots: Slots)
    requires forall j :: base <= j < |slots| ==> slots[j].role.Controller?
    ensures AllUsable(base, slots)
  {
  }

  // ----- concrete failures -----

  function ExplicitBlock(a: Address): Block {
    Block(1024, false, true, 0, Print(a), "")
  }

  /** An LSI Logic controller on SCSI bus 0. */
  const FIRST_SCSI: Slot := Slot(1000, 100, None, Controller(ScsiModel(false), 0, SCSI_RESERVED_UNIT))

  lemma {:induction false} ExplicitBlockParses(a: Address)
    requires a.bus <= MAX_BUS
    ensures ExplicitBlock(a).controllerUnit != "" && Parse(ExplicitBlock(a).controllerUnit) == Some(a)
  {
    ParsePrint(a);
  }

  /** A step whose bus is missing succeeds when the next type fits the bus and its kind has room. */
  lemma {:induction false} StepOpens(st: State, types: seq<ControllerType>, block: Block, i: nat)
    requires Parse(block.controllerUnit).Some? && block.controllerUnit !in st.pending && Linked(st.slots)
    requires var a := Parse(block.controllerUnit).value;
             && FindByBus(st.slots, a.kind, a.bus) == None
             && st.typeIndex < |types| && !types[st.typeIndex].Unlisted?
             && KindForType(types[st.typeIndex]) == a.kind
             && FreeBusFrom(st.slots, a.kind, 0) == a.bus
             && CountKind(st.slots, a.kind) < MAX_CONTROLLERS_PER_TYPE
    ensures ExplicitStep(st, types, block, i).Success?
  {
    var a := Parse(block.controllerUnit).value;
    hide Parse, CountKind, FindByBus, FreeBusFrom;
    var c := CreateController(st.slots, types[st.typeIndex]).value;
    assert IsBus(c, a.kind, a.bus);
    NothingOnUnusedKey(st.slots, c.key);
    AppendedCounts(st.slots, c);
  }

  /** On an empty list, a block on SCSI bus 0 succeeds with an LSI Logic type, at any unit. */
  lemma {:induction false} OpensFirstBus(unit: nat, i: nat)
    ensures ExplicitStep(Init([]), [LsiLogic], ExplicitBlock(Address(SCSI, 0, unit)), i).Success?
  {
    ExplicitBlockParses(Address(SCSI, 0, unit));
    hide Parse, ExplicitBlock, ExplicitStep;
    assert FreeBusFrom([], SCSI, 0) == 0;
    StepOpens(Init([]), [LsiLogic], ExplicitBlock(Address(SCSI, 0, unit)), i);
  }

  /** An unusable unit stays unusable: only its own controller has its key. */
  lemma {:induction false} OnlyHostCounts(slots: Slots, at: nat, base: nat)
    requires DistinctKeys(slots) && base < |slots| && at < |slots| && slots[at].role.Controller?
    requires slots[|slots| - 1].role.Disk? && slots[|slots| - 1].unit.Some?
    requires slots[|slots| - 1].controllerKey == slots[at].key
    requires !Usable(slots[at].role.model, slots[|slots| - 1].unit.value)
    ensures !AllUsable(base, slots)
  {
  }

  /** A last block on a new bus whose unit does not suit the drawn type ends out of range. */
  lemma {:induction false} LastDiskUnusable(slots: Slots, types: seq<ControllerType>, storage: seq<Block>, i: nat,
                                            a: Address)
    requires AllExplicit(storage) && |storage| == i + 1 && WellKeyed(slots) && OwnUnits(slots)
    requires Parse(storage[i].controllerUnit) == Some(a) && Before(slots, types, storage, i + 1).Success?
    requires !OnList(slots, a.kind, a.bus) && Bus(a.kind, a.bus) !in BusOrder(storage, i)
    requires var drawn := StaticIndex(types, storage, i) - CountOnList(slots, BusOrder(storage, i));
             0 <= drawn < |types| && !Usable(ModelForType(types[drawn]), a.unit)
    ensures Run(slots, types, storage, false).Success?
    ensures !AllUsable(|slots|, Run(slots, types, storage, false).value.slots)
  {
    hide Parse, ExplicitStep, StaticIndex, FindByBus, BusOrder, CountOnList, Before, Run, OnList, Usable, AllUsable,
         OwnUnits;
    RunIsBefore(slots, types, storage);
    RunKeepsInvariants(slots, types, storage, false);
    DiskUsableIff(slots, types, storage, i);
    LastIsDisk(slots, types, storage, i);
    var done := Run(slots, types, storage, false).value.slots;
    OnlyHostCounts(done, FindByBus(done, a.kind, a.bus).value, |slots|);
  }

  /**
   Without the static check the run itself accepts a first disk out of range: on
   an empty list "scsi0:20" is placed on an LSI Logic controller, which ends at 15.
   */
  lemma {:induction false} RuntimeAloneIsNotEnough(storage: seq<Block>)
    requires storage == [ExplicitBlock(Address(SCSI, 0, 20))]
    ensures Run([], [LsiLogic], storage, true).Success?
    ensures !AllUsable(0, Run([], [LsiLogic], storage, true).value.slots)
  {
    hide Parse, ExplicitStep, StaticIndex, WithinAggregate, Usable, AllUsable;
    ExplicitBlockParses(Address(SCSI, 0, 20));
    OpensFirstBus(20, 0);
    FirstIndexIsZero([LsiLogic], storage);
    assert Before([], [LsiLogic], storage, 1) == ExplicitStep(Init([]), [LsiLogic], storage[0], 0);
    TwentyIsTooHigh();
    EmptyListIsSound();
    AggregateIsImplied([], [LsiLogic], storage);
    LastDiskUnusable([], [LsiLogic], storage, 0, Address(SCSI, 0, 20));
  }

  lemma TwentyIsTooHigh()
    ensures !Usable(ModelForType(LsiLogic), 20) && !Usable(ModelForType(LsiLogic), 40)
  {
  }

  lemma EmptyListIsSound()
    ensures WellKeyed([]) && WithinLimits([]) && OnePerUnit([]) && OwnUnits([])
  {
  }

  lemma {:induction false} FirstIndexIsZero(types: seq<ControllerType>, storage: seq<Block>)
    requires storage != [] && AllExplicit(storage) && BusOf(storage[0].controllerUnit).Some?
    ensures StaticIndex(types, storage, 0) == 0
  {
    hide BusOf;
    var b := BusOf(storage[0].controllerUnit).value;
    assert BusOrder(storage, 1) == [b];
    assert [b][0] == b;
  }

  lemma {:induction false} SecondIndexIsOne(types: seq<ControllerType>, storage: seq<Block>)
    requires |storage| == 2 && AllExplicit(storage)
    requires BusOf(storage[0].controllerUnit).Some? && BusOf(storage[1].controllerUnit).Some?
    requires BusOf(storage[0].controllerUnit) != BusOf(storage[1].controllerUnit)
    ensures StaticIndex(types, storage, 1) == 1
    ensures BusOrder(storage, 1) == [BusOf(storage[0].controllerUnit).value]
  {
  }

  lemma {:induction false} ShiftedPoolParses(storage: seq<Block>)
    requires storage == [ExplicitBlock(Address(SCSI, 0, 1)), ExplicitBlock(Address(SCSI, 1, 40))]
    ensures AllExplicit(storage) && storage[0].controllerUnit != storage[1].controllerUnit
    ensures BusOf(storage[0].controllerUnit) == Some(Bus(SCSI, 0))
    ensures BusOf(storage[1].controllerUnit) == Some(Bus(SCSI, 1))
    ensures StaticUnitOk(storage[0].controllerUnit, [LsiLogic, Pvscsi], 0)
    ensures StaticUnitOk(storage[1].controllerUnit, [LsiLogic, Pvscsi], 1)
    ensures storage[0].controllerIndex == 0 && storage[1].controllerIndex == 0
  {
    hide Parse, Print;
    ExplicitBlockParses(Address(SCSI, 0, 1));
    ExplicitBlockParses(Address(SCSI, 1, 40));
    assert Parse(storage[0].controllerUnit) == Some(Address(SCSI, 0, 1));
    assert Parse(storage[1].controllerUnit) == Some(Address(SCSI, 1, 40));
  }

  /** Two explicit blocks on two buses are accepted when they suit the first two entries. */
  lemma {:induction false} TwoBlocksAccepted(types: seq<ControllerType>, storage: seq<Block>)
    requires |storage| == 2 && AllExplicit(storage)
    requires BusOf(storage[0].controllerUnit).Some? && BusOf(storage[1].controllerUnit).Some?
    requires BusOf(storage[0].controllerUnit) != BusOf(storage[1].controllerUnit)
    requires StaticUnitOk(storage[0].controllerUnit, types, 0) && StaticUnitOk(storage[1].controllerUnit, types, 1)
    requires storage[0].controllerIndex == 0 && storage[1].controllerIndex == 0
    requires forall i :: 0 <= i < |types| ==> !types[i].Unlisted?
    ensures PrepareErrors(types, storage) == []
  {
    hide StaticIndex, BusOf, StaticUnitOk, PrepareErrors;
    FirstIndexIsZero(types, storage);
    SecondIndexIsOne(types, storage);
    AcceptedIff(types, storage);
    assert CleanBlock(types, storage, 0) && CleanBlock(types, storage, 1);
  }

  /** The first block of the failure below joins the existing controller. */
  lemma {:induction false} JoinsExisting(types: seq<ControllerType>, i: nat)
    ensures var step := ExplicitStep(Init([FIRST_SCSI]), types, ExplicitBlock(Address(SCSI, 0, 1)), i);
            && step.Success? && step.value.typeIndex == 0
            && step.value.pending == {ExplicitBlock(Address(SCSI, 0, 1)).controllerUnit}
            && step.value.slots == [FIRST_SCSI, Slot(-201, 1000, Some(1), Disk)]
  {
    ExplicitBlockParses(Address(SCSI, 0, 1));
    hide Parse, ExplicitBlock;
    var one := [FIRST_SCSI];
    assert one[..0] == [];
    assert one[0] == FIRST_SCSI;
    assert FindByBus(one, SCSI, 0) == Some(0);
    assert UnitAdmitted(one, FIRST_SCSI, 1);
    assert CountDisksOn(one, 1000) == 0;
    assert NewKey(one) == -201;
  }

  lemma {:induction false} SecondBusIsFree(slots: Slots)
    requires slots == [FIRST_SCSI, Slot(-201, 1000, Some(1), Disk)]
    ensures FreeBusFrom(slots, SCSI, 0) == 1 && CountKind(slots, SCSI) == 1
    ensures FindByBus(slots, SCSI, 1) == None
    ensures Linked(slots)
  {
    assert IsBus(slots[0], SCSI, 0);
    assert slots[..1] == [FIRST_SCSI] && [FIRST_SCSI][..0] == [];
    assert CountKind([FIRST_SCSI], SCSI) == 1;
    assert NewKey([FIRST_SCSI]) == -201 && NewKey(slots) == -202;
    assert forall i :: 0 <= i < |slots| ==> !IsBus(slots[i], SCSI, 1);
    FreeBusSkips(slots, SCSI, 0);
  }

  /** A bus in use whose successor is free is skipped for its successor. */
  lemma {:induction false} FreeBusSkips(slots: Slots, kind: Kind, bus: nat)
    requires OnList(slots, kind, bus) && !OnList(slots, kind, bus + 1)
    ensures FreeBusFrom(slots, kind, bus) == bus + 1
  {
  }

  /** Both blocks of the failure below succeed at run time. */
  lemma {:induction false} ShiftedPoolRuns(types: seq<ControllerType>, storage: seq<Block>)
    requires types == [LsiLogic, Pvscsi]
    requires storage == [ExplicitBlock(Address(SCSI, 0, 1)), ExplicitBlock(Address(SCSI, 1, 40))]
    ensures Before([FIRST_SCSI], types, storage, 2).Success?
  {
    ExplicitBlockParses(Address(SCSI, 0, 1));
    ExplicitBlockParses(Address(SCSI, 1, 40));
    hide Parse, ExplicitBlock, ExplicitStep, FindByBus, CountKind, FreeBusFrom, Linked;
    JoinsExisting(types, 0);
    var st := ExplicitStep(Init([FIRST_SCSI]), types, storage[0], 0).value;
    SecondBusIsFree(st.slots);
    StepOpens(st, types, storage[1], 1);
    assert Before([FIRST_SCSI], types, storage, 1) == ExplicitStep(Init([FIRST_SCSI]), types, storage[0], 0);
  }

  /**
   With a bus that exists already, an accepted configuration can go wrong: the
   first entry is drawn for the second bus, so "scsi1:40", checked against pvscsi,
   lands on an LSI Logic controller.
   */
  lemma {:induction false} ExistingBusShiftsPool(types: seq<ControllerType>, storage: seq<Block>)
    requires types == [LsiLogic, Pvscsi]
    requires storage == [ExplicitBlock(Address(SCSI, 0, 1)), ExplicitBlock(Address(SCSI, 1, 40))]
    ensures PrepareErrors(types, storage) == []
    ensures Run([FIRST_SCSI], types, storage, false).Success?
    ensures !AllUsable(1, Run([FIRST_SCSI], types, storage, false).value.slots)
  {
    hide Parse, ExplicitBlock, StaticIndex, Before, Run, PrepareErrors, OnList, Usable, AllUsable, BusOrder,
         CountOnList, OwnUnits,
      StaticUnitOk, BusOf, WellKeyed;
    ShiftedPoolParses(storage);
    TwoBlocksAccepted(types, storage);
    OneControllerIsSound();
    ShiftedPoolRuns(types, storage);
    SecondDrawIsFirst(types, storage);
    ExplicitBlockParses(Address(SCSI, 1, 40));
    TwentyIsTooHigh();
    LastDiskUnusable([FIRST_SCSI], types, storage, 1, Address(SCSI, 1, 40));
  }

  lemma OneControllerIsSound()
    ensures WellKeyed([FIRST_SCSI]) && OwnUnits([FIRST_SCSI])
  {
  }

  lemma {:induction false} SecondDrawIsFirst(types: seq<ControllerType>, storage: seq<Block>)
    requires storage == [ExplicitBlock(Address(SCSI, 0, 1)), ExplicitBlock(Address(SCSI, 1, 40))]
    ensures StaticIndex(types, storage, 1) - CountOnList([FIRST_SCSI], BusOrder(storage, 1)) == 0
    ensures !OnList([FIRST_SCSI], SCSI, 1) && Bus(SCSI, 1) !in BusOrder(storage, 1)
  {
    ShiftedPoolParses(storage);
    hide ExplicitBlock, StaticIndex, BusOf, StaticUnitOk;
    SecondIndexIsOne(types, storage);
    var b := Bus(SCSI, 0);
    assert IsBus([FIRST_SCSI][0], SCSI, 0);
    assert [b][..0] == [];
    assert CountOnList([FIRST_SCSI], [b]) == 1;
  }

  lemma {:induction false} LastIsDisk(slots: Slots, types: seq<ControllerType>, storage: seq<Block>, i: nat)
    requires i < |storage| && Before(slots, types, storage, i + 1).Success?
    ensures var next := Before(slots, types, storage, i + 1).value.slots;
            |next| > |slots| && next[|next| - 1].role.Disk?
  {
    StepAppends(Before(slots, types, storage, i).value, types, storage[i], i);
    BeforeExtends(slots, types, storage, i);
  }
}
