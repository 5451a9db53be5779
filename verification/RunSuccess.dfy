/**
 When an accepted configuration runs through. The static check says nothing about
 bus numbers, limits per kind or respelled addresses; together with enough pool
 entries these are exactly what decides whether the allocator succeeds.
 */
module RunSuccess {
  import opened Wrappers
  import opened ControllerAddress
  import opened DeviceList
  import opened UnitCapacity
  import opened Allocator
  import opened AllocatorOrder
  import opened AllocatorSafety
  import opened StoragePrepare
  import opened Lockstep

  function KindCount(buses: seq<Bus>, kind: Kind): nat {
    if buses == [] then 0
    else KindCount(buses[..|buses| - 1], kind) + (if buses[|buses| - 1].kind == kind then 1 else 0)
  }

  /**
   Block i fits, judged by the device list and the configuration: no earlier block
   has its address, and if its bus is new, the pool has an entry left, the kind has
   room, and every lower bus of the kind is there or was referenced before.
   */
  ghost predicate Fits(slots: Slots, types: seq<ControllerType>, storage: seq<Block>, i: nat)
    requires i < |storage|
  {
    var address, order := Parse(storage[i].controllerUnit), BusOrder(storage, i);
    && address.Some?
    && (forall j :: 0 <= j < i ==> Parse(storage[j].controllerUnit) != address)
    && var b := Bus(address.value.kind, address.value.bus);
       b in order || Opens(slots, types, order, b)
  }

  /** A controller for a new bus can be created after those for the buses in `order`. */
  ghost predicate Opens(slots: Slots, types: seq<ControllerType>, order: seq<Bus>, b: Bus) {
    && |order| < |types|
    && CountKind(slots, b.kind) + KindCount(order, b.kind) < MAX_CONTROLLERS_PER_TYPE
    && forall n: nat :: n < b.number ==> OnList(slots, b.kind, n) || Bus(b.kind, n) in order
  }

  // ----- what the run keeps -----

  /** An earlier block has this bus and unit. */
  ghost predicate FromBlock(storage: seq<Block>, i: nat, b: Bus, unit: int)
    requires i <= |storage|
  {
    exists j :: 0 <= j < i && BusOf(storage[j].controllerUnit) == Some(b)
      && Parse(storage[j].controllerUnit).value.unit == unit
  }

  /** The bus has a controller made for it, carrying disks of earlier blocks at distinct usable units. */
  ghost predicate Host(slots: Slots, storage: seq<Block>, i: nat, b: Bus)
    requires i <= |storage|
  {
    var at := FindByBus(slots, b.kind, b.number);
    && at.Some?
    && var c := slots[at.value];
       && c.key < 0 && OnOwnUnit(c) && WellPlaced(slots, c) && OnlyDisks(slots, c.key)
       && forall k :: 0 <= k < |slots| && slots[k].controllerKey == c.key ==>
                        slots[k].unit.Some? && FromBlock(storage, i, b, slots[k].unit.value)
  }

  ghost predicate AllHosts(slots: Slots, storage: seq<Block>, i: nat, order: seq<Bus>)
    requires i <= |storage|
  {
    forall b :: b in order ==> Host(slots, storage, i, b)
  }

  /** The counts by kind are those of the given list plus those of the buses in `order`. */
  ghost predicate Counted(slots: Slots, now: Slots, order: seq<Bus>) {
    forall kind :: CountKind(now, kind) == CountKind(slots, kind) + KindCount(order, kind)
  }

  /** What the state before block i says about the blocks served. */
  ghost predicate Kept(slots: Slots, storage: seq<Block>, i: nat, st: State)
    requires i <= |storage|
  {
    && WellKeyed(st.slots) && PendingTaken(st)
    && (forall raw :: raw in st.pending <==> exists j :: 0 <= j < i && storage[j].controllerUnit == raw)
    && Counted(slots, st.slots, BusOrder(storage, i))
    && AllHosts(st.slots, storage, i, BusOrder(storage, i))
  }

  // ----- hosts under appending -----

  lemma {:induction false} FromBlockStays(storage: seq<Block>, i: nat, b: Bus, unit: int)
    requires i < |storage| && FromBlock(storage, i, b, unit)
    ensures FromBlock(storage, i + 1, b, unit)
  {
  }

  /** A device hung off another key leaves a host as it is. */
  lemma {:induction false} HostStays(slots: Slots, storage: seq<Block>, i: nat, b: Bus, x: Slot)
    requires i <= |storage| && Host(slots, storage, i, b)
    requires x.controllerKey != slots[FindByBus(slots, b.kind, b.number).value].key
    ensures Host(slots + [x], storage, i, b)
  {
    FindStays(slots, x, b.kind, b.number);
    hide FindByBus, FromBlock;
    var c := slots[FindByBus(slots, b.kind, b.number).value];
    WellPlacedGrows(slots, c, x);
  }

  /** One more block served changes nothing about a host. */
  lemma {:induction false} HostServed(slots: Slots, storage: seq<Block>, i: nat, b: Bus)
    requires i < |storage| && Host(slots, storage, i, b)
    ensures Host(slots, storage, i + 1, b)
  {
    hide FromBlock, WellPlaced, OnlyDisks, FindByBus;
    var c := slots[FindByBus(slots, b.kind, b.number).value];
    forall k | 0 <= k < |slots| && slots[k].controllerKey == c.key
      ensures FromBlock(storage, i + 1, b, slots[k].unit.value)
    {
      FromBlockStays(storage, i, b, slots[k].unit.value);
    }
  }

  /** A new controller hosts its bus, with nothing on it yet. */
  lemma {:induction false} ControllerHosts(slots: Slots, storage: seq<Block>, i: nat, order: seq<Bus>, c: Slot, b: Bus)
    requires i <= |storage| && AllHosts(slots, storage, i, order) && Linked(slots)
    requires c.key == NewKey(slots) && c.controllerKey == 0 && IsBus(c, b.kind, b.number) && OnOwnUnit(c)
    requires FindByBus(slots, b.kind, b.number).None?
    ensures AllHosts(slots + [c], storage, i, order + [b])
  {
    NewHost(slots, storage, i, c, b);
    hide Host, NewKey, FindByBus;
    forall b' | b' in order
      ensures Host(slots + [c], storage, i, b')
    {
      HostKeyIsNew(slots, storage, i, b');
      HostStays(slots, storage, i, b', c);
    }
  }

  lemma NewHost(slots: Slots, storage: seq<Block>, i: nat, c: Slot, b: Bus)
    requires i <= |storage| && Linked(slots)
    requires c.key == NewKey(slots) && c.controllerKey == 0 && IsBus(c, b.kind, b.number) && OnOwnUnit(c)
    requires FindByBus(slots, b.kind, b.number).None?
    ensures Host(slots + [c], storage, i, b)
  {
    ControllerFound(slots, c, b);
    NothingOnNew(slots, c);
    hide NewKey, FindByBus, FromBlock, WellPlaced, OnlyDisks, Linked, IsBus;
    assert (slots + [c])[|slots|] == c;
  }

  lemma NothingOnNew(slots: Slots, c: Slot)
    requires Linked(slots) && c.role.Controller? && c.key == NewKey(slots) && c.controllerKey == 0
    ensures forall k :: 0 <= k < |slots + [c]| ==> (slots + [c])[k].controllerKey != c.key
    ensures WellPlaced(slots + [c], c) && OnlyDisks(slots + [c], c.key)
  {
    hide NewKey;
  }

  lemma HostKeyIsNew(slots: Slots, storage: seq<Block>, i: nat, b: Bus)
    requires i <= |storage| && Host(slots, storage, i, b)
    ensures var at := FindByBus(slots, b.kind, b.number);
            at.Some? && slots[at.value].key < 0 && IsBus(slots[at.value], b.kind, b.number)
              && slots[at.value].role.Controller?
  {
  }

  /** The disk of block i joins the host of its bus. */
  lemma {:induction false} DiskJoinsHost(slots: Slots, storage: seq<Block>, i: nat, order: seq<Bus>, b: Bus, disk: Slot)
    requires i < |storage| && AllHosts(slots, storage, i, order) && b in order && DistinctKeys(slots)
    requires Parse(storage[i].controllerUnit).Some? && BusOf(storage[i].controllerUnit) == Some(b)
    requires var at := FindByBus(slots, b.kind, b.number);
             && at.Some? && slots[at.value].role.Controller? && disk.role.Disk?
                  && disk.controllerKey == slots[at.value].key
             && disk.unit == Some(Parse(storage[i].controllerUnit).value.unit)
             && Usable(slots[at.value].role.model, disk.unit.value)
                  && !Occupied(slots, slots[at.value], disk.unit.value)
    ensures AllHosts(slots + [disk], storage, i + 1, order)
  {
    hide Parse, FindByBus;
    forall b' | b' in order
      ensures Host(slots + [disk], storage, i + 1, b')
    {
      HostKeyIsNew(slots, storage, i, b');
      if b' == b {
        DiskHosted(slots, storage, i, b, disk);
      } else {
        OtherHostsKey(slots, b, b');
        HostStays(slots, storage, i, b', disk);
        HostServed(slots + [disk], storage, i, b');
      }
    }
  }

  /** Two buses have two controllers, with two keys. */
  lemma OtherHostsKey(slots: Slots, b: Bus, b': Bus)
    requires DistinctKeys(slots) && b != b'
    requires FindByBus(slots, b.kind, b.number).Some? && FindByBus(slots, b'.kind, b'.number).Some?
    ensures slots[FindByBus(slots, b.kind, b.number).value].key != slots[FindByBus(slots, b'.kind, b'.number).value].key
  {
    var j, k := FindByBus(slots, b.kind, b.number).value, FindByBus(slots, b'.kind, b'.number).value;
    assert IsBus(slots[j], b.kind, b.number) && IsBus(slots[k], b'.kind, b'.number);
  }

  lemma {:induction false} DiskHosted(slots: Slots, storage: seq<Block>, i: nat, b: Bus, disk: Slot)
    requires i < |storage| && Host(slots, storage, i, b) && BusOf(storage[i].controllerUnit) == Some(b)
    requires var c := slots[FindByBus(slots, b.kind, b.number).value];
             && disk.role.Disk? && disk.controllerKey == c.key
             && disk.unit == Some(Parse(storage[i].controllerUnit).value.unit)
             && Usable(c.role.model, disk.unit.value) && !Occupied(slots, c, disk.unit.value)
    ensures Host(slots + [disk], storage, i + 1, b)
  {
    var c := slots[FindByBus(slots, b.kind, b.number).value];
    FindStays(slots, disk, b.kind, b.number);
    WellPlacedGrows(slots, c, disk);
    assert FromBlock(storage, i + 1, b, disk.unit.value);
    hide Parse, FindByBus, BusOf, FromBlock, WellPlaced, Occupied, Usable;
    var more := slots + [disk];
    forall k | 0 <= k < |more| && more[k].controllerKey == c.key
      ensures more[k].unit.Some? && FromBlock(storage, i + 1, b, more[k].unit.value)
    {
      if k < |slots| {
        FromBlockStays(storage, i, b, slots[k].unit.value);
      }
    }
  }

  // ----- one block -----

  /** The bus a new controller gets is the lowest its kind does not use. */
  lemma {:induction false} LowestFree(slots: Slots, kind: Kind, from: nat, bus: nat)
    requires from <= bus
    ensures FreeBusFrom(slots, kind, from) == bus <==>
              !OnList(slots, kind, bus) && forall n: nat :: from <= n < bus ==> OnList(slots, kind, n)
    decreases bus - from
  {
    if OnList(slots, kind, from) {
      if from < bus {
        LowestFree(slots, kind, from + 1, bus);
      }
    }
  }

  /** The facts an accepted block brings along. */
  lemma {:induction false} AcceptedBlock(slots: Slots, types: seq<ControllerType>, storage: seq<Block>, i: nat)
    requires i < |storage| && AllExplicit(storage) && NoBusPreexists(slots, storage)
    requires PrepareErrors(types, storage) == []
    ensures var raw, order := storage[i].controllerUnit, BusOrder(storage, i);
            && Parse(raw).Some? && BusOf(raw).Some?
            && (forall j :: 0 <= j < i ==> storage[j].controllerUnit != raw)
            && var a, b := Parse(raw).value, BusOf(raw).value;
               && b == Bus(a.kind, a.bus) && !OnList(slots, b.kind, b.number)
               && BusOrder(storage, i + 1) == (if b in order then order else order + [b])
               && var m := StaticIndex(types, storage, i);
                  && (b in order ==> m < |order| && order[m] == b)
                  && (b !in order ==> m == |order|)
                  && (m < |types| ==>
                        && Usable(ModelForType(types[m]), a.unit)
                        && KindForType(types[m]) == a.kind && !types[m].Unlisted?)
  {
    hide *;
    AcceptedUnit(types, storage, i);
    BusIs(storage[i].controllerUnit);
    BusIsNew(slots, storage, i);
    BusOrderStep(storage, i + 1);
    PredictedIndex(types, storage, i);
  }

  /** What the static check says of one block. */
  lemma {:induction false} AcceptedUnit(types: seq<ControllerType>, storage: seq<Block>, i: nat)
    requires i < |storage| && AllExplicit(storage) && PrepareErrors(types, storage) == []
    ensures var raw, m := storage[i].controllerUnit, StaticIndex(types, storage, i);
            && Parse(raw).Some? && (forall j :: 0 <= j < i ==> storage[j].controllerUnit != raw)
            && (m < |types| ==>
                  && Usable(ModelForType(types[m]), Parse(raw).value.unit)
                  && KindForType(types[m]) == Parse(raw).value.kind && !types[m].Unlisted?)
  {
    hide PrepareErrors, Parse, StaticMaxUnit, Usable, StaticIndex;
    AcceptedIff(types, storage);
    assert CleanBlock(types, storage, i);
    if StaticIndex(types, storage, i) < |types| {
      StaticUnitIsUsable(storage[i].controllerUnit, types, StaticIndex(types, storage, i));
    }
  }

  /** With explicit blocks only, the predicted index is the place of the bus in the order of first use. */
  lemma {:induction false} PredictedIndex(types: seq<ControllerType>, storage: seq<Block>, i: nat)
    requires i < |storage| && AllExplicit(storage) && BusOf(storage[i].controllerUnit).Some?
    ensures var b, order := BusOf(storage[i].controllerUnit).value, BusOrder(storage, i);
            var m := StaticIndex(types, storage, i);
            if b in order then m < |order| && order[m] == b else m == |order|
  {
    AllExplicitOrder(storage);
    BusIsOrdered(storage, i + 1, i);
    BusOrderStep(storage, i + 1);
    hide BusOf, BusOrder, AllExplicit;
    var b, order := BusOf(storage[i].controllerUnit).value, BusOrder(storage, i);
    if b !in order {
      IndexOfLast(b, order);
    }
  }

  /** Where the run stands before block i. */
  lemma {:induction false} RunBefore(slots: Slots, types: seq<ControllerType>, storage: seq<Block>, i: nat)
    requires i <= |storage| && NoBusPreexists(slots, storage) && Before(slots, types, storage, i).Success?
    ensures var st, order := Before(slots, types, storage, i).value, BusOrder(storage, i);
            && st.typeIndex == |order| && Served(st.slots, types, order)
            && forall b: Bus :: OnList(st.slots, b.kind, b.number) <==> OnList(slots, b.kind, b.number) || b in order
  {
    hide Before, BusOrder, OnList, Served, NoBusPreexists;
    TypesDrawn(slots, types, storage, i);
    NoneOnList(slots, storage, i);
    BusesServed(slots, types, storage, i);
  }

  /** On a host, a unit is taken exactly when an earlier block has it. */
  lemma {:induction false} HostOccupied(slots: Slots, storage: seq<Block>, i: nat, b: Bus, unit: int)
    requires i <= |storage| && Host(slots, storage, i, b)
    requires Usable(slots[FindByBus(slots, b.kind, b.number).value].role.model, unit)
    requires forall j :: 0 <= j < i && Parse(storage[j].controllerUnit).Some? ==>
            Taken(slots, Parse(storage[j].controllerUnit).value)
    ensures Occupied(slots, slots[FindByBus(slots, b.kind, b.number).value], unit) <==> FromBlock(storage, i, b, unit)
  {
    hide Parse, FindByBus, WellPlaced;
    var c := slots[FindByBus(slots, b.kind, b.number).value];
    if FromBlock(storage, i, b, unit) {
      var j :| 0 <= j < i && BusOf(storage[j].controllerUnit) == Some(b)
        && Parse(storage[j].controllerUnit).value.unit == unit;
      assert Taken(slots, Parse(storage[j].controllerUnit).value);
    }
  }

  /** A block on a bus referenced before: it fits unless its address is used. */
  lemma {:induction false} JoinSucceedsIff(st: State, types: seq<ControllerType>, storage: seq<Block>, i: nat,
                                           a: Address, b: Bus)
    requires i < |storage| && Parse(storage[i].controllerUnit) == Some(a) && b == Bus(a.kind, a.bus)
    requires storage[i].controllerUnit !in st.pending && Host(st.slots, storage, i, b)
    requires Usable(st.slots[FindByBus(st.slots, b.kind, b.number).value].role.model, a.unit)
    requires forall j :: 0 <= j < i && Parse(storage[j].controllerUnit).Some? ==>
                           Taken(st.slots, Parse(storage[j].controllerUnit).value)
    ensures ExplicitStep(st, types, storage[i], i).Success? <==> !FromBlock(storage, i, b, a.unit)
  {
    HostOccupied(st.slots, storage, i, b, a.unit);
    HostKeyIsNew(st.slots, storage, i, b);
    var c := st.slots[FindByBus(st.slots, b.kind, b.number).value];
    HostHasRoom(st.slots, storage, i, b, a.unit);
    hide Parse, FindByBus, Host, FromBlock, Occupied, RoomForDisk;
  }

  lemma HostHasRoom(slots: Slots, storage: seq<Block>, i: nat, b: Bus, unit: nat)
    requires i <= |storage| && Host(slots, storage, i, b)
    ensures var c := slots[FindByBus(slots, b.kind, b.number).value];
            UnitAdmitted(slots, c, unit) ==> RoomForDisk(slots, c)
  {
    hide FindByBus, WellPlaced, UnitAdmitted, RoomForDisk;
    var c := slots[FindByBus(slots, b.kind, b.number).value];
    if UnitAdmitted(slots, c, unit) {
      AdmittedUnitHasRoom(slots, c, unit);
    }
  }

  /** A block on a new bus: it fits exactly when the next controller can be made for that bus. */
  lemma {:induction false} OpenSucceedsIff(slots: Slots, st: State, types: seq<ControllerType>, storage: seq<Block>,
                                           i: nat, a: Address, b: Bus, order: seq<Bus>)
    requires i < |storage| && Parse(storage[i].controllerUnit) == Some(a) && b == Bus(a.kind, a.bus)
    requires storage[i].controllerUnit !in st.pending && Linked(st.slots) && st.typeIndex == |order|
    requires |order| < |types| ==> !types[|order|].Unlisted? && KindForType(types[|order|]) == a.kind
    requires forall b: Bus :: OnList(st.slots, b.kind, b.number) <==> OnList(slots, b.kind, b.number) || b in order
    requires CountKind(st.slots, a.kind) == CountKind(slots, a.kind) + KindCount(order, a.kind)
    requires !OnList(slots, b.kind, b.number) && b !in order
    ensures ExplicitStep(st, types, storage[i], i).Success? <==> Opens(slots, types, order, b)
  {
    FoundIsOnList(st.slots, a.kind, a.bus);
    LowestFree(st.slots, a.kind, 0, a.bus);
    forall n: nat
      ensures OnList(st.slots, a.kind, n) <==> OnList(slots, b.kind, n) || Bus(b.kind, n) in order
    {
      assert Bus(a.kind, n).kind == a.kind;
    }
    hide Parse, OnList, FreeBusFrom, CountKind, KindCount, FindByBus;
    if Opens(slots, types, order, b) {
      StepOpens(st, types, storage[i], i);
    }
    if ExplicitStep(st, types, storage[i], i).Success? {
      StepNeeds(st, types, storage[i], i, a);
    }
  }

  lemma StepNeeds(st: State, types: seq<ControllerType>, block: Block, i: nat, a: Address)
    requires ExplicitStep(st, types, block, i).Success? && Parse(block.controllerUnit) == Some(a)
    requires FindByBus(st.slots, a.kind, a.bus).None?
    ensures st.typeIndex < |types| && CountKind(st.slots, KindForType(types[st.typeIndex])) < MAX_CONTROLLERS_PER_TYPE
    ensures FreeBusFrom(st.slots, KindForType(types[st.typeIndex]), 0) == a.bus
  {
    hide Parse, CountKind, FreeBusFrom, FindByBus;
  }

  // ----- the whole run -----

  lemma {:induction false} AddressUsed(storage: seq<Block>, i: nat, a: Address)
    requires i <= |storage|
    ensures (exists j :: 0 <= j < i && Parse(storage[j].controllerUnit) == Some(a)) <==>
              FromBlock(storage, i, Bus(a.kind, a.bus), a.unit)
    ensures FromBlock(storage, i, Bus(a.kind, a.bus), a.unit) ==> Bus(a.kind, a.bus) in BusOrder(storage, i)
  {
    hide Parse;
    var b := Bus(a.kind, a.bus);
    if FromBlock(storage, i, b, a.unit) {
      var j :| 0 <= j < i && BusOf(storage[j].controllerUnit) == Some(b)
        && Parse(storage[j].controllerUnit).value.unit == a.unit;
      BusIsOrdered(storage, i, j);
    }
  }

  lemma {:induction false} EarlierTaken(slots: Slots, storage: seq<Block>, i: nat, st: State)
    requires i <= |storage| && Kept(slots, storage, i, st)
    ensures forall j :: 0 <= j < i && Parse(storage[j].controllerUnit).Some? ==>
            Taken(st.slots, Parse(storage[j].controllerUnit).value)
    ensures WellKeyed(st.slots)
    ensures forall kind :: CountKind(st.slots, kind) == CountKind(slots, kind) + KindCount(BusOrder(storage, i), kind)
    ensures forall b :: b in BusOrder(storage, i) ==> Host(st.slots, storage, i, b)
    ensures forall raw :: raw in st.pending <==> exists j :: 0 <= j < i && storage[j].controllerUnit == raw
  {
    hide Parse, Taken, CountKind, KindCount, Host, WellKeyed;
  }

  /** Given the blocks before it, a block succeeds exactly when it fits. */
  lemma {:induction false} StepFits(slots: Slots, types: seq<ControllerType>, storage: seq<Block>, i: nat)
    requires i < |storage| && AllExplicit(storage) && NoBusPreexists(slots, storage)
            && PrepareErrors(types, storage) == []
    requires Before(slots, types, storage, i).Success?
            && Kept(slots, storage, i, Before(slots, types, storage, i).value)
    ensures ExplicitStep(Before(slots, types, storage, i).value, types, storage[i], i).Success?
            <==> Fits(slots, types, storage, i)
  {
    hide Parse, Before, ExplicitStep, StaticIndex, BusOrder, FromBlock, Opens, CountKind, KindCount, OnList,
         PrepareErrors, NoBusPreexists,
         Host, Usable, Taken, Kept, FindByBus, WellKeyed;
    var st, order := Before(slots, types, storage, i).value, BusOrder(storage, i);
    AcceptedBlock(slots, types, storage, i);
    RunBefore(slots, types, storage, i);
    EarlierTaken(slots, storage, i, st);
    var a := Parse(storage[i].controllerUnit).value;
    var b := Bus(a.kind, a.bus);
    AddressUsed(storage, i, a);
    if b in order {
      JoinSucceedsIff(st, types, storage, i, a, b);
    } else {
      KeyedIsLinked(st.slots);
      OpenSucceedsIff(slots, st, types, storage, i, a, b, order);
    }
  }

  lemma KeyedIsLinked(slots: Slots)
    requires WellKeyed(slots)
    ensures Linked(slots) && DistinctKeys(slots)
  {
  }

  /** Serving a block keeps the account. */
  lemma {:induction false} KeptNext(slots: Slots, types: seq<ControllerType>, storage: seq<Block>, i: nat)
    requires i < |storage| && AllExplicit(storage) && NoBusPreexists(slots, storage)
            && PrepareErrors(types, storage) == []
    requires Before(slots, types, storage, i).Success?
            && Kept(slots, storage, i, Before(slots, types, storage, i).value)
    requires ExplicitStep(Before(slots, types, storage, i).value, types, storage[i], i).Success?
    ensures Kept(slots, storage, i + 1,
                 ExplicitStep(Before(slots, types, storage, i).value, types, storage[i], i).value)
  {
    hide Parse, Before, StaticIndex, FromBlock, OnList, PrepareErrors, NoBusPreexists, ExplicitStep,
         Host, Usable, Taken, FindByBus, AllHosts, WellKeyed, BusOrder, PendingTaken;
    var st := Before(slots, types, storage, i).value;
    ExplicitStepKeeps(st, types, storage[i], i);
    StepKeepsPendingTaken(st, types, storage[i], i);
    StepMarks(st, types, storage[i], i);
    KindsCounted(slots, types, storage, i);
    HostsKept(slots, types, storage, i);
  }

  lemma {:induction false} DiskCounted(slots: Slots, now: Slots, order: seq<Bus>, disk: Slot)
    requires Counted(slots, now, order) && disk.role.Disk?
    ensures Counted(slots, now + [disk], order)
  {
    hide CountKind;
    AppendedCounts(now, disk);
  }

  lemma {:induction false} ControllerCounted(slots: Slots, now: Slots, order: seq<Bus>, c: Slot, b: Bus)
    requires Counted(slots, now, order) && IsBus(c, b.kind, b.number)
    ensures Counted(slots, now + [c], order + [b])
  {
    hide CountKind;
    AppendedCounts(now, c);
    assert (order + [b])[..|order|] == order;
  }

  lemma {:induction false} KindsCounted(slots: Slots, types: seq<ControllerType>, storage: seq<Block>, i: nat)
    requires i < |storage| && AllExplicit(storage) && NoBusPreexists(slots, storage)
            && PrepareErrors(types, storage) == []
    requires Before(slots, types, storage, i).Success?
            && Kept(slots, storage, i, Before(slots, types, storage, i).value)
    requires ExplicitStep(Before(slots, types, storage, i).value, types, storage[i], i).Success?
    ensures Counted(slots, ExplicitStep(Before(slots, types, storage, i).value, types, storage[i], i).value.slots,
                    BusOrder(storage, i + 1))
  {
    var st, order := Before(slots, types, storage, i).value, BusOrder(storage, i);
    assert Counted(slots, st.slots, order);
    hide *;
    AcceptedBlock(slots, types, storage, i);
    RunBefore(slots, types, storage, i);
    StepAppends(st, types, storage[i], i);
    var a, next := Parse(storage[i].controllerUnit).value, ExplicitStep(st, types, storage[i], i).value.slots;
    var b := Bus(a.kind, a.bus);
    FoundIsOnList(st.slots, a.kind, a.bus);
    assert OnList(st.slots, b.kind, b.number) <==> b in order;
    if b in order {
      DiskCounted(slots, st.slots, order, next[|next| - 1]);
    } else {
      ControllerCounted(slots, st.slots, order, next[|st.slots|], b);
      DiskCounted(slots, st.slots + [next[|st.slots|]], order + [b], next[|next| - 1]);
    }
  }

  /** A unit a new controller offers is free on it. */
  lemma FreshUnitIsFree(slots: Slots, c: Slot, unit: int)
    requires c.role.Controller? && Linked(slots) && c.key == NewKey(slots) && c.controllerKey == 0
    requires OnOwnUnit(c) && Usable(c.role.model, unit)
    ensures !Occupied(slots + [c], c, unit)
  {
  }

  lemma {:induction false} HostsKept(slots: Slots, types: seq<ControllerType>, storage: seq<Block>, i: nat)
    requires i < |storage| && AllExplicit(storage) && NoBusPreexists(slots, storage)
            && PrepareErrors(types, storage) == []
    requires Before(slots, types, storage, i).Success?
            && Kept(slots, storage, i, Before(slots, types, storage, i).value)
    requires ExplicitStep(Before(slots, types, storage, i).value, types, storage[i], i).Success?
    ensures AllHosts(ExplicitStep(Before(slots, types, storage, i).value, types, storage[i], i).value.slots, storage, i
                     + 1,
                     BusOrder(storage, i + 1))
  {
    hide Parse, Before, StaticIndex, OnList, PrepareErrors, NoBusPreexists, ExplicitStep, Usable, FindByBus, BusOrder,
         CountKind,
         Kept, Host, WellKeyed, Occupied, NewKey, Taken, KindCount;
    var st, order := Before(slots, types, storage, i).value, BusOrder(storage, i);
    EarlierTaken(slots, storage, i, st);
    AcceptedBlock(slots, types, storage, i);
    RunBefore(slots, types, storage, i);
    StepShape(st, types, storage[i], i);
    KeyedIsLinked(st.slots);
    var a, next := Parse(storage[i].controllerUnit).value, ExplicitStep(st, types, storage[i], i).value.slots;
    var b := Bus(a.kind, a.bus);
    FoundIsOnList(st.slots, a.kind, a.bus);
    assert OnList(st.slots, b.kind, b.number) <==> b in order;
    if b in order {
      HostKeyIsNew(st.slots, storage, i, b);
      DiskJoinsHost(st.slots, storage, i, order, b, next[|st.slots|]);
    } else {
      var c := next[|st.slots|];
      var more := st.slots + [c];
      ControllerHosts(st.slots, storage, i, order, c, b);
      ControllerFound(st.slots, c, b);
      FreshUnitIsFree(st.slots, c, a.unit);
      AppendKeepsKeys(st.slots, c);
      KeyedIsLinked(more);
      DiskJoinsHost(more, storage, i, order + [b], b, next[|more|]);
    }
  }

  lemma {:induction false} KeptStart(slots: Slots, storage: seq<Block>)
    requires WellKeyed(slots)
    ensures Kept(slots, storage, 0, Init(slots))
  {
  }

  lemma {:induction false} KeptBefore(slots: Slots, types: seq<ControllerType>, storage: seq<Block>, i: nat)
    requires i <= |storage| && AllExplicit(storage) && NoBusPreexists(slots, storage)
            && PrepareErrors(types, storage) == []
    requires WellKeyed(slots) && Before(slots, types, storage, i).Success?
    ensures Kept(slots, storage, i, Before(slots, types, storage, i).value)
  {
    hide *;
    BeforeStep(slots, types, storage, i);
    if i == 0 {
      KeptStart(slots, storage);
    } else {
      KeptBefore(slots, types, storage, i - 1);
      KeptNext(slots, types, storage, i - 1);
    }
  }

  lemma {:induction false} BeforeSucceedsIff(slots: Slots, types: seq<ControllerType>, storage: seq<Block>, i: nat)
    requires i <= |storage| && AllExplicit(storage) && NoBusPreexists(slots, storage)
            && PrepareErrors(types, storage) == []
    requires WellKeyed(slots)
    ensures Before(slots, types, storage, i).Success? <==> forall j :: 0 <= j < i ==> Fits(slots, types, storage, j)
  {
    hide *;
    BeforeStep(slots, types, storage, i);
    if i > 0 {
      BeforeSucceedsIff(slots, types, storage, i - 1);
      if Before(slots, types, storage, i - 1).Success? {
        KeptBefore(slots, types, storage, i - 1);
        StepFits(slots, types, storage, i - 1);
      }
    }
  }

  /**
   An accepted configuration of explicit blocks whose buses are all new runs through
   exactly when every block fits: no address is used twice, however spelled, the
   pool covers the distinct buses, no kind exceeds four controllers, and buses come
   in the order in which the library numbers new controllers.
   */
  lemma {:induction false} AcceptedRunSucceedsIff(slots: Slots, types: seq<ControllerType>, storage: seq<Block>,
                                                  aggregate: bool)
    requires AllExplicit(storage) && NoBusPreexists(slots, storage) && PrepareErrors(types, storage) == []
    requires WellKeyed(slots) && (aggregate ==> WithinLimits(slots))
    ensures Run(slots, types, storage, aggregate).Success? <==>
              forall i :: 0 <= i < |storage| ==> Fits(slots, types, storage, i)
  {
    hide *;
    if aggregate {
      AggregateIsImplied(slots, types, storage);
    }
    RunIsBefore(slots, types, storage);
    BeforeSucceedsIff(slots, types, storage, |storage|);
  }

  lemma {:induction false} SecondBusAccepted(storage: seq<Block>)
    requires storage == [ExplicitBlock(Address(SCSI, 1, 1))]
    ensures AllExplicit(storage) && PrepareErrors([LsiLogic], storage) == []
    ensures Parse(storage[0].controllerUnit) == Some(Address(SCSI, 1, 1))
  {
    ExplicitBlockParses(Address(SCSI, 1, 1));
    hide Parse, Print, StaticIndex, PrepareErrors;
    FirstIndexIsZero([LsiLogic], storage);
    AcceptedIff([LsiLogic], storage);
    assert StaticUnitOk(storage[0].controllerUnit, [LsiLogic], 0);
    assert CleanBlock([LsiLogic], storage, 0);
  }

  /**
   Accepted, yet it cannot run: "scsi1:1" alone on an empty list, since the first
   controller made is on bus 0.
   */
  lemma {:induction false} AcceptedButFails(storage: seq<Block>)
    requires storage == [ExplicitBlock(Address(SCSI, 1, 1))]
    ensures PrepareErrors([LsiLogic], storage) == [] && Run([], [LsiLogic], storage, false).Failure?
  {
    SecondBusAccepted(storage);
    EmptyListIsSound();
    hide Parse, ExplicitBlock, PrepareErrors, Run, WellKeyed;
    AcceptedRunSucceedsIff([], [LsiLogic], storage, false);
    assert !OnList([], SCSI, 0) && BusOrder(storage, 0) == [];
    assert !Opens([], [LsiLogic], [], Bus(SCSI, 1));
    assert !Fits([], [LsiLogic], storage, 0);
  }
}
