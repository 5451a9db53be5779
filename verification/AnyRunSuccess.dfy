/**
 When a run succeeds, for any mix of blocks and any device list whose keys identify
 its devices: block by block, judged by the list and the configuration.
 */
module AnyRunSuccess {
  import opened Wrappers
  import opened ControllerAddress
  import opened DeviceList
  import opened UnitCapacity
  import opened Allocator
  import opened AllocatorOrder
  import opened AllocatorSafety
  import opened StoragePrepare
  import opened Lockstep
  import opened RunSuccess

  // ----- judging an explicit block -----

  predicate Has(slots: Slots, b: Bus) {
    FindByBus(slots, b.kind, b.number).Some?
  }

  /** The buses that the first n blocks open, in the order of first use. */
  function OpenedBefore(slots: Slots, storage: seq<Block>, n: nat): (made: seq<Bus>)
    requires n <= |storage|
    ensures forall b :: b in made ==> !Has(slots, b)
  {
    if n == 0 then []
    else
      var made, bus := OpenedBefore(slots, storage, n - 1), BusOf(storage[n - 1].controllerUnit);
      if bus.Some? && !Has(slots, bus.value) && bus.value !in made then made + [bus.value] else made
  }

  /** How many of the first n blocks are on the bus. */
  function BlocksOn(storage: seq<Block>, n: nat, b: Bus): nat
    requires n <= |storage|
  {
    if n == 0 then 0
    else BlocksOn(storage, n - 1, b) + (if BusOf(storage[n - 1].controllerUnit) == Some(b) then 1 else 0)
  }

  /** Every lower bus of the kind is given or made. */
  ghost predicate IsLowest(slots: Slots, made: seq<Bus>, b: Bus) {
    forall n: nat :: n < b.number ==> Has(slots, Bus(b.kind, n)) || Bus(b.kind, n) in made
  }

  predicate KnownType(t: ControllerType) {
    !(t.Unlisted? && !t.known)
  }

  /** The pool has an entry there, and it makes a controller of the kind. */
  predicate NextMakes(types: seq<ControllerType>, at: nat, kind: Kind) {
    at < |types| && KnownType(types[at]) && KindForType(types[at]) == kind
  }

  /** The next pool entry makes a controller for the bus. */
  ghost predicate CanOpen(slots: Slots, drawn: nat, types: seq<ControllerType>, made: seq<Bus>, b: Bus) {
    && NextMakes(types, drawn + |made|, b.kind)
    && CountKind(slots, b.kind) + KindCount(made, b.kind) < MAX_CONTROLLERS_PER_TYPE
    && IsLowest(slots, made, b)
  }

  /** There is room at the unit of a controller the list has, for the disk and those of n earlier blocks. */
  predicate JoinsGiven(slots: Slots, c: Slot, unit: nat, n: nat)
    requires c.role.Controller?
  {
    UnitAdmitted(slots, c, unit) && CountDisksOn(slots, c.key) + n + 1 <= MaxDisks(c.role.model)
  }

  /** There is room at the unit of a controller made by this run. */
  predicate JoinsMade(model: Model, unit: nat, n: nat) {
    unit <= MaxUnit(model) && !Reserved(model, unit) && n + 1 <= MaxDisks(model)
  }

  /**
   Explicit block i succeeds when the blocks before it do: its address parses, no
   earlier block has it, and its controller, given, made by this run or still to be
   made, takes the disk. `drawn` pool entries are used up before the first block.
   */
  ghost predicate Takes(slots: Slots, drawn: nat, types: seq<ControllerType>, storage: seq<Block>, i: nat)
    requires i < |storage|
  {
    var address, made := Parse(storage[i].controllerUnit), OpenedBefore(slots, storage, i);
    && address.Some?
    && (forall j :: 0 <= j < i ==> Parse(storage[j].controllerUnit) != address)
    && var b, unit := Bus(address.value.kind, address.value.bus), address.value.unit;
       var n := BlocksOn(storage, i, b);
       if Has(slots, b) then JoinsGiven(slots, slots[FindByBus(slots, b.kind, b.number).value], unit, n)
       else if b in made then
         drawn + IndexOf(b, made) < |types| && JoinsMade(ModelForType(types[drawn + IndexOf(b, made)]), unit, n)
       else CanOpen(slots, drawn, types, made, b)
  }

  // ----- what the run keeps -----

  ghost predicate ChildAt(slots: Slots, key: int, unit: int) {
    exists k :: 0 <= k < |slots| && slots[k].controllerKey == key && slots[k].unit == Some(unit)
  }

  ghost predicate NothingOn(slots: Slots, key: int) {
    forall k :: 0 <= k < |slots| ==> slots[k].controllerKey != key
  }

  /** A bus's controller carries what it was given with and the disks of the blocks on the bus. */
  ghost predicate Carries(slots: Slots, drawn: nat, types: seq<ControllerType>, storage: seq<Block>, n: nat,
                          made: seq<Bus>, now: Slots, b: Bus)
    requires n <= |storage|
  {
    && Has(now, b)
    && var c := now[FindByBus(now, b.kind, b.number).value];
       && (forall u: int :: ChildAt(now, c.key, u) <==> ChildAt(slots, c.key, u) || FromBlock(storage, n, b, u))
       && CountDisksOn(now, c.key) == CountDisksOn(slots, c.key) + BlocksOn(storage, n, b)
       && if Has(slots, b) then FindByBus(now, b.kind, b.number) == FindByBus(slots, b.kind, b.number)
          else
            && b in made && drawn + IndexOf(b, made) < |types|
            && c.role.model == ModelForType(types[drawn + IndexOf(b, made)])
            && OnOwnUnit(c) && NothingOn(slots, c.key)
  }

  ghost predicate AllCarry(slots: Slots, drawn: nat, types: seq<ControllerType>, storage: seq<Block>, n: nat,
                           made: seq<Bus>, now: Slots)
    requires n <= |storage|
  {
    && (forall b: Bus :: Has(now, b) <==> Has(slots, b) || b in made)
    && forall b: Bus :: Has(now, b) ==> Carries(slots, drawn, types, storage, n, made, now, b)
  }

  /** The state when the first n blocks have been served. */
  ghost predicate Holds(slots: Slots, drawn: nat, types: seq<ControllerType>, storage: seq<Block>, n: nat, st: State)
    requires n <= |storage|
  {
    var made := OpenedBefore(slots, storage, n);
    && WellKeyed(st.slots) && slots <= st.slots
    && st.typeIndex == drawn + |made| && Counted(slots, st.slots, made)
    && (forall raw :: raw in st.pending ==> exists j :: 0 <= j < n && storage[j].controllerUnit == raw)
    && AllCarry(slots, drawn, types, storage, n, made, st.slots)
  }

  // ----- appending devices -----

  lemma {:induction false} ChildAppended(slots: Slots, x: Slot, key: int, unit: int)
    ensures ChildAt(slots + [x], key, unit)
            <==> ChildAt(slots, key, unit) || (x.controllerKey == key && x.unit == Some(unit))
  {
    var more := slots + [x];
    if ChildAt(slots, key, unit) {
      var k :| 0 <= k < |slots| && slots[k].controllerKey == key && slots[k].unit == Some(unit);
      assert more[k] == slots[k];
    }
    if x.controllerKey == key && x.unit == Some(unit) {
      assert more[|slots|] == x;
    }
  }

  lemma {:induction false} HasAppended(slots: Slots, x: Slot, b: Bus)
    ensures Has(slots + [x], b) <==> Has(slots, b) || IsBus(x, b.kind, b.number)
    ensures Has(slots, b) ==> FindByBus(slots + [x], b.kind, b.number) == FindByBus(slots, b.kind, b.number)
    ensures !Has(slots, b) && IsBus(x, b.kind, b.number) ==> FindByBus(slots + [x], b.kind, b.number) == Some(|slots|)
  {
    assert (slots + [x])[..|slots|] == slots;
  }

  /** A device that is neither a disk nor at a unit, of no new bus, changes nothing for a controller. */
  lemma {:induction false} CarriesPast(slots: Slots, drawn: nat, types: seq<ControllerType>, storage: seq<Block>,
                                       n: nat, made: seq<Bus>, now: Slots, b: Bus, c: Slot, b': Bus)
    requires n <= |storage| && Carries(slots, drawn, types, storage, n, made, now, b)
    requires c.role.Controller? && c.unit == None && b' !in made
    ensures Carries(slots, drawn, types, storage, n, made + [b'], now + [c], b)
  {
    HasAppended(now, c, b);
    AppendedCounts(now, c);
    var host := now[FindByBus(now, b.kind, b.number).value];
    forall u: int
      ensures ChildAt(now + [c], host.key, u) <==> ChildAt(now, host.key, u)
    {
      ChildAppended(now, c, host.key, u);
    }
    if !Has(slots, b) {
      IndexOfAppend(b, made, [b']);
    }
  }

  /** A controller just made carries nothing. */
  lemma {:induction false} MadeCarries(slots: Slots, drawn: nat, types: seq<ControllerType>, storage: seq<Block>,
                                       n: nat, made: seq<Bus>, now: Slots, c: Slot, b: Bus)
    requires n <= |storage| && slots <= now && Linked(now) && c.key == NewKey(now) && c.controllerKey == 0
            && c.unit == None
    requires !Has(now, b) && !Has(slots, b) && b !in made && IsBus(c, b.kind, b.number) && OnOwnUnit(c)
    requires drawn + |made| < |types| && c.role.model == ModelForType(types[drawn + |made|])
    requires BlocksOn(storage, n, b) == 0 && forall u: int :: !FromBlock(storage, n, b, u)
    ensures Carries(slots, drawn, types, storage, n, made + [b], now + [c], b)
  {
    hide FromBlock;
    HasAppended(now, c, b);
    IndexOfLast(b, made);
    var more := now + [c];
    assert NothingOn(more, c.key) && NothingOn(slots, c.key) by {
      assert forall k :: 0 <= k < |slots| ==> slots[k] == now[k];
    }
    NothingOnUnusedKey(more, c.key);
    NothingOnUnusedKey(slots, c.key);
  }

  /** The disk of block n joins its controller. */
  lemma {:induction false} DiskCarried(slots: Slots, drawn: nat, types: seq<ControllerType>, storage: seq<Block>,
                                       n: nat, made: seq<Bus>, now: Slots, b: Bus, disk: Slot)
    requires n < |storage| && Carries(slots, drawn, types, storage, n, made, now, b)
    requires BusOf(storage[n].controllerUnit) == Some(b) && disk.role.Disk?
    requires disk.controllerKey == now[FindByBus(now, b.kind, b.number).value].key
    requires disk.unit == Some(Parse(storage[n].controllerUnit).value.unit)
    ensures Carries(slots, drawn, types, storage, n + 1, made, now + [disk], b)
  {
    hide Parse, BusOf;
    HasAppended(now, disk, b);
    AppendedCounts(now, disk);
    var host := now[FindByBus(now, b.kind, b.number).value];
    forall u: int
      ensures ChildAt(now + [disk], host.key, u) <==> ChildAt(slots, host.key, u) || FromBlock(storage, n + 1, b, u)
    {
      ChildAppended(now, disk, host.key, u);
      OneMoreBlock(storage, n, b, u);
    }
  }

  lemma OneMoreBlock(storage: seq<Block>, n: nat, b: Bus, u: int)
    requires n < |storage|
    ensures FromBlock(storage, n + 1, b, u) <==>
              FromBlock(storage, n, b, u)
              || (BusOf(storage[n].controllerUnit) == Some(b) && Parse(storage[n].controllerUnit).value.unit == u)
  {
    hide Parse;
  }

  /** A disk on another controller, of a block on another bus, changes nothing. */
  lemma {:induction false} DiskElsewhere(slots: Slots, drawn: nat, types: seq<ControllerType>, storage: seq<Block>,
                                         n: nat, made: seq<Bus>, now: Slots, b: Bus, disk: Slot)
    requires n < |storage| && Carries(slots, drawn, types, storage, n, made, now, b)
    requires BusOf(storage[n].controllerUnit) != Some(b) && disk.role.Disk?
    requires disk.controllerKey != now[FindByBus(now, b.kind, b.number).value].key
    ensures Carries(slots, drawn, types, storage, n + 1, made, now + [disk], b)
  {
    hide Parse, BusOf;
    HasAppended(now, disk, b);
    AppendedCounts(now, disk);
    var host := now[FindByBus(now, b.kind, b.number).value];
    forall u: int
      ensures ChildAt(now + [disk], host.key, u) <==> ChildAt(slots, host.key, u) || FromBlock(storage, n + 1, b, u)
    {
      ChildAppended(now, disk, host.key, u);
      OneMoreBlock(storage, n, b, u);
    }
  }

  lemma {:induction false} DiskJoins(slots: Slots, drawn: nat, types: seq<ControllerType>, storage: seq<Block>, n: nat,
                                     made: seq<Bus>, now: Slots, b: Bus, disk: Slot)
    requires n < |storage| && AllCarry(slots, drawn, types, storage, n, made, now) && DistinctKeys(now) && Has(now, b)
    requires BusOf(storage[n].controllerUnit) == Some(b) && disk.role.Disk?
    requires disk.controllerKey == now[FindByBus(now, b.kind, b.number).value].key
    requires disk.unit == Some(Parse(storage[n].controllerUnit).value.unit)
    ensures AllCarry(slots, drawn, types, storage, n + 1, made, now + [disk])
  {
    hide Parse, BusOf, Carries, DistinctKeys, FindByBus;
    forall b': Bus
      ensures Has(now + [disk], b') <==> Has(now, b')
    {
      HasAppended(now, disk, b');
    }
    forall b': Bus | Has(now + [disk], b')
      ensures Carries(slots, drawn, types, storage, n + 1, made, now + [disk], b')
    {
      if b' == b {
        DiskCarried(slots, drawn, types, storage, n, made, now, b, disk);
      } else {
        OtherHostsKey(now, b, b');
        DiskElsewhere(slots, drawn, types, storage, n, made, now, b', disk);
      }
    }
  }

  lemma {:induction false} ControllerJoins(slots: Slots, drawn: nat, types: seq<ControllerType>, storage: seq<Block>,
                                           n: nat, made: seq<Bus>, now: Slots, c: Slot, b: Bus)
    requires n <= |storage| && AllCarry(slots, drawn, types, storage, n, made, now)
    requires slots <= now && Linked(now) && c.key == NewKey(now) && c.controllerKey == 0 && c.unit == None
    requires !Has(now, b) && IsBus(c, b.kind, b.number) && OnOwnUnit(c)
    requires drawn + |made| < |types| && c.role.model == ModelForType(types[drawn + |made|])
    requires BlocksOn(storage, n, b) == 0 && forall u: int :: !FromBlock(storage, n, b, u)
    ensures AllCarry(slots, drawn, types, storage, n, made + [b], now + [c])
  {
    MadeCarries(slots, drawn, types, storage, n, made, now, c, b);
    hide Carries, FindByBus, FromBlock, Linked, NewKey;
    forall b': Bus
      ensures Has(now + [c], b') <==> Has(now, b') || b' == b
    {
      HasAppended(now, c, b');
      OneBus(c, b, b');
    }
    forall b': Bus | Has(now + [c], b')
      ensures Carries(slots, drawn, types, storage, n, made + [b], now + [c], b')
    {
      if b' != b {
        CarriesPast(slots, drawn, types, storage, n, made, now, b', c, b);
      }
    }
  }

  lemma OneBus(c: Slot, b: Bus, b': Bus)
    requires IsBus(c, b.kind, b.number)
    ensures IsBus(c, b'.kind, b'.number) <==> b' == b
  {
  }

  // ----- one block -----

  lemma {:induction false} NoneBefore(slots: Slots, storage: seq<Block>, n: nat, b: Bus)
    requires n <= |storage| && !Has(slots, b) && b !in OpenedBefore(slots, storage, n)
    ensures BlocksOn(storage, n, b) == 0 && forall u: int :: !FromBlock(storage, n, b, u)
  {
    hide BusOf, Parse, Has;
    if n > 0 {
      NoneBefore(slots, storage, n - 1, b);
      assert BusOf(storage[n - 1].controllerUnit) != Some(b);
      forall u: int
        ensures !FromBlock(storage, n, b, u)
      {
        OneMoreBlock(storage, n - 1, b, u);
      }
    }
  }

  lemma {:induction false} AddressFree(storage: seq<Block>, i: nat, a: Address)
    requires i <= |storage|
    ensures (forall j :: 0 <= j < i ==> Parse(storage[j].controllerUnit) != Some(a)) <==>
              !FromBlock(storage, i, Bus(a.kind, a.bus), a.unit)
  {
    AddressUsed(storage, i, a);
  }

  lemma OccupiedIs(slots: Slots, c: Slot, unit: int)
    requires c.role.Controller?
    ensures Occupied(slots, c, unit)
            <==> (c.role.model.ScsiModel? && unit == c.role.ownUnit) || ChildAt(slots, c.key, unit)
  {
  }

  /** The facts one controller brings: its own place, and what Carries says of it. */
  lemma {:induction false} HostIs(slots: Slots, drawn: nat, types: seq<ControllerType>, storage: seq<Block>, n: nat,
                                  made: seq<Bus>, now: Slots, b: Bus)
    requires n <= |storage| && slots <= now && Carries(slots, drawn, types, storage, n, made, now, b)
    ensures var c := now[FindByBus(now, b.kind, b.number).value];
            && Has(now, b) && c.role.Controller?
            && (forall u: int :: ChildAt(now, c.key, u) <==> ChildAt(slots, c.key, u) || FromBlock(storage, n, b, u))
            && CountDisksOn(now, c.key) == CountDisksOn(slots, c.key) + BlocksOn(storage, n, b)
            && if Has(slots, b) then c == slots[FindByBus(slots, b.kind, b.number).value]
               else
                 && b in made && drawn + IndexOf(b, made) < |types| && OnOwnUnit(c)
                 && c.role.model == ModelForType(types[drawn + IndexOf(b, made)])
                 && CountDisksOn(slots, c.key) == 0 && forall u: int :: !ChildAt(slots, c.key, u)
  {
    var c := now[FindByBus(now, b.kind, b.number).value];
    hide FromBlock, BlocksOn, IndexOf, FindByBus;
    if !Has(slots, b) {
      NothingOnUnusedKey(slots, c.key);
    }
  }

  /** Joining a controller: the disk finds room exactly when the account says so. */
  lemma {:induction false} JoinIff(slots: Slots, drawn: nat, types: seq<ControllerType>, storage: seq<Block>, n: nat,
                                   made: seq<Bus>, now: Slots, b: Bus, unit: nat)
    requires n <= |storage| && slots <= now && Carries(slots, drawn, types, storage, n, made, now, b)
    ensures Has(now, b)
    ensures var c := now[FindByBus(now, b.kind, b.number).value];
            && c.role.Controller?
            && (UnitAdmitted(now, c, unit) && RoomForDisk(now, c) <==>
                  && !FromBlock(storage, n, b, unit)
                  && if Has(slots, b) then
                       JoinsGiven(slots, slots[FindByBus(slots, b.kind, b.number).value], unit, BlocksOn(storage, n, b))
                     else
                       && b in made && drawn + IndexOf(b, made) < |types|
                       && JoinsMade(ModelForType(types[drawn + IndexOf(b, made)]), unit, BlocksOn(storage, n, b)))
  {
    HostIs(slots, drawn, types, storage, n, made, now, b);
    var c := now[FindByBus(now, b.kind, b.number).value];
    OccupiedIs(now, c, unit);
    OccupiedIs(slots, c, unit);
    hide FindByBus, ChildAt, FromBlock, BlocksOn, CountDisksOn, Occupied, IndexOf, ModelForType, Carries;
  }

  /** A step on a bus that has a controller. */
  lemma {:induction false} JoinStepIff(st: State, types: seq<ControllerType>, block: Block, i: nat, a: Address)
    requires Parse(block.controllerUnit) == Some(a) && FindByBus(st.slots, a.kind, a.bus).Some?
    ensures var c := st.slots[FindByBus(st.slots, a.kind, a.bus).value];
            ExplicitStep(st, types, block, i).Success? <==>
              block.controllerUnit !in st.pending && UnitAdmitted(st.slots, c, a.unit) && RoomForDisk(st.slots, c)
  {
    hide Parse, FindByBus, UnitAdmitted, RoomForDisk;
  }

  /** A step on a bus that has none. */
  lemma {:induction false} OpenStepIff(st: State, types: seq<ControllerType>, block: Block, i: nat, a: Address)
    requires Parse(block.controllerUnit) == Some(a) && FindByBus(st.slots, a.kind, a.bus).None? && Linked(st.slots)
    ensures ExplicitStep(st, types, block, i).Success? <==>
              && block.controllerUnit !in st.pending && NextMakes(types, st.typeIndex, a.kind)
              && CountKind(st.slots, a.kind) < MAX_CONTROLLERS_PER_TYPE && FreeBusFrom(st.slots, a.kind, 0) == a.bus
  {
    hide Parse, FindByBus, CountKind, FreeBusFrom;
    if st.typeIndex < |types| && CreateController(st.slots, types[st.typeIndex]).Some? {
      var c := CreateController(st.slots, types[st.typeIndex]).value;
      NothingOnUnusedKey(st.slots, c.key);
      AppendedCounts(st.slots, c);
    }
  }

  lemma {:induction false} LowestIs(slots: Slots, made: seq<Bus>, now: Slots, kind: Kind, bus: nat)
    requires forall b: Bus :: Has(now, b) <==> Has(slots, b) || b in made
    requires !Has(now, Bus(kind, bus))
    ensures FreeBusFrom(now, kind, 0) == bus <==> IsLowest(slots, made, Bus(kind, bus))
  {
    LowestFree(now, kind, 0, bus);
    forall n: nat
      ensures OnList(now, kind, n) <==> Has(slots, Bus(kind, n)) || Bus(kind, n) in made
    {
      FoundIsOnList(now, kind, n);
      assert Has(now, Bus(kind, n)) <==> OnList(now, kind, n);
    }
    FoundIsOnList(now, kind, bus);
  }

  lemma HoldsIs(slots: Slots, drawn: nat, types: seq<ControllerType>, storage: seq<Block>, n: nat, st: State)
    requires n <= |storage| && Holds(slots, drawn, types, storage, n, st)
    ensures var made := OpenedBefore(slots, storage, n);
            && WellKeyed(st.slots) && Linked(st.slots) && DistinctKeys(st.slots) && slots <= st.slots
            && st.typeIndex == drawn + |made| && Counted(slots, st.slots, made)
            && (forall kind :: CountKind(st.slots, kind) == CountKind(slots, kind) + KindCount(made, kind))
            && (forall raw :: raw in st.pending ==> exists j :: 0 <= j < n && storage[j].controllerUnit == raw)
            && AllCarry(slots, drawn, types, storage, n, made, st.slots)
            && (forall b: Bus :: Has(st.slots, b) <==> Has(slots, b) || b in made)
            && (forall b: Bus :: Has(st.slots, b) ==> Carries(slots, drawn, types, storage, n, made, st.slots, b))
  {
    hide OpenedBefore, Carries, Has, CountKind, KindCount;
  }

  lemma TakesIs(slots: Slots, drawn: nat, types: seq<ControllerType>, storage: seq<Block>, i: nat, a: Address)
    requires i < |storage| && Parse(storage[i].controllerUnit) == Some(a)
    ensures var b, made := Bus(a.kind, a.bus), OpenedBefore(slots, storage, i);
            var n := BlocksOn(storage, i, b);
            Takes(slots, drawn, types, storage, i) <==>
              && !FromBlock(storage, i, b, a.unit)
              && if Has(slots, b) then JoinsGiven(slots, slots[FindByBus(slots, b.kind, b.number).value], a.unit, n)
                 else if b in made then
                   drawn + IndexOf(b, made) < |types|
                     && JoinsMade(ModelForType(types[drawn + IndexOf(b, made)]), a.unit, n)
                 else CanOpen(slots, drawn, types, made, b)
  {
    AddressFree(storage, i, a);
    hide Parse, OpenedBefore, BlocksOn, FromBlock, JoinsGiven, JoinsMade, CanOpen, IndexOf, FindByBus, ModelForType,
         Has, IsBus;
  }

  /** A raw address already placed is an address already used. */
  lemma PendingIsUsed(st: State, storage: seq<Block>, i: nat, a: Address)
    requires i < |storage| && Parse(storage[i].controllerUnit) == Some(a)
    requires forall raw :: raw in st.pending ==> exists j :: 0 <= j < i && storage[j].controllerUnit == raw
    ensures storage[i].controllerUnit in st.pending ==> FromBlock(storage, i, Bus(a.kind, a.bus), a.unit)
  {
    AddressFree(storage, i, a);
    hide Parse, FromBlock;
  }

  lemma {:induction false} JoinedStepIff(slots: Slots, drawn: nat, types: seq<ControllerType>, storage: seq<Block>,
                                         i: nat, st: State, a: Address)
    requires i < |storage| && Holds(slots, drawn, types, storage, i, st) && Parse(storage[i].controllerUnit) == Some(a)
    requires Has(st.slots, Bus(a.kind, a.bus))
    ensures ExplicitStep(st, types, storage[i], i).Success? <==> Takes(slots, drawn, types, storage, i)
  {
    hide *;
    var b := Bus(a.kind, a.bus);
    HasIs(st.slots, b);
    HoldsIs(slots, drawn, types, storage, i, st);
    TakesIs(slots, drawn, types, storage, i, a);
    PendingIsUsed(st, storage, i, a);
    JoinStepIff(st, types, storage[i], i, a);
    JoinIff(slots, drawn, types, storage, i, OpenedBefore(slots, storage, i), st.slots, b, a.unit);
  }

  lemma CanOpenIs(slots: Slots, drawn: nat, types: seq<ControllerType>, made: seq<Bus>, b: Bus)
    ensures CanOpen(slots, drawn, types, made, b) <==>
              && NextMakes(types, drawn + |made|, b.kind)
              && CountKind(slots, b.kind) + KindCount(made, b.kind) < MAX_CONTROLLERS_PER_TYPE
              && IsLowest(slots, made, b)
  {
  }

  lemma {:induction false} OpenedFacts(slots: Slots, drawn: nat, types: seq<ControllerType>, storage: seq<Block>,
                                       i: nat, st: State, b: Bus)
    requires i <= |storage| && Holds(slots, drawn, types, storage, i, st) && !Has(st.slots, b)
    ensures var made := OpenedBefore(slots, storage, i);
            && Linked(st.slots) && st.typeIndex == drawn + |made| && !Has(slots, b) && b !in made
            && CountKind(st.slots, b.kind) == CountKind(slots, b.kind) + KindCount(made, b.kind)
            && (FreeBusFrom(st.slots, b.kind, 0) == b.number <==> IsLowest(slots, made, b))
  {
    hide *;
    HoldsIs(slots, drawn, types, storage, i, st);
    LowestIs(slots, OpenedBefore(slots, storage, i), st.slots, b.kind, b.number);
  }

  lemma TakesOpening(slots: Slots, drawn: nat, types: seq<ControllerType>, storage: seq<Block>, i: nat, a: Address)
    requires i < |storage| && Parse(storage[i].controllerUnit) == Some(a) && !Has(slots, Bus(a.kind, a.bus))
    requires Bus(a.kind, a.bus) !in OpenedBefore(slots, storage, i)
    ensures Takes(slots, drawn, types, storage, i) <==>
              && !FromBlock(storage, i, Bus(a.kind, a.bus), a.unit)
              && CanOpen(slots, drawn, types, OpenedBefore(slots, storage, i), Bus(a.kind, a.bus))
  {
    hide *;
    TakesIs(slots, drawn, types, storage, i, a);
  }

  lemma {:induction false} OpenedStepIff(slots: Slots, drawn: nat, types: seq<ControllerType>, storage: seq<Block>,
                                         i: nat, st: State, a: Address)
    requires i < |storage| && Holds(slots, drawn, types, storage, i, st) && Parse(storage[i].controllerUnit) == Some(a)
    requires !Has(st.slots, Bus(a.kind, a.bus))
    ensures ExplicitStep(st, types, storage[i], i).Success? <==> Takes(slots, drawn, types, storage, i)
  {
    hide *;
    var b, made := Bus(a.kind, a.bus), OpenedBefore(slots, storage, i);
    HasIs(st.slots, b);
    OpenedFacts(slots, drawn, types, storage, i, st, b);
    assert ExplicitStep(st, types, storage[i], i).Success? <==>
           && NextMakes(types, st.typeIndex, a.kind) && CountKind(st.slots, a.kind) < MAX_CONTROLLERS_PER_TYPE
           && FreeBusFrom(st.slots, a.kind, 0) == a.bus by {
      PendingUnused(slots, drawn, types, storage, i, st, a);
      OpenStepIff(st, types, storage[i], i, a);
    }
    assert Takes(slots, drawn, types, storage, i) <==> CanOpen(slots, drawn, types, made, b) by {
      PendingUnused(slots, drawn, types, storage, i, st, a);
      TakesOpening(slots, drawn, types, storage, i, a);
    }
    CanOpenIs(slots, drawn, types, made, b);
  }

  /** The address of a bus without controller was not used before. */
  lemma {:induction false} PendingUnused(slots: Slots, drawn: nat, types: seq<ControllerType>, storage: seq<Block>,
                                         i: nat, st: State, a: Address)
    requires i < |storage| && Holds(slots, drawn, types, storage, i, st) && Parse(storage[i].controllerUnit) == Some(a)
    requires !Has(st.slots, Bus(a.kind, a.bus))
    ensures storage[i].controllerUnit !in st.pending && !FromBlock(storage, i, Bus(a.kind, a.bus), a.unit)
  {
    hide *;
    HoldsIs(slots, drawn, types, storage, i, st);
    NoneBefore(slots, storage, i, Bus(a.kind, a.bus));
    PendingIsUsed(st, storage, i, a);
  }

  /** An explicit block succeeds exactly when it is taken, given the state before it. */
  lemma {:induction false} StepIff(slots: Slots, drawn: nat, types: seq<ControllerType>, storage: seq<Block>, i: nat,
                                   st: State)
    requires i < |storage| && Holds(slots, drawn, types, storage, i, st)
    ensures ExplicitStep(st, types, storage[i], i).Success? <==> Takes(slots, drawn, types, storage, i)
  {
    UnparsedStepFails(st, types, storage[i], i);
    var raw := storage[i].controllerUnit;
    assert Parse(raw).None? ==> !Takes(slots, drawn, types, storage, i);
    hide *;
    if Parse(raw).Some? {
      var a := Parse(raw).value;
      if Has(st.slots, Bus(a.kind, a.bus)) {
        JoinedStepIff(slots, drawn, types, storage, i, st, a);
      } else {
        OpenedStepIff(slots, drawn, types, storage, i, st, a);
      }
    }
  }

  // ----- keeping the account -----

  lemma OpenedStep(slots: Slots, storage: seq<Block>, n: nat)
    requires n < |storage|
    ensures var made, bus := OpenedBefore(slots, storage, n), BusOf(storage[n].controllerUnit);
            OpenedBefore(slots, storage, n + 1)
            == if bus.Some? && !Has(slots, bus.value) && bus.value !in made then made + [bus.value] else made
  {
    hide BusOf, Has;
  }

  /** A legacy block is passed over. */
  lemma {:induction false} LegacyPassed(slots: Slots, drawn: nat, types: seq<ControllerType>, storage: seq<Block>,
                                        n: nat, st: State)
    requires n < |storage| && storage[n].controllerUnit == "" && Holds(slots, drawn, types, storage, n, st)
    ensures Holds(slots, drawn, types, storage, n + 1, st)
  {
    EmptyUnitHasNoBus();
    OpenedStep(slots, storage, n);
    HoldsIs(slots, drawn, types, storage, n, st);
    var made := OpenedBefore(slots, storage, n);
    forall b: Bus | Has(st.slots, b)
      ensures Carries(slots, drawn, types, storage, n + 1, made, st.slots, b)
    {
      hide Has, OpenedBefore, Parse, BusOf, FindByBus, CountDisksOn, ChildAt;
      assert BlocksOn(storage, n + 1, b) == BlocksOn(storage, n, b);
      forall u: int
        ensures FromBlock(storage, n + 1, b, u) <==> FromBlock(storage, n, b, u)
      {
        OneMoreBlock(storage, n, b, u);
      }
    }
    hide OpenedBefore, Carries, Has;
  }

  lemma {:induction false} JoinedHolds(slots: Slots, drawn: nat, types: seq<ControllerType>, storage: seq<Block>,
                                       n: nat, st: State, a: Address)
    requires n < |storage| && Holds(slots, drawn, types, storage, n, st)
            && ExplicitStep(st, types, storage[n], n).Success?
    requires Parse(storage[n].controllerUnit) == Some(a) && Has(st.slots, Bus(a.kind, a.bus))
    ensures var next, made := ExplicitStep(st, types, storage[n], n).value, OpenedBefore(slots, storage, n + 1);
            && next.typeIndex == drawn + |made| && Counted(slots, next.slots, made)
            && AllCarry(slots, drawn, types, storage, n + 1, made, next.slots)
  {
    hide *;
    var raw, made, next :=
      storage[n].controllerUnit, OpenedBefore(slots, storage, n), ExplicitStep(st, types, storage[n], n).value;
    var b := Bus(a.kind, a.bus);
    StepShape(st, types, storage[n], n);
    StepTracksBuses(st, types, storage[n], n);
    HoldsIs(slots, drawn, types, storage, n, st);
    OpenedStep(slots, storage, n);
    BusIs(raw);
    HasIs(st.slots, b);
    DiskCounted(slots, st.slots, made, next.slots[|st.slots|]);
    DiskJoins(slots, drawn, types, storage, n, made, st.slots, b, next.slots[|st.slots|]);
  }

  lemma {:induction false} OpenedHolds(slots: Slots, drawn: nat, types: seq<ControllerType>, storage: seq<Block>,
                                       n: nat, st: State, a: Address)
    requires n < |storage| && Holds(slots, drawn, types, storage, n, st)
            && ExplicitStep(st, types, storage[n], n).Success?
    requires Parse(storage[n].controllerUnit) == Some(a) && !Has(st.slots, Bus(a.kind, a.bus))
    ensures var next, made := ExplicitStep(st, types, storage[n], n).value, OpenedBefore(slots, storage, n + 1);
            && next.typeIndex == drawn + |made| && Counted(slots, next.slots, made)
            && AllCarry(slots, drawn, types, storage, n + 1, made, next.slots)
  {
    hide *;
    var raw, made, next :=
      storage[n].controllerUnit, OpenedBefore(slots, storage, n), ExplicitStep(st, types, storage[n], n).value;
    var b := Bus(a.kind, a.bus);
    StepShape(st, types, storage[n], n);
    StepTracksBuses(st, types, storage[n], n);
    HoldsIs(slots, drawn, types, storage, n, st);
    OpenedStep(slots, storage, n);
    BusIs(raw);
    HasIs(st.slots, b);
    var c := next.slots[|st.slots|];
    NoneBefore(slots, storage, n, b);
    ControllerJoins(slots, drawn, types, storage, n, made, st.slots, c, b);
    ControllerCounted(slots, st.slots, made, c, b);
    OpenedDisk(slots, drawn, types, storage, n, made + [b], st.slots, c, b, next.slots[|next.slots| - 1]);
  }

  lemma {:induction false} OpenedDisk(slots: Slots, drawn: nat, types: seq<ControllerType>, storage: seq<Block>, n: nat,
                                      made: seq<Bus>, given: Slots, c: Slot, b: Bus, disk: Slot)
    requires n < |storage| && WellKeyed(given) && !Has(given, b) && IsBus(c, b.kind, b.number)
    requires c.key == NewKey(given) && c.controllerKey > NewKey(given)
    requires AllCarry(slots, drawn, types, storage, n, made, given + [c]) && Counted(slots, given + [c], made)
    requires BusOf(storage[n].controllerUnit) == Some(b) && disk.role.Disk? && disk.controllerKey == c.key
    requires disk.unit == Some(Parse(storage[n].controllerUnit).value.unit)
    ensures AllCarry(slots, drawn, types, storage, n + 1, made, given + [c] + [disk])
            && Counted(slots, given + [c] + [disk], made)
  {
    hide *;
    AppendKeepsKeys(given, c);
    KeyedIsLinked(given + [c]);
    HasAppended(given, c, b);
    DiskCounted(slots, given + [c], made, disk);
    DiskJoins(slots, drawn, types, storage, n, made, given + [c], b, disk);
  }

  /** A block served keeps the account. */
  lemma {:induction false} StepHolds(slots: Slots, drawn: nat, types: seq<ControllerType>, storage: seq<Block>, n: nat,
                                     st: State)
    requires n < |storage| && Holds(slots, drawn, types, storage, n, st)
            && ExplicitStep(st, types, storage[n], n).Success?
    ensures Holds(slots, drawn, types, storage, n + 1, ExplicitStep(st, types, storage[n], n).value)
  {
    hide *;
    StepMarks(st, types, storage[n], n);
    HoldsIs(slots, drawn, types, storage, n, st);
    ExplicitStepKeeps(st, types, storage[n], n);
    var a := Parse(storage[n].controllerUnit).value;
    if Has(st.slots, Bus(a.kind, a.bus)) {
      JoinedHolds(slots, drawn, types, storage, n, st, a);
    } else {
      OpenedHolds(slots, drawn, types, storage, n, st, a);
    }
    HoldsNext(slots, drawn, types, storage, n, st, ExplicitStep(st, types, storage[n], n).value);
  }

  lemma HasIs(slots: Slots, b: Bus)
    ensures Has(slots, b) == FindByBus(slots, b.kind, b.number).Some?
            && (Has(slots, b) <==> OnList(slots, b.kind, b.number))
  {
    FoundIsOnList(slots, b.kind, b.number);
  }

  lemma HoldsNext(slots: Slots, drawn: nat, types: seq<ControllerType>, storage: seq<Block>, n: nat, st: State,
                  next: State)
    requires n < |storage| && Holds(slots, drawn, types, storage, n, st)
    requires next.pending == st.pending + {storage[n].controllerUnit}
    requires WellKeyed(next.slots) && st.slots <= next.slots
    requires var made := OpenedBefore(slots, storage, n + 1);
             && next.typeIndex == drawn + |made| && Counted(slots, next.slots, made)
             && AllCarry(slots, drawn, types, storage, n + 1, made, next.slots)
    ensures Holds(slots, drawn, types, storage, n + 1, next)
  {
    hide OpenedBefore, AllCarry, Counted, WellKeyed;
    forall raw | raw in next.pending
      ensures exists j :: 0 <= j < n + 1 && storage[j].controllerUnit == raw
    {
      if raw in st.pending {
        var j :| 0 <= j < n && storage[j].controllerUnit == raw;
      }
    }
  }

  // ----- the explicit phase -----

  /** The state after the explicit ones among the first n blocks. */
  function Midway(st: State, types: seq<ControllerType>, storage: seq<Block>, n: nat): Result<State, AllocError>
    requires n <= |storage|
  {
    ExplicitRun(st, types, storage, ExplicitBelow(storage, n))
  }

  lemma {:induction false} MidwayStep(st: State, types: seq<ControllerType>, storage: seq<Block>, n: nat)
    requires n < |storage|
    ensures var before := Midway(st, types, storage, n);
            Midway(st, types, storage, n + 1)
            == if storage[n].controllerUnit == "" || before.Failure? then before
               else ExplicitStep(before.value, types, storage[n], n)
  {
    BelowStep(storage, n + 1);
    hide ExplicitStep, ExplicitRun, ExplicitBelow, LegacyBelow;
    if storage[n].controllerUnit != "" {
      ExplicitRunSplits(st, types, storage, ExplicitBelow(storage, n), n);
    }
  }

  lemma {:induction false} HoldsStart(types: seq<ControllerType>, storage: seq<Block>, st: State)
    requires WellKeyed(st.slots) && st.pending == {}
    ensures Midway(st, types, storage, 0) == Success(st) && Holds(st.slots, st.typeIndex, types, storage, 0, st)
  {
    hide WellKeyed, CountKind, CountDisksOn;
  }

  lemma {:induction false} MidwayIff(st: State, types: seq<ControllerType>, storage: seq<Block>, n: nat)
    requires n <= |storage| && WellKeyed(st.slots) && st.pending == {}
    ensures Midway(st, types, storage, n).Success? <==>
              forall i :: 0 <= i < n && storage[i].controllerUnit != "" ==>
                Takes(st.slots, st.typeIndex, types, storage, i)
    ensures Midway(st, types, storage, n).Success? ==>
              Holds(st.slots, st.typeIndex, types, storage, n, Midway(st, types, storage, n).value)
  {
    hide *;
    if n == 0 {
      HoldsStart(types, storage, st);
    } else {
      MidwayIff(st, types, storage, n - 1);
      MidwayStep(st, types, storage, n - 1);
      var before := Midway(st, types, storage, n - 1);
      if before.Success? {
        if storage[n - 1].controllerUnit == "" {
          LegacyPassed(st.slots, st.typeIndex, types, storage, n - 1, before.value);
        } else {
          StepIff(st.slots, st.typeIndex, types, storage, n - 1, before.value);
          if Midway(st, types, storage, n).Success? {
            StepHolds(st.slots, st.typeIndex, types, storage, n - 1, before.value);
          }
        }
      }
    }
  }

  // ----- the legacy phase -----

  function TypesOf(types: seq<ControllerType>, kind: Kind): nat {
    if types == [] then 0 else (if KindForType(types[0]) == kind then 1 else 0) + TypesOf(types[1..], kind)
  }

  /** A controller can be made for a pool entry after those before it. */
  predicate EntryFits(slots: Slots, types: seq<ControllerType>, m: nat)
    requires m < |types|
  {
    var kind := KindForType(types[m]);
    KnownType(types[m]) && CountKind(slots, kind) + TypesOf(types[..m], kind) < MAX_CONTROLLERS_PER_TYPE
  }

  predicate PoolFits(slots: Slots, types: seq<ControllerType>) {
    forall m: nat :: m < |types| ==> EntryFits(slots, types, m)
  }

  lemma FirstEntry(slots: Slots, types: seq<ControllerType>)
    requires types != []
    ensures EntryFits(slots, types, 0) <==>
              KnownType(types[0]) && CountKind(slots, KindForType(types[0])) < MAX_CONTROLLERS_PER_TYPE
  {
    hide CountKind, KnownType;
    assert types[..0] == [];
  }

  lemma {:induction false} LaterEntry(slots: Slots, c: Slot, types: seq<ControllerType>, m: nat)
    requires types != [] && IsKind(c, KindForType(types[0])) && m < |types[1..]|
    ensures EntryFits(slots + [c], types[1..], m) <==> EntryFits(slots, types, m + 1)
  {
    AppendedCounts(slots, c);
    hide CountKind, KnownType;
    assert types[..m + 1][0] == types[0] && types[..m + 1][1..] == types[1..][..m];
  }

  lemma {:induction false} PoolStep(slots: Slots, c: Slot, types: seq<ControllerType>)
    requires types != [] && IsKind(c, KindForType(types[0]))
    ensures PoolFits(slots, types) <==> EntryFits(slots, types, 0) && PoolFits(slots + [c], types[1..])
  {
    hide EntryFits, IsKind;
    forall m: nat | m < |types[1..]|
      ensures EntryFits(slots + [c], types[1..], m) <==> EntryFits(slots, types, m + 1)
    {
      LaterEntry(slots, c, types, m);
    }
    if EntryFits(slots, types, 0) && PoolFits(slots + [c], types[1..]) {
      forall m: nat | m < |types|
        ensures EntryFits(slots, types, m)
      {
        if m > 0 {
          assert EntryFits(slots + [c], types[1..], m - 1);
        }
      }
    }
  }

  lemma {:induction false} AddControllersIff(slots: Slots, types: seq<ControllerType>)
    ensures AddControllers(slots, types).Some? <==> PoolFits(slots, types)
    decreases |types|
  {
    if types != [] {
      AddControllersFirst(slots, types);
      FirstFits(slots, types);
      FirstEntry(slots, types);
      hide AddControllers, AddController, PoolFits, EntryFits, KnownType, CountKind, CreateController, IsKind;
      var c := CreateController(slots, types[0]);
      if c.Some? {
        PoolStep(slots, c.value, types);
        if AddController(slots, types[0]).Some? {
          AddControllersIff(slots + [c.value], types[1..]);
        }
      }
    }
  }

  lemma FirstFits(slots: Slots, types: seq<ControllerType>)
    requires types != []
    ensures var c := CreateController(slots, types[0]);
            && (c.Some? <==> KnownType(types[0])) && (c.Some? ==> IsKind(c.value, KindForType(types[0])))
            && (c.None? ==> !PoolFits(slots, types))
            && AddController(slots, types[0])
               == if c.Some? && CountKind(slots, KindForType(types[0])) < MAX_CONTROLLERS_PER_TYPE
                 then Some(slots + [c.value]) else None
  {
    FirstEntry(slots, types);
    hide CountKind, TypesOf, EntryFits;
    assert PoolFits(slots, types) ==> EntryFits(slots, types, 0);
  }

  /** How many of the first n blocks are legacy and pick the k-th controller. */
  function LegacyOn(storage: seq<Block>, n: nat, k: int): nat
    requires n <= |storage|
  {
    if n == 0 then 0
    else
      LegacyOn(storage, n - 1, k)
        + (if storage[n - 1].controllerUnit == "" && storage[n - 1].controllerIndex == k then 1 else 0)
  }

  /** Legacy block i picks a controller made for the pool, with room after the earlier blocks that picked it. */
  predicate LegacyTakes(types: seq<ControllerType>, storage: seq<Block>, i: nat)
    requires i < |storage|
  {
    var k := storage[i].controllerIndex;
    0 <= k < |types| && LegacyOn(storage, i, k) + 1 <= MaxDisks(ModelForType(types[k]))
  }

  /** Controllers just made carry nothing. */
  ghost predicate Bare(slots: Slots, base: nat) {
    forall j :: base <= j < |slots| ==> slots[j].role.Controller? && slots[j].key < 0 && NothingOn(slots, slots[j].key)
  }

  lemma {:induction false} BareGrows(slots: Slots, base: nat, c: Slot)
    requires Linked(slots) && base <= |slots| && Bare(slots, base)
    requires c.role.Controller? && c.key == NewKey(slots) && c.controllerKey == 0
    ensures Bare(slots + [c], base)
  {
    hide NewKey;
    var more := slots + [c];
    forall j | base <= j < |more|
      ensures more[j].role.Controller? && more[j].key < 0 && NothingOn(more, more[j].key)
    {
      if j < |slots| {
        assert more[j] == slots[j] && NothingOn(slots, slots[j].key);
      }
    }
  }

  lemma {:induction false} PoolIsBare(slots: Slots, base: nat, types: seq<ControllerType>)
    requires WellKeyed(slots) && base <= |slots| && Bare(slots, base) && AddControllers(slots, types).Some?
    ensures Bare(AddControllers(slots, types).value, base)
    decreases |types|
  {
    if types == [] {
      AddNothing(slots);
    } else {
      AddControllersFirst(slots, types);
      AppendControllerKeeps(slots, types[0]);
      FirstFits(slots, types);
      var c := CreateController(slots, types[0]).value;
      KeyedIsLinked(slots);
      BareGrows(slots, base, c);
      hide *;
      PoolIsBare(AddController(slots, types[0]).value, base, types[1..]);
    }
  }

  /** The pool's controllers, in a list that has them after the first `base` devices. */
  ghost predicate PoolAt(slots: Slots, base: nat, types: seq<ControllerType>) {
    && base + |types| <= |slots|
    && forall j :: base <= j < base + |types| ==>
         slots[j].role.Controller? && slots[j].role.model == ModelForType(types[j - base])
  }

  /** The legacy phase when n blocks have been looked at. */
  ghost predicate PoolCarries(storage: seq<Block>, n: nat, slots: Slots, base: nat, types: seq<ControllerType>)
    requires n <= |storage|
  {
    && PoolAt(slots, base, types) && WellKeyed(slots)
    && forall j :: base <= j < base + |types| ==> CountDisksOn(slots, slots[j].key) == LegacyOn(storage, n, j - base)
  }

  /** A legacy block on a list that has the pool's controllers. */
  function StepOnPool(st: State, base: nat, types: seq<ControllerType>, storage: seq<Block>, i: nat)
    : Result<State, AllocError>
    requires i < |storage| && PoolAt(st.slots, base, types)
  {
    LegacyStep(st, base, |types|, storage[i], i)
  }

  lemma {:induction false} LegacyStepIff(st: State, base: nat, types: seq<ControllerType>, storage: seq<Block>, i: nat)
    requires i < |storage| && PoolAt(st.slots, base, types) && PoolCarries(storage, i, st.slots, base, types)
    ensures StepOnPool(st, base, types, storage, i).Success? <==> LegacyTakes(types, storage, i)
  {
    hide CountDisksOn, LegacyOn, ModelForType, MaxDisks, PlaceDisk, AssignedUnit, WellKeyed;
  }

  lemma {:induction false} LegacyStepCarries(st: State, base: nat, types: seq<ControllerType>, storage: seq<Block>,
                                             i: nat)
    requires i < |storage| && storage[i].controllerUnit == ""
    requires PoolAt(st.slots, base, types) && PoolCarries(storage, i, st.slots, base, types)
    requires OwnControllers(st.slots, base, |types|) && StepOnPool(st, base, types, storage, i).Success?
    ensures var next := StepOnPool(st, base, types, storage, i).value.slots;
            PoolCarries(storage, i + 1, next, base, types) && OwnControllers(next, base, |types|)
  {
    LegacyStepIff(st, base, types, storage, i);
    LegacyStepKeeps(st, base, |types|, storage[i], i);
    var slots, next := st.slots, LegacyStep(st, base, |types|, storage[i], i).value.slots;
    var disk := next[|slots|];
    assert next == slots + [disk] && disk.role.Disk?;
    hide LegacyStep, OwnControllers;
    LegacyDiskCarried(storage, i, slots, base, types, disk);
  }

  lemma {:induction false} LegacyDiskCarried(storage: seq<Block>, i: nat, slots: Slots, base: nat,
                                             types: seq<ControllerType>, disk: Slot)
    requires i < |storage| && storage[i].controllerUnit == "" && PoolCarries(storage, i, slots, base, types)
    requires 0 <= storage[i].controllerIndex < |types| && disk.role.Disk? && WellKeyed(slots + [disk])
    requires disk.controllerKey == slots[base + storage[i].controllerIndex].key
    ensures PoolCarries(storage, i + 1, slots + [disk], base, types)
  {
    KeyedIsLinked(slots);
    AppendedCounts(slots, disk);
    var next, at := slots + [disk], base + storage[i].controllerIndex;
    hide CountDisksOn, ModelForType, WellKeyed, NewKey;
    forall j | base <= j < base + |types|
      ensures CountDisksOn(next, next[j].key) == LegacyOn(storage, i + 1, j - base)
    {
      assert next[j] == slots[j];
      assert j != at ==> slots[j].key != slots[at].key;
    }
  }

  function LegacyMidway(slots: Slots, base: nat, types: seq<ControllerType>, storage: seq<Block>, n: nat)
    : Result<State, AllocError>
    requires n <= |storage| && PoolAt(slots, base, types)
  {
    LegacyRun(Init(slots), base, |types|, storage, LegacyBelow(storage, n))
  }

  lemma {:induction false} LegacyRunSplits(st: State, base: nat, count: nat, storage: seq<Block>, order: seq<nat>,
                                           last: nat)
    requires base + count <= |st.slots| && forall j :: base <= j < base + count ==> st.slots[j].role.Controller?
    requires Indexes(order + [last], |storage|) && Indexes(order, |storage|) && last < |storage|
    ensures var mid := LegacyRun(st, base, count, storage, order);
            mid.Success? ==> st.slots <= mid.value.slots
    ensures var mid := LegacyRun(st, base, count, storage, order);
            if mid.Failure? then LegacyRun(st, base, count, storage, order + [last]) == mid
            else
              && base + count <= |mid.value.slots|
              && (forall j :: base <= j < base + count ==> mid.value.slots[j].role.Controller?)
              && LegacyRun(st, base, count, storage, order + [last])
                 == LegacyStep(mid.value, base, count, storage[last], last)
    decreases |order|
  {
    hide LegacyStep;
    if order == [] {
      assert (order + [last])[1..] == [];
    } else {
      assert (order + [last])[1..] == order[1..] + [last];
      var next := LegacyStep(st, base, count, storage[order[0]], order[0]);
      if next.Success? {
        assert forall j :: base <= j < base + count ==> next.value.slots[j] == st.slots[j];
        LegacyRunSplits(next.value, base, count, storage, order[1..], last);
      }
    }
  }

  lemma PoolStays(slots: Slots, more: Slots, base: nat, types: seq<ControllerType>)
    requires PoolAt(slots, base, types) && slots <= more
    ensures PoolAt(more, base, types)
  {
  }

  lemma {:induction false} LegacyMidwayStep(slots: Slots, base: nat, types: seq<ControllerType>, storage: seq<Block>,
                                            n: nat)
    requires n < |storage| && PoolAt(slots, base, types)
    ensures var before := LegacyMidway(slots, base, types, storage, n);
            if storage[n].controllerUnit != "" || before.Failure?
              then LegacyMidway(slots, base, types, storage, n + 1) == before
            else
              && PoolAt(before.value.slots, base, types)
              && LegacyMidway(slots, base, types, storage, n + 1) == StepOnPool(before.value, base, types, storage, n)
  {
    BelowStep(storage, n + 1);
    hide LegacyStep, LegacyRun, ExplicitBelow, LegacyBelow, ModelForType;
    if storage[n].controllerUnit == "" {
      LegacyRunSplits(Init(slots), base, |types|, storage, LegacyBelow(storage, n), n);
      var before := LegacyMidway(slots, base, types, storage, n);
      if before.Success? {
        PoolStays(slots, before.value.slots, base, types);
      }
    }
  }

  lemma {:induction false} LegacyMidwayIff(slots: Slots, base: nat, types: seq<ControllerType>, storage: seq<Block>,
                                           n: nat)
    requires n <= |storage| && PoolAt(slots, base, types)
    requires PoolCarries(storage, 0, slots, base, types) && OwnControllers(slots, base, |types|)
    ensures LegacyMidway(slots, base, types, storage, n).Success? <==>
              forall i :: 0 <= i < n && storage[i].controllerUnit == "" ==> LegacyTakes(types, storage, i)
    ensures LegacyMidway(slots, base, types, storage, n).Success? ==>
              var st := LegacyMidway(slots, base, types, storage, n).value;
              PoolCarries(storage, n, st.slots, base, types) && OwnControllers(st.slots, base, |types|)
  {
    hide *;
    if n == 0 {
      LegacyMidwayStart(slots, base, types, storage);
    } else {
      LegacyMidwayIff(slots, base, types, storage, n - 1);
      LegacyMidwayStep(slots, base, types, storage, n - 1);
      var before := LegacyMidway(slots, base, types, storage, n - 1);
      if before.Success? {
        if storage[n - 1].controllerUnit != "" {
          ExplicitPassed(storage, n - 1, before.value.slots, base, types);
        } else {
          LegacyStepIff(before.value, base, types, storage, n - 1);
          if StepOnPool(before.value, base, types, storage, n - 1).Success? {
            LegacyStepCarries(before.value, base, types, storage, n - 1);
          }
        }
      }
    }
  }

  lemma LegacyMidwayStart(slots: Slots, base: nat, types: seq<ControllerType>, storage: seq<Block>)
    requires PoolAt(slots, base, types)
    ensures LegacyMidway(slots, base, types, storage, 0) == Success(Init(slots)) && Init(slots).slots == slots
  {
  }

  lemma ExplicitPassed(storage: seq<Block>, n: nat, slots: Slots, base: nat, types: seq<ControllerType>)
    requires n < |storage| && storage[n].controllerUnit != "" && PoolCarries(storage, n, slots, base, types)
    ensures PoolCarries(storage, n + 1, slots, base, types)
  {
    hide CountDisksOn, WellKeyed, PoolAt;
    assert PoolAt(slots, base, types) && base + |types| <= |slots| by {
      hide LegacyOn;
      PoolLength(slots, base, types);
    }
    forall j | base <= j < base + |types|
      ensures CountDisksOn(slots, slots[j].key) == LegacyOn(storage, n + 1, j - base)
    {
    }
  }

  lemma PoolLength(slots: Slots, base: nat, types: seq<ControllerType>)
    requires PoolAt(slots, base, types)
    ensures base + |types| <= |slots|
  {
  }

  /** The legacy phase: nothing to do, or controllers for the whole pool and room for every legacy block. */
  ghost predicate LegacyFits(slots: Slots, types: seq<ControllerType>, storage: seq<Block>) {
    HasLegacy(storage) ==>
      PoolFits(slots, types) && forall i :: 0 <= i < |storage| && storage[i].controllerUnit == "" ==>
        LegacyTakes(types, storage, i)
  }

  lemma {:induction false} PoolStarts(slots: Slots, types: seq<ControllerType>, storage: seq<Block>)
    requires WellKeyed(slots) && AddControllers(slots, types).Some?
    ensures var ready := AddControllers(slots, types).value;
            PoolAt(ready, |slots|, types) && PoolCarries(storage, 0, ready, |slots|, types)
              && OwnControllers(ready, |slots|, |types|)
  {
    NoneOwned(slots);
    AddControllersKeeps(slots, |slots|, types);
    AddedAreControllers(slots, types);
    PoolIsBare(slots, |slots|, types);
    var ready := AddControllers(slots, types).value;
    hide AddControllers, OwnControllers, WellKeyed, ModelForType, CountDisksOn;
    forall j | |slots| <= j < |ready|
      ensures CountDisksOn(ready, ready[j].key) == 0
    {
      NothingOnUnusedKey(ready, ready[j].key);
    }
  }

  lemma {:induction false} LegacyPhaseIff(slots: Slots, types: seq<ControllerType>, storage: seq<Block>)
    requires WellKeyed(slots)
    ensures LegacyPhase(slots, types, storage).Success? <==> LegacyFits(slots, types, storage)
  {
    LegacyBlocksIff(storage);
    AddControllersIff(slots, types);
    if HasLegacy(storage) && AddControllers(slots, types).Some? {
      PoolStarts(slots, types, storage);
      LegacyMidwayIff(AddControllers(slots, types).value, |slots|, types, storage, |storage|);
    }
    hide WellKeyed, AddControllers, LegacyRun, PoolFits, LegacyTakes, LegacyBelow;
  }

  lemma LegacyBlocksIff(storage: seq<Block>)
    ensures LegacyBlocks(storage) == [] <==> !HasLegacy(storage)
  {
    if HasLegacy(storage) {
      var i :| 0 <= i < |storage| && storage[i].controllerUnit == "";
      BlockIsOrdered(storage, |storage|, i);
    } else {
      AllExplicitOrder(storage);
    }
  }

  // ----- the whole run -----

  /** Every explicit block is taken by the list the legacy phase leaves. */
  ghost predicate ExplicitFits(slots: Slots, types: seq<ControllerType>, storage: seq<Block>) {
    var legacy := LegacyPhase(slots, types, storage);
    legacy.Success? &&
    forall i :: 0 <= i < |storage| && storage[i].controllerUnit != "" ==>
                  Takes(legacy.value.slots, if HasLegacy(storage) then |types| else 0, types, storage, i)
  }

  /**
   Exactly when a run succeeds, for any mix of blocks: the pool's controllers can be
   made and have room for the legacy blocks, if there are any, and every explicit
   block is taken. The final aggregate validation, from a list within its limits,
   makes no difference.
   */
  lemma {:induction false} RunSucceedsIff(slots: Slots, types: seq<ControllerType>, storage: seq<Block>,
                                          aggregate: bool)
    requires WellKeyed(slots) && (aggregate ==> WithinLimits(slots))
    ensures Run(slots, types, storage, aggregate).Success? <==>
              LegacyFits(slots, types, storage) && ExplicitFits(slots, types, storage)
  {
    if aggregate {
      AggregateIsImplied(slots, types, storage);
    }
    PlainRunIff(slots, types, storage);
  }

  lemma {:induction false} PlainRunIff(slots: Slots, types: seq<ControllerType>, storage: seq<Block>)
    requires WellKeyed(slots)
    ensures Run(slots, types, storage, false).Success? <==>
              LegacyFits(slots, types, storage) && ExplicitFits(slots, types, storage)
  {
    LegacyPhaseIff(slots, types, storage);
    LegacyBlocksIff(storage);
    LegacyLeavesNoPending(slots, types, storage);
    var legacy := LegacyPhase(slots, types, storage);
    if legacy.Success? {
      LegacyPhaseKeeps(slots, types, storage);
      MidwayIff(legacy.value, types, storage, |storage|);
    }
    hide WellKeyed, LegacyFits, LegacyPhase, ExplicitRun, ExplicitBelow, Takes, LegacyBlocks, Holds, HasLegacy;
  }
}
