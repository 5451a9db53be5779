/**
 prepareStorage: the check made before anything is deployed. It predicts which
 disk_controller_type entry each new bus will consume, in the order buses are
 first seen, and validates every explicit unit against that entry.
 */
module StoragePrepare {
  import opened Wrappers
  import opened ControllerAddress
  import opened DeviceList
  import opened Allocator

  datatype Bus = Bus(kind: Kind, number: nat)

  datatype PrepareError =
    | UnsupportedType
    | Exclusive(block: nat)
    | BadUnit(block: nat)
    | DuplicateUnit(block: nat, prior: nat)
    | TypesRequired

  // ----- the static unit check -----

  /** maxUnitForControllerTypeString */
  function MaxUnitForType(t: ControllerType, kind: Kind): nat {
    match kind
    case NVMe => MAX_NVME_UNIT
    case SATA => MAX_SATA_UNIT
    case SCSI => if t == Pvscsi then MAX_PVSCSI_UNIT else MAX_LSI_UNIT
  }

  /** staticMaxUnitForAddress: past the pool the most generous SCSI type listed decides. */
  function StaticMaxUnit(a: Address, types: seq<ControllerType>, typeIndex: nat): nat {
    if typeIndex < |types| then MaxUnitForType(types[typeIndex], a.kind)
    else if a.kind == SCSI && Pvscsi in types then MAX_PVSCSI_UNIT
    else MaxUnitForType(LsiLogic, a.kind)
  }

  /** ValidateControllerUnitStaticForConfig */
  predicate StaticUnitOk(raw: string, types: seq<ControllerType>, typeIndex: nat) {
    && Parse(raw).Some?
    && var a := Parse(raw).value;
       && !(a.kind == SCSI && a.unit == SCSI_RESERVED_UNIT)
       && (typeIndex < |types| ==> KindForType(types[typeIndex]) == a.kind)
       && a.unit <= StaticMaxUnit(a, types, typeIndex)
  }

  // ----- what the loop computes, block by block -----

  function BusOf(raw: string): Option<Bus> {
    var a := Parse(raw);
    if a.Some? then Some(Bus(a.value.kind, a.value.bus)) else None
  }

  /** The distinct buses of the first n blocks, in the order they are first referenced. */
  function BusOrder(storage: seq<Block>, n: nat): (order: seq<Bus>)
    requires n <= |storage|
    ensures forall i, j :: 0 <= i < j < |order| ==> order[i] != order[j]
  {
    if n == 0 then []
    else
      var order, bus := BusOrder(storage, n - 1), BusOf(storage[n - 1].controllerUnit);
      if bus.Some? && bus.value !in order then order + [bus.value] else order
  }

  lemma BusOrderStep(storage: seq<Block>, i: nat)
    requires 0 < i <= |storage|
    ensures var order, bus := BusOrder(storage, i - 1), BusOf(storage[i - 1].controllerUnit);
            BusOrder(storage, i) == if bus.Some? && bus.value !in order then order + [bus.value] else order
  {
    hide BusOf;
  }

  function IndexOf(bus: Bus, order: seq<Bus>): (k: nat)
    requires bus in order
    ensures k < |order| && order[k] == bus
  {
    if order[0] == bus then 0 else 1 + IndexOf(bus, order[1..])
  }

  predicate HasLegacy(storage: seq<Block>) {
    exists i :: 0 <= i < |storage| && storage[i].controllerUnit == ""
  }

  /** Legacy blocks use up the whole pool before explicit blocks draw from it. */
  function PoolOffset(types: seq<ControllerType>, storage: seq<Block>): nat {
    if HasLegacy(storage) then |types| else 0
  }

  lemma {:induction false} BusIsOrdered(storage: seq<Block>, n: nat, i: nat)
    requires i < n <= |storage| && BusOf(storage[i].controllerUnit).Some?
    ensures BusOf(storage[i].controllerUnit).value in BusOrder(storage, n)
  {
    if i < n - 1 {
      BusIsOrdered(storage, n - 1, i);
    }
  }

  /** The pool entry predicted for block i; irrelevant for an address that does not parse. */
  function StaticIndex(types: seq<ControllerType>, storage: seq<Block>, i: nat): nat
    requires i < |storage|
  {
    var bus := BusOf(storage[i].controllerUnit);
    if bus.None? then 0
    else
      BusIsOrdered(storage, i + 1, i);
      PoolOffset(types, storage) + IndexOf(bus.value, BusOrder(storage, i + 1))
  }

  /** The first of the first n blocks that uses a raw address. */
  function FirstUse(storage: seq<Block>, raw: string, n: nat): (r: Option<nat>)
    requires n <= |storage|
    ensures r.Some? ==> r.value < n && storage[r.value].controllerUnit == raw
    ensures r.Some? ==> forall i :: 0 <= i < r.value ==> storage[i].controllerUnit != raw
    ensures r.None? ==> forall i :: 0 <= i < n ==> storage[i].controllerUnit != raw
  {
    if n == 0 then None
    else
      var earlier := FirstUse(storage, raw, n - 1);
      if earlier.Some? then earlier
      else if storage[n - 1].controllerUnit == raw then Some(n - 1)
      else None
  }

  function BlockErrors(types: seq<ControllerType>, storage: seq<Block>, i: nat): seq<PrepareError>
    requires i < |storage|
  {
    var block := storage[i];
    if block.controllerUnit == "" then []
    else
      var prior := FirstUse(storage, block.controllerUnit, i);
      (if block.controllerIndex != 0 then [Exclusive(i)] else [])
      + (if StaticUnitOk(block.controllerUnit, types, StaticIndex(types, storage, i)) then [] else [BadUnit(i)])
      + (if prior.Some? then [DuplicateUnit(i, prior.value)] else [])
  }

  function ErrorsBelow(types: seq<ControllerType>, storage: seq<Block>, n: nat): seq<PrepareError>
    requires n <= |storage|
  {
    if n == 0 then [] else ErrorsBelow(types, storage, n - 1) + BlockErrors(types, storage, n - 1)
  }

  function PrepareErrors(types: seq<ControllerType>, storage: seq<Block>): seq<PrepareError> {
    if storage == [] then []
    else
      (if exists i :: 0 <= i < |types| && types[i].Unlisted? then [UnsupportedType] else [])
      + ErrorsBelow(types, storage, |storage|)
      + (if HasLegacy(storage) && types == [] then [TypesRequired] else [])
  }

  // ----- the loop -----

  /** The bus-to-entry table holds the first-seen numbering. */
  ghost predicate Numbers(table: map<Bus, nat>, order: seq<Bus>, offset: nat) {
    && (forall b :: b in table <==> b in order)
    && (forall b :: b in order ==> table[b] == offset + IndexOf(b, order))
  }

  lemma {:induction false} IndexOfAppend(b: Bus, order: seq<Bus>, more: seq<Bus>)
    requires b in order
    ensures IndexOf(b, order + more) == IndexOf(b, order)
  {
    if order[0] != b {
      assert (order + more)[1..] == order[1..] + more;
      IndexOfAppend(b, order[1..], more);
    }
  }

  lemma {:induction false} IndexOfLast(b: Bus, order: seq<Bus>)
    requires b !in order
    ensures IndexOf(b, order + [b]) == |order|
  {
  }

  lemma {:induction false} NumbersGrow(table: map<Bus, nat>, order: seq<Bus>, offset: nat, b: Bus)
    requires Numbers(table, order, offset) && b !in order
    ensures Numbers(table[b := offset + |order|], order + [b], offset)
  {
    IndexOfLast(b, order);
    forall x | x in order
      ensures IndexOf(x, order + [b]) == IndexOf(x, order)
    {
      IndexOfAppend(x, order, [b]);
    }
  }

  lemma {:induction false} EmptyUnitHasNoBus()
    ensures BusOf("") == None
  {
  }

  /** The table after one more block. */
  function NextTable(table: map<Bus, nat>, next: nat, bus: Option<Bus>): map<Bus, nat> {
    if bus.None? || bus.value in table then table else table[bus.value := next]
  }

  lemma {:induction false} NumberingStep(types: seq<ControllerType>, storage: seq<Block>, i: nat, table: map<Bus, nat>,
                                         next: nat)
    requires i < |storage|
    requires Numbers(table, BusOrder(storage, i), PoolOffset(types, storage))
    requires next == PoolOffset(types, storage) + |BusOrder(storage, i)|
    ensures var bus, offset := BusOf(storage[i].controllerUnit), PoolOffset(types, storage);
            var table' := NextTable(table, next, bus);
            && Numbers(table', BusOrder(storage, i + 1), offset)
            && (bus.Some? ==> bus.value in table' && table'[bus.value] == StaticIndex(types, storage, i))
            && offset + |BusOrder(storage, i + 1)| == (if table' == table then next else next + 1)
  {
    hide BusOf;
    var bus, order := BusOf(storage[i].controllerUnit), BusOrder(storage, i);
    if bus.Some? {
      BusIsOrdered(storage, i + 1, i);
      if bus.value !in table {
        IndexOfLast(bus.value, order);
        NumbersGrow(table, order, PoolOffset(types, storage), bus.value);
      }
    }
  }

  /** seenUnits maps each non-empty raw address to its first use. */
  ghost predicate SeenFirst(seen: map<string, nat>, storage: seq<Block>, n: nat)
    requires n <= |storage|
  {
    && (forall raw :: raw in seen ==>
          var first := seen[raw];
          first < n && raw != "" && storage[first].controllerUnit == raw
          && forall j :: 0 <= j < first ==> storage[j].controllerUnit != raw)
    && (forall k :: 0 <= k < n && storage[k].controllerUnit != "" ==> storage[k].controllerUnit in seen)
  }

  lemma {:induction false} LegacyBlockHasNoErrors(types: seq<ControllerType>, storage: seq<Block>, i: nat)
    requires i < |storage|
    ensures storage[i].controllerUnit == "" ==> BlockErrors(types, storage, i) == []
    ensures BusOf(storage[i].controllerUnit).None? ==> StaticIndex(types, storage, i) == 0
  {
  }

  lemma {:induction false} SeenStep(seen: map<string, nat>, storage: seq<Block>, i: nat)
    requires i < |storage| && SeenFirst(seen, storage, i)
    ensures var raw := storage[i].controllerUnit;
            if raw == "" || raw in seen then SeenFirst(seen, storage, i + 1)
            else SeenFirst(seen[raw := i], storage, i + 1)
  {
  }

  method PrepareStorage(types: seq<ControllerType>, storage: seq<Block>) returns (errs: seq<PrepareError>)
    ensures errs == PrepareErrors(types, storage)
  {
    hide ErrorsBelow, BusOf, StaticUnitOk;
    errs := [];
    if |storage| == 0 {
      return;
    }
    if exists i :: 0 <= i < |types| && types[i].Unlisted? {
      errs := errs + [UnsupportedType];
    }
    var hasLegacy := SomeLegacy(storage);
    var found, allExplicit := CheckBlocks(types, storage, hasLegacy);
    errs := errs + found;
    if !allExplicit && |types| == 0 {
      errs := errs + [TypesRequired];
    }
  }

  /** The first loop: whether any block is legacy. */
  method SomeLegacy(storage: seq<Block>) returns (hasLegacy: bool)
    ensures hasLegacy == HasLegacy(storage)
  {
    hasLegacy := false;
    for i := 0 to |storage|
      invariant !hasLegacy && forall j :: 0 <= j < i ==> storage[j].controllerUnit != ""
    {
      if storage[i].controllerUnit == "" {
        return true;
      }
    }
  }

  predicate ExplicitUpTo(storage: seq<Block>, n: nat)
    requires n <= |storage|
  {
    forall j :: 0 <= j < n ==> storage[j].controllerUnit != ""
  }

  /** Before the first block. */
  lemma {:induction false} CheckStart(types: seq<ControllerType>, storage: seq<Block>)
    ensures ErrorsBelow(types, storage, 0) == [] && BusOrder(storage, 0) == [] && ExplicitUpTo(storage, 0)
    ensures PoolOffset(types, storage) == if HasLegacy(storage) then |types| else 0
    ensures SeenFirst(map[], storage, 0) && Numbers(map[], BusOrder(storage, 0), PoolOffset(types, storage))
  {
  }

  /** One more block. */
  lemma {:induction false} CheckRound(types: seq<ControllerType>, storage: seq<Block>, i: nat)
    requires i < |storage|
    ensures ErrorsBelow(types, storage, i + 1) == ErrorsBelow(types, storage, i) + BlockErrors(types, storage, i)
    ensures ExplicitUpTo(storage, i + 1) <==> ExplicitUpTo(storage, i) && storage[i].controllerUnit != ""
  {
    hide BlockErrors;
  }

  lemma CheckEnd(storage: seq<Block>)
    ensures ExplicitUpTo(storage, |storage|) == !HasLegacy(storage)
  {
  }

  /** The loop over the blocks, numbering buses as it meets them. */
  method CheckBlocks(types: seq<ControllerType>, storage: seq<Block>, hasLegacy: bool)
    returns (errs: seq<PrepareError>, allExplicit: bool)
    requires hasLegacy == HasLegacy(storage)
    ensures errs == ErrorsBelow(types, storage, |storage|)
    ensures allExplicit == !HasLegacy(storage)
  {
    CheckStart(types, storage);
    hide *;
    var nextTypeIndex: nat := if hasLegacy then |types| else 0;
    var busTypeIndex: map<Bus, nat> := map[];
    var seenUnits: map<string, nat> := map[];
    errs, allExplicit := [], true;
    for i := 0 to |storage|
      invariant errs == ErrorsBelow(types, storage, i)
      invariant nextTypeIndex == PoolOffset(types, storage) + |BusOrder(storage, i)|
      invariant Numbers(busTypeIndex, BusOrder(storage, i), PoolOffset(types, storage))
      invariant allExplicit == ExplicitUpTo(storage, i)
      invariant SeenFirst(seenUnits, storage, i)
    {
      CheckRound(types, storage, i);
      LegacyBlockHasNoErrors(types, storage, i);
      SeenStep(seenUnits, storage, i);
      if storage[i].controllerUnit == "" {
        LegacyBlockNumbersNothing(storage, i);
        allExplicit := false;
        continue;
      }
      NumberingStep(types, storage, i, busTypeIndex, nextTypeIndex);
      var typeIndex: nat;
      typeIndex, busTypeIndex, nextTypeIndex := NumberBus(storage[i].controllerUnit, busTypeIndex, nextTypeIndex);
      var found := BlockCheck(types, storage, i, typeIndex, seenUnits);
      errs := errs + found;
      if storage[i].controllerUnit !in seenUnits {
        seenUnits := seenUnits[storage[i].controllerUnit := i];
      }
    }
    CheckEnd(storage);
  }

  lemma {:induction false} LegacyBlockNumbersNothing(storage: seq<Block>, i: nat)
    requires i < |storage| && storage[i].controllerUnit == ""
    ensures BusOrder(storage, i + 1) == BusOrder(storage, i)
  {
    EmptyUnitHasNoBus();
    hide BusOf;
  }

  /** The pool entry of an address: that of its bus, numbered now if it is new. */
  method NumberBus(raw: string, table: map<Bus, nat>, next: nat)
    returns (typeIndex: nat, table': map<Bus, nat>, next': nat)
    ensures table' == NextTable(table, next, BusOf(raw)) && next' == (if table' == table then next else next + 1)
    ensures typeIndex == if BusOf(raw).Some? then table'[BusOf(raw).value] else 0
  {
    hide BusOf;
    typeIndex, table', next' := 0, table, next;
    var bus := BusOf(raw);
    if bus.Some? {
      if bus.value in table {
        typeIndex := table[bus.value];
      } else {
        typeIndex := next;
        table' := table[bus.value := typeIndex];
        assert bus.value in table' && bus.value !in table;
        next' := next + 1;
      }
    }
  }

  lemma {:induction false} SeenIsFirstUse(seen: map<string, nat>, storage: seq<Block>, i: nat, raw: string)
    requires i <= |storage| && SeenFirst(seen, storage, i) && raw != ""
    ensures FirstUse(storage, raw, i) == if raw in seen then Some(seen[raw]) else None
  {
    hide FirstUse;
  }

  lemma BlockErrorsAre(types: seq<ControllerType>, storage: seq<Block>, i: nat)
    requires i < |storage| && storage[i].controllerUnit != ""
    ensures var block := storage[i];
            var prior := FirstUse(storage, block.controllerUnit, i);
            BlockErrors(types, storage, i)
            == (if block.controllerIndex != 0 then [Exclusive(i)] else [])
               + (if StaticUnitOk(block.controllerUnit, types, StaticIndex(types, storage, i)) then []
                  else [BadUnit(i)])
               + (if prior.Some? then [DuplicateUnit(i, prior.value)] else [])
  {
    hide StaticUnitOk, StaticIndex, FirstUse;
  }

  /** The three tests one explicit block goes through, in order. */
  method BlockCheck(types: seq<ControllerType>, storage: seq<Block>, i: nat, typeIndex: nat,
                    seenUnits: map<string, nat>)
    returns (errs: seq<PrepareError>)
    requires i < |storage| && storage[i].controllerUnit != ""
    requires typeIndex == StaticIndex(types, storage, i) && SeenFirst(seenUnits, storage, i)
    ensures errs == BlockErrors(types, storage, i)
  {
    hide *;
    var raw := storage[i].controllerUnit;
    BlockErrorsAre(types, storage, i);
    SeenIsFirstUse(seenUnits, storage, i, raw);
    errs := [];
    if storage[i].controllerIndex != 0 {
      errs := errs + [Exclusive(i)];
    }
    if !StaticUnitOk(raw, types, typeIndex) {
      errs := errs + [BadUnit(i)];
    }
    if raw in seenUnits {
      errs := errs + [DuplicateUnit(i, seenUnits[raw])];
    }
  }

  // ----- what an empty error list means -----

  lemma {:induction false} CleanBelow(types: seq<ControllerType>, storage: seq<Block>, n: nat)
    requires n <= |storage|
    ensures ErrorsBelow(types, storage, n) == [] <==> forall i :: 0 <= i < n ==> BlockErrors(types, storage, i) == []
  {
    hide BlockErrors;
    if n > 0 {
      CleanBelow(types, storage, n - 1);
    }
  }

  /** An explicit block with nothing to report. */
  ghost predicate CleanBlock(types: seq<ControllerType>, storage: seq<Block>, i: nat)
    requires i < |storage|
  {
    && storage[i].controllerIndex == 0
    && StaticUnitOk(storage[i].controllerUnit, types, StaticIndex(types, storage, i))
    && forall j :: 0 <= j < i ==> storage[j].controllerUnit != storage[i].controllerUnit
  }

  lemma {:induction false} CleanBlockIff(types: seq<ControllerType>, storage: seq<Block>, i: nat)
    requires i < |storage|
    ensures BlockErrors(types, storage, i) == [] <==> storage[i].controllerUnit == "" || CleanBlock(types, storage, i)
  {
  }

  /**
   What acceptance means: all types are supported, legacy blocks have a pool, and
   every explicit block sets no index, repeats no earlier address and suits the
   pool entry predicted for its bus.
   */
  lemma {:induction false} AcceptedIff(types: seq<ControllerType>, storage: seq<Block>)
    requires storage != []
    ensures PrepareErrors(types, storage) == [] <==>
              && (forall i :: 0 <= i < |types| ==> !types[i].Unlisted?)
              && (HasLegacy(storage) ==> types != [])
              && (forall i :: 0 <= i < |storage| && storage[i].controllerUnit != "" ==> CleanBlock(types, storage, i))
  {
    hide BlockErrors, CleanBlock;
    CleanBelow(types, storage, |storage|);
    forall i | 0 <= i < |storage|
      ensures BlockErrors(types, storage, i) == [] <==> storage[i].controllerUnit == "" || CleanBlock(types, storage, i)
    {
      CleanBlockIff(types, storage, i);
    }
  }
}
