/**
 What prepareStorage reports, error by error, on the configuration's own fields
 and with every limit written out, and in which order.
 */
module PrepareReport {
  import opened Wrappers
  import opened ControllerAddress
  import opened DeviceList
  import opened Allocator
  import opened StoragePrepare

  // ----- where an error comes from -----

  lemma BlockErrorIff(types: seq<ControllerType>, storage: seq<Block>, i: nat, e: PrepareError)
    requires i < |storage|
    ensures e in BlockErrors(types, storage, i) <==>
              var block := storage[i];
              && block.controllerUnit != ""
              && match e
                 case Exclusive(b) => b == i && block.controllerIndex != 0
                 case BadUnit(b) =>
                   b == i && !StaticUnitOk(block.controllerUnit, types, StaticIndex(types, storage, i))
                 case DuplicateUnit(b, prior) =>
                   && b == i && prior < i && storage[prior].controllerUnit == block.controllerUnit
                   && forall j :: 0 <= j < prior ==> storage[j].controllerUnit != block.controllerUnit
                 case UnsupportedType => false
                 case TypesRequired => false
  {
    hide StaticUnitOk, StaticIndex, BlockErrors;
    if storage[i].controllerUnit == "" {
      LegacyBlockHasNoErrors(types, storage, i);
    } else {
      BlockErrorsAre(types, storage, i);
      var prior := FirstUse(storage, storage[i].controllerUnit, i);
      if e.DuplicateUnit? && prior.Some? && e.prior < i && storage[e.prior].controllerUnit == storage[i].controllerUnit
         && forall j :: 0 <= j < e.prior ==> storage[j].controllerUnit != storage[i].controllerUnit {
        assert e.prior == prior.value;
      }
    }
  }

  /** The block an error is about. */
  function About(e: PrepareError): Option<nat> {
    match e
    case Exclusive(b) => Some(b)
    case BadUnit(b) => Some(b)
    case DuplicateUnit(b, _) => Some(b)
    case UnsupportedType => None
    case TypesRequired => None
  }

  lemma {:induction false} BelowIff(types: seq<ControllerType>, storage: seq<Block>, n: nat, e: PrepareError)
    requires n <= |storage|
    ensures e in ErrorsBelow(types, storage, n) <==>
              About(e).Some? && About(e).value < n && e in BlockErrors(types, storage, About(e).value)
  {
    hide BlockErrors;
    if n > 0 {
      BelowIff(types, storage, n - 1, e);
      BlockErrorIff(types, storage, n - 1, e);
    }
  }

  lemma ReportedIff(types: seq<ControllerType>, storage: seq<Block>, e: PrepareError)
    ensures e in PrepareErrors(types, storage) <==>
              match e
              case UnsupportedType => storage != [] && exists i :: 0 <= i < |types| && types[i].Unlisted?
              case TypesRequired =>
                types == [] && exists i :: 0 <= i < |storage| && storage[i].controllerUnit == ""
              case _ => About(e).value < |storage| && e in BlockErrors(types, storage, About(e).value)
  {
    hide BlockErrors, ErrorsBelow;
    BelowIff(types, storage, |storage|, e);
  }

  // ----- the three errors that need no address -----

  /** A list type that is not supported, a pool missing for a legacy block, an index beside a unit, a repeated unit. */
  lemma OthersIff(types: seq<ControllerType>, storage: seq<Block>, i: nat, prior: nat)
    ensures var errs := PrepareErrors(types, storage);
            && (UnsupportedType in errs <==>
                storage != [] && exists t: ControllerType :: t in types && t.Unlisted?)
            && (TypesRequired in errs <==>
                types == [] && exists j :: 0 <= j < |storage| && storage[j].controllerUnit == "")
            && (Exclusive(i) in errs <==>
                i < |storage| && storage[i].controllerUnit != "" && storage[i].controllerIndex != 0)
            && (DuplicateUnit(i, prior) in errs <==>
                  && prior < i < |storage| && storage[i].controllerUnit != ""
                  && storage[prior].controllerUnit == storage[i].controllerUnit
                  && forall j :: 0 <= j < prior ==> storage[j].controllerUnit != storage[i].controllerUnit)
  {
    hide *;
    ReportedIff(types, storage, UnsupportedType);
    ReportedIff(types, storage, TypesRequired);
    ReportedIff(types, storage, Exclusive(i));
    ReportedIff(types, storage, DuplicateUnit(i, prior));
    AboutIs(i, prior);
    if i < |storage| {
      BlockErrorIff(types, storage, i, Exclusive(i));
      BlockErrorIff(types, storage, i, DuplicateUnit(i, prior));
    }
  }

  lemma AboutIs(i: nat, prior: nat)
    ensures About(Exclusive(i)) == About(BadUnit(i)) == About(DuplicateUnit(i, prior)) == Some(i)
  {
  }

  // ----- the address -----

  /** The bus of an address that parses, spelled out. */
  predicate Refers(storage: seq<Block>, j: nat, kind: Kind, bus: int)
    requires j < |storage|
  {
    var a := Parse(storage[j].controllerUnit);
    a.Some? && a.value.kind == kind && a.value.bus == bus
  }

  /** The buses that blocks before n refer to. */
  ghost function BusesBefore(storage: seq<Block>, n: nat): set<Bus>
    requires n <= |storage|
  {
    set j: nat | j < n && Parse(storage[j].controllerUnit).Some? ::
      Bus(Parse(storage[j].controllerUnit).value.kind, Parse(storage[j].controllerUnit).value.bus)
  }

  lemma BusOfIs(storage: seq<Block>, j: nat)
    requires j < |storage|
    ensures var a := Parse(storage[j].controllerUnit);
            BusOf(storage[j].controllerUnit) == if a.Some? then Some(Bus(a.value.kind, a.value.bus)) else None
  {
    hide Parse;
  }

  lemma BusesStep(storage: seq<Block>, n: nat)
    requires n < |storage|
    ensures var bus, before := BusOf(storage[n].controllerUnit), BusesBefore(storage, n);
            BusesBefore(storage, n + 1) == if bus.Some? then before + {bus.value} else before
  {
    hide Parse;
  }

  lemma SameBuses(order: seq<Bus>, buses: set<Bus>, bus: Option<Bus>, order': seq<Bus>, buses': set<Bus>)
    requires |order| == |buses| && forall b :: b in order <==> b in buses
    requires order' == if bus.Some? && bus.value !in order then order + [bus.value] else order
    requires buses' == if bus.Some? then buses + {bus.value} else buses
    ensures |order'| == |buses'| && forall b :: b in order' <==> b in buses'
  {
    if bus.Some? && bus.value in order {
      assert buses' == buses;
    }
  }

  /** The order lists each bus once. */
  lemma {:induction false} OrderIsBuses(storage: seq<Block>, n: nat)
    requires n <= |storage|
    ensures |BusOrder(storage, n)| == |BusesBefore(storage, n)|
            && forall b :: b in BusOrder(storage, n) <==> b in BusesBefore(storage, n)
  {
    hide *;
    if n == 0 {
      NoBusesYet(storage);
    } else {
      OrderIsBuses(storage, n - 1);
      BusesStep(storage, n - 1);
      BusOrderStep(storage, n);
      SameBuses(BusOrder(storage, n - 1), BusesBefore(storage, n - 1), BusOf(storage[n - 1].controllerUnit),
                BusOrder(storage, n), BusesBefore(storage, n));
    }
  }

  lemma NoBusesYet(storage: seq<Block>)
    ensures BusesBefore(storage, 0) == {} && BusOrder(storage, 0) == []
  {
  }

  lemma {:induction false} OrderIsPrefix(storage: seq<Block>, m: nat, n: nat)
    requires m <= n <= |storage|
    ensures BusOrder(storage, m) <= BusOrder(storage, n)
    decreases n
  {
    hide *;
    if m < n {
      OrderIsPrefix(storage, m, n - 1);
      BusOrderStep(storage, n);
    }
  }

  /** A block's predicted entry: those used up by legacy blocks, and one per bus met before its own. */
  lemma {:induction false} PredictedEntry(types: seq<ControllerType>, storage: seq<Block>, i: nat, first: nat)
    requires first <= i < |storage| && Parse(storage[i].controllerUnit).Some?
    requires var a := Parse(storage[i].controllerUnit).value;
             && Refers(storage, first, a.kind, a.bus)
             && forall j :: 0 <= j < first ==> !Refers(storage, j, a.kind, a.bus)
    ensures StaticIndex(types, storage, i)
            == |BusesBefore(storage, first)|
               + if exists j :: 0 <= j < |storage| && storage[j].controllerUnit == "" then |types| else 0
  {
    hide *;
    BusOfIs(storage, i);
    BusOfIs(storage, first);
    var bus := BusOf(storage[i].controllerUnit).value;
    RefersIs(storage, first, bus);
    StaticIndexIs(types, storage, i, bus);
    PoolOffsetIs(types, storage);
    NotBefore(storage, first, bus);
    NumberOfBus(storage, i, first, bus);
  }

  lemma NumberOfBus(storage: seq<Block>, i: nat, first: nat, bus: Bus)
    requires first <= i < |storage| && BusOf(storage[first].controllerUnit) == Some(bus)
    requires bus !in BusesBefore(storage, first)
    ensures bus in BusOrder(storage, i + 1)
    ensures IndexOf(bus, BusOrder(storage, i + 1)) == |BusesBefore(storage, first)|
  {
    hide *;
    OrderIsBuses(storage, first);
    assert bus !in BusOrder(storage, first);
    BusOrderStep(storage, first + 1);
    OrderIsPrefix(storage, first + 1, i + 1);
    IndexOfPrefix(bus, BusOrder(storage, first), BusOrder(storage, i + 1));
  }

  lemma RefersIs(storage: seq<Block>, j: nat, bus: Bus)
    requires j < |storage|
    ensures Refers(storage, j, bus.kind, bus.number) <==> BusOf(storage[j].controllerUnit) == Some(bus)
  {
    hide Parse;
  }

  lemma StaticIndexIs(types: seq<ControllerType>, storage: seq<Block>, i: nat, bus: Bus)
    requires i < |storage| && BusOf(storage[i].controllerUnit) == Some(bus)
    ensures bus in BusOrder(storage, i + 1)
    ensures StaticIndex(types, storage, i) == PoolOffset(types, storage) + IndexOf(bus, BusOrder(storage, i + 1))
  {
    BusIsOrdered(storage, i + 1, i);
    hide BusOf, BusOrder, IndexOf, PoolOffset;
  }

  lemma PoolOffsetIs(types: seq<ControllerType>, storage: seq<Block>)
    ensures PoolOffset(types, storage)
            == if exists j :: 0 <= j < |storage| && storage[j].controllerUnit == "" then |types| else 0
  {
  }

  lemma SomeoneRefers(storage: seq<Block>, n: nat, bus: Bus)
    requires n <= |storage| && bus in BusesBefore(storage, n)
    ensures exists j :: 0 <= j < n && Refers(storage, j, bus.kind, bus.number)
  {
    hide Parse;
    var j: nat :|
      && j < n && Parse(storage[j].controllerUnit).Some?
      && Bus(Parse(storage[j].controllerUnit).value.kind, Parse(storage[j].controllerUnit).value.bus) == bus;
    assert Refers(storage, j, bus.kind, bus.number);
  }

  lemma NotBefore(storage: seq<Block>, first: nat, bus: Bus)
    requires first <= |storage| && forall j :: 0 <= j < first ==> !Refers(storage, j, bus.kind, bus.number)
    ensures bus !in BusesBefore(storage, first)
  {
    hide *;
    if bus in BusesBefore(storage, first) {
      SomeoneRefers(storage, first, bus);
      assert false;
    }
  }

  lemma IndexOfPrefix(bus: Bus, order: seq<Bus>, longer: seq<Bus>)
    requires bus !in order && order + [bus] <= longer
    ensures bus in longer && IndexOf(bus, longer) == |order|
  {
    assert longer == order + [bus] + longer[|order| + 1..];
    IndexOfLast(bus, order);
    IndexOfAppend(bus, order + [bus], longer[|order| + 1..]);
  }

  /** The unit an entry of the pool cannot take, or the kind it does not make. */
  lemma WithinPool(raw: string, types: seq<ControllerType>, typeIndex: nat)
    requires Parse(raw).Some? && typeIndex < |types|
    ensures var a := Parse(raw).value;
            !StaticUnitOk(raw, types, typeIndex) <==>
              (a.kind == SCSI && a.unit == 7)
              || match types[typeIndex]
                 case Nvme => a.kind != NVMe || a.unit > 14
                 case Sata => a.kind != SATA || a.unit > 29
                 case Pvscsi => a.kind != SCSI || a.unit > 64
                 case _ => a.kind != SCSI || a.unit > 15
  {
    hide Parse;
  }

  lemma PastPool(raw: string, types: seq<ControllerType>, typeIndex: nat)
    requires Parse(raw).Some? && typeIndex >= |types|
    ensures var a := Parse(raw).value;
            !StaticUnitOk(raw, types, typeIndex) <==>
              match a.kind
              case NVMe => a.unit > 14
              case SATA => a.unit > 29
              case SCSI => a.unit == 7 || a.unit > if Pvscsi in types then 64 else 15
  {
    hide Parse;
  }

  lemma Unparsed(raw: string, types: seq<ControllerType>, typeIndex: nat)
    requires Parse(raw).None?
    ensures !StaticUnitOk(raw, types, typeIndex)
  {
    hide Parse;
  }

  lemma BadUnitIs(types: seq<ControllerType>, storage: seq<Block>, i: nat)
    ensures BadUnit(i) in PrepareErrors(types, storage) <==>
              && i < |storage| && storage[i].controllerUnit != ""
              && !StaticUnitOk(storage[i].controllerUnit, types, StaticIndex(types, storage, i))
  {
    hide *;
    ReportedIff(types, storage, BadUnit(i));
    AboutIs(i, 0);
    if i < |storage| {
      BlockErrorIff(types, storage, i, BadUnit(i));
    }
  }

  /** An address that does not parse is always reported. */
  lemma UnparsedIsReported(types: seq<ControllerType>, storage: seq<Block>, i: nat)
    requires i < |storage| && storage[i].controllerUnit != "" && Parse(storage[i].controllerUnit).None?
    ensures BadUnit(i) in PrepareErrors(types, storage)
  {
    hide *;
    BadUnitIs(types, storage, i);
    Unparsed(storage[i].controllerUnit, types, StaticIndex(types, storage, i));
  }

  lemma ParsedIsExplicit(raw: string)
    ensures Parse(raw).Some? ==> raw != ""
  {
  }

  /**
   An address that parses, whose bus is first referred to at block `first`. With a
   legacy block, or more buses before that than there are pool entries, the unit
   must suit the kind; otherwise kind and unit must suit the entry drawn.
   */
  lemma {:induction false} BadUnitIff(types: seq<ControllerType>, storage: seq<Block>, i: nat, first: nat)
    requires first <= i < |storage| && Parse(storage[i].controllerUnit).Some?
    requires var a := Parse(storage[i].controllerUnit).value;
             && Refers(storage, first, a.kind, a.bus)
             && forall j :: 0 <= j < first ==> !Refers(storage, j, a.kind, a.bus)
    ensures var a, drawn := Parse(storage[i].controllerUnit).value, |BusesBefore(storage, first)|;
            BadUnit(i) in PrepareErrors(types, storage) <==>
              if (exists j :: 0 <= j < |storage| && storage[j].controllerUnit == "") || drawn >= |types| then
                match a.kind
                case NVMe => a.unit > 14
                case SATA => a.unit > 29
                case SCSI => a.unit == 7 || a.unit > if Pvscsi in types then 64 else 15
              else
                || (a.kind == SCSI && a.unit == 7)
                || match types[drawn]
                   case Nvme => a.kind != NVMe || a.unit > 14
                   case Sata => a.kind != SATA || a.unit > 29
                   case Pvscsi => a.kind != SCSI || a.unit > 64
                   case _ => a.kind != SCSI || a.unit > 15
  {
    hide *;
    BadUnitIs(types, storage, i);
    ParsedIsExplicit(storage[i].controllerUnit);
    PredictedEntry(types, storage, i, first);
    var at := StaticIndex(types, storage, i);
    if at < |types| {
      WithinPool(storage[i].controllerUnit, types, at);
    } else {
      PastPool(storage[i].controllerUnit, types, at);
    }
  }

  // ----- the order of the report -----

  /** Unsupported types first, then block by block, the missing pool last. */
  predicate ReportedBefore(d: PrepareError, e: PrepareError) {
    match (d, e)
    case (TypesRequired, _) => false
    case (_, TypesRequired) => true
    case (_, UnsupportedType) => false
    case (UnsupportedType, _) => true
    case _ =>
      || About(d).value < About(e).value
      || (About(d).value == About(e).value && !d.DuplicateUnit? && !e.Exclusive? && (d.Exclusive? || e.DuplicateUnit?))
  }

  ghost predicate InOrder(errs: seq<PrepareError>) {
    forall m, n :: 0 <= m < n < |errs| ==> ReportedBefore(errs[m], errs[n])
  }

  lemma BlockInOrder(types: seq<ControllerType>, storage: seq<Block>, i: nat)
    requires i < |storage|
    ensures InOrder(BlockErrors(types, storage, i))
  {
    hide StaticUnitOk, StaticIndex, FirstUse, BlockErrors;
    if storage[i].controllerUnit == "" {
      LegacyBlockHasNoErrors(types, storage, i);
    } else {
      BlockErrorsAre(types, storage, i);
    }
  }

  lemma JoinInOrder(front: seq<PrepareError>, back: seq<PrepareError>)
    requires InOrder(front) && InOrder(back)
    requires forall d, e :: d in front && e in back ==> ReportedBefore(d, e)
    ensures InOrder(front + back)
  {
    hide ReportedBefore;
  }

  lemma NothingInOrder()
    ensures InOrder([])
  {
  }

  lemma {:induction false} BelowInOrder(types: seq<ControllerType>, storage: seq<Block>, n: nat)
    requires n <= |storage|
    ensures InOrder(ErrorsBelow(types, storage, n))
  {
    hide BlockErrors, InOrder;
    if n == 0 {
      NothingInOrder();
    } else {
      BelowInOrder(types, storage, n - 1);
      BlockInOrder(types, storage, n - 1);
      forall d, e | d in ErrorsBelow(types, storage, n - 1) && e in BlockErrors(types, storage, n - 1)
        ensures ReportedBefore(d, e)
      {
        BelowIff(types, storage, n - 1, d);
        BlockErrorIff(types, storage, n - 1, e);
      }
      JoinInOrder(ErrorsBelow(types, storage, n - 1), BlockErrors(types, storage, n - 1));
    }
  }

  /** Every error comes once, at its place. */
  lemma ReportInOrder(types: seq<ControllerType>, storage: seq<Block>)
    ensures InOrder(PrepareErrors(types, storage))
  {
    BelowInOrder(types, storage, |storage|);
    hide ErrorsBelow;
    var below := ErrorsBelow(types, storage, |storage|);
    forall e | e in below
      ensures About(e).Some?
    {
      BelowIff(types, storage, |storage|, e);
    }
    JoinInOrder([UnsupportedType], below);
    JoinInOrder([UnsupportedType] + below, [TypesRequired]);
    JoinInOrder(below, [TypesRequired]);
  }
}
