/**
 Units and disk capacity of one controller: free units and occupied units always
 add up to the disk limit, so a free unit and room for a disk are the same thing.
 Also the listing of free units and its compaction into ranges.
 */
module UnitCapacity {
  import opened Wrappers
  import opened DeviceList

  /** The controller's children sit at distinct units a disk may use. */
  ghost predicate WellPlaced(slots: Slots, c: Slot)
    requires c.role.Controller?
  {
    && (forall i :: 0 <= i < |slots| && slots[i].controllerKey == c.key ==>
                      slots[i].unit.Some? && Usable(c.role.model, slots[i].unit.value))
    && (forall i, j :: 0 <= i < j < |slots| && slots[i].controllerKey == c.key && slots[j].controllerKey == c.key ==>
                         slots[i].unit != slots[j].unit)
  }

  ghost predicate OnOwnUnit(c: Slot)
    requires c.role.Controller?
  {
    c.role.model.ScsiModel? ==> c.role.ownUnit == SCSI_RESERVED_UNIT
  }

  ghost function ChildUnits(slots: Slots, key: int): set<int> {
    set i | 0 <= i < |slots| && slots[i].controllerKey == key && slots[i].unit.Some? :: slots[i].unit.value
  }

  ghost function CountChildren(slots: Slots, key: int): nat {
    if slots == [] then 0
    else CountChildren(slots[..|slots| - 1], key) + (if slots[|slots| - 1].controllerKey == key then 1 else 0)
  }

  lemma {:induction false} DisksAreChildren(slots: Slots, key: int)
    ensures CountDisksOn(slots, key) <= CountChildren(slots, key)
    ensures (forall i :: 0 <= i < |slots| && slots[i].controllerKey == key ==> slots[i].role.Disk?) ==>
              CountDisksOn(slots, key) == CountChildren(slots, key)
  {
    if slots != [] {
      DisksAreChildren(slots[..|slots| - 1], key);
    }
  }

  lemma {:induction false} ChildUnitsStep(slots: Slots, key: int)
    requires slots != []
    ensures var last, before := slots[|slots| - 1], ChildUnits(slots[..|slots| - 1], key);
            ChildUnits(slots, key)
            == if last.controllerKey == key && last.unit.Some? then before + {last.unit.value} else before
  {
  }

  /** Well-placed children occupy as many units as there are children. */
  lemma {:induction false} ChildrenOccupy(slots: Slots, c: Slot)
    requires c.role.Controller? && WellPlaced(slots, c)
    ensures |ChildUnits(slots, c.key)| == CountChildren(slots, c.key)
  {
    if slots != [] {
      var front, last := slots[..|slots| - 1], slots[|slots| - 1];
      ChildrenOccupy(front, c);
      ChildUnitsStep(slots, c.key);
      if last.controllerKey == c.key {
        assert last.unit.value !in ChildUnits(front, c.key);
      }
    }
  }

  // ----- free units -----

  /** A unit listAvailableUnits reports. */
  predicate Free(slots: Slots, c: Slot, unit: int)
    requires c.role.Controller?
  {
    !Reserved(c.role.model, unit) && !Occupied(slots, c, unit)
  }

  predicate Increasing(units: seq<int>) {
    forall i, j :: 0 <= i < j < |units| ==> units[i] < units[j]
  }

  /** The free units below a bound, in increasing order. */
  function FreeBelow(slots: Slots, c: Slot, bound: nat): (units: seq<int>)
    requires c.role.Controller?
    ensures Increasing(units)
    ensures forall u :: u in units <==> 0 <= u < bound && Free(slots, c, u)
  {
    if bound == 0 then []
    else
      var units := FreeBelow(slots, c, bound - 1);
      assert forall i :: 0 <= i < |units| ==> units[i] in units;
      if Free(slots, c, bound - 1) then units + [bound - 1] else units
  }

  function AvailableUnits(slots: Slots, c: Slot): seq<int>
    requires c.role.Controller?
  {
    FreeBelow(slots, c, MaxUnit(c.role.model) + 1)
  }

  ghost function TakenBelow(slots: Slots, c: Slot, bound: nat): set<int>
    requires c.role.Controller?
  {
    set u | 0 <= u < bound && !Reserved(c.role.model, u) && Occupied(slots, c, u)
  }

  lemma {:induction false} TakenStep(slots: Slots, c: Slot, u: nat)
    requires c.role.Controller?
    ensures |TakenBelow(slots, c, u + 1)|
            == |TakenBelow(slots, c, u)| + (if !Reserved(c.role.model, u) && Occupied(slots, c, u) then 1 else 0)
  {
    hide Occupied, Reserved;
    var before, after := TakenBelow(slots, c, u), TakenBelow(slots, c, u + 1);
    if !Reserved(c.role.model, u) && Occupied(slots, c, u) {
      assert after == before + {u};
    } else {
      assert after == before;
    }
  }

  lemma {:induction false} FreePlusTaken(slots: Slots, c: Slot, bound: nat)
    requires c.role.Controller?
    ensures |FreeBelow(slots, c, bound)| + |TakenBelow(slots, c, bound)|
            == if c.role.model.ScsiModel? && bound > SCSI_RESERVED_UNIT then bound - 1 else bound
  {
    if bound > 0 {
      var u := bound - 1;
      FreePlusTaken(slots, c, u);
      TakenStep(slots, c, u);
    }
  }

  /**
   Conservation: on a controller with well-placed children the free units and the
   children always add up to the controller's disk limit.
   */
  lemma {:induction false} FreePlusChildren(slots: Slots, c: Slot)
    requires c.role.Controller? && WellPlaced(slots, c) && OnOwnUnit(c)
    ensures |AvailableUnits(slots, c)| + CountChildren(slots, c.key) == MaxDisks(c.role.model)
  {
    var bound := MaxUnit(c.role.model) + 1;
    FreePlusTaken(slots, c, bound);
    ChildrenOccupy(slots, c);
    assert TakenBelow(slots, c, bound) == ChildUnits(slots, c.key);
  }

  /** ValidateControllerUnitRuntime's checks on a controller that exists. */
  predicate UnitAdmitted(slots: Slots, c: Slot, unit: int)
    requires c.role.Controller?
  {
    unit <= MaxUnit(c.role.model) && !Occupied(slots, c, unit)
  }

  /** An admitted unit implies room for the disk: the later capacity check cannot fail. */
  lemma {:induction false} AdmittedUnitHasRoom(slots: Slots, c: Slot, unit: nat)
    requires c.role.Controller? && WellPlaced(slots, c) && OnOwnUnit(c)
    requires UnitAdmitted(slots, c, unit)
    ensures RoomForDisk(slots, c)
  {
    FreePlusChildren(slots, c);
    DisksAreChildren(slots, c.key);
    assert unit in AvailableUnits(slots, c);
  }

  /**
   Conversely, on a controller whose children are all disks, room for a disk means
   the library finds a unit for it, and one a disk may use.
   */
  lemma {:induction false} RoomFindsUnit(slots: Slots, c: Slot)
    requires c.role.Controller? && WellPlaced(slots, c) && OnOwnUnit(c)
    requires forall i :: 0 <= i < |slots| && slots[i].controllerKey == c.key ==> slots[i].role.Disk?
    ensures RoomForDisk(slots, c) <==> AssignedUnit(slots, c) != -1
    ensures RoomForDisk(slots, c) ==> Usable(c.role.model, AssignedUnit(slots, c))
  {
    FreePlusChildren(slots, c);
    DisksAreChildren(slots, c.key);
    var units := AvailableUnits(slots, c);
    if RoomForDisk(slots, c) {
      assert units[0] in units;
    } else {
      forall u | 0 <= u <= MaxUnit(c.role.model)
        ensures Occupied(slots, c, u)
      {
        assert u !in units;
      }
    }
  }

  /** OccupiedUnits: one pass over the devices. */
  method OccupiedUnits(slots: Slots, c: Slot) returns (occupied: set<int>)
    requires c.role.Controller?
    ensures forall u :: u in occupied <==> Occupied(slots, c, u)
  {
    occupied := if c.role.model.ScsiModel? then {c.role.ownUnit} else {};
    for n := 0 to |slots|
      invariant forall u :: u in occupied <==> Occupied(slots[..n], c, u)
    {
      var d := slots[n];
      assert slots[..n + 1] == slots[..n] + [d];
      ghost var before := occupied;
      if d.controllerKey == c.key && d.unit.Some? {
        occupied := occupied + {d.unit.value};
      }
      forall u
        ensures u in occupied <==> Occupied(slots[..n + 1], c, u)
      {
        if u in before {
          assert Occupied(slots[..n], c, u);
        }
        if u in occupied && u !in before {
          assert slots[..n + 1][n].unit == Some(u);
        }
      }
    }
    assert slots[..|slots|] == slots;
  }

  /** listAvailableUnits */
  method ListAvailableUnits(slots: Slots, c: Slot) returns (available: seq<int>)
    requires c.role.Controller?
    ensures available == AvailableUnits(slots, c)
    ensures Increasing(available)
    ensures forall u :: u in available <==> 0 <= u <= MaxUnit(c.role.model) && Free(slots, c, u)
  {
    var occupied := OccupiedUnits(slots, c);
    available := [];
    for unit := 0 to MaxUnit(c.role.model) + 1
      invariant available == FreeBelow(slots, c, unit)
    {
      if c.role.model.ScsiModel? && unit == SCSI_RESERVED_UNIT {
        continue;
      }
      if unit !in occupied {
        available := available + [unit];
      }
    }
  }

  // ----- ranges -----

  datatype Range = Range(first: int, last: int)

  function ExpandRange(r: Range): (units: seq<int>)
    decreases r.last - r.first
  {
    if r.first > r.last then [] else [r.first] + ExpandRange(Range(r.first + 1, r.last))
  }

  function Expand(ranges: seq<Range>): seq<int> {
    if ranges == [] then [] else Expand(ranges[..|ranges| - 1]) + ExpandRange(ranges[|ranges| - 1])
  }

  /** No range is empty and none could be merged with its successor. */
  ghost predicate Maximal(ranges: seq<Range>) {
    && (forall i :: 0 <= i < |ranges| ==> ranges[i].first <= ranges[i].last)
    && (forall i, j :: 0 <= i < j < |ranges| && j == i + 1 ==> ranges[i].last + 1 != ranges[j].first)
  }

  lemma {:induction false} ExpandRangeAt(r: Range)
    requires r.first <= r.last
    ensures |ExpandRange(r)| == r.last - r.first + 1
    ensures forall k :: 0 <= k < |ExpandRange(r)| ==> ExpandRange(r)[k] == r.first + k
    decreases r.last - r.first
  {
    if r.first < r.last {
      ExpandRangeAt(Range(r.first + 1, r.last));
    }
  }

  lemma {:induction false} ExtendRange(first: int, last: int)
    requires first <= last
    ensures ExpandRange(Range(first, last + 1)) == ExpandRange(Range(first, last)) + [last + 1]
  {
    ExpandRangeAt(Range(first, last + 1));
    ExpandRangeAt(Range(first, last));
  }

  lemma {:induction false} LastRangeGrows(ranges: seq<Range>, start: int, prev: int)
    requires Maximal(ranges + [Range(start, prev)])
    ensures Expand(ranges + [Range(start, prev + 1)]) == Expand(ranges + [Range(start, prev)]) + [prev + 1]
    ensures Maximal(ranges + [Range(start, prev + 1)])
  {
    var was, grown := ranges + [Range(start, prev)], ranges + [Range(start, prev + 1)];
    assert was[|ranges|].first <= was[|ranges|].last;
    assert was[..|was| - 1] == ranges == grown[..|grown| - 1];
    assert forall i :: 0 <= i < |ranges| ==> was[i] == grown[i];
    ExtendRange(start, prev);
  }

  lemma {:induction false} ExpandAppend(ranges: seq<Range>, r: Range)
    ensures Expand(ranges + [r]) == Expand(ranges) + ExpandRange(r)
  {
  }

  lemma {:induction false} RangeOpens(ranges: seq<Range>, start: int)
    requires Maximal(ranges)
    requires ranges != [] ==> start != ranges[|ranges| - 1].last + 1
    ensures Expand(ranges + [Range(start, start)]) == Expand(ranges) + [start]
    ensures Maximal(ranges + [Range(start, start)])
  {
    ExpandAppend(ranges, Range(start, start));
    SingleUnit(start);
  }

  lemma {:induction false} SingleUnit(unit: int)
    ensures ExpandRange(Range(unit, unit)) == [unit]
  {
  }

  /** The range-building loop of formatAvailableUnits. */
  method CompactUnits(units: seq<int>) returns (ranges: seq<Range>)
    ensures Expand(ranges) == units && Maximal(ranges)
    ensures Increasing(units) ==> Apart(ranges)
  {
    if |units| == 0 {
      return [];
    }
    ranges := [];
    var start, prev := units[0], units[0];
    RangeOpens([], start);
    for i := 1 to |units|
      invariant start <= prev == units[i - 1]
      invariant Expand(ranges + [Range(start, prev)]) == units[..i]
      invariant Maximal(ranges + [Range(start, prev)])
    {
      assert units[..i + 1] == units[..i] + [units[i]];
      if units[i] == prev + 1 {
        LastRangeGrows(ranges, start, prev);
        prev := units[i];
        continue;
      }
      RangeOpens(ranges + [Range(start, prev)], units[i]);
      ranges := ranges + [Range(start, prev)];
      start, prev := units[i], units[i];
    }
    ranges := ranges + [Range(start, prev)];
    assert units[..|units|] == units;
    if Increasing(units) {
      IncreasingIsApart(ranges);
    }
  }

  /** Every range ends at least one free place before the next begins. */
  ghost predicate Apart(ranges: seq<Range>) {
    forall i, j :: 0 <= i < j < |ranges| ==> ranges[i].last + 1 < ranges[j].first
  }

  lemma {:induction false} IncreasingIsApart(ranges: seq<Range>)
    requires Maximal(ranges) && Increasing(Expand(ranges))
    ensures Apart(ranges)
  {
    if |ranges| >= 2 {
      var n := |ranges| - 1;
      var front := ranges[..n];
      FrontIncreases(ranges);
      IncreasingIsApart(front);
      LastIsBeyond(ranges);
      hide Expand, Increasing, Maximal;
      forall i, j | 0 <= i < j < |ranges|
        ensures ranges[i].last + 1 < ranges[j].first
      {
        if j < n {
          assert front[i].last + 1 < front[j].first;
        } else if i < n - 1 {
          assert front[i].last + 1 < front[n - 1].first;
        }
      }
    }
  }

  lemma {:induction false} FrontIncreases(ranges: seq<Range>)
    requires |ranges| >= 2 && Maximal(ranges) && Increasing(Expand(ranges))
    ensures Maximal(ranges[..|ranges| - 1]) && Increasing(Expand(ranges[..|ranges| - 1]))
  {
    var front, all := ranges[..|ranges| - 1], Expand(ranges);
    assert all == Expand(front) + ExpandRange(ranges[|ranges| - 1]);
    hide Expand, ExpandRange;
    assert forall k :: 0 <= k < |Expand(front)| ==> all[k] == Expand(front)[k];
  }

  lemma {:induction false} EndsWithLast(ranges: seq<Range>)
    requires ranges != [] && ranges[|ranges| - 1].first <= ranges[|ranges| - 1].last
    ensures Expand(ranges) != [] && Expand(ranges)[|Expand(ranges)| - 1] == ranges[|ranges| - 1].last
  {
    ExpandRangeAt(ranges[|ranges| - 1]);
    hide ExpandRange;
  }

  lemma {:induction false} LastIsBeyond(ranges: seq<Range>)
    requires |ranges| >= 2 && Maximal(ranges) && Increasing(Expand(ranges))
    ensures var last, previous := ranges[|ranges| - 1], ranges[|ranges| - 2];
            previous.first <= previous.last && previous.last + 1 < last.first
  {
    var n := |ranges| - 1;
    var front, all := ranges[..n], Expand(ranges);
    assert front[n - 1] == ranges[n - 1] && ranges[n - 1].first <= ranges[n - 1].last
           && ranges[n].first <= ranges[n].last;
    assert ranges[n - 1].last + 1 != ranges[n].first;
    EndsWithLast(front);
    ExpandRangeAt(ranges[n]);
    assert all == Expand(front) + ExpandRange(ranges[n]);
    hide Expand, ExpandRange, Maximal;
    var at := |Expand(front)|;
    assert all[at - 1] == ranges[n - 1].last && all[at] == ranges[n].first;
  }

  /** The compaction is canonical: a unit list has one maximal range list. */
  lemma {:induction false} MaximalRangesUnique(a: seq<Range>, b: seq<Range>)
    requires Maximal(a) && Maximal(b) && Expand(a) == Expand(b)
    ensures a == b
    decreases |a|
  {
    ExpandsToSome(a);
    ExpandsToSome(b);
    hide Expand;
    if a != [] {
      LastRangesEqual(a, b);
      SameLastRange(a, b);
      MaximalRangesUnique(a[..|a| - 1], b[..|b| - 1]);
    }
  }

  lemma {:induction false} LastRangesEqual(a: seq<Range>, b: seq<Range>)
    requires a != [] && b != [] && Maximal(a) && Maximal(b) && Expand(a) == Expand(b)
    ensures a[|a| - 1] == b[|b| - 1]
  {
    hide ExpandRange;
    LastRangeIsLongest(a, b[|b| - 1], Expand(b[..|b| - 1]));
    LastRangeIsLongest(b, a[|a| - 1], Expand(a[..|a| - 1]));
  }

  lemma {:induction false} SameLastRange(a: seq<Range>, b: seq<Range>)
    requires a != [] && b != [] && Expand(a) == Expand(b) && a[|a| - 1] == b[|b| - 1]
    ensures Expand(a[..|a| - 1]) == Expand(b[..|b| - 1])
    ensures a[..|a| - 1] == b[..|b| - 1] ==> a == b
  {
    hide *;
    ExpandSplits(a);
    ExpandSplits(b);
    CancelSuffix(Expand(a[..|a| - 1]), Expand(b[..|b| - 1]), ExpandRange(a[|a| - 1]));
  }

  lemma {:induction false} ExpandSplits(ranges: seq<Range>)
    requires ranges != []
    ensures Expand(ranges) == Expand(ranges[..|ranges| - 1]) + ExpandRange(ranges[|ranges| - 1])
    ensures ranges == ranges[..|ranges| - 1] + [ranges[|ranges| - 1]]
  {
  }

  lemma {:induction false} CancelSuffix<T>(a: seq<T>, b: seq<T>, suffix: seq<T>)
    requires a + suffix == b + suffix
    ensures a == b
  {
    assert a == (a + suffix)[..|a|] && b == (b + suffix)[..|a|];
  }

  lemma {:induction false} ExpandsToSome(ranges: seq<Range>)
    requires Maximal(ranges)
    ensures Expand(ranges) == [] <==> ranges == []
  {
  }

  /** No run of consecutive units ending the expansion is longer than the last range. */
  lemma {:induction false} LastRangeIsLongest(ranges: seq<Range>, run: Range, before: seq<int>)
    requires ranges != [] && Maximal(ranges) && run.first <= run.last
    requires Expand(ranges) == before + ExpandRange(run)
    ensures ranges[|ranges| - 1].last == run.last && ranges[|ranges| - 1].first <= run.first
  {
    var x, front, all := ranges[|ranges| - 1], ranges[..|ranges| - 1], Expand(ranges);
    ExpandRangeAt(x);
    ExpandRangeAt(run);
    assert all[|all| - 1] == x.last == run.last;
    var at := |Expand(front)|;
    if front != [] {
      ExpandRangeAt(front[|front| - 1]);
      assert all[at - 1] == Expand(front)[at - 1] == front[|front| - 1].last;
    }
    assert forall k :: |before| <= k < |all| ==> all[k] == run.first + (k - |before|);
  }
}
