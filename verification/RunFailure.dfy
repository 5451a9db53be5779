/**
 Which block a failed run names: the first one, in serving order, that the list
 does not take; none when the pool's controllers cannot be made.
 */
module RunFailure {
  import opened Wrappers
  import opened ControllerAddress
  import opened DeviceList
  import opened Allocator
  import opened AllocatorSafety
  import opened AllocatorOrder
  import opened StoragePrepare
  import opened AnyRunSuccess

  // ----- the explicit phase -----

  lemma StepError(st: State, types: seq<ControllerType>, block: Block, i: nat)
    ensures ExplicitStep(st, types, block, i).Failure? ==> ExplicitStep(st, types, block, i).error == Rejected(Some(i))
  {
    hide RuntimeAdmits, Parse, FindByBus, OpenBus, RoomForDisk, PlaceDisk;
  }

  lemma {:induction false} ExplicitFailsAt(st: State, types: seq<ControllerType>, storage: seq<Block>, n: nat, i: nat)
    requires i < n <= |storage| && WellKeyed(st.slots) && st.pending == {}
    requires storage[i].controllerUnit != "" && !Takes(st.slots, st.typeIndex, types, storage, i)
    requires forall j :: 0 <= j < i && storage[j].controllerUnit != "" ==>
                           Takes(st.slots, st.typeIndex, types, storage, j)
    ensures Midway(st, types, storage, n) == Failure(Rejected(Some(i)))
  {
    hide *;
    MidwayStep(st, types, storage, n - 1);
    if i == n - 1 {
      MidwayIff(st, types, storage, i);
      var before := Midway(st, types, storage, i).value;
      StepIff(st.slots, st.typeIndex, types, storage, i, before);
      StepError(before, types, storage[i], i);
    } else {
      ExplicitFailsAt(st, types, storage, n - 1, i);
    }
  }

  // ----- the legacy phase -----

  lemma LegacyError(st: State, base: nat, types: seq<ControllerType>, storage: seq<Block>, i: nat)
    requires i < |storage| && PoolAt(st.slots, base, types) && StepOnPool(st, base, types, storage, i).Failure?
    ensures StepOnPool(st, base, types, storage, i).error
            == if storage[i].controllerIndex < 0 then IndexPanic(i) else Rejected(Some(i))
  {
    hide RoomForDisk, AssignedUnit, PlaceDisk;
  }

  lemma {:induction false} LegacyFailsAt(slots: Slots, base: nat, types: seq<ControllerType>, storage: seq<Block>,
                                         n: nat, i: nat)
    requires i < n <= |storage| && PoolAt(slots, base, types)
    requires PoolCarries(storage, 0, slots, base, types) && OwnControllers(slots, base, |types|)
    requires storage[i].controllerUnit == "" && !LegacyTakes(types, storage, i)
    requires forall j :: 0 <= j < i && storage[j].controllerUnit == "" ==> LegacyTakes(types, storage, j)
    ensures LegacyMidway(slots, base, types, storage, n)
            == Failure(if storage[i].controllerIndex < 0 then IndexPanic(i) else Rejected(Some(i)))
  {
    hide *;
    LegacyMidwayStep(slots, base, types, storage, n - 1);
    if i == n - 1 {
      LegacyMidwayIff(slots, base, types, storage, i);
      var before := LegacyMidway(slots, base, types, storage, i).value;
      LegacyStepIff(before, base, types, storage, i);
      LegacyError(before, base, types, storage, i);
    } else {
      LegacyFailsAt(slots, base, types, storage, n - 1, i);
    }
  }

  // ----- the whole run -----

  lemma RunFailsWithLegacy(slots: Slots, types: seq<ControllerType>, storage: seq<Block>)
    ensures LegacyPhase(slots, types, storage).Failure? ==>
              Run(slots, types, storage, false) == LegacyPhase(slots, types, storage)
    ensures LegacyPhase(slots, types, storage).Success? ==>
              Run(slots, types, storage, false)
              == Midway(LegacyPhase(slots, types, storage).value, types, storage, |storage|)
  {
    hide LegacyRun, AddControllers, ExplicitStep, LegacyStep;
  }

  lemma {:induction false} LegacyPhaseFailsAt(slots: Slots, types: seq<ControllerType>, storage: seq<Block>, i: nat)
    requires WellKeyed(slots) && PoolFits(slots, types) && i < |storage|
    requires storage[i].controllerUnit == "" && !LegacyTakes(types, storage, i)
    requires forall j :: 0 <= j < i && storage[j].controllerUnit == "" ==> LegacyTakes(types, storage, j)
    ensures LegacyPhase(slots, types, storage)
            == Failure(if storage[i].controllerIndex < 0 then IndexPanic(i) else Rejected(Some(i)))
  {
    AddControllersIff(slots, types);
    PoolStarts(slots, types, storage);
    LegacyFailsAt(AddControllers(slots, types).value, |slots|, types, storage, |storage|, i);
    BlockIsOrdered(storage, |storage|, i);
    hide WellKeyed, AddControllers, LegacyRun, PoolFits, LegacyTakes, LegacyBelow, PoolAt, PoolCarries, OwnControllers;
  }

  lemma PoolFails(slots: Slots, types: seq<ControllerType>, storage: seq<Block>)
    requires WellKeyed(slots) && !PoolFits(slots, types) && HasLegacy(storage)
    ensures LegacyPhase(slots, types, storage) == Failure(Rejected(None))
  {
    AddControllersIff(slots, types);
    LegacyBlocksIff(storage);
    hide WellKeyed, AddControllers, LegacyRun, PoolFits, LegacyBelow;
  }

  /**
   The error of a failed run. With a legacy block and a pool that cannot be made it
   names no block; otherwise the first legacy block not taken, a crash if its index
   is negative; and if all of those are taken, the first explicit block not taken.
   */
  lemma {:induction false} RunFailsAt(slots: Slots, types: seq<ControllerType>, storage: seq<Block>, i: nat)
    requires WellKeyed(slots) && i < |storage|
    ensures var r, legacy := Run(slots, types, storage, false), storage[i].controllerUnit == "";
            && (HasLegacy(storage) && !PoolFits(slots, types) ==> r == Failure(Rejected(None)))
            && (PoolFits(slots, types) && legacy && !LegacyTakes(types, storage, i)
                && (forall j :: 0 <= j < i && storage[j].controllerUnit == "" ==> LegacyTakes(types, storage, j)) ==>
                  r == Failure(if storage[i].controllerIndex < 0 then IndexPanic(i) else Rejected(Some(i))))
            && (!legacy && LegacyPhase(slots, types, storage).Success? ==>
                  var now := LegacyPhase(slots, types, storage).value;
                  !Takes(now.slots, now.typeIndex, types, storage, i)
                  && (forall j :: 0 <= j < i && storage[j].controllerUnit != "" ==>
                                    Takes(now.slots, now.typeIndex, types, storage, j)) ==>
                    r == Failure(Rejected(Some(i))))
  {
    hide *;
    RunFailsWithLegacy(slots, types, storage);
    if HasLegacy(storage) && !PoolFits(slots, types) {
      PoolFails(slots, types, storage);
    }
    if && PoolFits(slots, types) && storage[i].controllerUnit == "" && !LegacyTakes(types, storage, i)
       && forall j :: 0 <= j < i && storage[j].controllerUnit == "" ==> LegacyTakes(types, storage, j) {
      LegacyPhaseFailsAt(slots, types, storage, i);
    }
    if storage[i].controllerUnit != "" && LegacyPhase(slots, types, storage).Success? {
      LegacyPhaseKeeps(slots, types, storage);
      LegacyLeavesNoPending(slots, types, storage);
      var now := LegacyPhase(slots, types, storage).value;
      if && !Takes(now.slots, now.typeIndex, types, storage, i)
         && forall j :: 0 <= j < i && storage[j].controllerUnit != "" ==>
                          Takes(now.slots, now.typeIndex, types, storage, j) {
        ExplicitFailsAt(now, types, storage, |storage|, i);
      }
    }
  }
}
