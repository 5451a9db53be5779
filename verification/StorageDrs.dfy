/**
 Turning a Storage DRS recommendation into one datastore per new disk: explicit
 disk mappings first, then destinations for the disks left, then the first
 datastore found for whatever remains.
 */
module StorageDrs {
  import opened Wrappers

  type Ref = string

  datatype Datastore = Datastore(name: string, ref: Ref)

  datatype Locator = Locator(diskKey: int, datastore: Ref)

  /** A placement action; an untyped destination is None. */
  datatype Action =
    | PlacementAction(destination: Option<Ref>, disks: seq<Locator>)
    | OtherAction

  // ----- reading the recommendation -----

  /** All disk locators of the placement actions, in order. */
  function Mappings(actions: seq<Action>): seq<Locator> {
    if actions == [] then []
    else
      var last := actions[|actions| - 1];
      Mappings(actions[..|actions| - 1]) + (if last.PlacementAction? then last.disks else [])
  }

  /** Destinations of the placement actions that name no disk. */
  function Destinations(actions: seq<Action>): seq<Ref> {
    if actions == [] then []
    else
      var last := actions[|actions| - 1];
      Destinations(actions[..|actions| - 1])
      + (if last.PlacementAction? && last.destination.Some? && last.disks == [] then [last.destination.value] else [])
  }

  /** The n-th destination is that of action at[n]: the placement actions with a destination and no disk, in order. */
  ghost predicate Offers(actions: seq<Action>, destinations: seq<Ref>, at: seq<nat>) {
    && |at| == |destinations|
    && (forall n :: 0 <= n < |at| ==>
          at[n] < |actions| && actions[at[n]] == PlacementAction(Some(destinations[n]), []))
    && (forall m, n :: 0 <= m < n < |at| ==> at[m] < at[n])
    && (forall i :: (0 <= i < |actions| && actions[i].PlacementAction? && actions[i].destination.Some?
                     && |actions[i].disks| == 0) ==> i in at)
  }

  lemma {:induction false} DestinationsAt(actions: seq<Action>) returns (at: seq<nat>)
    ensures Offers(actions, Destinations(actions), at)
  {
    if actions == [] {
      at := [];
    } else {
      var n := |actions| - 1;
      at := DestinationsAt(actions[..n]);
      OffersOneMore(actions, Destinations(actions[..n]), at);
      if actions[n].PlacementAction? && actions[n].destination.Some? && actions[n].disks == [] {
        at := at + [n];
      }
    }
  }

  lemma OffersOneMore(actions: seq<Action>, destinations: seq<Ref>, at: seq<nat>)
    requires actions != [] && Offers(actions[..|actions| - 1], destinations, at)
    ensures var n, last := |actions| - 1, actions[|actions| - 1];
            if last.PlacementAction? && last.destination.Some? && last.disks == []
            then Offers(actions, destinations + [last.destination.value], at + [n])
            else Offers(actions, destinations, at)
  {
    var n := |actions| - 1;
    forall i | 0 <= i < |actions| && actions[i].PlacementAction? && actions[i].destination.Some?
               && |actions[i].disks| == 0
      ensures i in at + [n]
      ensures i < n ==> i in at
    {
      assert i < n ==> actions[..n][i] == actions[i];
    }
  }

  predicate Before(p: (nat, nat), q: (nat, nat)) {
    p.0 < q.0 || (p.0 == q.0 && p.1 < q.1)
  }

  predicate HasLocator(actions: seq<Action>, i: nat, l: nat) {
    i < |actions| && actions[i].PlacementAction? && l < |actions[i].disks|
  }

  /** The n-th mapping is locator at[n].1 of action at[n].0: every locator of a placement action, in order. */
  ghost predicate Maps(actions: seq<Action>, mappings: seq<Locator>, at: seq<(nat, nat)>) {
    && |at| == |mappings|
    && (forall n :: 0 <= n < |at| ==>
          HasLocator(actions, at[n].0, at[n].1) && mappings[n] == actions[at[n].0].disks[at[n].1])
    && (forall m, n :: 0 <= m < n < |at| ==> Before(at[m], at[n]))
    && (forall i: nat, l: nat :: HasLocator(actions, i, l) ==> (i, l) in at)
  }

  lemma {:induction false} MappingsAt(actions: seq<Action>) returns (at: seq<(nat, nat)>)
    ensures Maps(actions, Mappings(actions), at)
  {
    if actions == [] {
      at := [];
    } else {
      var n := |actions| - 1;
      at := MappingsAt(actions[..n]);
      MapsOneMore(actions, Mappings(actions[..n]), at);
      at := at + Row(actions[n], n);
    }
  }

  function Row(action: Action, n: nat): seq<(nat, nat)> {
    if action.PlacementAction? then seq(|action.disks|, l requires 0 <= l < |action.disks| => (n, l)) else []
  }

  lemma MapsOneMore(actions: seq<Action>, mappings: seq<Locator>, at: seq<(nat, nat)>)
    requires actions != [] && Maps(actions[..|actions| - 1], mappings, at)
    ensures var n, last := |actions| - 1, actions[|actions| - 1];
            Maps(actions, mappings + (if last.PlacementAction? then last.disks else []), at + Row(last, n))
  {
    var n := |actions| - 1;
    var row, front := Row(actions[n], n), actions[..n];
    forall i: nat, l: nat | HasLocator(actions, i, l)
      ensures (i, l) in at + row
    {
      if i < n {
        assert HasLocator(front, i, l);
      } else {
        assert row[l] == (i, l);
      }
    }
    forall k | 0 <= k < |at|
      ensures HasLocator(actions, at[k].0, at[k].1) && at[k].0 < n
      ensures mappings[k] == actions[at[k].0].disks[at[k].1]
    {
      assert HasLocator(front, at[k].0, at[k].1);
    }
  }

  /** diskDatastoreMappingsFromRecommendation */
  method DiskDatastoreMappings(actions: seq<Action>) returns (mappings: seq<Locator>)
    ensures mappings == Mappings(actions)
    ensures exists at :: Maps(actions, mappings, at)
  {
    ghost var at := MappingsAt(actions);
    mappings := [];
    for n := 0 to |actions|
      invariant mappings == Mappings(actions[..n])
    {
      assert actions[..n + 1][..n] == actions[..n];
      if actions[n].OtherAction? {
        continue;
      }
      ghost var before := mappings;
      var disks := actions[n].disks;
      for k := 0 to |disks|
        invariant mappings == before + disks[..k]
      {
        assert disks[..k + 1] == disks[..k] + [disks[k]];
        mappings := mappings + [disks[k]];
      }
      assert disks[..|disks|] == disks;
    }
    assert actions[..|actions|] == actions;
  }

  /** destinationOnlyActions */
  method DestinationOnlyActions(actions: seq<Action>) returns (destinations: seq<Ref>)
    ensures destinations == Destinations(actions)
    ensures exists at :: Offers(actions, destinations, at)
  {
    ghost var at := DestinationsAt(actions);
    destinations := [];
    for n := 0 to |actions|
      invariant destinations == Destinations(actions[..n])
    {
      assert actions[..n + 1][..n] == actions[..n];
      if actions[n].OtherAction? || actions[n].destination.None? {
        continue;
      }
      if |actions[n].disks| > 0 {
        continue;
      }
      destinations := destinations + [actions[n].destination.value];
    }
    assert actions[..|actions|] == actions;
  }

  // ----- closed form -----

  type Resolver = Ref -> Option<Datastore>

  /** The datastore of the last mapping that names the key and resolves. */
  function LastMapping(mappings: seq<Locator>, key: int, resolve: Resolver): Option<Datastore> {
    if mappings == [] then None
    else
      var last := mappings[|mappings| - 1];
      if last.diskKey == key && resolve(last.datastore).Some? then resolve(last.datastore)
      else LastMapping(mappings[..|mappings| - 1], key, resolve)
  }

  /** With repeated keys only the last index of a key receives its mappings. */
  predicate LastOfKey(keys: seq<int>, j: nat)
    requires j < |keys|
  {
    forall k :: j < k < |keys| ==> keys[k] != keys[j]
  }

  /** Disk j's own mapping, if it has one. */
  function Mapped(keys: seq<int>, mappings: seq<Locator>, resolve: Resolver, j: nat): Option<Datastore>
    requires j < |keys|
  {
    if LastOfKey(keys, j) then LastMapping(mappings, keys[j], resolve) else None
  }

  /** The destinations that resolve, in order. */
  function Resolved(destinations: seq<Ref>, resolve: Resolver): seq<Datastore> {
    if destinations == [] then []
    else
      var last := resolve(destinations[|destinations| - 1]);
      Resolved(destinations[..|destinations| - 1], resolve) + (if last.Some? then [last.value] else [])
  }

  /** How many of the first j disks have no mapping. */
  function UnmappedBefore(keys: seq<int>, mappings: seq<Locator>, resolve: Resolver, j: nat): (n: nat)
    requires j <= |keys|
    ensures n <= j
  {
    if j == 0 then 0
    else
      UnmappedBefore(keys, mappings, resolve, j - 1) + (if Mapped(keys, mappings, resolve, j - 1).None? then 1 else 0)
  }

  /**
   Disk j before defaulting: its mapping, or, as the k-th disk without one, the
   k-th available destination.
   */
  function Placed(keys: seq<int>, mappings: seq<Locator>, available: seq<Datastore>, resolve: Resolver, j: nat)
    : Option<Datastore>
    requires j < |keys|
  {
    var own := Mapped(keys, mappings, resolve, j);
    var k := UnmappedBefore(keys, mappings, resolve, j);
    if own.Some? then own
    else if k < |available| then Some(available[k])
    else None
  }

  /** The lowest disk at or after j that has a datastore. */
  function FirstPlaced(keys: seq<int>, mappings: seq<Locator>, available: seq<Datastore>, resolve: Resolver, j: nat)
    : (r: Option<Datastore>)
    requires j <= |keys|
    decreases |keys| - j
  {
    if j == |keys| then None
    else
      var here := Placed(keys, mappings, available, resolve, j);
      if here.Some? then here else FirstPlaced(keys, mappings, available, resolve, j + 1)
  }

  /** The outcome for two or more disks: what each has, and the first one's datastore for the rest. */
  function Filled(keys: seq<int>, mappings: seq<Locator>, available: seq<Datastore>, resolve: Resolver)
    : Option<seq<Datastore>> {
    var first := FirstPlaced(keys, mappings, available, resolve, 0);
    if first.None? then None
    else
      Some(seq(|keys|, j requires 0 <= j < |keys| =>
        var own := Placed(keys, mappings, available, resolve, j); if own.Some? then own.value else first.value))
  }

  lemma {:induction false} FirstPlacedAt(keys: seq<int>, mappings: seq<Locator>, available: seq<Datastore>,
                                         resolve: Resolver, j: nat)
    returns (k: nat)
    requires j <= |keys|
    ensures j <= k <= |keys| && forall i :: j <= i < k ==> Placed(keys, mappings, available, resolve, i).None?
    ensures k < |keys| ==> Placed(keys, mappings, available, resolve, k).Some?
    ensures FirstPlaced(keys, mappings, available, resolve, j)
            == if k < |keys| then Placed(keys, mappings, available, resolve, k) else None
    decreases |keys| - j
  {
    hide Placed;
    k := j;
    if j < |keys| && Placed(keys, mappings, available, resolve, j).None? {
      k := FirstPlacedAt(keys, mappings, available, resolve, j + 1);
    }
  }

  predicate IsFirstPlaced(keys: seq<int>, mappings: seq<Locator>, available: seq<Datastore>, resolve: Resolver, k: nat)
    requires k < |keys|
  {
    && Placed(keys, mappings, available, resolve, k).Some?
    && forall j: nat :: j < k ==> Placed(keys, mappings, available, resolve, j).None?
  }

  /**
   The outcome in its own terms: nothing when no disk has a datastore; otherwise
   every disk without one gets that of the lowest disk that has one.
   */
  lemma {:induction false} FilledIs(keys: seq<int>, mappings: seq<Locator>, available: seq<Datastore>,
                                    resolve: Resolver)
    ensures var r := Filled(keys, mappings, available, resolve);
            if r.None? then forall j :: 0 <= j < |keys| ==> Placed(keys, mappings, available, resolve, j).None?
            else
              && |r.value| == |keys|
              && exists k: nat :: k < |keys| && IsFirstPlaced(keys, mappings, available, resolve, k)
                   && forall j: nat :: j < |keys| ==>
                        var own := Placed(keys, mappings, available, resolve, j);
                        Some(r.value[j]) == if own.Some? then own else Placed(keys, mappings, available, resolve, k)
  {
    hide Placed, FirstPlaced;
    var k := FirstPlacedAt(keys, mappings, available, resolve, 0);
    assert k < |keys| ==> IsFirstPlaced(keys, mappings, available, resolve, k);
  }

  /** The datastores chosen for the new disks, None when the recommendation settles nothing. */
  function Answer(actions: seq<Action>, keys: seq<int>, fallback: Datastore, resolve: Resolver)
    : (r: Option<seq<Datastore>>)
    ensures r.Some? && keys != [] ==> |r.value| == |keys|
  {
    var mappings, available := Mappings(actions), Resolved(Destinations(actions), resolve);
    if |keys| == 0 then Some([fallback])
    else if |keys| >= 2 then Filled(keys, mappings, available, resolve)
    else if available != [] then Some([available[0]])
    else
      var own := LastMapping(mappings, keys[0], resolve);
      if own.Some? then Some([own.value]) else None
  }

  // ----- the three phases, on the result array -----

  /** Phase one: every mapping of a known key, later ones overwriting earlier ones. */
  method ApplyMappings(result: array<Option<Datastore>>, keys: seq<int>, mappings: seq<Locator>, resolve: Resolver)
    requires result.Length == |keys|
    requires forall j :: 0 <= j < |keys| ==> result[j] == None
    modifies result
    ensures forall j :: 0 <= j < |keys| ==> result[j] == Mapped(keys, mappings, resolve, j)
  {
    var keyIndex := map[];
    for i := 0 to |keys|
      invariant forall k :: k in keyIndex ==> 0 <= keyIndex[k] < i && keys[keyIndex[k]] == k
                                              && forall m :: keyIndex[k] < m < i ==> keys[m] != k
      invariant forall j :: 0 <= j < i ==> keys[j] in keyIndex
    {
      keyIndex := keyIndex[keys[i] := i];
    }
    for n := 0 to |mappings|
      invariant forall j :: 0 <= j < |keys| ==> result[j] == Mapped(keys, mappings[..n], resolve, j)
    {
      var m := mappings[n];
      assert mappings[..n + 1][..n] == mappings[..n];
      var found := resolve(m.datastore);
      if m.diskKey !in keyIndex || found.None? {
        continue;
      }
      assert LastOfKey(keys, keyIndex[m.diskKey]);
      assert forall j :: 0 <= j < |keys| && j != keyIndex[m.diskKey] && LastOfKey(keys, j) ==> keys[j] != m.diskKey;
      result[keyIndex[m.diskKey]] := found;
    }
    assert mappings[..|mappings|] == mappings;
  }

  lemma {:induction false} UnmappedGrows(keys: seq<int>, mappings: seq<Locator>, resolve: Resolver, i: nat, j: nat)
    requires i <= j <= |keys|
    ensures UnmappedBefore(keys, mappings, resolve, i) <= UnmappedBefore(keys, mappings, resolve, j)
    ensures i < j && Mapped(keys, mappings, resolve, i).None? ==>
              UnmappedBefore(keys, mappings, resolve, i) < UnmappedBefore(keys, mappings, resolve, j)
    decreases j
  {
    hide Mapped;
    if i < j {
      UnmappedGrows(keys, mappings, resolve, i, j - 1);
    }
  }

  /** Destinations beyond those consumed before `bound` do not move the disks before it. */
  lemma {:induction false} PlacedStable(keys: seq<int>, mappings: seq<Locator>, available: seq<Datastore>,
                                        all: seq<Datastore>, resolve: Resolver, bound: nat)
    requires bound <= |keys| && UnmappedBefore(keys, mappings, resolve, bound) <= |available| && available <= all
    ensures forall j :: 0 <= j < bound ==>
            Placed(keys, mappings, all, resolve, j) == Placed(keys, mappings, available, resolve, j)
    ensures forall j :: 0 <= j < bound ==> Placed(keys, mappings, available, resolve, j).Some?
  {
    hide Mapped, UnmappedBefore;
    forall j | 0 <= j < bound
      ensures Placed(keys, mappings, all, resolve, j) == Placed(keys, mappings, available, resolve, j)
      ensures Placed(keys, mappings, available, resolve, j).Some?
    {
      UnmappedGrows(keys, mappings, resolve, j, bound);
    }
  }

  lemma {:induction false} ResolvedPrefix(destinations: seq<Ref>, n: nat, resolve: Resolver)
    requires n <= |destinations|
    ensures Resolved(destinations[..n], resolve) <= Resolved(destinations, resolve)
    decreases |destinations| - n
  {
    if n == |destinations| {
      assert destinations[..n] == destinations;
    } else {
      assert destinations[..n + 1][..n] == destinations[..n];
      ResolvedPrefix(destinations, n + 1, resolve);
    }
  }

  /** Where phase two stands: everything before the cursor is placed, nothing after it moved. */
  ghost predicate FilledTo(result: seq<Option<Datastore>>, keys: seq<int>, mappings: seq<Locator>,
                           available: seq<Datastore>, resolve: Resolver, cursor: nat)
  {
    && cursor <= |keys| == |result|
    && UnmappedBefore(keys, mappings, resolve, cursor) == |available|
    && (forall j :: 0 <= j < cursor ==> result[j] == Placed(keys, mappings, available, resolve, j))
    && (forall j :: cursor <= j < |keys| ==> result[j] == Mapped(keys, mappings, resolve, j))
  }

  lemma {:induction false} SkipFilled(result: seq<Option<Datastore>>, keys: seq<int>, mappings: seq<Locator>,
                                      available: seq<Datastore>, resolve: Resolver, cursor: nat)
    requires FilledTo(result, keys, mappings, available, resolve, cursor) && cursor < |keys| && result[cursor].Some?
    ensures FilledTo(result, keys, mappings, available, resolve, cursor + 1)
  {
  }

  lemma {:induction false} FillOne(result: seq<Option<Datastore>>, keys: seq<int>, mappings: seq<Locator>,
                                   available: seq<Datastore>, resolve: Resolver, cursor: nat, ds: Datastore)
    requires FilledTo(result, keys, mappings, available, resolve, cursor) && cursor < |keys| && result[cursor].None?
    ensures FilledTo(result[cursor := Some(ds)], keys, mappings, available + [ds], resolve, cursor + 1)
  {
    hide Mapped;
    PlacedStable(keys, mappings, available, available + [ds], resolve, cursor);
  }

  lemma {:induction false} AllFilled(result: seq<Option<Datastore>>, keys: seq<int>, mappings: seq<Locator>,
                                     available: seq<Datastore>, all: seq<Datastore>, resolve: Resolver)
    requires FilledTo(result, keys, mappings, available, resolve, |keys|) && available <= all
    ensures forall j :: 0 <= j < |keys| ==> result[j] == Placed(keys, mappings, all, resolve, j)
  {
    hide Placed;
    PlacedStable(keys, mappings, available, all, resolve, |keys|);
  }

  lemma {:induction false} RestUnavailable(result: seq<Option<Datastore>>, keys: seq<int>, mappings: seq<Locator>,
                                           available: seq<Datastore>, resolve: Resolver, cursor: nat)
    requires FilledTo(result, keys, mappings, available, resolve, cursor)
    ensures forall j :: 0 <= j < |keys| ==> result[j] == Placed(keys, mappings, available, resolve, j)
  {
    hide Mapped, UnmappedBefore;
    forall j | cursor <= j < |keys|
      ensures result[j] == Placed(keys, mappings, available, resolve, j)
    {
      UnmappedGrows(keys, mappings, resolve, cursor, j);
    }
  }

  /** Phase two: destinations go to the disks still without a datastore, in order. */
  method ApplyDestinations(result: array<Option<Datastore>>, keys: seq<int>, destinations: seq<Ref>, resolve: Resolver,
                           ghost mappings: seq<Locator>)
    requires result.Length == |keys|
    requires forall j :: 0 <= j < |keys| ==> result[j] == Mapped(keys, mappings, resolve, j)
    modifies result
    ensures forall j :: 0 <= j < |keys| ==>
              result[j] == Placed(keys, mappings, Resolved(destinations, resolve), resolve, j)
  {
    hide Mapped, Placed;
    var unresolvedIdx := 0;
    assert FilledTo(result[..], keys, mappings, [], resolve, 0);
    hide FilledTo;
    for n := 0 to |destinations|
      invariant 0 <= unresolvedIdx <= |keys|
      invariant FilledTo(result[..], keys, mappings, Resolved(destinations[..n], resolve), resolve, unresolvedIdx)
    {
      assert destinations[..n + 1][..n] == destinations[..n];
      ghost var before := Resolved(destinations[..n], resolve);
      var ds := resolve(destinations[n]);
      assert Resolved(destinations[..n + 1], resolve) == if ds.Some? then before + [ds.value] else before;
      if ds.None? {
        continue;
      }
      while unresolvedIdx < |keys| && result[unresolvedIdx].Some?
        invariant 0 <= unresolvedIdx <= |keys|
        invariant FilledTo(result[..], keys, mappings, before, resolve, unresolvedIdx)
        decreases |keys| - unresolvedIdx
      {
        SkipFilled(result[..], keys, mappings, before, resolve, unresolvedIdx);
        unresolvedIdx := unresolvedIdx + 1;
      }
      if unresolvedIdx >= |keys| {
        ResolvedPrefix(destinations, n, resolve);
        AllFilled(result[..], keys, mappings, before, Resolved(destinations, resolve), resolve);
        return;
      }
      FillOne(result[..], keys, mappings, before, resolve, unresolvedIdx, ds.value);
      ghost var filled := result[..];
      result[unresolvedIdx] := ds;
      assert result[..] == filled[unresolvedIdx := ds];
      unresolvedIdx := unresolvedIdx + 1;
    }
    assert destinations[..|destinations|] == destinations;
    RestUnavailable(result[..], keys, mappings, Resolved(destinations, resolve), resolve, unresolvedIdx);
  }

  lemma {:induction false} FirstPlacedIs(keys: seq<int>, mappings: seq<Locator>, available: seq<Datastore>,
                                         resolve: Resolver, j: nat, at: nat)
    requires j <= at <= |keys|
    requires forall k :: j <= k < at ==> Placed(keys, mappings, available, resolve, k).None?
    ensures FirstPlaced(keys, mappings, available, resolve, j) == FirstPlaced(keys, mappings, available, resolve, at)
    decreases at - j
  {
    hide Placed;
    if j < at {
      FirstPlacedIs(keys, mappings, available, resolve, j + 1, at);
    }
  }

  /** Phase three: the lowest resolved disk's datastore fills every gap. */
  method ApplyDefault(result: array<Option<Datastore>>, keys: seq<int>, resolve: Resolver,
                      ghost mappings: seq<Locator>, ghost available: seq<Datastore>)
    returns (r: Option<seq<Datastore>>)
    requires result.Length == |keys|
    requires forall j :: 0 <= j < |keys| ==> result[j] == Placed(keys, mappings, available, resolve, j)
    modifies result
    ensures r == Filled(keys, mappings, available, resolve)
  {
    hide Placed;
    var at := 0;
    while at < result.Length && result[at].None?
      invariant 0 <= at <= result.Length && forall j :: 0 <= j < at ==> result[j].None?
    {
      at := at + 1;
    }
    FirstPlacedIs(keys, mappings, available, resolve, 0, at);
    if at == result.Length {
      return None;
    }
    var first := result[at].value;
    for i := 0 to result.Length
      invariant forall j :: 0 <= j < i ==>
                  result[j] == var own := Placed(keys, mappings, available, resolve, j); if own.Some? then own
                    else Some(first)
      invariant forall j :: i <= j < |keys| ==> result[j] == Placed(keys, mappings, available, resolve, j)
    {
      if result[i].None? {
        result[i] := Some(first);
      }
    }
    var list := [];
    for i := 0 to result.Length
      invariant |list| == i && forall j :: 0 <= j < i ==> Some(list[j]) == result[j]
    {
      list := list + [result[i].value];
    }
    assert list == Filled(keys, mappings, available, resolve).value;
    return Some(list);
  }

  /** datastoresForNewDisks */
  method DatastoresForNewDisks(actions: seq<Action>, newDiskKeys: seq<int>, fallback: Datastore, resolve: Resolver)
    returns (r: Option<seq<Datastore>>)
    ensures |newDiskKeys| == 0 ==> r == Some([fallback])
    ensures |newDiskKeys| >= 2 ==>
              r == Filled(newDiskKeys, Mappings(actions), Resolved(Destinations(actions), resolve), resolve)
    ensures |newDiskKeys| == 1 ==>
              var available := Resolved(Destinations(actions), resolve);
              var own := LastMapping(Mappings(actions), newDiskKeys[0], resolve);
              r == if available != [] then Some([available[0]]) else if own.Some? then Some([own.value]) else None
    ensures r.Some? && newDiskKeys != [] ==> |r.value| == |newDiskKeys|
    ensures r == Answer(actions, newDiskKeys, fallback, resolve)
  {
    hide Filled, Placed;
    if |newDiskKeys| == 0 {
      return Some([fallback]);
    }
    var result := new Option<Datastore>[|newDiskKeys|](_ => None);
    var mappings := DiskDatastoreMappings(actions);
    ApplyMappings(result, newDiskKeys, mappings, resolve);
    var destinations := DestinationOnlyActions(actions);
    if |newDiskKeys| == 1 {
      var first := FirstResolved(destinations, resolve);
      assert Mapped(newDiskKeys, mappings, resolve, 0) == LastMapping(mappings, newDiskKeys[0], resolve);
      if first.Some? {
        result[0] := first;
      }
      return if result[0].Some? then Some([result[0].value]) else None;
    }
    ApplyDestinations(result, newDiskKeys, destinations, resolve, mappings);
    r := ApplyDefault(result, newDiskKeys, resolve, mappings, Resolved(destinations, resolve));
    assert r == Answer(actions, newDiskKeys, fallback, resolve);
  }

  /** With a single disk the first destination that resolves overrides its mapping. */
  method FirstResolved(destinations: seq<Ref>, resolve: Resolver) returns (first: Option<Datastore>)
    ensures var available := Resolved(destinations, resolve);
            first == if available != [] then Some(available[0]) else None
  {
    for n := 0 to |destinations|
      invariant Resolved(destinations[..n], resolve) == []
    {
      assert destinations[..n + 1][..n] == destinations[..n];
      var ds := resolve(destinations[n]);
      if ds.Some? {
        ResolvedPrefix(destinations, n + 1, resolve);
        return ds;
      }
    }
    assert destinations[..|destinations|] == destinations;
    return None;
  }

  // ----- what the closed form promises -----

  lemma {:induction false} LastMappingIs(mappings: seq<Locator>, key: int, resolve: Resolver)
    ensures var r := LastMapping(mappings, key, resolve);
            if r.None? then forall m :: 0 <= m < |mappings| && mappings[m].diskKey == key ==>
              resolve(mappings[m].datastore).None?
            else exists m :: 0 <= m < |mappings| && mappings[m].diskKey == key && resolve(mappings[m].datastore) == r
                             && forall later :: m < later < |mappings| && mappings[later].diskKey == key ==>
                                                  resolve(mappings[later].datastore).None?
  {
    if mappings != [] {
      LastMappingIs(mappings[..|mappings| - 1], key, resolve);
    }
  }

  lemma {:induction false} FirstPlacedNone(keys: seq<int>, mappings: seq<Locator>, available: seq<Datastore>,
                                           resolve: Resolver, j: nat)
    requires j <= |keys|
    ensures FirstPlaced(keys, mappings, available, resolve, j).None? <==>
              forall k :: j <= k < |keys| ==> Placed(keys, mappings, available, resolve, k).None?
    decreases |keys| - j
  {
    hide Placed;
    if j < |keys| {
      FirstPlacedNone(keys, mappings, available, resolve, j + 1);
    }
  }

  /**
   For two or more distinct keys: every mapped disk keeps the last mapping of its
   key, and the recommendation is rejected exactly when it neither maps a known
   key nor offers a destination (counting only references that resolve).
   */
  lemma {:induction false} DistinctKeysOutcome(r: Option<seq<Datastore>>, keys: seq<int>, mappings: seq<Locator>,
                                               available: seq<Datastore>, resolve: Resolver)
    requires |keys| >= 2 && r == Filled(keys, mappings, available, resolve)
    requires forall i, j :: 0 <= i < j < |keys| ==> keys[i] != keys[j]
    ensures r.None? <==>
              available == [] && forall m :: 0 <= m < |mappings| && mappings[m].diskKey in keys ==>
                resolve(mappings[m].datastore).None?
    ensures r.Some? ==> forall j :: 0 <= j < |keys| && LastMapping(mappings, keys[j], resolve).Some? ==>
                                      r.value[j] == LastMapping(mappings, keys[j], resolve).value
  {
    assert forall j :: 0 <= j < |keys| ==> LastOfKey(keys, j);
    hide LastMapping, UnmappedBefore;
    FirstPlacedNone(keys, mappings, available, resolve, 0);
    forall j | 0 <= j < |keys|
      ensures LastMapping(mappings, keys[j], resolve).None? <==>
                forall m :: 0 <= m < |mappings| && mappings[m].diskKey == keys[j] ==>
                  resolve(mappings[m].datastore).None?
    {
      LastMappingIs(mappings, keys[j], resolve);
    }
    ZeroUnmapped(keys, mappings, resolve);
    if r.None? {
      assert Placed(keys, mappings, available, resolve, 0).None?;
      forall m | 0 <= m < |mappings| && mappings[m].diskKey in keys
        ensures resolve(mappings[m].datastore).None?
      {
        var j :| 0 <= j < |keys| && keys[j] == mappings[m].diskKey;
        assert Placed(keys, mappings, available, resolve, j).None?;
      }
    } else {
      var k :| 0 <= k < |keys| && Placed(keys, mappings, available, resolve, k).Some?;
      assert keys[k] in keys;
    }
  }

  lemma ZeroUnmapped(keys: seq<int>, mappings: seq<Locator>, resolve: Resolver)
    ensures UnmappedBefore(keys, mappings, resolve, 0) == 0
  {
  }
}
