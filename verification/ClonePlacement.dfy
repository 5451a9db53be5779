/**
 The placement section of a clone: resolve the VM home, ask Storage DRS or the
 storage policies about every new disk, and hand the result to the clone by index.
 */
module ClonePlacement {
  import opened Wrappers
  import opened DeviceList
  import opened Allocator
  import opened AllocatorOrder
  import opened StorageDrs
  import opened StorageDevices
  import opened DatastorePlacement

  /** Values the steps share; a missing entry is None. */
  class StateBag {
    var datastore: Option<Datastore>
    var selectionMethod: Option<string>
    var storagePolicyID: Option<string>

    constructor ()
      ensures datastore == None && selectionMethod == None && storagePolicyID == None
    {
      datastore, selectionMethod, storagePolicyID := None, None, None;
    }
  }

  /** FirstStoragePolicyName */
  method FirstStoragePolicyName(names: seq<string>) returns (name: string)
    ensures name == "" <==> forall i :: 0 <= i < |names| ==> names[i] == ""
    ensures name != "" ==> exists i :: 0 <= i < |names| && names[i] == name && forall j :: 0 <= j < i ==> names[j] == ""
  {
    for i := 0 to |names|
      invariant forall j :: 0 <= j < i ==> names[j] == ""
    {
      if names[i] != "" {
        return names[i];
      }
    }
    return "";
  }

  /**
   StepResolveDatastore.Run. The direct datastore and the cluster selection are
   what their lookups return, None when they fail.
   */
  method ResolveDatastore(state: StateBag, service: PolicyService, datastoreName: string, direct: Option<Datastore>,
                          clusterName: string, selected: Option<(Datastore, string)>, storagePolicy: string)
    returns (ok: bool)
    modifies state, service
    ensures datastoreName != "" ==>
              && ok == direct.Some? && service.lookups == old(service.lookups)
              && state.storagePolicyID == old(state.storagePolicyID)
              && state.datastore == (if ok then direct else old(state.datastore))
              && state.selectionMethod == (if ok then Some("direct") else old(state.selectionMethod))
    ensures datastoreName == "" && clusterName != "" ==>
              && ok == selected.Some? && service.lookups == old(service.lookups)
              && state.storagePolicyID == old(state.storagePolicyID)
              && state.datastore == (if ok then Some(selected.value.0) else old(state.datastore))
              && state.selectionMethod == (if ok then Some(selected.value.1) else old(state.selectionMethod))
    ensures datastoreName == "" && clusterName == "" && storagePolicy == "" ==>
              ok && service.lookups == old(service.lookups)
              && state.datastore == old(state.datastore) && state.storagePolicyID == old(state.storagePolicyID)
              && state.selectionMethod == old(state.selectionMethod)
    ensures datastoreName == "" && clusterName == "" && storagePolicy != "" ==>
              var id, before := service.profileID(storagePolicy), old(service.lookups);
              && ok == (id.Some? && service.answer(id.value, |before|).Some?)
              && service.lookups == (if id.Some? then before + [id.value] else before)
              && state.storagePolicyID == (if ok then id else old(state.storagePolicyID))
              && state.datastore == (if ok then service.answer(id.value, |before|) else old(state.datastore))
              && state.selectionMethod == (if ok then Some("storage-policy") else old(state.selectionMethod))
    ensures old(service.lookups) <= service.lookups
  {
    var ds: Option<Datastore>, method_: string;
    if datastoreName != "" {
      ds, method_ := direct, "direct";
      if ds.None? {
        return false;
      }
    } else if clusterName != "" {
      if selected.None? {
        return false;
      }
      ds, method_ := Some(selected.value.0), selected.value.1;
    } else if storagePolicy != "" {
      var policyID := service.profileID(storagePolicy);
      if policyID.None? {
        return false;
      }
      ds := service.FindCompatibleDatastore(policyID.value);
      if ds.None? {
        return false;
      }
      method_ := "storage-policy";
      state.storagePolicyID := policyID;
    } else {
      return true;
    }
    state.datastore, state.selectionMethod := ds, Some(method_);
    return true;
  }

  /** The block with its policy name replaced by the policy's ID. */
  function WithPolicyID(block: Block, profileID: string -> Option<string>): Option<Block> {
    if block.policy == "" then Some(block)
    else
      var id := profileID(block.policy);
      if id.Some? then Some(block.(policy := id.value)) else None
  }

  /** disksFromStorageConfig: all blocks with resolved policies, or an error. */
  method DisksFromStorageConfig(storage: seq<Block>, profileID: string -> Option<string>)
    returns (disks: Option<seq<Block>>)
    ensures disks.Some? <==> forall i :: 0 <= i < |storage| ==> WithPolicyID(storage[i], profileID).Some?
    ensures disks.Some? <==> forall i :: 0 <= i < |storage| && storage[i].policy != "" ==>
                                           profileID(storage[i].policy).Some?
    ensures disks.Some? ==> |disks.value| == |storage|
                            && forall i :: 0 <= i < |storage| ==>
                                 WithPolicyID(storage[i], profileID) == Some(disks.value[i])
    ensures disks.Some? ==>
              forall i :: 0 <= i < |storage| ==>
                            disks.value[i]
                            == storage[i].(policy := if storage[i].policy == "" then ""
                                                     else profileID(storage[i].policy).value)
  {
    var list := [];
    for i := 0 to |storage|
      invariant |list| == i && forall j :: 0 <= j < i ==> WithPolicyID(storage[j], profileID) == Some(list[j])
    {
      var disk := WithPolicyID(storage[i], profileID);
      if disk.None? {
        return None;
      }
      list := list + [disk.value];
    }
    return Some(list);
  }

  function Policies(disks: seq<Block>): (ids: seq<string>)
    ensures |ids| == |disks| && forall i :: 0 <= i < |disks| ==> ids[i] == disks[i].policy
  {
    seq(|disks|, i requires 0 <= i < |disks| => disks[i].policy)
  }

  // ----- one lookup per policy over both steps -----

  /** `name` is the first non-empty one. */
  ghost predicate IsFirst(names: seq<string>, name: string) {
    if name == "" then forall i :: 0 <= i < |names| ==> names[i] == ""
    else exists i :: 0 <= i < |names| && names[i] == name && forall j :: 0 <= j < i ==> names[j] == ""
  }

  lemma {:induction false} IsFirstCases(names: seq<string>, name: string)
    requires name != "" && IsFirst(names, name)
    ensures names != []
    ensures IsFirst(names[..|names| - 1], name) || (IsFirst(names[..|names| - 1], "") && names[|names| - 1] == name)
  {
    var i :| 0 <= i < |names| && names[i] == name && forall j :: 0 <= j < i ==> names[j] == "";
    if i < |names| - 1 {
      assert names[..|names| - 1][i] == name;
    }
  }

  /** Looking up the first policy up front takes the head of the list of lookups. */
  lemma {:induction false} SeedTakesHead(policies: seq<string>, seed: string)
    requires seed != "" && IsFirst(policies, seed)
    ensures FreshPolicies(policies, {}) == [seed] + FreshPolicies(policies, {seed})
  {
    IsFirstCases(policies, seed);
    hide IsFirst;
    var front := policies[..|policies| - 1];
    if IsFirst(front, seed) {
      SeedTakesHead(front, seed);
    } else {
      NothingToLookUp(front, {});
      NothingToLookUp(front, {seed});
    }
  }

  lemma {:induction false} NothingToLookUp(policies: seq<string>, seeded: set<string>)
    requires IsFirst(policies, "")
    ensures FreshPolicies(policies, seeded) == []
  {
    if policies != [] {
      NothingToLookUp(policies[..|policies| - 1], seeded);
    }
  }

  /** What the first step left behind when only policies decide placement. */
  ghost predicate HomeResolved(state: StateBag, service: PolicyService, names: seq<string>, before: nat)
    reads state, service
  {
    if state.storagePolicyID.None? then
      state.datastore == None && IsFirst(names, "") && before == |service.lookups|
    else
      var id := state.storagePolicyID.value;
      && before + 1 == |service.lookups| && service.lookups[before] == id
      && state.datastore.Some? && state.datastore == service.answer(id, before)
      && exists first :: first != "" && IsFirst(names, first) && service.profileID(first) == Some(id)
  }

  lemma {:induction false} HomeIs(state: StateBag, service: PolicyService, names: seq<string>, before: nat)
    requires HomeResolved(state, service, names, before) && forall name :: service.profileID(name) != Some("")
    ensures state.storagePolicyID.None? ==> state.datastore == None && IsFirst(names, "") && before == |service.lookups|
    ensures state.storagePolicyID.Some? ==>
              var id := state.storagePolicyID.value;
              && id != "" && before + 1 == |service.lookups| && service.lookups[before] == id
              && state.datastore.Some? && state.datastore == service.answer(id, before)
              && exists first :: first != "" && IsFirst(names, first) && service.profileID(first) == Some(id)
  {
  }

  /** Per-disk placement of policy IDs, given what the first step looked up. */
  method PlaceIDs(service: PolicyService, ids: seq<string>, primary: Option<Datastore>, seed: string, ghost before: nat)
    returns (r: Option<seq<Datastore>>)
    requires seed == "" ==> IsFirst(ids, "") && before == |service.lookups|
    requires seed != "" ==>
               && before + 1 == |service.lookups| && service.lookups[before] == seed
               && primary.Some? && primary == service.answer(seed, before) && IsFirst(ids, seed)
    modifies service
    ensures r.Some? ==>
              && before <= |old(service.lookups)|
              && service.lookups == old(service.lookups)[..before] + FreshPolicies(ids, {})
              && (if seed == "" then r.value == []
                  else OwnAnswers(r.value, ids, service.answer, before, service.lookups))
  {
    hide *;
    PlacementCases(ids, seed, primary);
    SeededIs(seed, primary);
    ghost var seen := service.lookups;
    var placed := ResolveStoragePolicyPlacement(service, ids, primary, "", "", "", seed);
    if placed.None? {
      return None;
    }
    if seed != "" {
      assert seen == seen[..before] + [seed];
      SeedCounts(placed.value.1, ids, seed, primary, service.answer, before, seen, service.lookups);
    }
    return Some(placed.value.1);
  }

  /** The per-disk step, after the VM home was resolved by policy. */
  method PlaceDisksByPolicy(state: StateBag, service: PolicyService, storage: seq<Block>, ghost before: nat)
    returns (r: Option<seq<Datastore>>, disks: Option<seq<Block>>)
    requires HomeResolved(state, service, Policies(storage), before)
    requires forall name :: service.profileID(name) != Some("")
    modifies service
    ensures r.Some? ==>
              && disks.Some? && |disks.value| == |storage| && before <= |old(service.lookups)|
              && service.lookups == old(service.lookups)[..before] + FreshPolicies(Policies(disks.value), {})
              && (if IsFirst(Policies(storage), "") then r.value == []
                  else OwnAnswers(r.value, Policies(disks.value), service.answer, before, service.lookups))
  {
    HomeIs(state, service, Policies(storage), before);
    hide *;
    r := None;
    disks := DisksFromStorageConfig(storage, service.profileID);
    if disks.None? {
      return;
    }
    var seed := if state.storagePolicyID.Some? then state.storagePolicyID.value else "";
    SameBlanks(storage, disks.value, service.profileID);
    if seed != "" {
      FirstHasSeed(storage, disks.value, service.profileID, seed);
    }
    r := PlaceIDs(service, Policies(disks.value), state.datastore, seed, before);
  }

  /** Which lookups the second step makes, with and without a seed. */
  lemma {:induction false} PlacementCases(ids: seq<string>, seed: string, primary: Option<Datastore>)
    ensures IsFirst(ids, "") ==> PlacementSkipped(ids, "", "") && FreshPolicies(ids, {}) == []
    ensures seed != "" && IsFirst(ids, seed) && primary.Some? ==>
              && !PlacementSkipped(ids, "", "") && !IsFirst(ids, "")
              && FreshPolicies(ids, {}) == [seed] + FreshPolicies(ids, Seeded(seed, primary))
  {
    hide FreshPolicies;
    if IsFirst(ids, "") {
      NothingToLookUp(ids, {});
    }
    if seed != "" && IsFirst(ids, seed) {
      SeedTakesHead(ids, seed);
    }
  }

  /**
   VM home and per-disk placement together, when neither a datastore nor a cluster
   is set: on success every distinct policy has been looked up exactly once, in
   order of first use, and each disk got an answer for its own policy.
   */
  method PlaceByPoliciesOnly(state: StateBag, service: PolicyService, storage: seq<Block>)
    returns (r: Option<seq<Datastore>>, disks: Option<seq<Block>>)
    requires state.datastore == None && state.storagePolicyID == None
    requires forall name :: service.profileID(name) != Some("")
    modifies state, service
    ensures r.Some? ==>
              && disks.Some? && |disks.value| == |storage|
              && service.lookups == old(service.lookups) + FreshPolicies(Policies(disks.value), {})
              && (if IsFirst(Policies(storage), "") then r.value == []
                  else OwnAnswers(r.value, Policies(disks.value), service.answer, |old(service.lookups)|,
                                  service.lookups))
  {
    hide FreshPolicies, OwnAnswers;
    var names := Policies(storage);
    var first := FirstStoragePolicyName(names);
    r, disks := None, None;
    ghost var before := |service.lookups|;
    var ok := ResolveDatastore(state, service, "", None, "", None, first);
    if ok {
      assert IsFirst(names, first);
      assert service.lookups[..before] == old(service.lookups);
      r, disks := PlaceDisksByPolicy(state, service, storage, before);
    }
  }

  /** Each disk with a policy got an answer given for that policy; equal policies share one. */
  ghost predicate OwnAnswers(placements: seq<Datastore>, policies: seq<string>,
                             answer: (string, nat) -> Option<Datastore>, before: nat, lookups: seq<string>) {
    && |placements| == |policies|
    && (forall i :: 0 <= i < |policies| && policies[i] != "" ==>
          exists k :: before <= k < |lookups| && lookups[k] == policies[i]
            && answer(policies[i], k) == Some(placements[i]))
    && (forall i, j :: 0 <= i < j < |policies| && policies[i] == policies[j] ==> placements[i] == placements[j])
  }

  /** The seed is itself an answer: the one lookup the first step made. */
  lemma {:induction false} SeedCounts(placements: seq<Datastore>, policies: seq<string>, seed: string,
                                      primary: Option<Datastore>, answer: (string, nat) -> Option<Datastore>,
                                      before: nat, seen: seq<string>, lookups: seq<string>)
    requires before + 1 == |seen| && seen <= lookups && seen[before] == seed && primary == answer(seed, before)
    requires FollowsPolicies(placements, policies, seed, primary, answer, |seen|, lookups)
    ensures OwnAnswers(placements, policies, answer, before, lookups)
  {
  }

  lemma {:induction false} SameBlanks(storage: seq<Block>, disks: seq<Block>, profileID: string -> Option<string>)
    requires |disks| == |storage| && forall name :: profileID(name) != Some("")
    requires forall i :: 0 <= i < |storage| ==> WithPolicyID(storage[i], profileID) == Some(disks[i])
    ensures forall i :: 0 <= i < |storage| ==> (Policies(disks)[i] == "" <==> Policies(storage)[i] == "")
    ensures IsFirst(Policies(disks), "") <==> IsFirst(Policies(storage), "")
  {
  }

  lemma {:induction false} FirstHasSeed(storage: seq<Block>, disks: seq<Block>, profileID: string -> Option<string>,
                                        seed: string)
    requires |disks| == |storage| && forall name :: profileID(name) != Some("")
    requires forall i :: 0 <= i < |storage| ==> WithPolicyID(storage[i], profileID) == Some(disks[i])
    requires exists first :: first != "" && IsFirst(Policies(storage), first) && profileID(first) == Some(seed)
    ensures seed != "" && IsFirst(Policies(disks), seed) && !IsFirst(Policies(storage), "")
  {
  }

  // ----- Storage DRS -----

  function Copies(ds: Datastore, count: nat): (list: seq<Datastore>)
    ensures |list| == count && forall i :: 0 <= i < count ==> list[i] == ds
  {
    seq(count, _ => ds)
  }

  /** duplicateDatastore */
  method DuplicateDatastore(ds: Datastore, count: nat) returns (list: seq<Datastore>)
    ensures list == Copies(ds, count)
  {
    list := [];
    for i := 0 to count
      invariant |list| == i && forall j :: 0 <= j < i ==> list[j] == ds
    {
      list := list + [ds];
    }
  }

  /** What a server says: the cluster's datastores, a recommendation for keys, a datastore by reference. */
  datatype Cluster = Cluster(datastores: Option<seq<Datastore>>, recommend: seq<int> -> Option<seq<Action>>,
                             resolve: Resolver)

  /** Whether disks can be placed at all: the cluster has a datastore and the request can be built. */
  ghost predicate CanAsk(cluster: Cluster, config: StorageConfig, existing: VirtualDeviceList, slots: Slots,
                         primaryDiskSize: int) {
    && cluster.datastores.Some? && cluster.datastores.value != [] && config.storage != []
    && Resizable(existing, primaryDiskSize)
    && Run(slots, config.diskControllerType, config.storage, false).Success?
  }

  /**
   The datastores for the new disks, in serving order, and whether Storage DRS named
   them: its answer for the run's keys when there is a usable one, or else the
   cluster's first datastore for every disk.
   */
  ghost function Choice(cluster: Cluster, config: StorageConfig, existing: VirtualDeviceList, slots: Slots,
                        primaryDiskSize: int)
    : Option<(seq<Datastore>, bool)>
  {
    if !CanAsk(cluster, config, existing, slots, primaryDiskSize) then None
    else
      var keys, fallback :=
        Run(slots, config.diskControllerType, config.storage, false).value.keys, cluster.datastores.value[0];
      var actions := cluster.recommend(keys);
      var answer := if actions.Some? then Answer(actions.value, keys, fallback, cluster.resolve) else None;
      Some(if answer.Some? then (answer.value, true) else (Copies(fallback, |config.storage|), false))
  }

  lemma {:induction false} ChoiceCovers(cluster: Cluster, config: StorageConfig, existing: VirtualDeviceList,
                                        slots: Slots, primaryDiskSize: int)
    ensures var choice := Choice(cluster, config, existing, slots, primaryDiskSize);
            choice.Some? ==> config.storage != [] && |choice.value.0| == |config.storage|
  {
    hide Answer, Run, Resizable;
    if CanAsk(cluster, config, existing, slots, primaryDiskSize) {
      RunIsLogged(slots, config.diskControllerType, config.storage, false);
    }
  }

  lemma CanAskIff(cluster: Cluster, config: StorageConfig, existing: VirtualDeviceList, slots: Slots,
                  primaryDiskSize: int)
    ensures Choice(cluster, config, existing, slots, primaryDiskSize).Some? <==>
              && cluster.datastores.Some? && cluster.datastores.value != [] && config.storage != []
              && (primaryDiskSize > 0 && existing != [] ==> |DisksIn(existing)| == 1)
              && Run(slots, config.diskControllerType, config.storage, false).Success?
  {
    hide Answer, Run;
  }

  lemma {:induction false} ChoiceIs(cluster: Cluster, config: StorageConfig, existing: VirtualDeviceList, slots: Slots,
                                    primaryDiskSize: int)
    ensures var choice, run :=
            Choice(cluster, config, existing, slots, primaryDiskSize),
              Run(slots, config.diskControllerType, config.storage, false);
            if cluster.datastores.None? || cluster.datastores.value == [] || config.storage == []
               || !Resizable(existing, primaryDiskSize) || run.Failure? then choice.None?
            else
              var fallback, actions := cluster.datastores.value[0], cluster.recommend(run.value.keys);
              var answer := if actions.Some? then Answer(actions.value, run.value.keys, fallback, cluster.resolve)
                else None;
              choice == Some(if answer.Some? then (answer.value, true) else (Copies(fallback, |config.storage|), false))
  {
    hide Answer, Run, Resizable;
  }

  /** SelectDatastoresForDisks */
  method SelectDatastoresForDisks(cluster: Cluster, config: StorageConfig, existing: VirtualDeviceList,
                                  primaryDiskSize: int)
    returns (r: Option<(seq<Datastore>, bool)>)
    modifies existing`children
    ensures forall d :: d in existing ==> d.children == old(d.children)
    ensures r == Choice(cluster, config, existing, old(SlotsOf(existing)), primaryDiskSize)
    ensures r.Some? <==>
              && cluster.datastores.Some? && cluster.datastores.value != [] && config.storage != []
              && (primaryDiskSize > 0 && existing != [] ==> |DisksIn(existing)| == 1)
              && Run(old(SlotsOf(existing)), config.diskControllerType, config.storage, false).Success?
    ensures r.Some? ==>
              var keys := Run(old(SlotsOf(existing)), config.diskControllerType, config.storage, false).value.keys;
              var actions, fallback := cluster.recommend(keys), cluster.datastores.value[0];
              && |r.value.0| == |config.storage|
              && (r.value.1 <==> actions.Some? && Answer(actions.value, keys, fallback, cluster.resolve).Some?)
              && (r.value.1 ==> Some(r.value.0) == Answer(actions.value, keys, fallback, cluster.resolve))
              && (!r.value.1 ==>
                    forall k :: 0 <= k < |r.value.0| ==> r.value.0[k] == cluster.datastores.value[0])
  {
    ChoiceCovers(cluster, config, existing, SlotsOf(existing), primaryDiskSize);
    CanAskIff(cluster, config, existing, SlotsOf(existing), primaryDiskSize);
    ChoiceIs(cluster, config, existing, SlotsOf(existing), primaryDiskSize);
    ResizableIs(existing, primaryDiskSize);
    hide *;
    r := None;
    if cluster.datastores.None? || |cluster.datastores.value| == 0 {
      return;
    }
    var fallback := cluster.datastores.value[0];
    if |config.storage| == 0 {
      return;
    }
    ghost var run;
    var request;
    request, run := BuildStoragePlacementConfigSpec(config, existing, primaryDiskSize);
    if request.None? {
      return;
    }
    var recommendation := cluster.recommend(request.value.keys);
    if recommendation.Some? {
      var chosen := DatastoresForNewDisks(recommendation.value, request.value.keys, fallback, cluster.resolve);
      if chosen.Some? {
        return Some((chosen.value, true));
      }
    }
    var list := DuplicateDatastore(fallback, |config.storage|);
    return Some((list, false));
  }

  /**
   ResolveMultiDiskDatastorePlacement: nothing without a cluster or with a single
   disk; otherwise the choice for every disk, or, when none could be made, copies
   of the primary datastore if there is one.
   */
  method ResolveMultiDiskPlacement(datastoreCluster: string, cluster: Cluster, config: StorageConfig,
                                   existing: VirtualDeviceList, primaryDiskSize: int, primary: Option<Datastore>,
                                   datastoreName: string)
    returns (name: string, placements: seq<Datastore>)
    modifies existing`children
    ensures forall d :: d in existing ==> d.children == old(d.children)
    ensures datastoreCluster == "" || |config.storage| <= 1 ==> placements == [] && name == datastoreName
    ensures datastoreCluster != "" && |config.storage| > 1 ==>
              var choice := Choice(cluster, config, existing, old(SlotsOf(existing)), primaryDiskSize);
              if choice.Some? then placements == choice.value.0 && placements != [] && name == placements[0].name
              else name == datastoreName && placements == if primary.Some? then Copies(primary.value, |config.storage|)
                else []
    ensures placements == [] || |placements| == |config.storage|
  {
    ChoiceCovers(cluster, config, existing, SlotsOf(existing), primaryDiskSize);
    hide *;
    if datastoreCluster == "" || |config.storage| <= 1 {
      return datastoreName, [];
    }
    var selected := SelectDatastoresForDisks(cluster, config, existing, primaryDiskSize);
    if selected.None? {
      if primary.None? {
        return datastoreName, [];
      }
      var copies := DuplicateDatastore(primary.value, |config.storage|);
      return datastoreName, copies;
    }
    return selected.value.0[0].name, selected.value.0;
  }

  /** The list a datastore cluster settles, empty when it settles nothing. */
  ghost function ViaCluster(datastoreCluster: string, choice: Option<(seq<Datastore>, bool)>,
                            primary: Option<Datastore>, count: nat)
    : seq<Datastore>
  {
    if datastoreCluster == "" || count <= 1 then []
    else if choice.Some? then choice.value.0
    else if primary.Some? then Copies(primary.value, count)
    else []
  }

  /**
   The placement section of cloneFromTemplate. All or nothing: the list handed to
   the clone is the cluster's choice, copies of the primary datastore, placements
   that follow the disks' policies, or empty.
   */
  method PlaceForClone(state: StateBag, service: PolicyService, cluster: Cluster, config: StorageConfig,
                       existing: VirtualDeviceList, primaryDiskSize: int, datastore: string, datastoreCluster: string)
    returns (name: string, placements: Option<seq<Datastore>>)
    modifies existing`children, service
    ensures forall d :: d in existing ==> d.children == old(d.children)
    ensures placements.Some? ==> placements.value == [] || |placements.value| == |config.storage|
    ensures placements.Some? ==> name != "" || datastoreCluster != ""
    ensures placements.Some? ==>
              var choice := Choice(cluster, config, existing, old(SlotsOf(existing)), primaryDiskSize);
              var home := if state.datastore.Some? then state.datastore.value.name else datastore;
              name == if datastoreCluster != "" && |config.storage| > 1 && choice.Some? && choice.value.0 != []
                      then choice.value.0[0].name
                      else if home != "" || state.datastore.Some? || placements.value == [] then home
                      else placements.value[0].name
    ensures var choice := Choice(cluster, config, existing, old(SlotsOf(existing)), primaryDiskSize);
            var list, policies :=
              ViaCluster(datastoreCluster, choice, state.datastore, |config.storage|), Policies(config.storage);
            var home := if state.datastore.Some? then state.datastore.value.name else datastore;
            var seed := if state.storagePolicyID.Some? then state.storagePolicyID.value else "";
            if list != [] then placements == Some(list) && service.lookups == old(service.lookups)
            else if PlacementSkipped(policies, datastore, datastoreCluster) then
              && service.lookups == old(service.lookups)
              && placements == if home == "" && datastoreCluster == "" then None else Some([])
            else
              placements.Some? ==>
                && service.lookups == old(service.lookups) + FreshPolicies(policies, Seeded(seed, state.datastore))
                && FollowsPolicies(placements.value, policies, seed, state.datastore, service.answer,
                                   |old(service.lookups)|, service.lookups)
  {
    hide FreshPolicies, FollowsPolicies, Choice, Seeded, PlacementSkipped;
    ChoiceCovers(cluster, config, existing, SlotsOf(existing), primaryDiskSize);
    FollowersCount();
    name := if state.datastore.Some? then state.datastore.value.name else datastore;
    var primary := state.datastore;
    var list;
    name, list :=
      ResolveMultiDiskPlacement(datastoreCluster, cluster, config, existing, primaryDiskSize, primary, name);
    if |list| == 0 {
      var seed := if state.storagePolicyID.Some? then state.storagePolicyID.value else "";
      SeededIs(seed, primary);
      var byPolicy :=
        ResolveStoragePolicyPlacement(service, Policies(config.storage), primary, name, datastore, datastoreCluster,
                                      seed);
      if byPolicy.None? {
        return name, None;
      }
      name, list := byPolicy.value.0, byPolicy.value.1;
    }
    if name == "" && datastoreCluster == "" {
      return name, None;
    }
    placements := Some(list);
  }

  lemma FollowersCount()
    ensures forall placements: seq<Datastore>, policies, seed, primary, answer, before, lookups ::
              FollowsPolicies(placements, policies, seed, primary, answer, before, lookups) ==>
                |placements| == |policies|
  {
  }
}
