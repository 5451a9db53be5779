/**
 Choosing the datastores of a clone: the VM home from a datastore, a cluster or
 the first storage policy, then one datastore per new disk from Storage DRS or
 from each disk's own policy.
 */
module DatastorePlacement {
  import opened Wrappers
  import opened StorageDrs

  /**
   The policy service. A lookup may answer differently each time it is made, so
   the answer is a function of the policy and of the number of lookups before it.
   */
  class PolicyService {
    const profileID: string -> Option<string>
    const answer: (string, nat) -> Option<Datastore>
    /** Every policy a compatible datastore was asked for, in order. */
    var lookups: seq<string>

    constructor (profileID: string -> Option<string>, answer: (string, nat) -> Option<Datastore>)
      ensures this.profileID == profileID && this.answer == answer && lookups == []
    {
      this.profileID, this.answer, lookups := profileID, answer, [];
    }

    method FindCompatibleDatastore(policyID: string) returns (ds: Option<Datastore>)
      modifies this
      ensures lookups == old(lookups) + [policyID]
      ensures ds == answer(policyID, |old(lookups)|)
    {
      ds := answer(policyID, |lookups|);
      lookups := lookups + [policyID];
    }
  }

  // ----- per-disk placement by policy -----

  /** The policies that need a lookup: distinct, non-empty, not seeded, by first use. */
  function FreshPolicies(policies: seq<string>, seeded: set<string>): (todo: seq<string>)
    ensures forall i :: 0 <= i < |todo| ==> todo[i] in policies && todo[i] != "" && todo[i] !in seeded
    ensures forall p :: p in policies && p != "" && p !in seeded ==> p in todo
    ensures forall i, j :: 0 <= i < j < |todo| ==> todo[i] != todo[j]
  {
    if policies == [] then []
    else
      var front, last := FreshPolicies(policies[..|policies| - 1], seeded), policies[|policies| - 1];
      assert policies == policies[..|policies| - 1] + [last];
      if last == "" || last in seeded || last in front then front else front + [last]
  }

  /** Of two policies looked up, the one used first is looked up first. */
  lemma {:induction false} FreshByFirstUse(policies: seq<string>, seeded: set<string>, p: nat, q: nat)
    requires p < q < |FreshPolicies(policies, seeded)|
    ensures exists i :: 0 <= i < |policies| && policies[i] == FreshPolicies(policies, seeded)[p]
                        && forall k :: 0 <= k <= i ==> policies[k] != FreshPolicies(policies, seeded)[q]
  {
    var front, now := policies[..|policies| - 1], FreshPolicies(policies, seeded);
    var before := FreshPolicies(front, seeded);
    if q < |before| {
      FreshByFirstUse(front, seeded, p, q);
      var i :| 0 <= i < |front| && front[i] == before[p] && forall k :: 0 <= k <= i ==> front[k] != before[q];
      assert forall k :: 0 <= k <= i ==> policies[k] == front[k];
      assert policies[i] == now[p];
    } else {
      assert now[p] in before && now[q] !in before;
      var i :| 0 <= i < |front| && front[i] == now[p];
      assert forall k :: 0 <= k <= i ==> front[k] in front && policies[k] == front[k];
      assert policies[i] == now[p];
    }
  }

  function Seeded(seedPolicyID: string, primary: Option<Datastore>): set<string> {
    if seedPolicyID != "" && primary.Some? then {seedPolicyID} else {}
  }

  lemma SeededIs(seedPolicyID: string, primary: Option<Datastore>)
    ensures Seeded(seedPolicyID, primary) == if seedPolicyID != "" && primary.Some? then {seedPolicyID} else {}
  {
  }

  /** A policy's datastore came from the seed or from a lookup of that very policy. */
  ghost predicate AnswerFor(policy: string, ds: Datastore, seedPolicyID: string, primary: Option<Datastore>,
                            answer: (string, nat) -> Option<Datastore>, before: nat, lookups: seq<string>) {
    || (policy in Seeded(seedPolicyID, primary) && primary == Some(ds))
    || exists k :: before <= k < |lookups| && lookups[k] == policy && answer(policy, k) == Some(ds)
  }

  lemma {:induction false} AnswerStays(policy: string, ds: Datastore, seedPolicyID: string, primary: Option<Datastore>,
                                       answer: (string, nat) -> Option<Datastore>, before: nat, lookups: seq<string>,
                                       more: seq<string>)
    requires AnswerFor(policy, ds, seedPolicyID, primary, answer, before, lookups)
    ensures AnswerFor(policy, ds, seedPolicyID, primary, answer, before, lookups + more)
  {
  }

  /** The cache after some disks: exactly the seeded and looked-up policies, each with its answer. */
  ghost predicate CacheSound(cache: map<string, Datastore>, policies: seq<string>, seedPolicyID: string,
                             primary: Option<Datastore>, answer: (string, nat) -> Option<Datastore>, before: nat,
                             lookups: seq<string>) {
    && cache.Keys
         == Seeded(seedPolicyID, primary) + (set p | p in FreshPolicies(policies, Seeded(seedPolicyID, primary)))
    && forall p :: p in cache ==> AnswerFor(p, cache[p], seedPolicyID, primary, answer, before, lookups)
  }

  lemma {:induction false} CacheHit(cache: map<string, Datastore>, policies: seq<string>, n: nat, seedPolicyID: string,
                                    primary: Option<Datastore>, answer: (string, nat) -> Option<Datastore>, before: nat,
                                    lookups: seq<string>)
    requires n < |policies| && CacheSound(cache, policies[..n], seedPolicyID, primary, answer, before, lookups)
    requires policies[n] == "" || policies[n] in cache
    ensures FreshPolicies(policies[..n + 1], Seeded(seedPolicyID, primary))
            == FreshPolicies(policies[..n], Seeded(seedPolicyID, primary))
    ensures CacheSound(cache, policies[..n + 1], seedPolicyID, primary, answer, before, lookups)
  {
    hide AnswerFor;
    assert policies[..n + 1][..n] == policies[..n];
  }

  lemma {:induction false} CacheMiss(cache: map<string, Datastore>, policies: seq<string>, n: nat, seedPolicyID: string,
                                     primary: Option<Datastore>, answer: (string, nat) -> Option<Datastore>,
                                     before: nat, lookups: seq<string>, ds: Datastore)
    requires n < |policies| && CacheSound(cache, policies[..n], seedPolicyID, primary, answer, before, lookups)
    requires policies[n] != "" && policies[n] !in cache && before <= |lookups|
            && answer(policies[n], |lookups|) == Some(ds)
    ensures FreshPolicies(policies[..n + 1], Seeded(seedPolicyID, primary))
            == FreshPolicies(policies[..n], Seeded(seedPolicyID, primary)) + [policies[n]]
    ensures CacheSound(cache[policies[n] := ds], policies[..n + 1], seedPolicyID, primary, answer, before, lookups
                       + [policies[n]])
  {
    hide AnswerFor, Seeded;
    FreshMiss(policies, n, Seeded(seedPolicyID, primary));
    var p := policies[n];
    hide FreshPolicies;
    assert (lookups + [p])[|lookups|] == p;
    NewAnswer(p, ds, seedPolicyID, primary, answer, before, lookups);
    forall q | q in cache
      ensures AnswerFor(q, cache[q], seedPolicyID, primary, answer, before, lookups + [p])
    {
      AnswerStays(q, cache[q], seedPolicyID, primary, answer, before, lookups, [p]);
    }
  }

  lemma {:induction false} FreshMiss(policies: seq<string>, n: nat, seeded: set<string>)
    requires n < |policies| && policies[n] != "" && policies[n] !in seeded
    requires policies[n] !in FreshPolicies(policies[..n], seeded)
    ensures FreshPolicies(policies[..n + 1], seeded) == FreshPolicies(policies[..n], seeded) + [policies[n]]
  {
    assert policies[..n + 1][..n] == policies[..n];
  }

  lemma NewAnswer(policy: string, ds: Datastore, seedPolicyID: string, primary: Option<Datastore>,
                  answer: (string, nat) -> Option<Datastore>, before: nat, lookups: seq<string>)
    requires before <= |lookups| && answer(policy, |lookups|) == Some(ds)
    ensures AnswerFor(policy, ds, seedPolicyID, primary, answer, before, lookups + [policy])
  {
    assert (lookups + [policy])[|lookups|] == policy;
  }

  /** Why per-disk placement is skipped. */
  predicate PlacementSkipped(policies: seq<string>, datastore: string, datastoreCluster: string) {
    datastore != "" || datastoreCluster != "" || forall i :: 0 <= i < |policies| ==> policies[i] == ""
  }

  /** Placements follow the policies: own answers, equal for equal policies, the primary for none. */
  ghost predicate FollowsPolicies(placements: seq<Datastore>, policies: seq<string>, seedPolicyID: string,
                                  primary: Option<Datastore>, answer: (string, nat) -> Option<Datastore>, before: nat,
                                  lookups: seq<string>) {
    && |placements| == |policies|
    && (forall i :: 0 <= i < |policies| && policies[i] == "" ==> primary == Some(placements[i]))
    && (forall i :: 0 <= i < |policies| && policies[i] != "" ==>
          AnswerFor(policies[i], placements[i], seedPolicyID, primary, answer, before, lookups))
    && (forall i, j :: 0 <= i < j < |policies| && policies[i] == policies[j] ==> placements[i] == placements[j])
  }

  /** ResolveStoragePolicyDatastorePlacement; `policies` are the disks' policy IDs. */
  method ResolveStoragePolicyPlacement(service: PolicyService, policies: seq<string>, primary: Option<Datastore>,
                                       datastoreName: string, datastore: string, datastoreCluster: string,
                                       seedPolicyID: string)
    returns (r: Option<(string, seq<Datastore>)>)
    modifies service
    ensures PlacementSkipped(policies, datastore, datastoreCluster) <==>
              datastore != "" || datastoreCluster != "" || forall i :: 0 <= i < |policies| ==> policies[i] == ""
    ensures PlacementSkipped(policies, datastore, datastoreCluster) ==>
              r == Some((datastoreName, [])) && service.lookups == old(service.lookups)
    ensures !PlacementSkipped(policies, datastore, datastoreCluster) && r.Some? ==>
              && service.lookups
                 == old(service.lookups)
                    + FreshPolicies(policies, if seedPolicyID != "" && primary.Some? then {seedPolicyID} else {})
              && FollowsPolicies(r.value.1, policies, seedPolicyID, primary, service.answer, |old(service.lookups)|,
                                 service.lookups)
              && r.value.0 == (if datastoreName != "" then datastoreName
                               else if primary.Some? then primary.value.name else r.value.1[0].name)
    ensures r.None? ==>
              || (primary.None? && "" in policies)
              || (service.lookups != []
                  && service.answer(service.lookups[|service.lookups| - 1], |service.lookups| - 1).None?)
    ensures old(service.lookups) <= service.lookups
  {
    if datastore != "" || datastoreCluster != "" {
      return Some((datastoreName, []));
    }
    var hasPolicy := false;
    for i := 0 to |policies|
      invariant !hasPolicy && forall j :: 0 <= j < i ==> policies[j] == ""
    {
      if policies[i] != "" {
        hasPolicy := true;
        break;
      }
    }
    if !hasPolicy {
      return Some((datastoreName, []));
    }
    var placements;
    placements := PlaceByPolicy(service, policies, primary, seedPolicyID);
    if placements.None? {
      return None;
    }
    var name := datastoreName;
    if name == "" {
      name := if primary.Some? then primary.value.name else placements.value[0].name;
    }
    return Some((name, placements.value));
  }

  /** The cached loop over the disks. */
  method PlaceByPolicy(service: PolicyService, policies: seq<string>, primary: Option<Datastore>, seedPolicyID: string)
    returns (r: Option<seq<Datastore>>)
    modifies service
    ensures old(service.lookups) <= service.lookups
    ensures r.Some? ==>
              && service.lookups == old(service.lookups) + FreshPolicies(policies, Seeded(seedPolicyID, primary))
              && FollowsPolicies(r.value, policies, seedPolicyID, primary, service.answer, |old(service.lookups)|,
                                 service.lookups)
    ensures r.None? ==>
              || (primary.None? && "" in policies)
              || (service.lookups != []
                  && service.answer(service.lookups[|service.lookups| - 1], |service.lookups| - 1).None?)
  {
    hide *;
    ghost var before, seeded := |service.lookups|, Seeded(seedPolicyID, primary);
    var cache: map<string, Datastore> := map[];
    if seedPolicyID != "" && primary.Some? {
      cache := cache[seedPolicyID := primary.value];
    }
    var placements: seq<Datastore> := [];
    FirstCache(cache, policies, seedPolicyID, primary, service.answer, before, service.lookups);
    for n := 0 to |policies|
      invariant old(service.lookups) <= service.lookups
      invariant service.lookups == old(service.lookups) + FreshPolicies(policies[..n], seeded)
      invariant CacheSound(cache, policies[..n], seedPolicyID, primary, service.answer, before, service.lookups)
      invariant FromCache(placements, policies[..n], primary, cache)
    {
      var ds: Datastore;
      if policies[n] == "" {
        CacheHit(cache, policies, n, seedPolicyID, primary, service.answer, before, service.lookups);
        if primary.None? {
          assert policies[n] in policies;
          return None;
        }
        ds := primary.value;
      } else if policies[n] in cache {
        CacheHit(cache, policies, n, seedPolicyID, primary, service.answer, before, service.lookups);
        ds := cache[policies[n]];
      } else {
        ghost var seen := service.lookups;
        var found := service.FindCompatibleDatastore(policies[n]);
        if found.None? {
          return None;
        }
        ds := found.value;
        CacheMiss(cache, policies, n, seedPolicyID, primary, service.answer, before, seen, ds);
        FromLargerCache(placements, policies[..n], primary, cache, policies[n], ds);
        cache := cache[policies[n] := ds];
      }
      FromCacheGrows(placements, policies, n, primary, cache, ds);
      placements := placements + [ds];
    }
    assert policies[..|policies|] == policies;
    CacheFollows(placements, policies, seedPolicyID, primary, service.answer, before, service.lookups, cache);
    return Some(placements);
  }

  lemma {:induction false} FirstCache(cache: map<string, Datastore>, policies: seq<string>, seedPolicyID: string,
                                      primary: Option<Datastore>, answer: (string, nat) -> Option<Datastore>,
                                      before: nat, lookups: seq<string>)
    requires cache == if seedPolicyID != "" && primary.Some? then map[seedPolicyID := primary.value] else map[]
    ensures CacheSound(cache, policies[..0], seedPolicyID, primary, answer, before, lookups)
    ensures FreshPolicies(policies[..0], Seeded(seedPolicyID, primary)) == []
    ensures FromCache([], policies[..0], primary, cache)
  {
  }

  /** Each placement so far is the primary or the cached answer of its policy. */
  ghost predicate FromCache(placements: seq<Datastore>, policies: seq<string>, primary: Option<Datastore>,
                            cache: map<string, Datastore>) {
    && |placements| == |policies|
    && forall i :: 0 <= i < |policies| ==>
         if policies[i] == "" then primary == Some(placements[i])
         else policies[i] in cache && cache[policies[i]] == placements[i]
  }

  lemma {:induction false} FromLargerCache(placements: seq<Datastore>, policies: seq<string>,
                                           primary: Option<Datastore>, cache: map<string, Datastore>, p: string,
                                           ds: Datastore)
    requires FromCache(placements, policies, primary, cache) && p !in cache
    ensures FromCache(placements, policies, primary, cache[p := ds])
  {
  }

  lemma {:induction false} FromCacheGrows(placements: seq<Datastore>, policies: seq<string>, n: nat,
                                          primary: Option<Datastore>, cache: map<string, Datastore>, ds: Datastore)
    requires n < |policies| && FromCache(placements, policies[..n], primary, cache)
    requires if policies[n] == "" then primary == Some(ds) else policies[n] in cache && cache[policies[n]] == ds
    ensures FromCache(placements + [ds], policies[..n + 1], primary, cache)
  {
  }

  lemma {:induction false} CacheFollows(placements: seq<Datastore>, policies: seq<string>, seedPolicyID: string,
                                        primary: Option<Datastore>, answer: (string, nat) -> Option<Datastore>,
                                        before: nat, lookups: seq<string>, cache: map<string, Datastore>)
    requires FromCache(placements, policies, primary, cache)
    requires CacheSound(cache, policies, seedPolicyID, primary, answer, before, lookups)
    ensures FollowsPolicies(placements, policies, seedPolicyID, primary, answer, before, lookups)
  {
  }
}
