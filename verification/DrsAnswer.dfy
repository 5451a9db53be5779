/**
 The answer drawn from a recommendation, by position in the recommendation itself:
 which locator settles a disk, which actions offer datastores to the others, and
 what every disk ends up with.
 */
module DrsAnswer {
  import opened Wrappers
  import opened StorageDrs

  // ----- a disk's own mapping -----

  /** Locator l of action i names the key and resolves. */
  predicate MapsKey(actions: seq<Action>, key: int, resolve: Resolver, i: nat, l: nat) {
    && i < |actions| && actions[i].PlacementAction? && l < |actions[i].disks|
    && actions[i].disks[l].diskKey == key && resolve(actions[i].disks[l].datastore).Some?
  }

  /** It is the last that does, and this is its datastore. */
  ghost predicate Settles(actions: seq<Action>, key: int, resolve: Resolver, i: nat, l: nat, ds: Datastore) {
    && MapsKey(actions, key, resolve, i, l) && resolve(actions[i].disks[l].datastore) == Some(ds)
    && forall i': nat, l': nat :: MapsKey(actions, key, resolve, i', l') ==> i' < i || (i' == i && l' <= l)
  }

  /** What the mappings give the disk with the key. */
  ghost predicate OwnMapping(actions: seq<Action>, key: int, resolve: Resolver, own: Option<Datastore>) {
    match own
    case Some(ds) => exists i: nat, l: nat :: Settles(actions, key, resolve, i, l, ds)
    case None => forall i: nat, l: nat :: !MapsKey(actions, key, resolve, i, l)
  }

  /** A locator that names the key and resolves has its place among the mappings. */
  lemma MapsKeyAt(actions: seq<Action>, key: int, resolve: Resolver, mappings: seq<Locator>, at: seq<(nat, nat)>,
                  i: nat, l: nat)
    returns (n: nat)
    requires Maps(actions, mappings, at) && MapsKey(actions, key, resolve, i, l)
    ensures n < |at| == |mappings| && at[n] == (i, l)
    ensures mappings[n].diskKey == key && resolve(mappings[n].datastore).Some?
  {
    assert HasLocator(actions, i, l);
    n :| n < |at| && at[n] == (i, l);
  }

  lemma LastIsSettled(actions: seq<Action>, key: int, resolve: Resolver, mappings: seq<Locator>,
                      at: seq<(nat, nat)>, m: nat)
    requires Maps(actions, mappings, at) && m < |mappings|
    requires mappings[m].diskKey == key && resolve(mappings[m].datastore).Some?
    requires forall later :: m < later < |mappings| && mappings[later].diskKey == key ==>
                               resolve(mappings[later].datastore).None?
    ensures Settles(actions, key, resolve, at[m].0, at[m].1, resolve(mappings[m].datastore).value)
  {
    assert MapsKey(actions, key, resolve, at[m].0, at[m].1);
    hide MapsKey;
    forall i: nat, l: nat | MapsKey(actions, key, resolve, i, l)
      ensures i < at[m].0 || (i == at[m].0 && l <= at[m].1)
    {
      var n := MapsKeyAt(actions, key, resolve, mappings, at, i, l);
      assert n <= m;
    }
  }

  lemma {:induction false} LastMappingByPosition(actions: seq<Action>, key: int, resolve: Resolver)
    ensures OwnMapping(actions, key, resolve, LastMapping(Mappings(actions), key, resolve))
  {
    hide LastMapping, Mappings, MapsKey, Maps, Settles;
    var at := MappingsAt(actions);
    var mappings := Mappings(actions);
    LastMappingIs(mappings, key, resolve);
    var own := LastMapping(mappings, key, resolve);
    if own.None? {
      forall i: nat, l: nat | MapsKey(actions, key, resolve, i, l)
        ensures false
      {
        var n := MapsKeyAt(actions, key, resolve, mappings, at, i, l);
      }
    } else {
      var m :| 0 <= m < |mappings| && mappings[m].diskKey == key && resolve(mappings[m].datastore) == own
               && forall later :: m < later < |mappings| && mappings[later].diskKey == key ==>
                                    resolve(mappings[later].datastore).None?;
      LastIsSettled(actions, key, resolve, mappings, at, m);
      MapsLength(actions, mappings, at);
      assert Settles(actions, key, resolve, at[m].0, at[m].1, own.value);
    }
  }

  lemma MapsLength(actions: seq<Action>, mappings: seq<Locator>, at: seq<(nat, nat)>)
    requires Maps(actions, mappings, at)
    ensures |at| == |mappings|
  {
  }

  // ----- the datastores offered -----

  /** The action names no disk and offers a datastore that resolves. */
  predicate OffersDatastore(action: Action, resolve: Resolver) {
    && action.PlacementAction? && |action.disks| == 0
    && action.destination.Some? && resolve(action.destination.value).Some?
  }

  /** The n-th datastore offered is that of action at[n]; the actions are all that offer one, in order. */
  ghost predicate Offered(actions: seq<Action>, resolve: Resolver, offered: seq<Datastore>, at: seq<nat>) {
    && |at| == |offered|
    && (forall n :: 0 <= n < |at| ==>
          && at[n] < |actions| && OffersDatastore(actions[at[n]], resolve)
          && resolve(actions[at[n]].destination.value) == Some(offered[n]))
    && (forall m, n :: 0 <= m < n < |at| ==> at[m] < at[n])
    && (forall i :: 0 <= i < |actions| && OffersDatastore(actions[i], resolve) ==> i in at)
  }

  lemma {:induction false} OfferedAt(actions: seq<Action>, resolve: Resolver) returns (at: seq<nat>)
    ensures Offered(actions, resolve, Resolved(Destinations(actions), resolve), at)
  {
    hide *;
    if actions == [] {
      at := [];
      NothingOffered([], resolve);
      ResolvedOfNone(resolve);
    } else {
      var n := |actions| - 1;
      at := OfferedAt(actions[..n], resolve);
      OneMoreOffered(actions, resolve, Resolved(Destinations(actions[..n]), resolve), at);
      ResolvedUnfolds(actions, resolve);
      if OffersDatastore(actions[n], resolve) {
        at := at + [n];
      }
    }
  }

  lemma ResolvedOfNone(resolve: Resolver)
    ensures Resolved(Destinations([]), resolve) == []
  {
  }

  lemma DestinationsUnfold(actions: seq<Action>)
    requires actions != []
    ensures var last := actions[|actions| - 1];
            Destinations(actions)
            == Destinations(actions[..|actions| - 1])
               + if last.PlacementAction? && last.destination.Some? && |last.disks| == 0 then [last.destination.value]
                 else []
  {
  }

  lemma ResolvedAppend(destinations: seq<Ref>, last: Ref, resolve: Resolver)
    ensures Resolved(destinations + [last], resolve)
            == Resolved(destinations, resolve) + if resolve(last).Some? then [resolve(last).value] else []
  {
    assert (destinations + [last])[..|destinations|] == destinations;
  }

  lemma ResolvedUnfolds(actions: seq<Action>, resolve: Resolver)
    requires actions != []
    ensures var n := |actions| - 1;
            var front, last := Resolved(Destinations(actions[..n]), resolve), actions[n];
            Resolved(Destinations(actions), resolve)
            == if OffersDatastore(last, resolve) then front + [resolve(last.destination.value).value] else front
  {
    hide Destinations, Resolved;
    DestinationsUnfold(actions);
    var before, last := Destinations(actions[..|actions| - 1]), actions[|actions| - 1];
    if last.PlacementAction? && last.destination.Some? && |last.disks| == 0 {
      ResolvedAppend(before, last.destination.value, resolve);
    } else {
      assert before + [] == before;
    }
  }

  lemma OneMoreOffered(actions: seq<Action>, resolve: Resolver, offered: seq<Datastore>, at: seq<nat>)
    requires actions != [] && Offered(actions[..|actions| - 1], resolve, offered, at)
    ensures var n := |actions| - 1;
            if OffersDatastore(actions[n], resolve)
            then Offered(actions, resolve, offered + [resolve(actions[n].destination.value).value], at + [n])
            else Offered(actions, resolve, offered, at)
  {
    hide OffersDatastore;
    var n := |actions| - 1;
    forall i | 0 <= i < |actions| && OffersDatastore(actions[i], resolve)
      ensures i in at + [n]
      ensures i < n ==> i in at
    {
      assert i < n ==> actions[..n][i] == actions[i];
    }
    if OffersDatastore(actions[n], resolve) {
      OffersHasDestination(actions[n], resolve);
    }
  }

  lemma OffersHasDestination(action: Action, resolve: Resolver)
    requires OffersDatastore(action, resolve)
    ensures action.PlacementAction? && action.destination.Some? && resolve(action.destination.value).Some?
  {
  }

  lemma NothingOffered(actions: seq<Action>, resolve: Resolver)
    requires forall i :: 0 <= i < |actions| ==> !OffersDatastore(actions[i], resolve)
    ensures Offered(actions, resolve, [], [])
  {
    hide OffersDatastore;
  }

  // ----- the whole answer -----

  /** What the mappings give each disk; of disks with the same key only the last is served. */
  ghost predicate Owns(actions: seq<Action>, keys: seq<int>, resolve: Resolver, own: seq<Option<Datastore>>) {
    && |own| == |keys|
    && forall j :: 0 <= j < |keys| ==>
         if exists later :: j < later < |keys| && keys[later] == keys[j] then own[j] == None
         else OwnMapping(actions, keys[j], resolve, own[j])
  }

  /** The disks without a mapping of their own, lowest first. */
  ghost predicate Gaps(own: seq<Option<Datastore>>, gaps: seq<nat>) {
    && (forall n :: 0 <= n < |gaps| ==> gaps[n] < |own| && own[gaps[n]].None?)
    && (forall m, n :: 0 <= m < n < |gaps| ==> gaps[m] < gaps[n])
    && (forall j :: 0 <= j < |own| && own[j].None? ==> j in gaps)
  }

  /** Each disk's mapping; the n-th disk without one has the n-th datastore offered. */
  ghost predicate Given(own: seq<Option<Datastore>>, gaps: seq<nat>, offered: seq<Datastore>,
                        given: seq<Option<Datastore>>) {
    && Gaps(own, gaps) && |given| == |own|
    && (forall j :: 0 <= j < |own| && own[j].Some? ==> given[j] == own[j])
    && (forall n :: 0 <= n < |gaps| ==> given[gaps[n]] == if n < |offered| then Some(offered[n]) else None)
  }

  ghost predicate Lowest(given: seq<Option<Datastore>>, k: nat) {
    k < |given| && given[k].Some? && forall j :: 0 <= j < k ==> given[j].None?
  }

  /** No answer when no disk has a datastore; else the lowest that has one lends it to those without. */
  ghost predicate Completes(given: seq<Option<Datastore>>, r: Option<seq<Datastore>>) {
    match r
    case None => forall j :: 0 <= j < |given| ==> given[j].None?
    case Some(list) =>
      && |list| == |given|
      && exists k: nat :: Lowest(given, k)
           && forall j :: 0 <= j < |given| ==> list[j] == if given[j].Some? then given[j].value else given[k].value
  }

  lemma {:induction false} OwnsAre(actions: seq<Action>, keys: seq<int>, resolve: Resolver, own: seq<Option<Datastore>>)
    requires |own| == |keys|
    requires forall j :: 0 <= j < |keys| ==> own[j] == Mapped(keys, Mappings(actions), resolve, j)
    ensures Owns(actions, keys, resolve, own)
  {
    hide Mapped, OwnMapping, LastMapping, Mappings;
    forall j | 0 <= j < |keys|
      ensures if exists later :: j < later < |keys| && keys[later] == keys[j] then own[j] == None
              else OwnMapping(actions, keys[j], resolve, own[j])
    {
      MappedIs(keys, Mappings(actions), resolve, j);
      LastMappingByPosition(actions, keys[j], resolve);
    }
  }

  lemma MappedIs(keys: seq<int>, mappings: seq<Locator>, resolve: Resolver, j: nat)
    requires j < |keys|
    ensures Mapped(keys, mappings, resolve, j)
            == if exists later :: j < later < |keys| && keys[later] == keys[j] then None
               else LastMapping(mappings, keys[j], resolve)
  {
    hide LastMapping;
  }

  lemma {:induction false} GapsUpTo(keys: seq<int>, mappings: seq<Locator>, resolve: Resolver,
                                    own: seq<Option<Datastore>>, bound: nat)
    returns (gaps: seq<nat>)
    requires |own| == |keys| && bound <= |keys|
    requires forall j :: 0 <= j < |keys| ==> own[j] == Mapped(keys, mappings, resolve, j)
    ensures Gaps(own[..bound], gaps) && |gaps| == UnmappedBefore(keys, mappings, resolve, bound)
    ensures forall n :: 0 <= n < |gaps| ==> gaps[n] < bound && UnmappedBefore(keys, mappings, resolve, gaps[n]) == n
  {
    hide Mapped;
    if bound == 0 {
      gaps := [];
    } else {
      var last := bound - 1;
      gaps := GapsUpTo(keys, mappings, resolve, own, last);
      assert forall j :: 0 <= j < last ==> own[..bound][j] == own[..last][j];
      if own[last].None? {
        gaps := gaps + [last];
        assert forall j :: 0 <= j < last && own[..bound][j].None? ==> j in gaps;
        assert gaps[|gaps| - 1] == last;
      }
    }
  }

  lemma GivenIs(keys: seq<int>, mappings: seq<Locator>, available: seq<Datastore>, resolve: Resolver,
                own: seq<Option<Datastore>>, gaps: seq<nat>, given: seq<Option<Datastore>>)
    requires |own| == |given| == |keys| && Gaps(own, gaps)
    requires forall j :: 0 <= j < |keys| ==> own[j] == Mapped(keys, mappings, resolve, j)
    requires forall j :: 0 <= j < |keys| ==> given[j] == Placed(keys, mappings, available, resolve, j)
    requires forall n :: 0 <= n < |gaps| ==> gaps[n] < |keys| && UnmappedBefore(keys, mappings, resolve, gaps[n]) == n
    ensures Given(own, gaps, available, given)
  {
    hide Mapped, UnmappedBefore;
  }

  lemma CompletesIs(keys: seq<int>, mappings: seq<Locator>, available: seq<Datastore>, resolve: Resolver,
                    given: seq<Option<Datastore>>)
    requires |given| == |keys|
    requires forall j :: 0 <= j < |keys| ==> given[j] == Placed(keys, mappings, available, resolve, j)
    ensures Completes(given, Filled(keys, mappings, available, resolve))
  {
    hide Placed, Filled;
    FilledIs(keys, mappings, available, resolve);
    var r := Filled(keys, mappings, available, resolve);
    if r.Some? {
      var k: nat :| k < |keys| && IsFirstPlaced(keys, mappings, available, resolve, k)
                    && forall j: nat :: j < |keys| ==>
                         var own := Placed(keys, mappings, available, resolve, j);
                         Some(r.value[j]) == if own.Some? then own else Placed(keys, mappings, available, resolve, k);
      assert Lowest(given, k);
    }
  }

  /**
   The whole answer. No new disk: the fallback. One: the first datastore offered,
   else its own mapping. More: every disk its own mapping, the others the datastores
   offered, in order, and the lowest disk's datastore for those still without.
   */
  lemma {:induction false} AnswerByPosition(actions: seq<Action>, keys: seq<int>, fallback: Datastore,
                                            resolve: Resolver)
    returns (own: seq<Option<Datastore>>, offered: seq<Datastore>, at: seq<nat>, gaps: seq<nat>,
             given: seq<Option<Datastore>>)
    ensures Owns(actions, keys, resolve, own) && Offered(actions, resolve, offered, at)
    ensures Given(own, gaps, offered, given)
    ensures var r := Answer(actions, keys, fallback, resolve);
            && (|keys| == 0 ==> r == Some([fallback]))
            && (|keys| == 1 ==> r == if offered != [] then Some([offered[0]])
                                     else if own[0].Some? then Some([own[0].value]) else None)
            && (|keys| >= 2 ==> Completes(given, r))
  {
    hide *;
    var mappings := Mappings(actions);
    offered := Resolved(Destinations(actions), resolve);
    at := OfferedAt(actions, resolve);
    own := seq(|keys|, j requires 0 <= j < |keys| => Mapped(keys, mappings, resolve, j));
    given := seq(|keys|, j requires 0 <= j < |keys| => Placed(keys, mappings, offered, resolve, j));
    OwnsAre(actions, keys, resolve, own);
    gaps := GapsUpTo(keys, mappings, resolve, own, |keys|);
    assert own[..|keys|] == own;
    GivenIs(keys, mappings, offered, resolve, own, gaps, given);
    CompletesIs(keys, mappings, offered, resolve, given);
    AnswerIs(actions, keys, fallback, resolve);
    if |keys| == 1 {
      MappedIs(keys, mappings, resolve, 0);
    }
    OwnsLength(actions, keys, resolve, own);
  }

  lemma OwnsLength(actions: seq<Action>, keys: seq<int>, resolve: Resolver, own: seq<Option<Datastore>>)
    requires Owns(actions, keys, resolve, own)
    ensures |own| == |keys|
  {
  }

  lemma AnswerIs(actions: seq<Action>, keys: seq<int>, fallback: Datastore, resolve: Resolver)
    ensures var r, mappings, available :=
              Answer(actions, keys, fallback, resolve), Mappings(actions), Resolved(Destinations(actions), resolve);
            && (|keys| == 0 ==> r == Some([fallback]))
            && (|keys| == 1 ==>
                  var own := LastMapping(mappings, keys[0], resolve);
                  r == if available != [] then Some([available[0]])
                       else if own.Some? then Some([own.value]) else None)
            && (|keys| >= 2 ==> r == Filled(keys, mappings, available, resolve))
  {
    hide Mappings, Destinations, Resolved, Filled, LastMapping;
  }

  lemma SomeOffered(actions: seq<Action>, resolve: Resolver, offered: seq<Datastore>, at: seq<nat>)
    requires Offered(actions, resolve, offered, at) && offered != []
    ensures exists i :: 0 <= i < |actions| && OffersDatastore(actions[i], resolve)
  {
    hide OffersDatastore;
    assert OffersDatastore(actions[at[0]], resolve);
  }

  lemma NothingIsOffered(actions: seq<Action>, resolve: Resolver, offered: seq<Datastore>, at: seq<nat>)
    requires Offered(actions, resolve, offered, at)
    requires forall i :: 0 <= i < |actions| ==> !OffersDatastore(actions[i], resolve)
    ensures offered == []
  {
    hide *;
    if offered != [] {
      SomeOffered(actions, resolve, offered, at);
    }
  }

  /**
   A recommendation that offers no datastore, for one disk or more: it settles
   something iff some locator maps a disk's key; each mapped disk gets its own
   datastore and all others that of the lowest mapped disk.
   */
  lemma {:induction false} MappedDisksOnly(actions: seq<Action>, keys: seq<int>, fallback: Datastore,
                                           resolve: Resolver)
    returns (own: seq<Option<Datastore>>)
    requires keys != [] && forall i :: 0 <= i < |actions| ==> !OffersDatastore(actions[i], resolve)
    ensures Owns(actions, keys, resolve, own) && |own| == |keys|
    ensures Completes(own, Answer(actions, keys, fallback, resolve))
  {
    hide Owns, OffersDatastore, Answer;
    var offered, at, gaps, given;
    own, offered, at, gaps, given := AnswerByPosition(actions, keys, fallback, resolve);
    OwnsLength(actions, keys, resolve, own);
    NothingIsOffered(actions, resolve, offered, at);
    assert own == given by {
      forall j | 0 <= j < |own|
        ensures own[j] == given[j]
      {
        if own[j].None? {
          var n :| 0 <= n < |gaps| && gaps[n] == j;
        }
      }
    }
    if |keys| == 1 && own[0].Some? {
      assert Lowest(own, 0);
    }
  }

  /** One action naming the first of two disks, with a destination: its datastore is not offered to the second. */
  lemma {:induction false} DestinationOfMappingUnused(k1: int, k2: int, a: Datastore, d: Datastore, fallback: Datastore,
                                                      resolve: Resolver)
    requires k1 != k2 && resolve("a") == Some(a) && resolve("d") == Some(d)
    ensures var actions := [PlacementAction(Some("d"), [Locator(k1, "a")])];
            && Answer(actions, [k1, k2], fallback, resolve) == Some([a, a])
            && Answer(actions, [k1], fallback, resolve) == Some([a])
  {
    hide Answer;
    var actions := [PlacementAction(Some("d"), [Locator(k1, "a")])];
    assert MapsKey(actions, k1, resolve, 0, 0);
    var both := MappedDisksOnly(actions, [k1, k2], fallback, resolve);
    var one := MappedDisksOnly(actions, [k1], fallback, resolve);
    var keys := [k1, k2];
    assert keys[0] == k1 && keys[1] == k2;
    assert OwnMapping(actions, keys[0], resolve, both[0]);
    assert OwnMapping(actions, keys[1], resolve, both[1]);
    assert OwnMapping(actions, [k1][0], resolve, one[0]);
    OneLocator(actions, k1, resolve, both[0], a);
    OneLocator(actions, k1, resolve, one[0], a);
    NoLocator(actions, k2, resolve, both[1]);
    assert Answer(actions, keys, fallback, resolve).value == [a, a];
    assert Answer(actions, [k1], fallback, resolve).value == [a];
  }

  lemma OneLocator(actions: seq<Action>, key: int, resolve: Resolver, own: Option<Datastore>, a: Datastore)
    requires |actions| == 1 && actions[0].PlacementAction? && actions[0].disks == [Locator(key, "a")]
    requires resolve("a") == Some(a) && OwnMapping(actions, key, resolve, own)
    ensures own == Some(a)
  {
    assert MapsKey(actions, key, resolve, 0, 0);
  }

  lemma NoLocator(actions: seq<Action>, key: int, resolve: Resolver, own: Option<Datastore>)
    requires |actions| == 1 && actions[0].PlacementAction? && |actions[0].disks| == 1
    requires actions[0].disks[0].diskKey != key && OwnMapping(actions, key, resolve, own)
    ensures own == None
  {
  }
}
