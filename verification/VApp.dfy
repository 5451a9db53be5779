/**
 Building the vApp property changes of a VM: edits for the properties it has,
 additions with newly allocated keys for the others.
 */
module VApp {
  import opened Wrappers

  datatype Property = Property(
    key: int,
    id: string,
    value: string,
    userConfigurable: Option<bool>,
    labelText: string,
    kind: string,
    description: string)

  datatype PropertySpec = Add(info: Property) | Edit(key: int, id: string, value: string,
                                                     userConfigurable: Option<bool>)

  /** A nil transport list leaves the VM's own setting alone. */
  datatype VmConfigSpec = VmConfigSpec(property: seq<PropertySpec>, transport: Option<seq<string>>)

  datatype VAppError = NoConfiguration | NotConfigurable(id: string) | Unsupported

  const GUEST_INFO_TRANSPORTS: seq<string> := ["com.vmware.guestInfo", "iso"]

  /** defaultVAppPropertyInfo */
  function DefaultProperty(key: int, id: string, value: string): (p: Property)
    ensures p.key == key && p.id == id && p.value == value && Configurable(p)
  {
    var texts :=
      if id == "public-keys" then ("SSH Public Keys", "SSH public keys for guest access")
      else if id == "hostname" then ("Hostname", "Guest hostname")
      else if id == "user-data" then ("User Data", "Cloud-init or guest customization user data")
      else (id, "");
    Property(key, id, value, Some(true), texts.0, "string", texts.1)
  }

  // ----- sorted ids -----

  /** The order of sort.Strings. */
  predicate Less(a: string, b: string) {
    if b == [] then false
    else if a == [] then true
    else a[0] < b[0] || (a[0] == b[0] && Less(a[1..], b[1..]))
  }

  lemma {:induction false} LessTotal(a: string, b: string)
    ensures Less(a, b) || a == b || Less(b, a)
  {
    if a != [] && b != [] && a[0] == b[0] {
      LessTotal(a[1..], b[1..]);
      assert a == [a[0]] + a[1..] && b == [b[0]] + b[1..];
    }
  }

  lemma {:induction false} LessTransitive(a: string, b: string, c: string)
    requires Less(a, b) && Less(b, c)
    ensures Less(a, c)
  {
    if a != [] && a[0] == b[0] && b[0] == c[0] {
      LessTransitive(a[1..], b[1..], c[1..]);
    }
  }

  ghost predicate Sorted(ids: seq<string>) {
    forall i, j :: 0 <= i < j < |ids| ==> Less(ids[i], ids[j]) && ids[i] != ids[j]
  }

  /** The keys of the map in sorted order. */
  ghost predicate SortedKeys(ids: seq<string>, props: map<string, string>) {
    Sorted(ids) && forall id :: id in ids <==> id in props
  }

  /** Inserts a new id at its place in a sorted list. */
  method InsertSorted(ids: seq<string>, id: string) returns (more: seq<string>)
    requires Sorted(ids) && id !in ids
    ensures Sorted(more) && forall x :: x in more <==> x in ids || x == id
  {
    var at := 0;
    while at < |ids| && Less(ids[at], id)
      invariant 0 <= at <= |ids| && forall i :: 0 <= i < at ==> Less(ids[i], id)
    {
      at := at + 1;
    }
    forall j | at <= j < |ids|
      ensures Less(id, ids[j])
    {
      LessTotal(id, ids[at]);
      if at < j {
        LessTransitive(id, ids[at], ids[j]);
      }
    }
    more := ids[..at] + [id] + ids[at..];
    assert forall x :: x in ids <==> x in ids[..at] || x in ids[at..];
  }

  method SortIds(props: map<string, string>) returns (ids: seq<string>)
    ensures SortedKeys(ids, props)
  {
    ids := [];
    var rest := props.Keys;
    while rest != {}
      invariant rest <= props.Keys && Sorted(ids)
      invariant forall id :: id in ids <==> id in props && id !in rest
      decreases rest
    {
      var id :| id in rest;
      ids := InsertSorted(ids, id);
      rest := rest - {id};
    }
  }

  // ----- what is built -----

  /** maxVAppPropertyKey: never below zero. */
  function MaxKey(properties: seq<Property>): (max: nat)
    ensures forall i :: 0 <= i < |properties| ==> properties[i].key <= max
    ensures max == 0 || exists i :: 0 <= i < |properties| && properties[i].key == max
  {
    if properties == [] then 0
    else
      var front, last := MaxKey(properties[..|properties| - 1]), properties[|properties| - 1].key;
      if last > front then last else front
  }

  /** The lookup table by id; a repeated id means its last property. */
  function Existing(properties: seq<Property>): (m: map<string, Property>)
    ensures forall id :: id in m ==> m[id] in properties && m[id].id == id
    ensures forall i :: 0 <= i < |properties| ==> properties[i].id in m
  {
    if properties == [] then map[]
    else
      var front, last := properties[..|properties| - 1], properties[|properties| - 1];
      assert properties == front + [last];
      Existing(front)[last.id := last]
  }

  /** How many of the ids have no property. */
  function CountMissing(ids: seq<string>, properties: seq<Property>): nat {
    if ids == [] then 0
    else
      CountMissing(ids[..|ids| - 1], properties) + (if ids[|ids| - 1] in Existing(properties) then 0 else 1)
  }

  predicate Configurable(p: Property) {
    p.userConfigurable != Some(false)
  }

  /** The change for one id; `missing` ids before it already took a key. */
  function SpecFor(id: string, value: string, properties: seq<Property>, missing: nat): PropertySpec {
    var existing := Existing(properties);
    if id in existing then Edit(existing[id].key, id, value, existing[id].userConfigurable)
    else Add(DefaultProperty(MaxKey(properties) + missing + 1, id, value))
  }

  function SpecsFor(ids: seq<string>, newProps: map<string, string>, properties: seq<Property>)
    : (specs: seq<PropertySpec>)
    requires forall id :: id in ids ==> id in newProps
    ensures |specs| == |ids|
  {
    if ids == [] then []
    else
      var front, last := ids[..|ids| - 1], ids[|ids| - 1];
      SpecsFor(front, newProps, properties)
        + [SpecFor(last, newProps[last], properties, CountMissing(front, properties))]
  }

  // ----- the changes, one by one -----

  /** The last property with the id. */
  predicate LastWithId(properties: seq<Property>, id: string, at: nat) {
    && at < |properties| && properties[at].id == id
    && forall later :: at < later < |properties| ==> properties[later].id != id
  }

  lemma ExistingUnfolds(properties: seq<Property>, id: string)
    ensures properties == [] ==> id !in Existing(properties)
    ensures properties != [] ==>
              var front, last := Existing(properties[..|properties| - 1]), properties[|properties| - 1];
              if last.id == id then id in Existing(properties) && Existing(properties)[id] == last
              else if id in front then id in Existing(properties) && Existing(properties)[id] == front[id]
              else id !in Existing(properties)
  {
  }

  lemma {:induction false} ExistingIs(properties: seq<Property>, id: string) returns (at: nat)
    ensures if id in Existing(properties)
            then LastWithId(properties, id, at) && Existing(properties)[id] == properties[at]
            else forall i :: 0 <= i < |properties| ==> properties[i].id != id
  {
    hide Existing;
    ExistingUnfolds(properties, id);
    at := 0;
    if properties != [] {
      var n := |properties| - 1;
      if properties[n].id == id {
        at := n;
      } else {
        at := ExistingIs(properties[..n], id);
        assert forall i :: 0 <= i < n ==> properties[..n][i] == properties[i];
      }
    }
  }

  /** The places among the first n ids of those without a property. */
  ghost function MissingAt(ids: seq<string>, properties: seq<Property>, n: nat): set<nat>
    requires n <= |ids|
  {
    set m: nat | m < n && forall i :: 0 <= i < |properties| ==> properties[i].id != ids[m]
  }

  lemma MissingStep(ids: seq<string>, properties: seq<Property>, n: nat)
    requires n < |ids|
    ensures n !in MissingAt(ids, properties, n)
    ensures MissingAt(ids, properties, n + 1)
            == if forall i :: 0 <= i < |properties| ==> properties[i].id != ids[n]
               then MissingAt(ids, properties, n) + {n} else MissingAt(ids, properties, n)
    ensures |MissingAt(ids, properties, n + 1)|
            == |MissingAt(ids, properties, n)|
               + if forall i :: 0 <= i < |properties| ==> properties[i].id != ids[n] then 1 else 0
  {
  }

  lemma NoneMissingYet(ids: seq<string>, properties: seq<Property>)
    ensures MissingAt(ids, properties, 0) == {} && ids[..0] == []
  {
  }

  lemma {:induction false} CountMissingIs(ids: seq<string>, properties: seq<Property>, n: nat)
    requires n <= |ids|
    ensures CountMissing(ids[..n], properties) == |MissingAt(ids, properties, n)|
  {
    hide Existing, MissingAt;
    if n == 0 {
      NoneMissingYet(ids, properties);
    } else {
      CountMissingIs(ids, properties, n - 1);
      MissingStep(ids, properties, n - 1);
      assert ids[..n][..n - 1] == ids[..n - 1];
      var _ := ExistingIs(properties, ids[n - 1]);
    }
  }

  lemma {:induction false} SpecsForAt(ids: seq<string>, newProps: map<string, string>, properties: seq<Property>,
                                      n: nat)
    requires n < |ids| && forall id :: id in ids ==> id in newProps
    ensures ids[n] in newProps
    ensures SpecsFor(ids, newProps, properties)[n]
            == SpecFor(ids[n], newProps[ids[n]], properties, CountMissing(ids[..n], properties))
  {
    hide SpecFor, CountMissing;
    var front := ids[..|ids| - 1];
    if n < |front| {
      SpecsForAt(front, newProps, properties, n);
      assert front[..n] == ids[..n];
    }
  }

  /**
   The n-th change. A property the VM has, the last one with the id, is edited under
   its own key. Any other is added under the next key above all present, with the
   texts the builder knows for it.
   */
  lemma {:induction false} SpecAt(ids: seq<string>, newProps: map<string, string>, properties: seq<Property>, n: nat)
    returns (at: nat)
    requires n < |ids| && forall id :: id in ids ==> id in newProps
    ensures ids[n] in newProps
    ensures var id, spec := ids[n], SpecsFor(ids, newProps, properties)[n];
            if exists i :: 0 <= i < |properties| && properties[i].id == id then
              && LastWithId(properties, id, at)
              && spec == Edit(properties[at].key, id, newProps[id], properties[at].userConfigurable)
            else
              && spec.Add? && spec.info.id == id && spec.info.value == newProps[id]
              && spec.info.key == MaxKey(properties) + 1 + |MissingAt(ids, properties, n)|
              && spec.info.userConfigurable == Some(true) && spec.info.kind == "string"
              && (id == "public-keys" ==> spec.info.labelText == "SSH Public Keys"
                                          && spec.info.description == "SSH public keys for guest access")
              && (id == "hostname" ==> spec.info.labelText == "Hostname" && spec.info.description == "Guest hostname")
              && (id == "user-data" ==> spec.info.labelText == "User Data"
                                        && spec.info.description == "Cloud-init or guest customization user data")
              && (id !in {"public-keys", "hostname", "user-data"} ==>
                    spec.info.labelText == id && spec.info.description == "")
  {
    hide Existing, MaxKey, CountMissing, MissingAt, LastWithId;
    SpecsForAt(ids, newProps, properties, n);
    CountMissingIs(ids, properties, n);
    at := ExistingIs(properties, ids[n]);
    LastIsThere(properties, ids[n], at);
    hide SpecsFor;
  }

  lemma LastIsThere(properties: seq<Property>, id: string, at: nat)
    ensures LastWithId(properties, id, at) ==> exists i :: 0 <= i < |properties| && properties[i].id == id
  {
  }

  /** The two first differ at k, where a has the smaller character. */
  predicate SmallerAt(a: string, b: string, k: nat) {
    k < |a| && k < |b| && a[k] < b[k] && forall j :: 0 <= j < k ==> a[j] == b[j]
  }

  lemma SmallerLater(a: string, b: string, k: nat)
    requires a != [] && b != [] && a[0] == b[0]
    ensures SmallerAt(a, b, k + 1) <==> SmallerAt(a[1..], b[1..], k)
  {
    assert forall j :: 0 <= j < k && j < |a| - 1 && j < |b| - 1 ==> a[1..][j] == a[j + 1] && b[1..][j] == b[j + 1];
    if SmallerAt(a[1..], b[1..], k) {
      forall j | 0 <= j < k + 1
        ensures a[j] == b[j]
      {
        assert j > 0 ==> a[1..][j - 1] == b[1..][j - 1];
      }
    }
  }

  lemma PrefixLater(a: string, b: string)
    requires a != [] && b != [] && a[0] == b[0]
    ensures a < b <==> a[1..] < b[1..]
  {
    assert a == [a[0]] + a[1..] && b == [b[0]] + b[1..];
  }

  /** The order of ids: a proper prefix comes first, else the first character that differs decides. */
  lemma {:induction false} LessIff(a: string, b: string)
    ensures Less(a, b) <==> a < b || exists k: nat :: SmallerAt(a, b, k)
  {
    if a != [] && b != [] && a[0] == b[0] {
      LessIff(a[1..], b[1..]);
      PrefixLater(a, b);
      hide SmallerAt;
      forall k: nat
        ensures SmallerAt(a, b, k + 1) <==> SmallerAt(a[1..], b[1..], k)
      {
        SmallerLater(a, b, k);
      }
      EqualAtFirst(a, b);
      if k: nat :| SmallerAt(a, b, k) {
        assert SmallerAt(a[1..], b[1..], k - 1);
      }
    } else if a != [] && b != [] {
      assert a[0] < b[0] ==> SmallerAt(a, b, 0);
    }
  }

  lemma EqualAtFirst(a: string, b: string)
    requires a != [] && b != [] && a[0] == b[0]
    ensures !SmallerAt(a, b, 0)
  {
  }

  // ----- the operation -----

  /** buildVAppConfigSpecFromInfo; a nil vApp configuration is None. */
  method BuildVAppConfigSpec(info: Option<seq<Property>>, enable: bool, newProps: map<string, string>)
    returns (r: Result<Option<VmConfigSpec>, VAppError>, ghost ids: seq<string>)
    ensures SortedKeys(ids, newProps)
    ensures newProps == map[] ==> r == Success(None)
    ensures newProps != map[] ==>
              var properties := if info.Some? then info.value else [];
              var existing := Existing(properties);
              && (r.Success? <==>
                    && (info.None? ==> enable)
                    && (forall id :: id in newProps && id in existing ==> Configurable(existing[id]))
                    && (enable || forall id :: id in newProps ==> id in existing))
              && (r.Success? ==>
                    r.value == Some(VmConfigSpec(SpecsFor(ids, newProps, properties),
                                                 if enable && properties == []
                                                 then Some(["com.vmware.guestInfo", "iso"]) else None)))
    ensures r.Failure? ==>
              var existing := if info.None? then map[] else Existing(info.value);
              match r.error
              case NoConfiguration => info.None?
              case NotConfigurable(id) =>
                info.Some? && id in newProps && id in existing && existing[id].userConfigurable == Some(false)
              case Unsupported =>
                && info.Some? && (exists id :: id in newProps && id !in existing)
                && forall id :: id in newProps && id in existing ==> Configurable(existing[id])
  {
    var keys := SortIds(newProps);
    ids := keys;
    if |newProps| == 0 {
      return Success(None), ids;
    }
    if info.None? {
      if !enable {
        return Failure(NoConfiguration), ids;
      }
      var spec := NewVAppConfigSpec(newProps, keys);
      return Success(Some(spec)), ids;
    }
    var properties := info.value;
    var existing := Existing(properties);
    var props, err := CollectSpecs(properties, enable, newProps, keys);
    if err.Some? {
      return Failure(err.value), ids;
    }
    if !enable && exists id :: id in newProps && id !in existing {
      return Failure(Unsupported), ids;
    }
    assert enable || CountMissing(keys, properties) == 0 by {
      if !enable {
        NoneMissing(keys, properties);
      }
    }
    assert newProps.Keys != {};
    assert keys != [] by {
      var id :| id in newProps;
      assert id in keys;
    }
    if |props| == 0 {
      return Success(None), ids;
    }
    return Success(Some(VmConfigSpec(props, if enable && |properties| == 0 then Some(GUEST_INFO_TRANSPORTS)
                                     else None))), ids;
  }

  lemma {:induction false} NoneMissing(ids: seq<string>, properties: seq<Property>)
    requires forall id :: id in ids ==> id in Existing(properties)
    ensures CountMissing(ids, properties) == 0
  {
    if ids != [] {
      NoneMissing(ids[..|ids| - 1], properties);
    }
  }

  lemma SpecsStart(newProps: map<string, string>, properties: seq<Property>)
    ensures CountMissing([], properties) == 0 && SpecsFor([], newProps, properties) == []
  {
  }

  lemma SortedKeysIs(ids: seq<string>, props: map<string, string>)
    requires SortedKeys(ids, props)
    ensures forall id :: id in ids <==> id in props
    ensures Sorted(ids)
  {
  }

  lemma ConfigurableIs(p: Property)
    ensures Configurable(p) <==> p.userConfigurable != Some(false)
  {
  }

  /** What one more id adds. */
  lemma {:induction false} SpecsStep(ids: seq<string>, n: nat, newProps: map<string, string>, properties: seq<Property>)
    requires n < |ids| && forall id :: id in ids ==> id in newProps
    ensures forall id :: id in ids[..n] || id in ids[..n + 1] ==> id in newProps
    ensures var id, missing := ids[n], CountMissing(ids[..n], properties);
            && (id in Existing(properties) ==>
                  var p := Existing(properties)[id];
                  && CountMissing(ids[..n + 1], properties) == missing
                  && SpecsFor(ids[..n + 1], newProps, properties)
                     == SpecsFor(ids[..n], newProps, properties)
                       + [Edit(p.key, p.id, newProps[id], p.userConfigurable)])
            && (id !in Existing(properties) ==>
                  && CountMissing(ids[..n + 1], properties) == missing + 1
                  && SpecsFor(ids[..n + 1], newProps, properties)
                     == SpecsFor(ids[..n], newProps, properties)
                        + [Add(DefaultProperty(MaxKey(properties) + missing + 1, id, newProps[id]))])
  {
    hide Existing, MaxKey, DefaultProperty;
    assert ids[..n + 1][..n] == ids[..n];
  }

  /** The loop over the sorted ids. Unless enabled, ids without a property are left for the check after it. */
  method CollectSpecs(properties: seq<Property>, enable: bool, newProps: map<string, string>, keys: seq<string>)
    returns (props: seq<PropertySpec>, err: Option<VAppError>)
    requires SortedKeys(keys, newProps)
    ensures err.None?
            <==> forall id :: id in newProps && id in Existing(properties) ==> Configurable(Existing(properties)[id])
    ensures err.None? && (enable || CountMissing(keys, properties) == 0) ==>
            props == SpecsFor(keys, newProps, properties)
    ensures err.Some? ==>
              && err.value.NotConfigurable? && err.value.id in newProps && err.value.id in Existing(properties)
              && Existing(properties)[err.value.id].userConfigurable == Some(false)
  {
    hide *;
    var existing := Existing(properties);
    var nextKey: nat := MaxKey(properties);
    props, err := [], None;
    SpecsStart(newProps, properties);
    assert forall k :: 0 <= k < |keys| ==> keys[k] in keys;
    SortedKeysIs(keys, newProps);
    for n := 0 to |keys|
      invariant err == None
      invariant nextKey == MaxKey(properties) + (if enable then CountMissing(keys[..n], properties) else 0)
      invariant enable || CountMissing(keys[..n], properties) == 0 ==>
              props == SpecsFor(keys[..n], newProps, properties)
      invariant forall k :: 0 <= k < n && keys[k] in existing ==> Configurable(existing[keys[k]])
    {
      var id := keys[n];
      SpecsStep(keys, n, newProps, properties);
      if id !in existing {
        if !enable {
          continue;
        }
        nextKey := nextKey + 1;
        props := props + [Add(DefaultProperty(nextKey, id, newProps[id]))];
        continue;
      }
      var p := existing[id];
      ConfigurableIs(p);
      if p.userConfigurable == Some(false) {
        return props, Some(NotConfigurable(id));
      }
      props := props + [Edit(p.key, p.id, newProps[id], p.userConfigurable)];
    }
    assert keys[..|keys|] == keys;
  }

  /** newVAppConfigSpec */
  method NewVAppConfigSpec(newProps: map<string, string>, keys: seq<string>) returns (spec: VmConfigSpec)
    requires SortedKeys(keys, newProps)
    ensures spec == VmConfigSpec(SpecsFor(keys, newProps, []), Some(GUEST_INFO_TRANSPORTS))
  {
    var props := [];
    for i := 0 to |keys|
      invariant CountMissing(keys[..i], []) == i
      invariant props == SpecsFor(keys[..i], newProps, [])
    {
      assert keys[..i + 1][..i] == keys[..i] && keys[i] in keys;
      props := props + [Add(DefaultProperty(i + 1, keys[i], newProps[keys[i]]))];
    }
    assert keys[..|keys|] == keys;
    return VmConfigSpec(props, Some(GUEST_INFO_TRANSPORTS));
  }

  // ----- what the server makes of it -----

  /** An addition appends; an edit sets the value of the property with the key. */
  function ApplyOne(properties: seq<Property>, spec: PropertySpec): (r: seq<Property>)
    ensures spec.Edit? ==> |r| == |properties|
  {
    match spec
    case Add(info) => properties + [info]
    case Edit(key, _, value, _) =>
      seq(|properties|, i requires 0 <= i < |properties| =>
        if properties[i].key == key then properties[i].(value := value) else properties[i])
  }

  function Apply(properties: seq<Property>, specs: seq<PropertySpec>): seq<Property> {
    if specs == [] then properties else ApplyOne(Apply(properties, specs[..|specs| - 1]), specs[|specs| - 1])
  }

  ghost predicate DistinctProperties(properties: seq<Property>) {
    forall i, j :: 0 <= i < j < |properties| ==>
      properties[i].key != properties[j].key && properties[i].id != properties[j].id
  }

  /** The given properties with new values for the ids listed. */
  function Overlay(properties: seq<Property>, ids: seq<string>, newProps: map<string, string>): (r: seq<Property>)
    requires forall id :: id in ids ==> id in newProps
    ensures |r| == |properties|
    ensures forall i :: 0 <= i < |properties| ==>
              r[i] == if properties[i].id in ids then properties[i].(value := newProps[properties[i].id])
                else properties[i]
  {
    seq(|properties|, i requires 0 <= i < |properties| =>
      if properties[i].id in ids then properties[i].(value := newProps[properties[i].id]) else properties[i])
  }

  /** Default properties for the ids without one, keys counting up from the maximum. */
  function Added(properties: seq<Property>, ids: seq<string>, newProps: map<string, string>): (r: seq<Property>)
    requires forall id :: id in ids ==> id in newProps
    ensures |r| == CountMissing(ids, properties)
    ensures forall k :: 0 <= k < |r| ==> r[k].key == MaxKey(properties) + 1 + k
    ensures forall k :: 0 <= k < |r| ==>
            r[k].id in ids && r[k].id !in Existing(properties) && r[k].value == newProps[r[k].id]
  {
    if ids == [] then []
    else
      var front, last := ids[..|ids| - 1], ids[|ids| - 1];
      var rest := Added(properties, front, newProps);
      if last in Existing(properties) then rest
      else rest + [DefaultProperty(MaxKey(properties) + |rest| + 1, last, newProps[last])]
  }

  lemma {:induction false} EditOverlays(properties: seq<Property>, front: seq<string>, at: nat,
                                        newProps: map<string, string>, added: seq<Property>, spec: PropertySpec)
    requires DistinctProperties(properties) && at < |properties|
    requires forall x :: x in front + [properties[at].id] ==> x in newProps
    requires forall k :: 0 <= k < |added| ==> added[k].key > MaxKey(properties)
    requires spec.Edit? && spec.key == properties[at].key && spec.value == newProps[properties[at].id]
    ensures ApplyOne(Overlay(properties, front, newProps) + added, spec)
            == Overlay(properties, front + [properties[at].id], newProps) + added
  {
  }

  /**
   Applying the changes overlays the new values: every given property keeps its
   place and all its fields but the value, and the ids without a property follow
   in sorted order with consecutive keys above the maximum.
   */
  lemma {:induction false} SpecIsOverlay(properties: seq<Property>, ids: seq<string>, newProps: map<string, string>)
    requires DistinctProperties(properties)
    requires forall id :: id in ids ==> id in newProps
    ensures Apply(properties, SpecsFor(ids, newProps, properties))
            == Overlay(properties, ids, newProps) + Added(properties, ids, newProps)
  {
    hide *;
    if ids == [] {
      NothingApplied(properties, newProps);
    } else {
      var front, id := ids[..|ids| - 1], ids[|ids| - 1];
      SpecIsOverlay(properties, front, newProps);
      OverlayStep(properties, front, id, newProps);
      assert ids == front + [id];
      ApplyStep(properties, ids, newProps);
    }
  }

  lemma {:induction false} NothingApplied(properties: seq<Property>, newProps: map<string, string>)
    ensures Apply(properties, SpecsFor([], newProps, properties))
            == Overlay(properties, [], newProps) + Added(properties, [], newProps)
  {
    assert Overlay(properties, [], newProps) == properties;
  }

  lemma {:induction false} ApplyStep(properties: seq<Property>, ids: seq<string>, newProps: map<string, string>)
    requires ids != [] && forall id :: id in ids ==> id in newProps
    ensures var front, id := ids[..|ids| - 1], ids[|ids| - 1];
            Apply(properties, SpecsFor(ids, newProps, properties))
            == ApplyOne(Apply(properties, SpecsFor(front, newProps, properties)),
                        SpecFor(id, newProps[id], properties, CountMissing(front, properties)))
  {
  }

  lemma {:induction false} OverlayStep(properties: seq<Property>, front: seq<string>, id: string,
                                       newProps: map<string, string>)
    requires DistinctProperties(properties) && forall x :: x in front + [id] ==> x in newProps
    requires id in newProps && forall x :: x in front ==> x in newProps
    ensures ApplyOne(Overlay(properties, front, newProps) + Added(properties, front, newProps),
                     SpecFor(id, newProps[id], properties, CountMissing(front, properties)))
            == Overlay(properties, front + [id], newProps) + Added(properties, front + [id], newProps)
  {
    hide Overlay, ApplyOne, Existing, MaxKey, DefaultProperty;
    var added := Added(properties, front, newProps);
    var spec := SpecFor(id, newProps[id], properties, CountMissing(front, properties));
    assert (front + [id])[..|front|] == front;
    if id in Existing(properties) {
      var at :| 0 <= at < |properties| && properties[at] == Existing(properties)[id];
      EditOverlays(properties, front, at, newProps, added, spec);
    } else {
      SameOverlay(properties, front, id, newProps);
      AddAppends(Overlay(properties, front, newProps), added, spec);
    }
  }

  lemma AddAppends(overlay: seq<Property>, added: seq<Property>, spec: PropertySpec)
    requires spec.Add?
    ensures ApplyOne(overlay + added, spec) == overlay + (added + [spec.info])
  {
  }

  lemma {:induction false} SameOverlay(properties: seq<Property>, front: seq<string>, id: string,
                                       newProps: map<string, string>)
    requires id !in Existing(properties) && id in newProps && forall x :: x in front ==> x in newProps
    ensures forall x :: x in front + [id] ==> x in newProps
    ensures Overlay(properties, front + [id], newProps) == Overlay(properties, front, newProps)
  {
    hide Existing;
    assert forall i :: 0 <= i < |properties| ==> properties[i].id != id;
  }

  /** New ids have the new values; everything else is as it was. */
  ghost predicate OnlyNewValues(properties: seq<Property>, r: seq<Property>, newProps: map<string, string>) {
    && (forall i :: 0 <= i < |r| && r[i].id in newProps ==> r[i].value == newProps[r[i].id])
    && (forall i :: 0 <= i < |r| && r[i].id !in newProps ==> i < |properties| && r[i] == properties[i])
  }

  lemma {:induction false} JoinValues(properties: seq<Property>, overlay: seq<Property>, added: seq<Property>,
                                      newProps: map<string, string>)
    requires |overlay| == |properties|
    requires forall i :: 0 <= i < |properties| ==>
               overlay[i] == if properties[i].id in newProps then properties[i].(value := newProps[properties[i].id])
                 else properties[i]
    requires forall k :: 0 <= k < |added| ==> added[k].id in newProps && added[k].value == newProps[added[k].id]
    ensures OnlyNewValues(properties, overlay + added, newProps)
  {
  }

  /** Keys and ids stay distinct, every new value arrives, and nothing else changes. */
  lemma {:induction false} OverlayKeepsDistinct(properties: seq<Property>, ids: seq<string>,
                                                newProps: map<string, string>)
    requires DistinctProperties(properties) && SortedKeys(ids, newProps)
    ensures var r := Apply(properties, SpecsFor(ids, newProps, properties));
            && DistinctProperties(r)
            && OnlyNewValues(properties, r, newProps)
            && (forall id :: id in newProps ==> exists i :: 0 <= i < |r| && r[i].id == id)
  {
    hide *;
    SortedKeysIs(ids, newProps);
    AddedSorted(properties, ids, newProps);
    SpecIsOverlay(properties, ids, newProps);
    OverlayCovers(properties, ids, newProps);
    DistinctJoin(properties, Overlay(properties, ids, newProps), Added(properties, ids, newProps));
    JoinValues(properties, Overlay(properties, ids, newProps), Added(properties, ids, newProps), newProps);
  }

  lemma {:induction false} OverlayCovers(properties: seq<Property>, ids: seq<string>, newProps: map<string, string>)
    requires forall x :: x in ids ==> x in newProps
    ensures var r := Overlay(properties, ids, newProps) + Added(properties, ids, newProps);
            forall id :: id in ids ==> exists i :: 0 <= i < |r| && r[i].id == id
  {
    hide Overlay, Added, Existing;
    var overlay: seq<Property>, added: seq<Property> :=
      Overlay(properties, ids, newProps), Added(properties, ids, newProps);
    forall id | id in ids
      ensures exists i :: 0 <= i < |overlay + added| && (overlay + added)[i].id == id
    {
      AddedCovers(properties, ids, newProps, id);
      if id in Existing(properties) {
        var at :| 0 <= at < |properties| && properties[at] == Existing(properties)[id];
        assert (overlay + added)[at].id == id;
      } else {
        var k :| 0 <= k < |added| && added[k].id == id;
        assert (overlay + added)[|overlay| + k].id == id;
      }
    }
  }

  lemma {:induction false} DistinctJoin(properties: seq<Property>, overlay: seq<Property>, added: seq<Property>)
    requires DistinctProperties(properties) && |overlay| == |properties|
    requires forall i :: 0 <= i < |overlay| ==> overlay[i].key == properties[i].key && overlay[i].id == properties[i].id
    requires forall k :: 0 <= k < |added| ==>
            added[k].key == MaxKey(properties) + 1 + k && added[k].id !in Existing(properties)
    requires forall i, j :: 0 <= i < j < |added| ==> added[i].id != added[j].id
    ensures DistinctProperties(overlay + added)
  {
  }

  lemma {:induction false} AddedSorted(properties: seq<Property>, ids: seq<string>, newProps: map<string, string>)
    requires Sorted(ids) && forall id :: id in ids ==> id in newProps
    ensures forall i, j :: 0 <= i < j < |Added(properties, ids, newProps)| ==>
                             Added(properties, ids, newProps)[i].id != Added(properties, ids, newProps)[j].id
  {
    hide Existing, MaxKey, DefaultProperty;
    if ids != [] {
      AddedSorted(properties, ids[..|ids| - 1], newProps);
    }
  }

  ghost predicate HasId(properties: seq<Property>, id: string) {
    exists k :: 0 <= k < |properties| && properties[k].id == id
  }

  lemma {:induction false} AddedCovers(properties: seq<Property>, ids: seq<string>, newProps: map<string, string>,
                                       id: string)
    requires id in ids && forall x :: x in ids ==> x in newProps
    ensures id in Existing(properties) || HasId(Added(properties, ids, newProps), id)
  {
    hide Existing, DefaultProperty, MaxKey;
    var front, last := ids[..|ids| - 1], ids[|ids| - 1];
    var rest, all := Added(properties, front, newProps), Added(properties, ids, newProps);
    if id in Existing(properties) {
      return;
    }
    if id != last {
      assert id in front by {
        assert ids == front + [last];
      }
      AddedCovers(properties, front, newProps, id);
      var k :| 0 <= k < |rest| && rest[k].id == id;
      assert rest <= all;
      assert 0 <= k < |all| && all[k].id == id;
    } else {
      assert |all| == |rest| + 1;
      assert all[|rest|].id == id;
    }
  }
}
