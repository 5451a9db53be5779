/**
 Attaching tags to a virtual machine. The server keeps tags and attachments; any
 request may be refused or lose its reply after taking effect. The manager
 retries, caches, creates the tags it does not find, and attaches what is not
 attached yet.
 */
module Tags {
  import opened Wrappers
  import opened TagConfig

  datatype Tag = Tag(id: Id, name: string, categoryId: Id)
  datatype Category = Category(id: Id, name: string, associableTypes: seq<string>)

  /** What the server keeps, and how many requests to create or attach it has been sent. */
  datatype Store = Store(tags: seq<Tag>, attached: set<Id>, writes: nat)

  /** What happens to one request: LostReply takes effect and reports an error. */
  datatype Fault = Fine | Refused(retryable: bool) | LostReply(retryable: bool)

  datatype Response<+T> = Ok(value: T) | Error(retryable: bool)

  /** One operation under the retry loop, and its answer. */
  datatype Operation =
    | GetTag(id: Id)
    | FindCategory(name: string)
    | FindTag(categoryId: Id, name: string)
    | CreateTag(categoryId: Id, name: string)
    | ListAttached
    | AttachTag(id: Id)

  datatype Answer =
    | TagIs(tag: Tag)
    | CategoryIs(category: Category)
    | TagIfAny(found: Option<Tag>)
    | AttachedAre(ids: set<Id>)
    | Done

  const MAX_ATTEMPTS: nat := 3

  // ----- what the server keeps -----

  predicate Fits(tag: Tag, categoryId: Id, name: string) {
    tag.categoryId == categoryId && tag.name == name
  }

  ghost predicate Known(tags: seq<Tag>, id: Id) {
    exists tag :: tag in tags && tag.id == id
  }

  ghost predicate NoneFits(tags: seq<Tag>, categoryId: Id, name: string) {
    forall tag :: tag in tags ==> !Fits(tag, categoryId, name)
  }

  /** Ids are unique, and so are names within a category. */
  ghost predicate Consistent(tags: seq<Tag>) {
    forall t, u :: t in tags && u in tags && (t.id == u.id || Fits(t, u.categoryId, u.name)) ==> t == u
  }

  ghost predicate DistinctCategories(categories: seq<Category>) {
    forall c, d :: c in categories && d in categories && (c.id == d.id || c.name == d.name) ==> c == d
  }

  class TagServer {
    const categories: seq<Category>
    /** What happens to the n-th request. */
    const faults: nat -> Fault
    /** The id of the next tag created. */
    const mint: seq<Tag> -> Id
    var store: Store
    var turns: nat

    ghost predicate Valid()
      reads this
    {
      && Consistent(store.tags) && DistinctCategories(categories)
      && forall tags: seq<Tag>, tag :: tag in tags ==> tag.id != mint(tags)
    }

    /** From here on nothing goes wrong. */
    ghost predicate FaultFree()
      reads this`turns
    {
      forall n: nat :: n >= turns ==> faults(n) == Fine
    }

    method Turn() returns (fault: Fault)
      modifies this`turns
      ensures turns == old(turns) + 1 && fault == faults(old(turns))
    {
      fault := faults(turns);
      turns := turns + 1;
    }

    method GetTag(id: Id) returns (r: Response<Tag>)
      modifies this`turns
      ensures turns > old(turns)
      ensures r.Ok? ==> r.value in store.tags && r.value.id == id
      ensures r.Error? && old(FaultFree()) ==> !r.retryable && !Known(store.tags, id)
    {
      var fault := Turn();
      if fault != Fine {
        r := Error(fault.retryable);
      } else if tag :| tag in store.tags && tag.id == id {
        r := Ok(tag);
      } else {
        r := Error(false);
      }
    }

    method GetCategory(id: Id) returns (r: Response<Category>)
      modifies this`turns
      ensures turns > old(turns)
      ensures r.Ok? ==> r.value in categories && r.value.id == id
      ensures r.Error? && old(FaultFree()) ==> forall c :: c in categories ==> c.id != id
    {
      var fault := Turn();
      if fault != Fine {
        r := Error(fault.retryable);
      } else if category :| category in categories && category.id == id {
        r := Ok(category);
      } else {
        r := Error(false);
      }
    }

    method ListCategories() returns (r: Response<seq<Id>>)
      modifies this`turns
      ensures turns > old(turns)
      ensures r.Ok? ==> |r.value| == |categories| && forall i :: 0 <= i < |categories| ==>
              r.value[i] == categories[i].id
      ensures old(FaultFree()) ==> r.Ok?
    {
      var fault := Turn();
      r := if fault == Fine then Ok(seq(|categories|, i requires 0 <= i < |categories| => categories[i].id))
           else Error(fault.retryable);
    }

    method ListTagsForCategory(categoryId: Id) returns (r: Response<seq<Id>>)
      modifies this`turns
      ensures turns > old(turns)
      ensures r.Ok? ==>
                forall id ::
                  id in r.value <==> exists tag :: tag in store.tags && tag.categoryId == categoryId && tag.id == id
      ensures old(FaultFree()) ==> r.Ok?
    {
      var fault := Turn();
      if fault != Fine {
        return Error(fault.retryable);
      }
      var ids := [];
      for i := 0 to |store.tags|
        invariant forall id ::
                    id in ids <==> exists tag :: tag in store.tags[..i] && tag.categoryId == categoryId && tag.id == id
      {
        var tag := store.tags[i];
        assert store.tags[..i + 1] == store.tags[..i] + [tag];
        if tag.categoryId == categoryId {
          ids := ids + [tag.id];
        }
      }
      assert store.tags[..|store.tags|] == store.tags;
      r := Ok(ids);
    }

    /** A name taken in its category is refused. */
    method CreateTag(categoryId: Id, name: string) returns (r: Response<Id>)
      requires Valid()
      modifies this
      ensures Valid() && turns > old(turns)
      ensures store.attached == old(store.attached) && store.writes == old(store.writes) + 1
      ensures store.tags == old(store.tags)
              || (NoneFits(old(store.tags), categoryId, name)
                  && store.tags == old(store.tags) + [Tag(mint(old(store.tags)), name, categoryId)])
      ensures r.Ok? ==> store.tags == old(store.tags) + [Tag(r.value, name, categoryId)]
      ensures r.Error? && old(FaultFree()) ==> !r.retryable && !NoneFits(old(store.tags), categoryId, name)
    {
      var fault := Turn();
      store := store.(writes := store.writes + 1);
      if fault.Refused? {
        r := Error(fault.retryable);
      } else if tag :| tag in store.tags && Fits(tag, categoryId, name) {
        r := Error(if fault.LostReply? then fault.retryable else false);
      } else {
        var id := mint(store.tags);
        store := store.(tags := store.tags + [Tag(id, name, categoryId)]);
        r := if fault.LostReply? then Error(fault.retryable) else Ok(id);
      }
    }

    method ListAttachedTags() returns (r: Response<set<Id>>)
      modifies this`turns
      ensures turns > old(turns)
      ensures r.Ok? ==> r.value == store.attached
      ensures old(FaultFree()) ==> r.Ok?
    {
      var fault := Turn();
      r := if fault == Fine then Ok(store.attached) else Error(fault.retryable);
    }

    method AttachTag(id: Id) returns (r: Response<()>)
      modifies this
      ensures turns > old(turns)
      ensures store.tags == old(store.tags) && store.writes == old(store.writes) + 1
      ensures store.attached == old(store.attached) || store.attached == old(store.attached) + {id}
      ensures r.Ok? ==> store.attached == old(store.attached) + {id}
      ensures r.Error? && old(FaultFree()) ==> !r.retryable && !Known(store.tags, id)
    {
      var fault := Turn();
      store := store.(writes := store.writes + 1);
      if fault.Refused? {
        r := Error(fault.retryable);
      } else if tag :| tag in store.tags && tag.id == id {
        store := store.(attached := store.attached + {id});
        r := if fault.LostReply? then Error(fault.retryable) else Ok(());
      } else {
        r := Error(false);
      }
    }
  }

  // ----- one operation, retried or not -----

  /** The store after creating at most one tag that was not there. */
  ghost predicate CreatedAtMost(tags: seq<Tag>, tags': seq<Tag>, categoryId: Id, name: string) {
    tags' == tags || (NoneFits(tags, categoryId, name) && exists id :: tags' == tags + [Tag(id, name, categoryId)])
  }

  /** What is known of an operation's answer and effect; `fine` says that no fault could occur. */
  ghost predicate Replied(categories: seq<Category>, op: Operation, fine: bool, s: Store, r: Response<Answer>,
                          s': Store) {
    && (fine && r.Error? ==> !r.retryable)
    && match op
       case GetTag(id) =>
         && s' == s
         && (r.Ok? ==> r.value.TagIs? && r.value.tag in s.tags && r.value.tag.id == id)
         && (fine && r.Error? ==> !Known(s.tags, id))
       case FindCategory(name) =>
         && s' == s
         && (r.Ok? ==> r.value.CategoryIs? && r.value.category in categories && r.value.category.name == name)
         && (fine && r.Error? ==> forall c :: c in categories ==> c.name != name)
       case FindTag(categoryId, name) =>
         && s' == s
         && (r.Ok? ==> r.value.TagIfAny?
                       && (r.value.found.Some? ==>
                           r.value.found.value in s.tags && Fits(r.value.found.value, categoryId, name))
                       && (fine && r.value.found.None? ==> NoneFits(s.tags, categoryId, name)))
         && (fine ==> r.Ok?)
       case CreateTag(categoryId, name) =>
         && s'.attached == s.attached && s'.writes >= s.writes
         && CreatedAtMost(s.tags, s'.tags, categoryId, name)
         && (r.Ok? ==> r.value.TagIs? && s'.tags == s.tags + [r.value.tag] && Fits(r.value.tag, categoryId, name))
         && (fine && NoneFits(s.tags, categoryId, name) ==>
             r.Ok? && s'.writes == s.writes + 1 && |s'.tags| == |s.tags| + 1)
       case ListAttached =>
         s' == s && (r.Ok? ==> r.value == AttachedAre(s.attached)) && (fine ==> r.Ok?)
       case AttachTag(id) =>
         && s'.tags == s.tags && s'.writes >= s.writes
         && (s'.attached == s.attached || s'.attached == s.attached + {id})
         && (r.Ok? ==> s'.attached == s.attached + {id})
         && (fine && Known(s.tags, id) ==> r.Ok? && s'.writes == s.writes + 1)
  }

  /** A failed attempt and another one together look like one attempt on a faulty server. */
  lemma {:induction false} Again(categories: seq<Category>, op: Operation, fine: bool, s: Store, r: Response<Answer>,
                                 s': Store, r': Response<Answer>, s'': Store)
    requires Replied(categories, op, false, s, r, s') && r.Error? && Replied(categories, op, fine, s', r', s'')
    ensures Replied(categories, op, false, s, r', s'')
  {
    if op.CreateTag? && s'.tags != s.tags {
      var id :| s'.tags == s.tags + [Tag(id, op.name, op.categoryId)];
      assert s'.tags[|s.tags|] in s'.tags && Fits(s'.tags[|s.tags|], op.categoryId, op.name);
    }
  }

  /** A create that took effect and lost its reply fails for good: every later attempt meets the name it took. */
  lemma {:induction false} LostCreateFails(categories: seq<Category>, op: Operation, s: Store, r: Response<Answer>,
                                           s': Store, fine: bool, r': Response<Answer>, s'': Store)
    requires op.CreateTag? && Replied(categories, op, false, s, r, s') && r.Error? && s'.tags != s.tags
    requires Replied(categories, op, fine, s', r', s'')
    ensures r'.Error? && s''.tags == s'.tags
  {
    var id :| s'.tags == s.tags + [Tag(id, op.name, op.categoryId)];
    assert s'.tags[|s.tags|] in s'.tags && Fits(s'.tags[|s.tags|], op.categoryId, op.name);
  }

  // ----- what a configuration entry names -----

  datatype Entry = ById(id: Id) | ByName(category: string, name: string)

  function EntryOf(block: TagBlock): Entry {
    if block.id != "" then ById(block.id) else ByName(block.category, block.name)
  }

  function EntriesOf(config: TagsConfig): (entries: seq<Entry>)
    ensures |entries| == |config.tags| + |config.blocks|
  {
    seq(|config.tags|, i requires 0 <= i < |config.tags| => ById(config.tags[i]))
    + seq(|config.blocks|, i requires 0 <= i < |config.blocks| => EntryOf(config.blocks[i]))
  }

  /** The direct ids come first, then the blocks. */
  lemma EntriesAre(config: TagsConfig, i: nat)
    ensures i < |config.tags| ==> EntriesOf(config)[i] == ById(config.tags[i])
    ensures i < |config.blocks| ==> EntriesOf(config)[|config.tags| + i] == EntryOf(config.blocks[i])
  {
  }

  predicate Associable(category: Category) {
    "VirtualMachine" in category.associableTypes
  }

  ghost predicate Usable(categories: seq<Category>, name: string) {
    exists c :: c in categories && c.name == name && Associable(c)
  }

  /** The entry names the tag with this id. */
  ghost predicate Names(categories: seq<Category>, tags: seq<Tag>, entry: Entry, id: Id) {
    match entry
    case ById(own) => id == own && Known(tags, id)
    case ByName(category, name) =>
      exists c, t :: c in categories && t in tags && c.name == category && Associable(c) && Fits(t, c.id, name)
        && t.id == id
  }

  ghost predicate Named(categories: seq<Category>, tags: seq<Tag>, entry: Entry) {
    exists id :: Names(categories, tags, entry, id)
  }

  /** The entry names a tag, or one that can be created. */
  ghost predicate Resolvable(categories: seq<Category>, tags: seq<Tag>, entry: Entry) {
    match entry
    case ById(id) => Known(tags, id)
    case ByName(category, _) => Usable(categories, category)
  }

  ghost predicate AllNamed(categories: seq<Category>, tags: seq<Tag>, entries: seq<Entry>) {
    forall entry :: entry in entries ==> Named(categories, tags, entry)
  }

  ghost predicate AllResolvable(categories: seq<Category>, tags: seq<Tag>, entries: seq<Entry>) {
    forall entry :: entry in entries ==> Resolvable(categories, tags, entry)
  }

  /** An entry never names two tags. */
  lemma {:induction false} NamesOne(categories: seq<Category>, tags: seq<Tag>, entry: Entry, id: Id, id': Id)
    requires Consistent(tags) && DistinctCategories(categories)
    requires Names(categories, tags, entry, id) && Names(categories, tags, entry, id')
    ensures id == id'
  {
  }

  lemma {:induction false} NamesStays(categories: seq<Category>, tags: seq<Tag>, more: seq<Tag>, entry: Entry, id: Id)
    requires tags <= more && Names(categories, tags, entry, id)
    ensures Names(categories, more, entry, id)
  {
  }

  lemma {:induction false} AllResolvableStays(categories: seq<Category>, tags: seq<Tag>, more: seq<Tag>,
                                              entries: seq<Entry>)
    requires tags <= more && AllResolvable(categories, tags, entries)
    ensures AllResolvable(categories, more, entries)
  {
  }

  lemma {:induction false} NamedIsResolvable(categories: seq<Category>, tags: seq<Tag>, entries: seq<Entry>)
    requires AllNamed(categories, tags, entries)
    ensures AllResolvable(categories, tags, entries)
  {
  }

  /** The result of resolving one entry. */
  ghost predicate EntryResolved(categories: seq<Category>, entry: Entry, fine: bool, s: Store, r: Option<Tag>,
                                s': Store) {
    && s'.attached == s.attached && s'.writes >= s.writes
    && (s'.tags == s.tags || (entry.ByName? && |s'.tags| == |s.tags| + 1 && s'.tags[..|s.tags|] == s.tags
                              && Names(categories, s'.tags, entry, s'.tags[|s.tags|].id)))
    && (r.Some? ==> Names(categories, s'.tags, entry, r.value.id))
    && (fine ==> s'.writes - s.writes == |s'.tags| - |s.tags|)
    && (fine && Named(categories, s.tags, entry) ==> s' == s)
    && (fine && Resolvable(categories, s.tags, entry) ==> r.Some?)
  }

  // ----- resolving a category and a name -----

  /** Without a category that fits virtual machines the entry names nothing. */
  lemma {:induction false} UnusableCategory(categories: seq<Category>, category: string, name: string, fine: bool,
                                            s: Store, c: Option<Category>)
    requires DistinctCategories(categories)
    requires c.None? && fine ==> forall d :: d in categories ==> d.name != category
    requires c.Some? ==> c.value in categories && c.value.name == category && !Associable(c.value)
    ensures EntryResolved(categories, ByName(category, name), fine, s, None, s)
  {
  }

  /** A tag found by category and name is the one the entry names. */
  lemma {:induction false} FoundIsNamed(categories: seq<Category>, category: string, name: string, fine: bool, s: Store,
                                        c: Category, tag: Tag)
    requires c in categories && c.name == category && Associable(c) && tag in s.tags && Fits(tag, c.id, name)
    ensures EntryResolved(categories, ByName(category, name), fine, s, Some(tag), s)
  {
    hide Associable, Fits;
    assert Names(categories, s.tags, ByName(category, name), tag.id);
  }

  lemma UnansweredEntry(categories: seq<Category>, entry: Entry, s: Store)
    ensures EntryResolved(categories, entry, false, s, None, s)
  {
  }

  /** A tag created for category and name is the one the entry names; before, it named none. */
  lemma {:induction false} CreatedIsNamed(categories: seq<Category>, category: string, name: string, fine: bool,
                                          fine': bool, s: Store, c: Category, r: Response<Answer>, s': Store)
    requires DistinctCategories(categories) && c in categories && c.name == category && Associable(c)
    requires (fine ==> fine' && NoneFits(s.tags, c.id, name))
    requires Replied(categories, CreateTag(c.id, name), fine', s, r, s')
    ensures r.Ok? ==> r.value.TagIs? && r.value.tag in s'.tags
    ensures EntryResolved(categories, ByName(category, name), fine, s, if r.Ok? then Some(r.value.tag) else None, s')
  {
    hide Associable;
    if s'.tags != s.tags {
      var last := s'.tags[|s.tags|];
      assert last in s'.tags && Fits(last, c.id, name);
    }
    assert forall id :: Names(categories, s.tags, ByName(category, name), id) ==>
                          exists tag :: tag in s.tags && Fits(tag, c.id, name);
  }

  // ----- ids in order of first mention -----

  function Add(ids: seq<Id>, id: Id): seq<Id> {
    if id in ids then ids else ids + [id]
  }

  function FirstSeen(named: seq<Id>): seq<Id> {
    if named == [] then [] else Add(FirstSeen(named[..|named| - 1]), named[|named| - 1])
  }

  /** No id twice, every id mentioned and no other, ordered by first mention. */
  lemma {:induction false} FirstSeenIs(named: seq<Id>)
    ensures Distinct(FirstSeen(named))
    ensures forall id :: id in FirstSeen(named) <==> id in named
  {
    if named != [] {
      var init, last := named[..|named| - 1], named[|named| - 1];
      FirstSeenIs(init);
      assert named == init + [last];
      DistinctNext(FirstSeen(init), last);
    }
  }

  /** Of two ids, the one mentioned first comes first. */
  lemma {:induction false} FirstSeenOrder(named: seq<Id>, p: nat, q: nat)
    requires p < q < |FirstSeen(named)|
    ensures exists i :: 0 <= i < |named| && named[i] == FirstSeen(named)[p]
                        && forall k :: 0 <= k <= i ==> named[k] != FirstSeen(named)[q]
  {
    var n := |named| - 1;
    var front := named[..n];
    FirstSeenIs(front);
    FirstSeenIs(named);
    var now := FirstSeen(named);
    if q < |FirstSeen(front)| {
      FirstSeenOrder(front, p, q);
      var i :| 0 <= i < |front| && front[i] == FirstSeen(front)[p]
               && forall k :: 0 <= k <= i ==> front[k] != FirstSeen(front)[q];
      assert forall k :: 0 <= k <= i ==> named[k] == front[k];
      assert named[i] == now[p];
    } else {
      assert now[p] in front && now[q] !in front;
      var i :| 0 <= i < |front| && front[i] == now[p];
      assert forall k :: 0 <= k <= i ==> front[k] in front && named[k] == front[k];
      assert named[i] == now[p];
    }
  }

  lemma {:induction false} FirstSeenNext(named: seq<Id>, id: Id)
    ensures FirstSeen(named + [id]) == Add(FirstSeen(named), id)
  {
  }

  // ----- resolving the whole configuration -----

  /** Everything the resolution may have changed: tags that entries name, and nothing when all were there. */
  ghost predicate Grew(categories: seq<Category>, entries: seq<Entry>, fine: bool, s: Store, s': Store) {
    && s'.attached == s.attached && s'.writes >= s.writes && s.tags <= s'.tags
    && (forall t :: t in s'.tags[|s.tags|..] ==>
        exists entry :: entry in entries && entry.ByName? && Names(categories, s'.tags, entry, t.id))
    && (fine ==> s'.writes - s.writes == |s'.tags| - |s.tags|)
    && (fine && AllNamed(categories, s.tags, entries) ==> s' == s)
  }

  ghost predicate AllName(categories: seq<Category>, tags: seq<Tag>, entries: seq<Entry>, named: seq<Id>) {
    |named| <= |entries| && forall i :: 0 <= i < |named| ==> Names(categories, tags, entries[i], named[i])
  }

  lemma {:induction false} GrewNext(categories: seq<Category>, entries: seq<Entry>, fine: bool, s: Store, s': Store,
                                    entry: Entry, fine': bool, r: Option<Tag>, s'': Store)
    requires Grew(categories, entries, fine, s, s') && entry in entries && (fine ==> fine')
    requires EntryResolved(categories, entry, fine', s', r, s'')
    ensures Grew(categories, entries, fine, s, s'') && s'.tags <= s''.tags
    ensures fine && AllResolvable(categories, s.tags, entries) ==> r.Some?
  {
    StoreGrows(categories, entry, fine', s', r, s'');
    hide Names, Named, Resolvable, AllNamed, AllResolvable, EntryResolved;
    forall t | t in s''.tags[|s.tags|..]
      ensures exists entry :: entry in entries && entry.ByName? && Names(categories, s''.tags, entry, t.id)
    {
      if t in s'.tags[|s.tags|..] {
        var e :| e in entries && e.ByName? && Names(categories, s'.tags, e, t.id);
        NamesStays(categories, s'.tags, s''.tags, e, t.id);
      } else {
        assert t == s''.tags[|s'.tags|];
      }
    }
    if AllResolvable(categories, s.tags, entries) {
      AllResolvableStays(categories, s.tags, s'.tags, entries);
      OneOfAll(categories, s'.tags, entries, entry);
    }
    if AllNamed(categories, s.tags, entries) {
      OneNamed(categories, s.tags, entries, entry);
    }
  }

  /** What resolving one entry does to the store. */
  lemma StoreGrows(categories: seq<Category>, entry: Entry, fine: bool, s: Store, r: Option<Tag>, s': Store)
    requires EntryResolved(categories, entry, fine, s, r, s')
    ensures s'.attached == s.attached && s'.writes >= s.writes && s.tags <= s'.tags
    ensures s'.tags == s.tags
            || (entry.ByName? && |s'.tags| == |s.tags| + 1
                && Names(categories, s'.tags, entry, s'.tags[|s.tags|].id))
    ensures fine ==> s'.writes - s.writes == |s'.tags| - |s.tags|
    ensures fine && Named(categories, s.tags, entry) ==> s' == s
    ensures fine && Resolvable(categories, s.tags, entry) ==> r.Some?
  {
    hide Names, Named, Resolvable;
  }

  lemma OneOfAll(categories: seq<Category>, tags: seq<Tag>, entries: seq<Entry>, entry: Entry)
    requires AllResolvable(categories, tags, entries) && entry in entries
    ensures Resolvable(categories, tags, entry)
  {
  }

  lemma OneNamed(categories: seq<Category>, tags: seq<Tag>, entries: seq<Entry>, entry: Entry)
    requires AllNamed(categories, tags, entries) && entry in entries
    ensures Named(categories, tags, entry)
  {
  }

  lemma {:induction false} AllNameNext(categories: seq<Category>, tags: seq<Tag>, more: seq<Tag>, entries: seq<Entry>,
                                       named: seq<Id>, id: Id)
    requires AllName(categories, tags, entries, named) && tags <= more && |named| < |entries|
    requires Names(categories, more, entries[|named|], id)
    ensures AllName(categories, more, entries, named + [id])
  {
  }

  /** The resolution after n entries. */
  ghost predicate Progress(categories: seq<Category>, entries: seq<Entry>, n: nat, fine: bool, s: Store, s': Store,
                           resolved: seq<Id>, seen: set<Id>, named: seq<Id>) {
    && |named| == n <= |entries| && resolved == FirstSeen(named) && seen == (set id | id in resolved)
    && Grew(categories, entries, fine, s, s') && AllName(categories, s'.tags, entries, named)
  }

  lemma {:induction false} ProgressStart(categories: seq<Category>, entries: seq<Entry>, fine: bool, s: Store)
    ensures Progress(categories, entries, 0, fine, s, s, [], {}, [])
  {
  }

  lemma {:induction false} ProgressNext(categories: seq<Category>, entries: seq<Entry>, n: nat, fine: bool, s: Store,
                                        s': Store, resolved: seq<Id>, seen: set<Id>, named: seq<Id>, fine': bool,
                                        r: Option<Tag>, s'': Store)
    requires Progress(categories, entries, n, fine, s, s', resolved, seen, named) && n < |entries| && (fine ==> fine')
    requires EntryResolved(categories, entries[n], fine', s', r, s'')
    ensures Grew(categories, entries, fine, s, s'')
    ensures fine && AllResolvable(categories, s.tags, entries) ==> r.Some?
    ensures r.Some? ==>
              var id := r.value.id;
              Progress(categories, entries, n + 1, fine, s, s'', if id in seen then resolved else resolved + [id],
                       seen + {id}, named + [id])
  {
    GrewNext(categories, entries, fine, s, s', entries[n], fine', r, s'');
    if r.Some? {
      AllNameNext(categories, s'.tags, s''.tags, entries, named, r.value.id);
      FirstSeenNext(named, r.value.id);
    }
  }

  lemma {:induction false} ProgressDone(categories: seq<Category>, entries: seq<Entry>, fine: bool, s: Store, s': Store,
                                        resolved: seq<Id>, seen: set<Id>, named: seq<Id>)
    requires Progress(categories, entries, |entries|, fine, s, s', resolved, seen, named)
    ensures |named| == |entries| && resolved == FirstSeen(named)
    ensures Grew(categories, entries, fine, s, s') && AllName(categories, s'.tags, entries, named)
  {
  }

  // ----- applying -----

  /** Everything every entry names is attached. */
  ghost predicate Settled(categories: seq<Category>, entries: seq<Entry>, s: Store) {
    && AllNamed(categories, s.tags, entries)
    && forall entry, id :: entry in entries && Names(categories, s.tags, entry, id) ==> id in s.attached
  }

  /** Only configured tags were created, and only configured tags attached. */
  ghost predicate OnlyConfigured(categories: seq<Category>, entries: seq<Entry>, s: Store, s': Store) {
    && s.tags <= s'.tags && s.attached <= s'.attached
    && (forall t :: t in s'.tags[|s.tags|..] ==>
        exists entry :: entry in entries && entry.ByName? && Names(categories, s'.tags, entry, t.id))
    && (forall id :: id in s'.attached - s.attached ==>
        exists entry :: entry in entries && Names(categories, s'.tags, entry, id))
  }

  /** On success exactly the named tags are attached in addition. */
  ghost predicate Applied(categories: seq<Category>, entries: seq<Entry>, named: seq<Id>, s: Store, s': Store) {
    && |named| == |entries| && AllName(categories, s'.tags, entries, named)
    && s'.attached == s.attached + (set id | id in named)
  }

  /** What a run amounts to on a server without faults: it succeeds, and sends no request in vain. */
  ghost predicate Frugal(categories: seq<Category>, entries: seq<Entry>, ok: bool, s: Store, s': Store) {
    && ok && s'.writes - s.writes == |s'.tags| - |s.tags| + |s'.attached - s.attached|
    && (Settled(categories, entries, s) ==> s' == s)
  }

  /** The state of the attaching loop. */
  ghost predicate Attaching(fine: bool, done: seq<Id>, s: Store, s': Store) {
    && s'.tags == s.tags && s'.writes >= s.writes
    && s'.attached == s.attached + (set id | id in done)
    && (fine ==> s'.writes - s.writes == |s'.attached - s.attached|)
  }

  lemma {:induction false} AttachingStart(fine: bool, s: Store)
    ensures Attaching(fine, [], s, s)
  {
  }

  lemma {:induction false} ResolvedOnly(categories: seq<Category>, entries: seq<Entry>, fine: bool, s: Store, s': Store)
    requires Grew(categories, entries, fine, s, s')
    ensures OnlyConfigured(categories, entries, s, s')
  {
  }

  lemma {:induction false} ListReplied(categories: seq<Category>, fine: bool, s: Store, r: Response<Answer>, s': Store)
    requires Replied(categories, ListAttached, fine, s, r, s')
    ensures s' == s && (r.Ok? ==> r.value == AttachedAre(s.attached)) && (fine ==> r.Ok?)
  {
  }

  lemma {:induction false} NextDistinct(ids: seq<Id>, i: nat)
    requires Distinct(ids) && i < |ids|
    ensures ids[i] !in ids[..i] && ids[..i + 1] == ids[..i] + [ids[i]]
    ensures forall id :: id in ids[..i + 1] ==> id in ids
  {
  }

  lemma {:induction false} AttachingSkips(fine: bool, done: seq<Id>, id: Id, s: Store, s': Store)
    requires Attaching(fine, done, s, s') && id in s.attached
    ensures Attaching(fine, done + [id], s, s')
  {
  }

  lemma {:induction false} AttachingNext(categories: seq<Category>, fine: bool, done: seq<Id>, id: Id, s: Store,
                                         s': Store, fine': bool, r: Response<Answer>, s'': Store)
    requires Attaching(fine, done, s, s') && id !in s.attached && id !in done && Known(s.tags, id) && (fine ==> fine')
    requires Replied(categories, AttachTag(id), fine', s', r, s'')
    ensures r.Ok? ==> Attaching(fine, done + [id], s, s'')
    ensures s''.tags == s.tags && s.attached <= s''.attached <= s.attached + set i | i in done + [id]
    ensures fine ==> r.Ok?
  {
  }

  lemma {:induction false} AttachedAreConfigured(categories: seq<Category>, entries: seq<Entry>, fine: bool,
                                                 named: seq<Id>, s: Store, s': Store, s'': Store)
    requires Grew(categories, entries, fine, s, s') && AllName(categories, s'.tags, entries, named)
    requires s''.tags == s'.tags && s'.attached <= s''.attached <= s'.attached + set id | id in named
    ensures OnlyConfigured(categories, entries, s, s'')
  {
  }

  lemma {:induction false} NamedIsKnown(categories: seq<Category>, tags: seq<Tag>, entries: seq<Entry>, named: seq<Id>)
    requires AllName(categories, tags, entries, named)
    ensures forall id :: id in named ==> Known(tags, id)
  {
  }

  lemma {:induction false} AppliedIsFrugal(categories: seq<Category>, entries: seq<Entry>, named: seq<Id>,
                                           resolved: seq<Id>, s: Store, s': Store, s'': Store)
    requires Grew(categories, entries, true, s, s') && AllName(categories, s'.tags, entries, named)
            && |named| == |entries|
    requires resolved == FirstSeen(named) && Attaching(true, resolved, s', s'')
    ensures Frugal(categories, entries, true, s, s'')
  {
    FirstSeenIs(named);
    if Settled(categories, entries, s) {
      forall id | id in resolved
        ensures id in s.attached
      {
        var i :| 0 <= i < |named| && named[i] == id;
        assert Names(categories, s.tags, entries[i], id) && entries[i] in entries;
      }
      assert s''.attached == s'.attached;
      assert s''.attached - s'.attached == {};
    }
  }

  lemma {:induction false} Finish(categories: seq<Category>, entries: seq<Entry>, fine: bool, named: seq<Id>,
                                  resolved: seq<Id>, s: Store, s': Store, s'': Store)
    requires Grew(categories, entries, fine, s, s') && AllName(categories, s'.tags, entries, named)
            && |named| == |entries|
    requires resolved == FirstSeen(named) && Attaching(fine, resolved, s', s'')
    ensures OnlyConfigured(categories, entries, s, s'') && Applied(categories, entries, named, s, s'')
    ensures fine ==> Frugal(categories, entries, true, s, s'')
  {
    FirstSeenIs(named);
    assert (set id | id in resolved) == set id | id in named;
    AttachedAreConfigured(categories, entries, fine, named, s, s', s'');
    if fine {
      AppliedIsFrugal(categories, entries, named, resolved, s, s', s'');
    }
  }

  /** A successful run leaves nothing to do. */
  lemma {:induction false} AppliedIsSettled(categories: seq<Category>, entries: seq<Entry>, named: seq<Id>, s: Store,
                                            s': Store)
    requires Consistent(s'.tags) && DistinctCategories(categories) && Applied(categories, entries, named, s, s')
    ensures Settled(categories, entries, s')
  {
    forall entry | entry in entries
      ensures Named(categories, s'.tags, entry)
      ensures forall id :: Names(categories, s'.tags, entry, id) ==> id in s'.attached
    {
      var i :| 0 <= i < |entries| && entries[i] == entry;
      assert Names(categories, s'.tags, entry, named[i]) && named[i] in named;
      forall id | Names(categories, s'.tags, entry, id)
        ensures id in s'.attached
      {
        NamesOne(categories, s'.tags, entry, id, named[i]);
      }
    }
  }

  // ----- on the configuration's own fields -----

  /** The block asks for this tag by category and name. */
  ghost predicate Asks(categories: seq<Category>, block: TagBlock, t: Tag) {
    && block.id == "" && t.name == block.name
    && exists c :: c in categories && c.id == t.categoryId && c.name == block.category
                   && "VirtualMachine" in c.associableTypes
  }

  /** The ids mentioned: the direct ones, then for each block its id or that of the tag it asks for. */
  ghost predicate Mentions(categories: seq<Category>, tags: seq<Tag>, config: TagsConfig, named: seq<Id>) {
    && |named| == |config.tags| + |config.blocks|
    && (forall i :: 0 <= i < |config.tags| ==> named[i] == config.tags[i])
    && (forall j :: 0 <= j < |config.blocks| ==>
          var block, id := config.blocks[j], named[|config.tags| + j];
          if block.id != "" then id == block.id
          else exists t :: t in tags && t.id == id && Asks(categories, block, t))
    && (forall id :: id in named ==> exists t :: t in tags && t.id == id)
  }

  /** Every direct id and every block's tag is attached. */
  ghost predicate AllAttached(categories: seq<Category>, config: TagsConfig, s: Store) {
    && (forall id :: id in config.tags ==> id in s.attached)
    && (forall block :: block in config.blocks ==>
          if block.id != "" then block.id in s.attached
          else exists t :: t in s.tags && Asks(categories, block, t) && t.id in s.attached)
  }

  /** Every new tag is one a block asks for, and every id newly attached is given, or that of a tag asked for. */
  ghost predicate NothingElse(categories: seq<Category>, config: Option<TagsConfig>, s: Store, s': Store) {
    && s.tags <= s'.tags && s.attached <= s'.attached
    && (config.None? ==> s'.tags == s.tags && s'.attached == s.attached)
    && (config.Some? ==>
          && (forall t :: t in s'.tags[|s.tags|..] ==>
                exists block :: block in config.value.blocks && Asks(categories, block, t))
          && (forall id :: id in s'.attached - s.attached ==>
                || id in config.value.tags
                || (exists block :: block in config.value.blocks && block.id == id && id != "")
                || (exists block, t :: block in config.value.blocks && t in s'.tags && t.id == id
                                       && Asks(categories, block, t))))
  }

  /** Every id given is a tag's, and every category named exists and takes virtual machines. */
  ghost predicate Appliable(categories: seq<Category>, tags: seq<Tag>, config: TagsConfig) {
    && (forall id :: id in config.tags ==> exists t :: t in tags && t.id == id)
    && (forall block :: block in config.blocks ==>
          if block.id != "" then exists t :: t in tags && t.id == block.id
          else exists c :: c in categories && c.name == block.category && "VirtualMachine" in c.associableTypes)
  }

  lemma BlockNames(categories: seq<Category>, tags: seq<Tag>, block: TagBlock, id: Id)
    ensures Names(categories, tags, EntryOf(block), id) <==>
              && (exists t :: t in tags && t.id == id)
              && if block.id != "" then id == block.id
                 else exists t :: t in tags && t.id == id && Asks(categories, block, t)
  {
    if block.id == "" && Names(categories, tags, EntryOf(block), id) {
      var c, t :| c in categories && t in tags && c.name == block.category && Associable(c)
                  && Fits(t, c.id, block.name) && t.id == id;
      assert Asks(categories, block, t);
    }
  }

  lemma DirectNames(categories: seq<Category>, tags: seq<Tag>, own: Id, id: Id)
    ensures Names(categories, tags, ById(own), id) <==> id == own && exists t :: t in tags && t.id == id
  {
  }

  lemma DirectIsMentioned(categories: seq<Category>, tags: seq<Tag>, config: TagsConfig, named: seq<Id>, i: nat)
    requires AllName(categories, tags, EntriesOf(config), named) && i < |config.tags| && |named| == |EntriesOf(config)|
    ensures named[i] == config.tags[i] && exists t :: t in tags && t.id == named[i]
  {
    hide Names, EntriesOf;
    EntriesAre(config, i);
    DirectNames(categories, tags, config.tags[i], named[i]);
  }

  lemma BlockIsMentioned(categories: seq<Category>, tags: seq<Tag>, config: TagsConfig, named: seq<Id>, j: nat)
    requires AllName(categories, tags, EntriesOf(config), named) && j < |config.blocks|
            && |named| == |EntriesOf(config)|
    ensures var block, id := config.blocks[j], named[|config.tags| + j];
            && (exists t :: t in tags && t.id == id)
            && if block.id != "" then id == block.id
               else exists t :: t in tags && t.id == id && Asks(categories, block, t)
  {
    hide Names, EntriesOf, EntryOf, Asks;
    EntriesAre(config, j);
    assert Names(categories, tags, EntriesOf(config)[|config.tags| + j], named[|config.tags| + j]);
    BlockNames(categories, tags, config.blocks[j], named[|config.tags| + j]);
  }

  /** What the entries name is what the configuration mentions. */
  lemma {:induction false} NamedIsMentioned(categories: seq<Category>, tags: seq<Tag>, config: TagsConfig,
                                            named: seq<Id>)
    requires AllName(categories, tags, EntriesOf(config), named) && |named| == |EntriesOf(config)|
    ensures Mentions(categories, tags, config, named)
  {
    hide Asks, AllName, EntriesOf;
    var n := |config.tags|;
    forall i | 0 <= i < n
      ensures named[i] == config.tags[i]
    {
      DirectIsMentioned(categories, tags, config, named, i);
    }
    forall j | 0 <= j < |config.blocks|
      ensures var block, id := config.blocks[j], named[n + j];
              if block.id != "" then id == block.id
              else exists t :: t in tags && t.id == id && Asks(categories, block, t)
    {
      BlockIsMentioned(categories, tags, config, named, j);
    }
    forall id | id in named
      ensures exists t :: t in tags && t.id == id
    {
      var k :| 0 <= k < |named| && named[k] == id;
      if k < n {
        DirectIsMentioned(categories, tags, config, named, k);
      } else {
        BlockIsMentioned(categories, tags, config, named, k - n);
      }
    }
  }

  /** Once everything mentioned is attached, so is everything configured. */
  lemma {:induction false} MentionedIsAttached(categories: seq<Category>, config: TagsConfig, named: seq<Id>, s: Store)
    requires Mentions(categories, s.tags, config, named) && forall id :: id in named ==> id in s.attached
    ensures AllAttached(categories, config, s)
  {
    hide Asks;
    forall id | id in config.tags
      ensures id in s.attached
    {
      var i :| 0 <= i < |config.tags| && config.tags[i] == id;
      assert named[i] in named;
    }
    forall block | block in config.blocks
      ensures if block.id != "" then block.id in s.attached
              else exists t :: t in s.tags && Asks(categories, block, t) && t.id in s.attached
    {
      var j :| 0 <= j < |config.blocks| && config.blocks[j] == block;
      assert named[|config.tags| + j] in named;
    }
  }

  /** An entry is a direct id or a block's. */
  lemma EntryIsFrom(config: TagsConfig, entry: Entry)
    requires entry in EntriesOf(config)
    ensures (exists id :: id in config.tags && entry == ById(id))
            || (exists block :: block in config.blocks && entry == EntryOf(block))
  {
    hide EntryOf;
    var k :| 0 <= k < |EntriesOf(config)| && EntriesOf(config)[k] == entry;
    var n := |config.tags|;
    if k < n {
      EntriesAre(config, k);
      assert config.tags[k] in config.tags;
    } else {
      EntriesAre(config, k - n);
      assert config.blocks[k - n] in config.blocks;
    }
  }

  lemma {:induction false} NewTagIsAsked(categories: seq<Category>, config: TagsConfig, tags: seq<Tag>, entry: Entry,
                                         t: Tag)
    requires Consistent(tags) && t in tags && entry in EntriesOf(config) && entry.ByName?
    requires Names(categories, tags, entry, t.id)
    ensures exists block :: block in config.blocks && Asks(categories, block, t)
  {
    EntryIsFrom(config, entry);
    var block :| block in config.blocks && entry == EntryOf(block);
    BlockNames(categories, tags, block, t.id);
    var u :| u in tags && u.id == t.id && Asks(categories, block, u);
    assert u == t;
  }

  lemma {:induction false} NewIdIsAsked(categories: seq<Category>, config: TagsConfig, tags: seq<Tag>, entry: Entry,
                                        id: Id)
    requires entry in EntriesOf(config) && Names(categories, tags, entry, id)
    ensures || id in config.tags
            || (exists block :: block in config.blocks && block.id == id && id != "")
            || (exists block, t :: block in config.blocks && t in tags && t.id == id && Asks(categories, block, t))
  {
    hide Names, Asks, EntryOf;
    EntryIsFrom(config, entry);
    if own :| own in config.tags && entry == ById(own) {
      DirectNames(categories, tags, own, id);
    } else {
      var block :| block in config.blocks && entry == EntryOf(block);
      BlockNames(categories, tags, block, id);
    }
  }

  lemma HasMember<T>(s: seq<T>)
    requires s != []
    ensures exists t :: t in s
  {
    assert s[0] in s;
  }

  lemma NothingConfigured(categories: seq<Category>, s: Store, s': Store)
    requires OnlyConfigured(categories, [], s, s')
    ensures s'.tags == s.tags && s'.attached == s.attached
  {
    hide Names;
    var more := s'.tags[|s.tags|..];
    if more != [] {
      HasMember(more);
      assert false;
    }
    assert s'.tags == s.tags + more;
    forall id | id in s'.attached
      ensures id in s.attached
    {
      assert id !in s'.attached - s.attached;
    }
    assert s'.attached == s.attached;
  }

  lemma {:induction false} OnlyConfiguredIs(categories: seq<Category>, config: Option<TagsConfig>, s: Store, s': Store)
    requires Consistent(s'.tags)
    requires OnlyConfigured(categories, if config.None? then [] else EntriesOf(config.value), s, s')
    ensures NothingElse(categories, config, s, s')
  {
    hide Names, Asks, EntriesOf, Consistent;
    if config.None? {
      NothingConfigured(categories, s, s');
    } else {
      var entries := EntriesOf(config.value);
      forall t | t in s'.tags[|s.tags|..]
        ensures exists block :: block in config.value.blocks && Asks(categories, block, t)
      {
        var entry :| entry in entries && entry.ByName? && Names(categories, s'.tags, entry, t.id);
        NewTagIsAsked(categories, config.value, s'.tags, entry, t);
      }
      forall id | id in s'.attached - s.attached
        ensures || id in config.value.tags
                || (exists block :: block in config.value.blocks && block.id == id && id != "")
                || (exists block, t :: block in config.value.blocks && t in s'.tags && t.id == id
                                       && Asks(categories, block, t))
      {
        var entry :| entry in entries && Names(categories, s'.tags, entry, id);
        NewIdIsAsked(categories, config.value, s'.tags, entry, id);
      }
    }
  }

  lemma {:induction false} AppliableIsResolvable(categories: seq<Category>, tags: seq<Tag>, config: TagsConfig)
    requires Appliable(categories, tags, config)
    ensures AllResolvable(categories, tags, EntriesOf(config))
  {
    forall entry | entry in EntriesOf(config)
      ensures Resolvable(categories, tags, entry)
    {
      EntryIsFrom(config, entry);
    }
  }

  lemma ApplicableEntries(categories: seq<Category>, tags: seq<Tag>, config: Option<TagsConfig>, entries: seq<Entry>)
    requires entries == if config.None? then [] else EntriesOf(config.value)
    ensures config.Some? && Appliable(categories, tags, config.value) ==> AllResolvable(categories, tags, entries)
  {
    hide *;
    if config.Some? && Appliable(categories, tags, config.value) {
      AppliableIsResolvable(categories, tags, config.value);
    }
  }

  // ----- the manager -----

  /** The caches only hold what the server has. */
  ghost predicate CachesHold(categories: seq<Category>, tags: seq<Tag>, tagCache: map<Id, Tag>,
                             categoryCache: map<string, Category>) {
    && (forall id :: id in tagCache ==> tagCache[id] in tags && tagCache[id].id == id)
    && (forall name :: name in categoryCache ==> categoryCache[name] in categories && categoryCache[name].name == name)
  }

  /** What the caches hold stays true as tags are added. */
  lemma {:induction false} CachesGrow(categories: seq<Category>, s: Store, s': Store, tagCache: map<Id, Tag>,
                                      categoryCache: map<string, Category>, entry: Entry, fine: bool, r: Option<Tag>)
    requires CachesHold(categories, s.tags, tagCache, categoryCache) && EntryResolved(categories, entry, fine, s, r, s')
    ensures CachesHold(categories, s'.tags, tagCache, categoryCache)
  {
    hide Names, Named, Resolvable;
    assert forall t :: t in s.tags ==> t in s'.tags;
  }

  class TagManager {
    const server: TagServer
    const config: Option<TagsConfig>
    /** Whether the context is cancelled while waiting after the n-th request. */
    const cancelled: nat -> bool
    var tagCache: map<Id, Tag>
    var categoryCache: map<string, Category>

    ghost predicate Valid()
      reads this, server
    {
      server.Valid() && CachesHold(server.categories, server.store.tags, tagCache, categoryCache)
    }

    constructor (server: TagServer, config: Option<TagsConfig>, cancelled: nat -> bool)
      requires server.Valid()
      ensures Valid() && this.server == server && this.config == config
    {
      this.server, this.config, this.cancelled := server, config, cancelled;
      tagCache, categoryCache := map[], map[];
    }

    /** The category listing, scanned for a name; a category that cannot be read is passed over. */
    method AttemptFindCategory(name: string) returns (r: Response<Answer>)
      requires server.Valid()
      modifies server`turns
      ensures server.turns > old(server.turns)
      ensures Replied(server.categories, FindCategory(name), old(server.FaultFree()), server.store, r, server.store)
    {
      var listed := server.ListCategories();
      if listed.Error? {
        return Error(listed.retryable);
      }
      for i := 0 to |listed.value|
        invariant server.turns > old(server.turns)
        invariant old(server.FaultFree()) ==> forall j :: 0 <= j < i ==> server.categories[j].name != name
      {
        var category := server.GetCategory(listed.value[i]);
        if category.Ok? && category.value.name == name {
          return Ok(CategoryIs(category.value));
        }
        if old(server.FaultFree()) {
          assert server.categories[i] in server.categories && category.Ok?;
        }
      }
      r := Error(false);
    }

    /** The tags of a category, scanned for a name; a tag that cannot be read is passed over. */
    method AttemptFindTag(categoryId: Id, name: string) returns (r: Response<Answer>)
      requires server.Valid()
      modifies server`turns
      ensures server.turns > old(server.turns)
      ensures Replied(server.categories, FindTag(categoryId, name), old(server.FaultFree()), server.store, r,
                      server.store)
    {
      var listed := server.ListTagsForCategory(categoryId);
      if listed.Error? {
        return Error(listed.retryable);
      }
      for i := 0 to |listed.value|
        invariant server.turns > old(server.turns)
        invariant old(server.FaultFree()) ==>
                    forall tag :: tag in server.store.tags && tag.id in listed.value[..i] ==> tag.name != name
      {
        var tag := server.GetTag(listed.value[i]);
        if tag.Ok? && tag.value.name == name {
          assert listed.value[i] in listed.value;
          return Ok(TagIfAny(Some(tag.value)));
        }
        assert listed.value[..i + 1] == listed.value[..i] + [listed.value[i]];
        assert listed.value[i] in listed.value;
      }
      assert listed.value[..|listed.value|] == listed.value;
      r := Ok(TagIfAny(None));
    }

    method AttemptCreateTag(categoryId: Id, name: string) returns (r: Response<Answer>)
      requires server.Valid()
      modifies server
      ensures server.Valid() && server.turns > old(server.turns)
      ensures Replied(server.categories, CreateTag(categoryId, name), old(server.FaultFree()), old(server.store), r,
                      server.store)
    {
      var id := server.CreateTag(categoryId, name);
      if id.Error? {
        return Error(id.retryable);
      }
      var tag := server.GetTag(id.value);
      assert server.store.tags[|old(server.store.tags)|] in server.store.tags;
      r := if tag.Ok? then Ok(TagIs(tag.value)) else Error(tag.retryable);
    }

    /** One attempt at an operation. */
    method Attempt(op: Operation) returns (r: Response<Answer>)
      requires server.Valid()
      modifies server
      ensures server.Valid() && server.turns > old(server.turns)
      ensures Replied(server.categories, op, old(server.FaultFree()), old(server.store), r, server.store)
    {
      match op
      case GetTag(id) =>
        var tag := server.GetTag(id);
        r := if tag.Ok? then Ok(TagIs(tag.value)) else Error(tag.retryable);
      case FindCategory(name) => r := AttemptFindCategory(name);
      case FindTag(categoryId, name) => r := AttemptFindTag(categoryId, name);
      case CreateTag(categoryId, name) => r := AttemptCreateTag(categoryId, name);
      case ListAttached =>
        var ids := server.ListAttachedTags();
        r := if ids.Ok? then Ok(AttachedAre(ids.value)) else Error(ids.retryable);
      case AttachTag(id) =>
        var attached := server.AttachTag(id);
        r := if attached.Ok? then Ok(Done) else Error(attached.retryable);
    }

    /**
     The retry loop: one to MAX_ATTEMPTS attempts, where an error worth retrying is
     returned only by the last of them or when the wait is cancelled. Together they
     have the effect and the answer of a single attempt; with no fault possible the
     first one decides.
     */
    method WithRetry(op: Operation) returns (r: Response<Answer>, ghost attempts: nat)
      requires server.Valid()
      modifies server
      ensures server.Valid() && server.turns >= old(server.turns) + attempts
      ensures 1 <= attempts <= 3
      ensures r.Error? && r.retryable ==> attempts == 3 || cancelled(server.turns)
      ensures old(server.FaultFree()) ==> attempts == 1
      ensures Replied(server.categories, op, old(server.FaultFree()), old(server.store), r, server.store)
    {
      ghost var fine, s := server.FaultFree(), server.store;
      r := Attempt(op);
      var attempt := 1;
      attempts := 1;
      while r.Error? && r.retryable && attempt < MAX_ATTEMPTS && !cancelled(server.turns)
        invariant server.Valid() && server.turns >= old(server.turns) + attempts
        invariant attempts == attempt && 1 <= attempt <= MAX_ATTEMPTS && (fine ==> attempt == 1)
        invariant Replied(server.categories, op, fine, s, r, server.store)
        decreases MAX_ATTEMPTS - attempt
      {
        ghost var r', s' := r, server.store;
        r := Attempt(op);
        Again(server.categories, op, false, s, r', s', r, server.store);
        attempt, attempts := attempt + 1, attempts + 1;
      }
    }

    method GetTagById(id: Id) returns (r: Option<Tag>)
      requires Valid()
      modifies this`tagCache, server
      ensures Valid() && server.turns >= old(server.turns) && server.store == old(server.store)
      ensures EntryResolved(server.categories, ById(id), old(server.FaultFree()), old(server.store), r, server.store)
    {
      if id in tagCache {
        return Some(tagCache[id]);
      }
      var reply, _ := WithRetry(GetTag(id));
      if reply.Error? {
        return None;
      }
      tagCache := tagCache[id := reply.value.tag];
      r := Some(reply.value.tag);
    }

    method GetCategoryByName(name: string) returns (r: Option<Category>)
      requires Valid()
      modifies this`categoryCache, server
      ensures Valid() && server.turns >= old(server.turns) && server.store == old(server.store)
      ensures r.Some? ==> r.value in server.categories && r.value.name == name
      ensures r.None? && old(server.FaultFree()) ==> forall c :: c in server.categories ==> c.name != name
    {
      if name in categoryCache {
        return Some(categoryCache[name]);
      }
      var reply, _ := WithRetry(FindCategory(name));
      if reply.Error? {
        return None;
      }
      categoryCache := categoryCache[name := reply.value.category];
      r := Some(reply.value.category);
    }

    method GetTagByCategoryAndName(categoryId: Id, name: string) returns (r: Response<Option<Tag>>)
      requires Valid()
      modifies this`tagCache, server
      ensures Valid() && server.turns >= old(server.turns) && server.store == old(server.store)
      ensures r.Ok? && r.value.Some? ==> r.value.value in server.store.tags && Fits(r.value.value, categoryId, name)
      ensures old(server.FaultFree()) ==> r.Ok? && (r.value.None? ==> NoneFits(server.store.tags, categoryId, name))
    {
      var reply, _ := WithRetry(FindTag(categoryId, name));
      if reply.Error? {
        return Error(reply.retryable);
      }
      if reply.value.found.Some? {
        var tag := reply.value.found.value;
        tagCache := tagCache[tag.id := tag];
      }
      r := Ok(reply.value.found);
    }

    method ResolveOrCreateTag(categoryName: string, name: string) returns (r: Option<Tag>)
      requires Valid()
      modifies this, server
      ensures Valid() && server.turns >= old(server.turns)
      ensures EntryResolved(server.categories, ByName(categoryName, name), old(server.FaultFree()), old(server.store),
                            r, server.store)
    {
      hide Consistent, DistinctCategories, EntryResolved, Replied, Names, Named, Resolvable, Fits, NoneFits, Known,
           Usable, Associable;
      ghost var fine, s, categories := server.FaultFree(), server.store, server.categories;
      var category := GetCategoryByName(categoryName);
      if category.None? || !Associable(category.value) {
        UnusableCategory(categories, categoryName, name, fine, s, category);
        return None;
      }
      var found := GetTagByCategoryAndName(category.value.id, name);
      if found.Error? {
        UnansweredEntry(categories, ByName(categoryName, name), s);
        return None;
      }
      if found.value.Some? {
        FoundIsNamed(categories, categoryName, name, fine, s, category.value, found.value.value);
        return Some(found.value.value);
      }
      ghost var fine' := server.FaultFree();
      var reply, _ := WithRetry(CreateTag(category.value.id, name));
      CreatedIsNamed(categories, categoryName, name, fine, fine', s, category.value, reply, server.store);
      CachesGrow(categories, s, server.store, tagCache, categoryCache, ByName(categoryName, name), fine,
                 if reply.Ok? then Some(reply.value.tag) else None);
      if reply.Error? {
        return None;
      }
      tagCache := tagCache[reply.value.tag.id := reply.value.tag];
      r := Some(reply.value.tag);
    }

    /** One block: by id, or by category and name. */
    method ResolveBlock(block: TagBlock) returns (tag: Option<Tag>)
      requires Valid()
      modifies this, server
      ensures Valid() && server.turns >= old(server.turns)
      ensures EntryResolved(server.categories, EntryOf(block), old(server.FaultFree()), old(server.store), tag,
                            server.store)
    {
      hide EntryResolved, Consistent, DistinctCategories, CachesHold;
      if block.id != "" {
        tag := GetTagById(block.id);
      } else {
        tag := ResolveOrCreateTag(block.category, block.name);
      }
    }

    ghost function Entries(): seq<Entry> {
      if config.None? then [] else EntriesOf(config.value)
    }

    lemma EntriesIs()
      ensures Entries() == if config.None? then [] else EntriesOf(config.value)
    {
    }

    /** The direct ids, in order. */
    method ResolveDirect() returns (ok: bool, resolved: seq<Id>, seen: set<Id>, ghost named: seq<Id>)
      requires Valid() && config.Some?
      modifies this, server
      ensures Valid() && server.turns >= old(server.turns)
      ensures Grew(server.categories, Entries(), old(server.FaultFree()), old(server.store), server.store)
      ensures ok ==>
              Progress(server.categories, Entries(), |config.value.tags|, old(server.FaultFree()), old(server.store),
                              server.store, resolved, seen, named)
      ensures old(server.FaultFree()) && AllResolvable(server.categories, old(server.store.tags), Entries()) ==> ok
    {
      hide Grew, AllName, Names, Named, Known, Consistent, DistinctCategories, CachesHold, AllResolvable, Resolvable,
           EntryResolved, Progress, FirstSeen, EntriesOf, Entries, EntryOf, AllNamed, Replied, NoneFits, Fits;
      EntriesIs();
      ghost var fine, s, categories, entries := server.FaultFree(), server.store, server.categories, Entries();
      var tags := config.value.tags;
      ok, resolved, seen, named := true, [], {}, [];
      ProgressStart(categories, entries, fine, s);
      for i := 0 to |tags|
        invariant Valid() && server.turns >= old(server.turns)
        invariant Grew(categories, entries, fine, s, server.store)
        invariant Progress(categories, entries, i, fine, s, server.store, resolved, seen, named)
      {
        ghost var fine', s' := server.FaultFree(), server.store;
        EntriesAre(config.value, i);
        var tag := GetTagById(tags[i]);
        ProgressNext(categories, entries, i, fine, s, s', resolved, seen, named, fine', tag, server.store);
        if tag.None? {
          return false, resolved, seen, named;
        }
        if tag.value.id !in seen {
          resolved := resolved + [tag.value.id];
        }
        seen, named := seen + {tag.value.id}, named + [tag.value.id];
      }
    }

    /** The blocks, in order, after the direct ids. */
    method ResolveBlocks(ids: seq<Id>, seenIds: set<Id>, ghost fine: bool, ghost s: Store, ghost names: seq<Id>)
      returns (ok: bool, resolved: seq<Id>, seen: set<Id>, ghost named: seq<Id>)
      requires Valid() && config.Some? && (fine ==> server.FaultFree())
      requires Grew(server.categories, Entries(), fine, s, server.store)
      requires Progress(server.categories, Entries(), |config.value.tags|, fine, s, server.store, ids, seenIds, names)
      modifies this, server
      ensures Valid() && server.turns >= old(server.turns)
      ensures Grew(server.categories, Entries(), fine, s, server.store)
      ensures ok ==> Progress(server.categories, Entries(), |Entries()|, fine, s, server.store, resolved, seen, named)
      ensures fine && AllResolvable(server.categories, s.tags, Entries()) ==> ok
    {
      hide Grew, AllName, Names, Named, Known, Consistent, DistinctCategories, CachesHold, AllResolvable, Resolvable,
           EntryResolved, Progress, FirstSeen, EntriesOf, Entries, EntryOf, AllNamed, Replied, NoneFits, Fits;
      EntriesIs();
      ghost var categories, entries, n := server.categories, Entries(), |config.value.tags|;
      var blocks := config.value.blocks;
      ok, resolved, seen, named := true, ids, seenIds, names;
      for i := 0 to |blocks|
        invariant ok && Valid() && server.turns >= old(server.turns)
        invariant Grew(categories, entries, fine, s, server.store)
        invariant Progress(categories, entries, n + i, fine, s, server.store, resolved, seen, named)
      {
        EntriesAre(config.value, i);
        ok, resolved, seen, named := ResolveNext(blocks[i], resolved, seen, entries, n + i, fine, s, named);
        if !ok {
          return;
        }
      }
    }

    /** One round over the blocks. */
    method ResolveNext(block: TagBlock, ids: seq<Id>, seenIds: set<Id>, ghost entries: seq<Entry>, ghost n: nat,
                       ghost fine: bool, ghost s: Store, ghost names: seq<Id>)
      returns (ok: bool, resolved: seq<Id>, seen: set<Id>, ghost named: seq<Id>)
      requires Valid() && n < |entries| && entries[n] == EntryOf(block) && (fine ==> server.FaultFree())
      requires Progress(server.categories, entries, n, fine, s, server.store, ids, seenIds, names)
      modifies this, server
      ensures Valid() && server.turns >= old(server.turns)
      ensures Grew(server.categories, entries, fine, s, server.store)
      ensures ok ==> Progress(server.categories, entries, n + 1, fine, s, server.store, resolved, seen, named)
      ensures fine && AllResolvable(server.categories, s.tags, entries) ==> ok
    {
      hide *;
      resolved, seen, named := ids, seenIds, names;
      ghost var fine', s' := server.FaultFree(), server.store;
      var tag := ResolveBlock(block);
      ProgressNext(server.categories, entries, n, fine, s, s', ids, seenIds, names, fine', tag, server.store);
      ok := tag.Some?;
      if ok {
        if tag.value.id !in seen {
          resolved := resolved + [tag.value.id];
        }
        seen, named := seen + {tag.value.id}, named + [tag.value.id];
      }
    }

    /**
     The ids of the configured tags: `named` is what each entry names, and the ids
     are those in order of first mention. Failing or not, only missing tags that an
     entry names have been created.
     */
    method ResolveTagIds() returns (ids: Option<seq<Id>>, ghost named: seq<Id>)
      requires Valid()
      modifies this, server
      ensures Valid() && server.turns >= old(server.turns)
      ensures Grew(server.categories, Entries(), old(server.FaultFree()), old(server.store), server.store)
      ensures ids.Some? ==> |named| == |Entries()| && ids.value == FirstSeen(named)
                            && AllName(server.categories, server.store.tags, Entries(), named)
      ensures ids.Some? && config.Some? ==> Mentions(server.categories, server.store.tags, config.value, named)
      ensures config.None? ==> ids == Some([])
      ensures old(server.FaultFree()) && AllResolvable(server.categories, old(server.store.tags), Entries()) ==>
              ids.Some?
    {
      ghost var fine, s, entries, categories := server.FaultFree(), server.store, Entries(), server.categories;
      EntriesIs();
      hide *;
      if config.None? {
        ProgressStart(categories, entries, fine, s);
        ProgressDone(categories, entries, fine, s, s, [], {}, []);
        return Some([]), [];
      }
      var ok, resolved, seen;
      ok, resolved, seen, named := ResolveDirect();
      if !ok {
        return None, named;
      }
      ok, resolved, seen, named := ResolveBlocks(resolved, seen, fine, s, named);
      if !ok {
        return None, named;
      }
      ProgressDone(categories, entries, fine, s, server.store, resolved, seen, named);
      NamedIsMentioned(categories, server.store.tags, config.value, named);
      ids := Some(resolved);
    }

    /** Attaches, in order, the ids that are not attached yet. */
    method AttachMissing(ids: seq<Id>, attached: set<Id>, ghost fine: bool) returns (ok: bool)
      requires Valid() && Distinct(ids) && attached == server.store.attached && (fine ==> server.FaultFree())
      requires forall id :: id in ids ==> Known(server.store.tags, id)
      modifies server
      ensures Valid() && server.turns >= old(server.turns) && (fine ==> ok)
      ensures ok ==> Attaching(fine, ids, old(server.store), server.store)
      ensures (forall id :: id in ids ==> id in attached) ==> ok && server.store == old(server.store)
      ensures !ok ==> server.store.tags == old(server.store.tags)
                      && attached <= server.store.attached <= attached + set id | id in ids
    {
      ghost var s := server.store;
      AttachingStart(fine, s);
      hide *;
      for i := 0 to |ids|
        invariant Valid() && server.turns >= old(server.turns)
        invariant Attaching(fine, ids[..i], s, server.store)
        invariant (forall id :: id in ids ==> id in attached) ==> server.store == s
      {
        var id := ids[i];
        NextDistinct(ids, i);
        if id in attached {
          AttachingSkips(fine, ids[..i], id, s, server.store);
          continue;
        }
        ghost var fine', s' := server.FaultFree(), server.store;
        var reply, _ := WithRetry(AttachTag(id));
        AttachingNext(server.categories, fine, ids[..i], id, s, s', fine', reply, server.store);
        if reply.Error? {
          return false;
        }
      }
      assert ids[..|ids|] == ids;
      ok := true;
    }

    /**
     Resolves the configured tags and attaches those that are not attached. Failing
     or not, only configured tags are created or attached; on success all of them are.
     */
    method ApplyTags() returns (ok: bool, ghost named: seq<Id>)
      requires Valid()
      modifies this, server
      ensures Valid() && server.turns >= old(server.turns)
      ensures OnlyConfigured(server.categories, Entries(), old(server.store), server.store)
      ensures ok ==> Applied(server.categories, Entries(), named, old(server.store), server.store)
      ensures old(server.FaultFree()) && AllResolvable(server.categories, old(server.store.tags), Entries()) ==>
                Frugal(server.categories, Entries(), ok, old(server.store), server.store)
      ensures NothingElse(server.categories, config, old(server.store), server.store)
      ensures ok && config.Some? ==> AllAttached(server.categories, config.value, server.store)
      ensures config.None? ==> ok
      ensures old(server.FaultFree()) && config.Some? ==>
                Appliable(server.categories, old(server.store.tags), config.value) ==> ok
    {
      ghost var fine, s, entries, categories := server.FaultFree(), server.store, Entries(), server.categories;
      EntriesIs();
      hide *;
      ApplicableEntries(categories, s.tags, config, entries);
      var ids;
      ids, named := ResolveTagIds();
      ghost var s' := server.store;
      if ids.None? {
        ResolvedOnly(categories, entries, fine, s, s');
        OnItsOwnFields(server, config, entries, false, named, s);
        return false, named;
      }
      FirstSeenIs(named);
      AttachingStart(fine, s');
      NamedIsKnown(categories, s'.tags, entries, named);
      if ids.value == [] {
        Finish(categories, entries, fine, named, [], s, s', s');
        OnItsOwnFields(server, config, entries, true, named, s);
        return true, named;
      }
      var reply, _ := WithRetry(ListAttached);
      ListReplied(categories, fine, s', reply, server.store);
      if reply.Error? {
        AttachedAreConfigured(categories, entries, fine, named, s, s', server.store);
        OnItsOwnFields(server, config, entries, false, named, s);
        return false, named;
      }
      ok := AttachMissing(ids.value, reply.value.ids, fine);
      if ok {
        Finish(categories, entries, fine, named, ids.value, s, s', server.store);
      } else {
        AttachedAreConfigured(categories, entries, fine, named, s, s', server.store);
      }
      OnItsOwnFields(server, config, entries, ok, named, s);
    }
  }

  /** The outcome of applying, on the configuration's own fields. */
  lemma {:induction false} OnItsOwnFields(server: TagServer, config: Option<TagsConfig>, entries: seq<Entry>, ok: bool,
                                          named: seq<Id>, s: Store)
    requires server.Valid() && entries == if config.None? then [] else EntriesOf(config.value)
    requires OnlyConfigured(server.categories, entries, s, server.store)
    requires ok ==> Applied(server.categories, entries, named, s, server.store)
    ensures NothingElse(server.categories, config, s, server.store)
    ensures ok && config.Some? ==> AllAttached(server.categories, config.value, server.store)
  {
    assert Consistent(server.store.tags);
    hide OnlyConfigured, Names, EntriesOf, Asks, Mentions, AllAttached, NothingElse, AllName, Consistent;
    OnlyConfiguredIs(server.categories, config, s, server.store);
    if ok && config.Some? {
      NamedIsMentioned(server.categories, server.store.tags, config.value, named);
      MentionedIsAttached(server.categories, config.value, named, server.store);
    }
  }

  lemma {:induction false} CachesStay(categories: seq<Category>, tags: seq<Tag>, more: seq<Tag>, tagCache: map<Id, Tag>,
                                      categoryCache: map<string, Category>)
    requires CachesHold(categories, tags, tagCache, categoryCache) && tags <= more
    ensures CachesHold(categories, more, tagCache, categoryCache)
  {
  }

  /**
   When a tag is made for category and name but the call fails, the next call on a
   server without faults finds that tag and changes nothing.
   */
  method CreatedThenFound(manager: TagManager, category: string, name: string)
    returns (lost: Option<Tag>, found: Option<Tag>, ghost between: Store, ghost fine: bool)
    requires manager.Valid()
    modifies manager, manager.server
    ensures lost.None? && between.tags != old(manager.server.store.tags) && fine ==>
              && |between.tags| == |old(manager.server.store.tags)| + 1
              && found.Some? && found.value.id == between.tags[|old(manager.server.store.tags)|].id
              && manager.server.store == between
  {
    lost := manager.ResolveOrCreateTag(category, name);
    between, fine := manager.server.store, manager.server.FaultFree();
    found := manager.ResolveOrCreateTag(category, name);
    if lost.None? && between.tags != old(manager.server.store.tags) && fine {
      var made := between.tags[|old(manager.server.store.tags)|];
      assert Names(manager.server.categories, between.tags, ByName(category, name), made.id);
      NamedEntry(manager.server.categories, between.tags, ByName(category, name), made.id);
      NamesOne(manager.server.categories, between.tags, ByName(category, name), made.id, found.value.id);
    }
  }

  lemma NamedEntry(categories: seq<Category>, tags: seq<Tag>, entry: Entry, id: Id)
    requires Names(categories, tags, entry, id)
    ensures Named(categories, tags, entry) && Resolvable(categories, tags, entry)
  {
  }

  /**
   Once a run has succeeded, however faulty the server, another run, by the same
   manager or another, on a server without faults succeeds and changes nothing.
   */
  method ApplyTwice(first: TagManager, second: TagManager)
    returns (ok: bool, again: bool, ghost between: Store, ghost fine: bool)
    requires first.Valid() && second.Valid() && first.server == second.server && first.config == second.config
    modifies first, second, first.server
    ensures OnlyConfigured(first.server.categories, first.Entries(), old(first.server.store), between)
    ensures ok ==>
            exists named :: Applied(first.server.categories, first.Entries(), named, old(first.server.store), between)
    ensures ok ==> Settled(first.server.categories, first.Entries(), between)
    ensures ok && fine ==> again && first.server.store == between
  {
    ghost var named;
    ok, named := first.ApplyTags();
    between, fine := first.server.store, first.server.FaultFree();
    if !ok {
      return ok, false, between, fine;
    }
    AppliedIsSettled(first.server.categories, first.Entries(), named, old(first.server.store), between);
    NamedIsResolvable(first.server.categories, between.tags, first.Entries());
    if second != first {
      CachesStay(first.server.categories, old(first.server.store.tags), between.tags, second.tagCache,
                 second.categoryCache);
    }
    again, named := second.ApplyTags();
  }
}
