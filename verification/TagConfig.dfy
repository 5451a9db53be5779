/**
 Which tags to attach, and the check of that configuration: tag ids have the
 URN form, a block names a tag by id or by category and name, and nothing is
 named twice. The duplicate test for category and name compares one joined
 string, which is exact only away from names that contain the separator.
 */
module TagConfig {
  import opened Wrappers

  type Id = string

  datatype TagBlock = TagBlock(id: Id, category: string, name: string)
  datatype TagsConfig = TagsConfig(tags: seq<Id>, blocks: seq<TagBlock>)

  datatype ConfigError =
    | EmptyId | InvalidUrn | DuplicateId
    | BothForms | NeitherForm | MissingCategory | MissingName | DuplicateName

  // ----- the URN form of a tag id -----

  function Split(s: string, sep: char): (parts: seq<string>)
    ensures |parts| > 0
  {
    if s == "" then [""]
    else
      var rest := Split(s[1..], sep);
      if s[0] == sep then [""] + rest else [[s[0]] + rest[0]] + rest[1..]
  }

  predicate IsHex(c: char) {
    '0' <= c <= '9' || 'a' <= c <= 'f' || 'A' <= c <= 'F'
  }

  /** Groups of 8, 4, 4, 4 and 12 hexadecimal digits. */
  predicate IsUuid(s: string) {
    |s| == 36 && forall i :: 0 <= i < |s| ==> if i in {8, 13, 18, 23} then s[i] == '-' else IsHex(s[i])
  }

  const URN_PREFIX := "urn:vmomi:InventoryServiceTag:"

  predicate IsValidTagUrn(urn: string) {
    && URN_PREFIX <= urn
    && var parts := Split(urn, ':');
       |parts| == 5 && IsUuid(parts[3]) && parts[4] == "GLOBAL"
  }

  function Join(parts: seq<string>, sep: char): string
    requires |parts| > 0
  {
    if |parts| == 1 then parts[0] else parts[0] + [sep] + Join(parts[1..], sep)
  }

  lemma {:induction false} JoinSplit(s: string, sep: char)
    ensures Join(Split(s, sep), sep) == s
  {
    if s != "" {
      JoinSplit(s[1..], sep);
      var rest := Split(s[1..], sep);
      if s[0] == sep {
        assert ([""] + rest)[1..] == rest;
      } else {
        assert ([[s[0]] + rest[0]] + rest[1..])[1..] == rest[1..];
        assert s == [s[0]] + s[1..];
        if |rest| > 1 {
          assert Join(rest, sep) == rest[0] + [sep] + Join(rest[1..], sep);
        }
      }
    }
  }

  /** A first part without the separator splits off whole. */
  lemma {:induction false} SplitFirst(part: string, rest: string, sep: char)
    requires sep !in part
    ensures Split(part + [sep] + rest, sep) == [part] + Split(rest, sep)
  {
    var s := part + [sep] + rest;
    if part == "" {
      assert s[1..] == rest;
    } else {
      assert part[0] in part;
      SplitFirst(part[1..], rest, sep);
      assert s[1..] == part[1..] + [sep] + rest && [part[0]] + part[1..] == part;
      assert ([part[1..]] + Split(rest, sep))[1..] == Split(rest, sep);
    }
  }

  lemma {:induction false} SplitWhole(part: string, sep: char)
    requires sep !in part
    ensures Split(part, sep) == [part]
  {
    if part != "" {
      assert part[0] in part;
      SplitWhole(part[1..], sep);
      assert [part[0]] + part[1..] == part;
    }
  }

  lemma {:induction false} SplitThree(a: string, b: string, c: string, rest: string, sep: char)
    requires sep !in a && sep !in b && sep !in c
    ensures Split(a + [sep] + b + [sep] + c + [sep] + rest, sep) == [a, b, c] + Split(rest, sep)
  {
    hide Split;
    SplitFirst(c, rest, sep);
    SplitFirst(b, c + [sep] + rest, sep);
    SplitFirst(a, b + [sep] + (c + [sep] + rest), sep);
    assert a + [sep] + b + [sep] + c + [sep] + rest == a + [sep] + (b + [sep] + (c + [sep] + rest));
  }

  lemma PrefixParts() returns (a: string, b: string, c: string)
    ensures ':' !in a && ':' !in b && ':' !in c && URN_PREFIX == a + [':'] + b + [':'] + c + [':']
  {
    a, b, c := "urn", "vmomi", "InventoryServiceTag";
  }

  lemma {:induction false} SplitAfterPrefix(rest: string)
    ensures |Split(URN_PREFIX + rest, ':')| == 3 + |Split(rest, ':')|
            && Split(URN_PREFIX + rest, ':')[3..] == Split(rest, ':')
  {
    hide *;
    var a, b, c := PrefixParts();
    SplitThree(a, b, c, rest, ':');
  }

  /** A tag id is valid exactly when it is the prefix, a UUID and ":GLOBAL". */
  lemma {:induction false} ValidUrnIff(urn: string)
    ensures IsValidTagUrn(urn) <==> exists uuid: string :: IsUuid(uuid) && urn == URN_PREFIX + uuid + ":GLOBAL"
  {
    hide Split, IsUuid, Join;
    if IsValidTagUrn(urn) {
      var uuid := ValidUrnParts(urn);
    }
    if uuid: string :| IsUuid(uuid) && urn == URN_PREFIX + uuid + ":GLOBAL" {
      UuidUrnIsValid(uuid);
    }
  }

  lemma {:induction false} ValidUrnParts(urn: string) returns (uuid: string)
    requires IsValidTagUrn(urn)
    ensures IsUuid(uuid) && urn == URN_PREFIX + uuid + ":GLOBAL"
  {
    hide Split, IsUuid, Join;
    var rest := urn[|URN_PREFIX|..];
    assert urn == URN_PREFIX + rest;
    SplitAfterPrefix(rest);
    var parts := Split(rest, ':');
    assert |parts| == 2 && Split(urn, ':')[3..] == parts;
    JoinSplit(rest, ':');
    JoinTwo(parts[0], parts[1], ':');
    assert parts == [parts[0], parts[1]];
    uuid := parts[0];
    assert rest == uuid + ":GLOBAL";
  }

  lemma JoinTwo(a: string, b: string, sep: char)
    ensures Join([a, b], sep) == a + [sep] + b
  {
  }

  lemma {:induction false} UuidUrnIsValid(uuid: string)
    requires IsUuid(uuid)
    ensures IsValidTagUrn(URN_PREFIX + uuid + ":GLOBAL")
  {
    NoColonInUuid(uuid);
    hide Split, IsUuid, Join;
    var rest := uuid + [':'] + "GLOBAL";
    assert URN_PREFIX + uuid + ":GLOBAL" == URN_PREFIX + rest;
    SplitAfterPrefix(rest);
    SplitFirst(uuid, "GLOBAL", ':');
    SplitWhole("GLOBAL", ':');
  }

  lemma NoColonInUuid(uuid: string)
    requires IsUuid(uuid)
    ensures ':' !in uuid
  {
  }

  predicate HexGroup(s: string, n: nat) {
    |s| == n && forall c :: c in s ==> c in "0123456789abcdefABCDEF"
  }

  lemma HexIs(c: char)
    ensures IsHex(c) <==> c in "0123456789abcdefABCDEF"
  {
  }

  lemma GroupOf(s: string, from: nat, to: nat)
    requires IsUuid(s) && from <= to <= 36
    requires 8 < from || to <= 8
    requires 13 < from || to <= 13
    requires 18 < from || to <= 18
    requires 23 < from || to <= 23
    ensures HexGroup(s[from..to], to - from)
  {
    hide IsHex;
    var group := s[from..to];
    forall x | x in group
      ensures x in "0123456789abcdefABCDEF"
    {
      var i :| 0 <= i < |group| && group[i] == x;
      assert s[from + i] == x && IsHex(s[from + i]);
      HexIs(x);
    }
  }

  lemma UuidSplits(s: string) returns (a: string, b: string, c: string, d: string, e: string)
    requires IsUuid(s)
    ensures HexGroup(a, 8) && HexGroup(b, 4) && HexGroup(c, 4) && HexGroup(d, 4) && HexGroup(e, 12)
    ensures s == a + "-" + b + "-" + c + "-" + d + "-" + e
  {
    GroupOf(s, 0, 8);
    GroupOf(s, 9, 13);
    GroupOf(s, 14, 18);
    GroupOf(s, 19, 23);
    GroupOf(s, 24, 36);
    a, b, c, d, e := s[0..8], s[9..13], s[14..18], s[19..23], s[24..36];
    hide IsHex, HexGroup;
    assert s[8] == '-' && s[13] == '-' && s[18] == '-' && s[23] == '-';
    hide IsUuid;
  }

  lemma UuidJoins(a: string, b: string, c: string, d: string, e: string)
    requires HexGroup(a, 8) && HexGroup(b, 4) && HexGroup(c, 4) && HexGroup(d, 4) && HexGroup(e, 12)
    ensures IsUuid(a + "-" + b + "-" + c + "-" + d + "-" + e)
  {
    hide IsHex;
    var s := a + "-" + b + "-" + c + "-" + d + "-" + e;
    forall i | 0 <= i < |s|
      ensures if i in {8, 13, 18, 23} then s[i] == '-' else IsHex(s[i])
    {
      HexIs(s[i]);
      assert i < 8 ==> s[i] == a[i];
      assert 8 < i < 13 ==> s[i] == b[i - 9];
      assert 13 < i < 18 ==> s[i] == c[i - 14];
      assert 18 < i < 23 ==> s[i] == d[i - 19];
      assert 23 < i ==> s[i] == e[i - 24];
    }
  }

  /** A tag id letter by letter: five groups of hexadecimal digits between the words. */
  lemma {:induction false} ValidUrnSpelled(urn: string)
    ensures IsValidTagUrn(urn) <==>
              exists a, b, c, d, e ::
                && HexGroup(a, 8) && HexGroup(b, 4) && HexGroup(c, 4) && HexGroup(d, 4) && HexGroup(e, 12)
                && urn == "urn:vmomi:InventoryServiceTag:" + (a + "-" + b + "-" + c + "-" + d + "-" + e) + ":GLOBAL"
  {
    hide IsValidTagUrn, IsUuid, HexGroup;
    ValidUrnIff(urn);
    if uuid: string :| IsUuid(uuid) && urn == URN_PREFIX + uuid + ":GLOBAL" {
      var a, b, c, d, e := UuidSplits(uuid);
    }
    if a, b, c, d, e :| && HexGroup(a, 8) && HexGroup(b, 4) && HexGroup(c, 4) && HexGroup(d, 4) && HexGroup(e, 12)
                        && urn == "urn:vmomi:InventoryServiceTag:" + (a + "-" + b + "-" + c + "-" + d + "-" + e)
                                  + ":GLOBAL" {
      UuidJoins(a, b, c, d, e);
    }
  }

  // ----- the whole configuration -----

  predicate Distinct<T(==)>(s: seq<T>) {
    forall i, j :: 0 <= i < j < |s| ==> s[i] != s[j]
  }

  function Key(category: string, name: string): string {
    category + ":" + name
  }

  /** The ids that blocks name, in order. */
  function IdsOf(blocks: seq<TagBlock>): seq<Id> {
    if blocks == [] then []
    else
      var last := blocks[|blocks| - 1];
      IdsOf(blocks[..|blocks| - 1]) + (if last.id != "" then [last.id] else [])
  }

  /** The category and name pairs that blocks name, in order. */
  function PairsOf(blocks: seq<TagBlock>): seq<(string, string)> {
    if blocks == [] then []
    else
      var last := blocks[|blocks| - 1];
      PairsOf(blocks[..|blocks| - 1]) + (if last.id == "" then [(last.category, last.name)] else [])
  }

  function KeysOf(pairs: seq<(string, string)>): (keys: seq<string>)
    ensures |keys| == |pairs| && forall i :: 0 <= i < |pairs| ==> keys[i] == Key(pairs[i].0, pairs[i].1)
  {
    seq(|pairs|, i requires 0 <= i < |pairs| => Key(pairs[i].0, pairs[i].1))
  }

  /** An id alone, of valid form, or a category and a name. */
  predicate WellFormed(block: TagBlock) {
    if block.id != "" then IsValidTagUrn(block.id) && block.category == "" && block.name == ""
    else block.category != "" && block.name != ""
  }

  predicate Forms(tags: seq<Id>, blocks: seq<TagBlock>) {
    (forall id :: id in tags ==> IsValidTagUrn(id)) && forall block :: block in blocks ==> WellFormed(block)
  }

  predicate Accepts(tags: seq<Id>, blocks: seq<TagBlock>) {
    Forms(tags, blocks) && Distinct(tags + IdsOf(blocks)) && Distinct(KeysOf(PairsOf(blocks)))
  }

  lemma {:induction false} DistinctNext<T>(s: seq<T>, x: T)
    ensures Distinct(s + [x]) <==> Distinct(s) && x !in s
  {
    if Distinct(s + [x]) {
      forall i, j | 0 <= i < j < |s|
        ensures s[i] != s[j]
      {
        assert (s + [x])[i] != (s + [x])[j];
      }
      forall i | 0 <= i < |s|
        ensures s[i] != x
      {
        assert (s + [x])[i] != (s + [x])[|s|];
      }
    }
  }

  lemma {:induction false} AcceptsNext(tags: seq<Id>, blocks: seq<TagBlock>, block: TagBlock)
    ensures Accepts(tags, blocks + [block]) <==>
            && Accepts(tags, blocks) && WellFormed(block)
            && if block.id != "" then block.id !in tags + IdsOf(blocks)
               else Key(block.category, block.name) !in KeysOf(PairsOf(blocks))
    ensures IdsOf(blocks + [block]) == IdsOf(blocks) + (if block.id != "" then [block.id] else [])
    ensures PairsOf(blocks + [block])
            == PairsOf(blocks) + (if block.id == "" then [(block.category, block.name)] else [])
  {
    var more := blocks + [block];
    assert more[..|more| - 1] == blocks;
    assert Forms(tags, more) <==> Forms(tags, blocks) && WellFormed(block);
    if block.id != "" {
      DistinctNext(tags + IdsOf(blocks), block.id);
      assert tags + IdsOf(more) == tags + IdsOf(blocks) + [block.id];
      assert PairsOf(more) == PairsOf(blocks);
    } else {
      DistinctNext(KeysOf(PairsOf(blocks)), Key(block.category, block.name));
      assert KeysOf(PairsOf(more)) == KeysOf(PairsOf(blocks)) + [Key(block.category, block.name)];
      assert IdsOf(more) == IdsOf(blocks);
    }
  }

  lemma {:induction false} AcceptsFewer(tags: seq<Id>, blocks: seq<TagBlock>, n: nat)
    requires Accepts(tags, blocks) && n <= |blocks|
    ensures Accepts(tags, blocks[..n])
    decreases |blocks| - n
  {
    if n == |blocks| {
      assert blocks[..n] == blocks;
    } else {
      AcceptsFewer(tags, blocks, n + 1);
      assert blocks[..n + 1] == blocks[..n] + [blocks[n]];
      AcceptsNext(tags, blocks[..n], blocks[n]);
    }
  }

  lemma {:induction false} AcceptsFewerTags(tags: seq<Id>, blocks: seq<TagBlock>, n: nat)
    requires Accepts(tags, blocks) && n <= |tags|
    ensures Accepts(tags[..n], [])
  {
    var ids := tags + IdsOf(blocks);
    forall i, j | 0 <= i < j < n
      ensures (tags[..n] + IdsOf([]))[i] != (tags[..n] + IdsOf([]))[j]
    {
      assert ids[i] != ids[j];
    }
  }

  /** One more tag id. */
  lemma {:induction false} AcceptsTag(tags: seq<Id>, id: Id)
    ensures Accepts(tags + [id], []) <==> Accepts(tags, []) && IsValidTagUrn(id) && id !in tags
  {
    DistinctNext(tags, id);
    assert tags + [id] + IdsOf([]) == tags + [id] && tags + IdsOf([]) == tags;
    assert Forms(tags + [id], []) <==> Forms(tags, []) && IsValidTagUrn(id);
  }

  /** What each error says of the n-th direct id. */
  ghost predicate IdFault(tags: seq<Id>, n: nat, err: ConfigError)
    requires n < |tags|
  {
    match err
    case EmptyId => tags[n] == ""
    case InvalidUrn => tags[n] != "" && !IsValidTagUrn(tags[n])
    case DuplicateId => exists i :: 0 <= i < n && tags[i] == tags[n]
    case _ => false
  }

  /** What each error says of the n-th block. */
  ghost predicate BlockFault(tags: seq<Id>, blocks: seq<TagBlock>, n: nat, err: ConfigError)
    requires n < |blocks|
  {
    var b := blocks[n];
    match err
    case BothForms => b.id != "" && (b.category != "" || b.name != "")
    case NeitherForm => b.id == "" && b.category == "" && b.name == ""
    case InvalidUrn => b.id != "" && !IsValidTagUrn(b.id)
    case DuplicateId => b.id != "" && !NewId(tags, blocks, n)
    case MissingCategory => b.id == "" && b.category == "" && b.name != ""
    case MissingName => b.id == "" && b.category != "" && b.name == ""
    case DuplicateName => b.id == "" && !NewName(blocks, n)
    case EmptyId => false
  }

  lemma SeenId(tags: seq<Id>, n: nat)
    requires n < |tags| && tags[n] in tags[..n]
    ensures IdFault(tags, n, DuplicateId)
  {
    var i :| 0 <= i < n && tags[..n][i] == tags[n];
    assert tags[i] == tags[n];
  }

  lemma SeenBlock(tags: seq<Id>, blocks: seq<TagBlock>, n: nat)
    requires n < |blocks|
    ensures blocks[n].id != "" && blocks[n].id in tags + IdsOf(blocks[..n]) ==> BlockFault(tags, blocks, n, DuplicateId)
    ensures blocks[n].id == "" && blocks[n].category + ":" + blocks[n].name in KeysOf(PairsOf(blocks[..n])) ==>
              BlockFault(tags, blocks, n, DuplicateName)
  {
    IdsOfAre(blocks[..n], blocks[n].id);
    KeysAre(blocks[..n], blocks[n].category + ":" + blocks[n].name);
    NewIdIs(tags, blocks, n);
    NewNameIs(blocks, n);
    hide IdsOf, PairsOf, KeysOf, NewId, NewName, IsValidTagUrn;
  }

  /** The pass over the direct ids. */
  method CheckIds(tags: seq<Id>, ghost blocks: seq<TagBlock>) returns (err: Option<ConfigError>, seenIds: set<Id>)
    ensures err.None? ==> Accepts(tags, []) && seenIds == set id | id in tags
    ensures err.Some? ==> !Accepts(tags, blocks) && exists i :: 0 <= i < |tags| && IdFault(tags, i, err.value)
  {
    NothingYet();
    hide Accepts, Forms, Distinct, IdsOf, PairsOf, KeysOf, IsValidTagUrn, IsUuid, Split;
    seenIds := {};
    for i := 0 to |tags|
      invariant Accepts(tags[..i], []) && seenIds == set id | id in tags[..i]
    {
      var id := tags[i];
      TagRound(tags, blocks, i);
      if id == "" {
        assert IdFault(tags, i, EmptyId);
        return Some(EmptyId), seenIds;
      }
      if !IsValidTagUrn(id) {
        assert IdFault(tags, i, InvalidUrn);
        return Some(InvalidUrn), seenIds;
      }
      if id in seenIds {
        SeenId(tags, i);
        return Some(DuplicateId), seenIds;
      }
      seenIds := seenIds + {id};
    }
    assert tags[..|tags|] == tags;
    err := None;
  }

  /** The tests of one block, in order. */
  method CheckBlock(tags: seq<Id>, blocks: seq<TagBlock>, i: nat, seenIds: set<Id>, seenKeys: set<string>)
    returns (err: Option<ConfigError>)
    requires i < |blocks| && seenIds == set id | id in tags + IdsOf(blocks[..i])
    requires seenKeys == set key | key in KeysOf(PairsOf(blocks[..i]))
    ensures err.None? <==>
              && WellFormed(blocks[i])
              && if blocks[i].id != "" then blocks[i].id !in tags + IdsOf(blocks[..i])
                 else Key(blocks[i].category, blocks[i].name) !in KeysOf(PairsOf(blocks[..i]))
    ensures err.Some? ==> BlockFault(tags, blocks, i, err.value)
  {
    hide IdsOf, PairsOf, KeysOf, IsValidTagUrn, NewId, NewName;
    SeenBlock(tags, blocks, i);
    var block := blocks[i];
    var hasId, hasName := block.id != "", block.category != "" || block.name != "";
    if hasId && hasName { return Some(BothForms); }
    if hasId {
      if !IsValidTagUrn(block.id) { return Some(InvalidUrn); }
      if block.id in seenIds { return Some(DuplicateId); }
    } else if hasName {
      if block.category == "" { return Some(MissingCategory); }
      if block.name == "" { return Some(MissingName); }
      var key := block.category + ":" + block.name;
      if key in seenKeys { return Some(DuplicateName); }
    } else {
      return Some(NeitherForm);
    }
    err := None;
  }

  /** The pass over the blocks. */
  method CheckBlocks(tags: seq<Id>, blocks: seq<TagBlock>, ids: set<Id>) returns (err: Option<ConfigError>)
    requires Accepts(tags, []) && ids == set id | id in tags
    ensures err.None? <==> Accepts(tags, blocks)
    ensures err.Some? ==> exists n :: 0 <= n < |blocks| && BlockFault(tags, blocks, n, err.value)
  {
    NothingYet();
    hide Accepts, Forms, Distinct, IdsOf, PairsOf, KeysOf, IsValidTagUrn, IsUuid, Split;
    assert tags + [] == tags && blocks[..0] == [];
    var seenIds, seenKeys: set<string> := ids, {};
    for i := 0 to |blocks|
      invariant Accepts(tags, blocks[..i])
      invariant seenIds == set id | id in tags + IdsOf(blocks[..i])
      invariant seenKeys == set key | key in KeysOf(PairsOf(blocks[..i]))
    {
      var block := blocks[i];
      BlockRound(tags, blocks, i);
      err := CheckBlock(tags, blocks, i, seenIds, seenKeys);
      if err.Some? {
        return;
      }
      if block.id != "" {
        seenIds := seenIds + {block.id};
      } else {
        seenKeys := seenKeys + {block.category + ":" + block.name};
      }
    }
    assert blocks[..|blocks|] == blocks;
    return None;
  }

  /** ValidateConfig accepts exactly the well-formed configurations with distinct ids and distinct keys. */
  method ValidateConfig(config: Option<TagsConfig>) returns (err: Option<ConfigError>)
    ensures err.None? <==> config.None? || Accepts(config.value.tags, config.value.blocks)
    ensures err.Some? ==>
              var tags, blocks := config.value.tags, config.value.blocks;
              || (exists i :: 0 <= i < |tags| && IdFault(tags, i, err.value))
              || (exists n :: 0 <= n < |blocks| && BlockFault(tags, blocks, n, err.value))
  {
    hide *;
    if config.None? {
      return None;
    }
    var ids;
    err, ids := CheckIds(config.value.tags, config.value.blocks);
    if err.None? {
      err := CheckBlocks(config.value.tags, config.value.blocks, ids);
    }
  }

  lemma NothingYet()
    ensures Accepts([], []) && IdsOf([]) == [] && PairsOf([]) == [] && KeysOf([]) == [] && !IsValidTagUrn("")
  {
  }

  lemma {:induction false} TagRound(tags: seq<Id>, blocks: seq<TagBlock>, i: nat)
    requires i < |tags| && Accepts(tags[..i], [])
    ensures tags[..i + 1] == tags[..i] + [tags[i]]
    ensures Accepts(tags[..i + 1], []) <==> IsValidTagUrn(tags[i]) && tags[i] !in tags[..i]
    ensures Accepts(tags, blocks) ==> Accepts(tags[..i + 1], [])
  {
    AcceptsTag(tags[..i], tags[i]);
    if Accepts(tags, blocks) {
      AcceptsFewerTags(tags, blocks, i + 1);
    }
  }

  lemma {:induction false} BlockRound(tags: seq<Id>, blocks: seq<TagBlock>, i: nat)
    requires i < |blocks| && Accepts(tags, blocks[..i])
    ensures var init, block := blocks[..i], blocks[i];
            && (Accepts(tags, blocks[..i + 1]) <==>
                && WellFormed(block)
                && if block.id != "" then block.id !in tags + IdsOf(init)
                   else Key(block.category, block.name) !in KeysOf(PairsOf(init)))
            && tags + IdsOf(blocks[..i + 1]) == tags + IdsOf(init) + (if block.id != "" then [block.id] else [])
            && KeysOf(PairsOf(blocks[..i + 1])) ==
               KeysOf(PairsOf(init)) + (if block.id == "" then [Key(block.category, block.name)] else [])
    ensures Accepts(tags, blocks) ==> Accepts(tags, blocks[..i + 1])
  {
    assert blocks[..i + 1] == blocks[..i] + [blocks[i]];
    AcceptsNext(tags, blocks[..i], blocks[i]);
    if Accepts(tags, blocks) {
      AcceptsFewer(tags, blocks, i + 1);
    }
  }

  // ----- acceptance, block by block -----

  lemma IdsOfUnfold(blocks: seq<TagBlock>)
    requires blocks != []
    ensures var last := blocks[|blocks| - 1];
            IdsOf(blocks) == IdsOf(blocks[..|blocks| - 1]) + if last.id != "" then [last.id] else []
  {
  }

  lemma {:induction false} IdsOfAre(blocks: seq<TagBlock>, id: Id)
    ensures id in IdsOf(blocks) <==> id != "" && exists i :: 0 <= i < |blocks| && blocks[i].id == id
  {
    if blocks != [] {
      hide *;
      var n := |blocks| - 1;
      IdsOfUnfold(blocks);
      IdsOfAre(blocks[..n], id);
      assert forall i :: 0 <= i < n ==> blocks[..n][i] == blocks[i];
    }
  }

  lemma {:induction false} KeysAre(blocks: seq<TagBlock>, key: string)
    ensures key in KeysOf(PairsOf(blocks)) <==>
              exists i :: 0 <= i < |blocks| && blocks[i].id == "" && blocks[i].category + ":" + blocks[i].name == key
  {
    if blocks != [] {
      var n, last := |blocks| - 1, blocks[|blocks| - 1];
      KeysAre(blocks[..n], key);
      assert blocks == blocks[..n] + [last];
      AppendedKeys(blocks[..n], last);
      hide PairsOf, KeysOf;
      assert forall i :: 0 <= i < n ==> blocks[..n][i] == blocks[i];
    }
  }

  lemma AppendedKeys(blocks: seq<TagBlock>, block: TagBlock)
    ensures KeysOf(PairsOf(blocks + [block]))
            == KeysOf(PairsOf(blocks)) + if block.id == "" then [block.category + ":" + block.name] else []
  {
    AcceptsNext([], blocks, block);
    hide PairsOf;
  }

  /** The id of the block differs from all tag ids and from the ids of the blocks before it. */
  ghost predicate NewId(tags: seq<Id>, blocks: seq<TagBlock>, n: nat)
    requires n < |blocks|
  {
    && (forall i :: 0 <= i < |tags| ==> tags[i] != blocks[n].id)
    && (forall i :: 0 <= i < n ==> blocks[i].id != blocks[n].id)
  }

  /** The joined category and name differ from those of the blocks without id before it. */
  ghost predicate NewName(blocks: seq<TagBlock>, n: nat)
    requires n < |blocks|
  {
    forall i :: 0 <= i < n && blocks[i].id == "" ==>
                  blocks[i].category + ":" + blocks[i].name != blocks[n].category + ":" + blocks[n].name
  }

  ghost predicate BlockFits(tags: seq<Id>, blocks: seq<TagBlock>, n: nat)
    requires n < |blocks|
  {
    var b := blocks[n];
    if b.id != "" then IsValidTagUrn(b.id) && b.category == "" && b.name == "" && NewId(tags, blocks, n)
    else b.category != "" && b.name != "" && NewName(blocks, n)
  }

  lemma OneMoreFits(tags: seq<Id>, blocks: seq<TagBlock>, n: nat)
    requires n < |blocks|
    ensures Accepts(tags, blocks[..n + 1]) <==> Accepts(tags, blocks[..n]) && BlockFits(tags, blocks, n)
  {
    var front, b := blocks[..n], blocks[n];
    assert blocks[..n + 1] == front + [b];
    AcceptsNext(tags, front, b);
    IdsOfAre(front, b.id);
    KeysAre(front, b.category + ":" + b.name);
    NewIdIs(tags, blocks, n);
    NewNameIs(blocks, n);
    hide Accepts, IsValidTagUrn, IdsOf, PairsOf, KeysOf, NewId, NewName;
  }

  lemma NewIdIs(tags: seq<Id>, blocks: seq<TagBlock>, n: nat)
    requires n < |blocks|
    ensures NewId(tags, blocks, n) <==>
              blocks[n].id !in tags && !exists i :: 0 <= i < |blocks[..n]| && blocks[..n][i].id == blocks[n].id
  {
    assert forall i :: 0 <= i < n ==> blocks[..n][i] == blocks[i];
  }

  lemma NewNameIs(blocks: seq<TagBlock>, n: nat)
    requires n < |blocks|
    ensures NewName(blocks, n) <==>
              !exists i :: 0 <= i < |blocks[..n]| && blocks[..n][i].id == ""
                           && blocks[..n][i].category + ":" + blocks[..n][i].name
                              == blocks[n].category + ":" + blocks[n].name
  {
    assert forall i :: 0 <= i < n ==> blocks[..n][i] == blocks[i];
  }

  /** The direct ids alone. */
  lemma {:induction false} AcceptsTagsIff(tags: seq<Id>, n: nat)
    requires n <= |tags|
    ensures Accepts(tags[..n], []) <==>
              && (forall i :: 0 <= i < n ==> IsValidTagUrn(tags[i]))
              && (forall i, j :: 0 <= i < j < n ==> tags[i] != tags[j])
  {
    hide Accepts, IsValidTagUrn;
    if n == 0 {
      NothingYet();
    } else {
      AcceptsTagsIff(tags, n - 1);
      assert tags[..n] == tags[..n - 1] + [tags[n - 1]];
      AcceptsTag(tags[..n - 1], tags[n - 1]);
      assert tags[n - 1] in tags[..n - 1] <==> exists i :: 0 <= i < n - 1 && tags[i] == tags[n - 1];
    }
  }

  lemma {:induction false} AcceptsBlocksIff(tags: seq<Id>, blocks: seq<TagBlock>, n: nat)
    requires n <= |blocks|
    ensures Accepts(tags, blocks[..n]) <==>
              Accepts(tags, []) && forall j: nat :: j < n ==> BlockFits(tags, blocks, j)
  {
    hide *;
    if n == 0 {
      assert blocks[..0] == [];
    } else {
      AcceptsBlocksIff(tags, blocks, n - 1);
      OneMoreFits(tags, blocks, n - 1);
    }
  }

  /**
   Acceptance on the configuration's own fields: valid and different ids, and every
   block in one of the two forms, naming an id or a joined category and name that
   nothing before it names.
   */
  lemma {:induction false} AcceptsIff(tags: seq<Id>, blocks: seq<TagBlock>)
    ensures Accepts(tags, blocks) <==>
              && (forall i :: 0 <= i < |tags| ==> IsValidTagUrn(tags[i]))
              && (forall i, j :: 0 <= i < j < |tags| ==> tags[i] != tags[j])
              && (forall j: nat :: j < |blocks| ==> BlockFits(tags, blocks, j))
  {
    hide *;
    assert tags[..|tags|] == tags && blocks[..|blocks|] == blocks;
    AcceptsTagsIff(tags, |tags|);
    AcceptsBlocksIff(tags, blocks, |blocks|);
  }

  // ----- how exact the duplicate test is -----

  /** Keys are apart only if pairs are: what is accepted names no category and name twice. */
  lemma {:induction false} AcceptedPairsAreDistinct(tags: seq<Id>, blocks: seq<TagBlock>)
    requires Accepts(tags, blocks)
    ensures Distinct(PairsOf(blocks))
  {
    var pairs := PairsOf(blocks);
    forall i, j | 0 <= i < j < |pairs|
      ensures pairs[i] != pairs[j]
    {
      assert KeysOf(pairs)[i] != KeysOf(pairs)[j];
    }
  }

  /** With no separator in either category, equal keys mean equal pairs. */
  lemma KeyIsExact(c: string, n: string, c': string, n': string)
    requires ':' !in c && ':' !in c' && Key(c, n) == Key(c', n')
    ensures c == c' && n == n'
  {
    var k := Key(c, n);
    assert k[|c|] == ':' && k[|c'|] == ':';
    assert k[..|c|] == c && k[|c| + 1..] == n && k[..|c'|] == c' && k[|c'| + 1..] == n';
    assert forall i :: 0 <= i < |c| ==> k[i] == c[i];
    assert forall i :: 0 <= i < |c'| ==> k[i] == c'[i];
  }

  /** A pair shares its key with no other pair exactly when neither part contains the separator. */
  lemma KeyIsUniqueIff(c: string, n: string)
    ensures (forall c': string, n': string :: Key(c', n') == Key(c, n) ==> c' == c && n' == n)
            <==> ':' !in c && ':' !in n
  {
    var k := Key(c, n);
    if i :| 0 <= i < |c| && c[i] == ':' {
      var c', n' := c[..i], c[i + 1..] + ":" + n;
      assert c == c[..i] + [c[i]] + c[i + 1..];
      assert Key(c', n') == k && |c'| < |c|;
    } else if i :| 0 <= i < |n| && n[i] == ':' {
      var c', n' := c + ":" + n[..i], n[i + 1..];
      assert n == n[..i] + [n[i]] + n[i + 1..];
      assert Key(c', n') == k && |c'| > |c|;
    } else {
      forall c': string, n': string | Key(c', n') == k
        ensures c' == c && n' == n
      {
        OnlyColon(c, n, c', n');
      }
    }
  }

  lemma OnlyColon(c: string, n: string, c': string, n': string)
    requires ':' !in c && ':' !in n && Key(c', n') == Key(c, n)
    ensures c' == c && n' == n
  {
    var k := Key(c, n);
    assert k[|c'|] == ':';
    assert k[..|c|] == c && k[|c| + 1..] == n && k[..|c'|] == c' && k[|c'| + 1..] == n';
    assert forall i :: 0 <= i < |c| ==> k[i] == c[i];
    forall i | |c| < i < |k|
      ensures k[i] != ':'
    {
      assert k[i] == n[i - |c| - 1];
    }
  }

  /** Where no category contains the separator, the test is exact. */
  lemma {:induction false} ExactWithoutSeparator(tags: seq<Id>, blocks: seq<TagBlock>)
    requires forall block :: block in blocks ==> ':' !in block.category
    ensures Accepts(tags, blocks) <==>
            Forms(tags, blocks) && Distinct(tags + IdsOf(blocks)) && Distinct(PairsOf(blocks))
  {
    var pairs := PairsOf(blocks);
    PairsAreNamed(blocks);
    if Accepts(tags, blocks) {
      AcceptedPairsAreDistinct(tags, blocks);
    }
    if Distinct(pairs) {
      forall i, j | 0 <= i < j < |pairs|
        ensures KeysOf(pairs)[i] != KeysOf(pairs)[j]
      {
        assert pairs[i] != pairs[j] && pairs[i] in pairs && pairs[j] in pairs;
        if KeysOf(pairs)[i] == KeysOf(pairs)[j] {
          KeyIsExact(pairs[i].0, pairs[i].1, pairs[j].0, pairs[j].1);
          assert false;
        }
      }
    }
  }

  lemma {:induction false} PairsAreNamed(blocks: seq<TagBlock>)
    ensures forall pair :: pair in PairsOf(blocks) ==> exists block :: block in blocks && block.category == pair.0
  {
    if blocks != [] {
      PairsAreNamed(blocks[..|blocks| - 1]);
      assert blocks[|blocks| - 1] in blocks;
    }
  }

  /** Two different category and name pairs that are refused as duplicates. */
  lemma DistinctPairsRefused()
    ensures var blocks := [TagBlock("", "a", "b:c"), TagBlock("", "a:b", "c")];
            Forms([], blocks) && Distinct(PairsOf(blocks)) && !Accepts([], blocks)
  {
    var one, two := TagBlock("", "a", "b:c"), TagBlock("", "a:b", "c");
    var blocks := [one, two];
    assert [one] == [] + [one] && blocks == [one] + [two];
    AcceptsNext([], [], one);
    AcceptsNext([], [one], two);
    assert PairsOf(blocks) == [("a", "b:c"), ("a:b", "c")];
    assert Key("a", "b:c") == Key("a:b", "c");
    assert KeysOf(PairsOf(blocks))[0] == KeysOf(PairsOf(blocks))[1];
  }
}
