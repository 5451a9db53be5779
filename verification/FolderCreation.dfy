/**
 Creating a folder path in the inventory, two ways: from the target upwards to
 the first folder that exists and back down, or from the base downwards. Paths
 are lists of names; a request is the list of names between its slashes.
 */
module FolderCreation {

  type Path = seq<string>

  /** The server's folders. It may refuse to create some paths. */
  class Inventory {
    const refuses: Path -> bool
    var folders: set<Path>
    /** Folders created so far, in order. */
    var created: seq<Path>

    constructor (folders: set<Path>, refuses: Path -> bool)
      ensures this.folders == folders && this.refuses == refuses && created == []
    {
      this.folders, this.refuses, created := folders, refuses, [];
    }

    method Exists(path: Path) returns (found: bool)
      ensures found == (path in folders)
    {
      found := path in folders;
    }

    /** Fails when the parent is missing, the name is taken or blank, or the server refuses. */
    method CreateFolder(parent: Path, name: string) returns (ok: bool)
      modifies this
      ensures ok == (parent in old(folders) && parent + [name] !in old(folders) && name != ""
                     && !refuses(parent + [name]))
      ensures folders == (if ok then old(folders) + {parent + [name]} else old(folders))
      ensures created == (if ok then old(created) + [parent + [name]] else old(created))
    {
      ok := parent in folders && parent + [name] !in folders && name != "" && !refuses(parent + [name]);
      if ok {
        folders := folders + {parent + [name]};
        created := created + [parent + [name]];
      }
    }
  }

  /** path.Join drops blank and "." names. */
  predicate Dropped(name: string) {
    name == "" || name == "."
  }

  function Clean(names: seq<string>): (path: Path)
    ensures |path| <= |names| && forall i :: 0 <= i < |path| ==> path[i] != ""
  {
    if names == [] then []
    else Clean(names[..|names| - 1]) + (if Dropped(names[|names| - 1]) then [] else [names[|names| - 1]])
  }

  /** The n-th name of the path is that at place at[n]; the places are those of all names other than "" and ".". */
  ghost predicate Keeps(names: seq<string>, path: Path, at: seq<nat>) {
    && |at| == |path|
    && (forall k :: 0 <= k < |at| ==> at[k] < |names| && path[k] == names[at[k]] && path[k] != "" && path[k] != ".")
    && (forall j, k :: 0 <= j < k < |at| ==> at[j] < at[k])
    && (forall i :: 0 <= i < |names| && names[i] != "" && names[i] != "." ==> i in at)
  }

  lemma CleanUnfolds(names: seq<string>)
    requires names != []
    ensures var last := names[|names| - 1];
            Clean(names)
            == if last != "" && last != "." then Clean(names[..|names| - 1]) + [last] else Clean(names[..|names| - 1])
  {
  }

  lemma KeepsOneMore(names: seq<string>, path: Path, at: seq<nat>)
    requires names != [] && Keeps(names[..|names| - 1], path, at)
    ensures var n, last := |names| - 1, names[|names| - 1];
            if last != "" && last != "." then Keeps(names, path + [last], at + [n]) else Keeps(names, path, at)
  {
    var n := |names| - 1;
    forall i | 0 <= i < |names| && names[i] != "" && names[i] != "."
      ensures i in at + [n]
      ensures i < n ==> i in at
    {
      assert i < n ==> names[..n][i] == names[i];
    }
  }

  /** Cleaning keeps the names other than "" and ".", all of them and in order. */
  lemma {:induction false} CleanAt(names: seq<string>) returns (at: seq<nat>)
    ensures Keeps(names, Clean(names), at)
  {
    if names == [] {
      at := [];
    } else {
      hide *;
      var n := |names| - 1;
      at := CleanAt(names[..n]);
      CleanUnfolds(names);
      KeepsOneMore(names, Clean(names[..n]), at);
      if names[n] != "" && names[n] != "." {
        at := at + [n];
      }
    }
  }

  /** A path under the base exists only if its parent does. */
  ghost predicate PrefixClosed(folders: set<Path>, base: Path) {
    forall path, name :: base + path + [name] in folders ==> base + path in folders
  }

  /** The missing folders on the way to base + target[..n], shallowest first. */
  function Missing(folders: set<Path>, base: Path, target: Path, n: nat): seq<Path>
    requires n <= |target|
  {
    if n == 0 then []
    else Missing(folders, base, target, n - 1) + (if base + target[..n] in folders then [] else [base + target[..n]])
  }

  /** What is created of a list of paths: everything before the first refusal. */
  function Admitted(paths: seq<Path>, refuses: Path -> bool): (r: seq<Path>)
    ensures |r| <= |paths| && r == paths[..|r|]
  {
    if paths == [] || refuses(paths[0]) then [] else [paths[0]] + Admitted(paths[1..], refuses)
  }

  function PathSet(paths: seq<Path>): set<Path> {
    set p | p in paths
  }

  /** The outcome both ways share: the admitted missing folders appear, in order, and no others. */
  ghost predicate Created(before: set<Path>, log: seq<Path>, after: set<Path>, log': seq<Path>, base: Path,
                          target: Path, refuses: Path -> bool, ok: bool) {
    var missing := Missing(before, base, target, |target|);
    && after == before + PathSet(Admitted(missing, refuses))
    && log' == log + Admitted(missing, refuses)
    && (ok <==> Admitted(missing, refuses) == missing)
  }

  // ----- facts about the list of missing folders -----

  lemma {:induction false} AdmittedIf(a: seq<Path>, b: seq<Path>, refuses: Path -> bool)
    requires forall i :: 0 <= i < |a| ==> !refuses(a[i])
    ensures Admitted(a + b, refuses) == a + Admitted(b, refuses)
  {
    if a == [] {
      assert a + b == b;
    } else {
      assert (a + b)[1..] == a[1..] + b;
      AdmittedIf(a[1..], b, refuses);
    }
  }

  lemma {:induction false} MissingGrows(folders: set<Path>, base: Path, target: Path, m: nat, n: nat)
    requires m <= n <= |target|
    ensures Missing(folders, base, target, m) <= Missing(folders, base, target, n)
    decreases n
  {
    if m < n {
      MissingGrows(folders, base, target, m, n - 1);
    }
  }

  /** With everything down to depth m present, nothing is missing so far. */
  lemma {:induction false} PresentAbove(folders: set<Path>, base: Path, target: Path, m: nat)
    requires m <= |target| && PrefixClosed(folders, base) && base + target[..m] in folders
    ensures Missing(folders, base, target, m) == []
  {
    if m > 0 {
      assert target[..m] == target[..m - 1] + [target[m - 1]];
      assert base + target[..m] == base + target[..m - 1] + [target[m - 1]];
      PresentAbove(folders, base, target, m - 1);
    }
  }

  /** Creating the next missing folder refused: the rest is never reached. */
  lemma {:induction false} StopsHere(folders: set<Path>, base: Path, target: Path, n: nat, refuses: Path -> bool)
    requires n < |target| && base + target[..n + 1] !in folders && refuses(base + target[..n + 1])
    requires forall i :: 0 <= i < |Missing(folders, base, target, n)| ==> !refuses(Missing(folders, base, target, n)[i])
    ensures Admitted(Missing(folders, base, target, |target|), refuses) == Missing(folders, base, target, n)
    ensures Admitted(Missing(folders, base, target, |target|), refuses) != Missing(folders, base, target, |target|)
  {
    MissingGrows(folders, base, target, n + 1, |target|);
    var all, some := Missing(folders, base, target, |target|), Missing(folders, base, target, n);
    var rest := all[|some|..];
    assert Missing(folders, base, target, n + 1) == some + [base + target[..n + 1]];
    assert all == some + rest && rest[0] == base + target[..n + 1];
    AdmittedIf(some, rest, refuses);
  }

  lemma {:induction false} AllAdmitted(paths: seq<Path>, refuses: Path -> bool)
    requires forall i :: 0 <= i < |paths| ==> !refuses(paths[i])
    ensures Admitted(paths, refuses) == paths
  {
    AdmittedIf(paths, [], refuses);
    assert paths + [] == paths;
  }

  // ----- bottom up -----

  /** The folder n names below the base, on the way to the target. */
  function AtDepth(base: Path, target: Path, n: nat): Path
    requires n <= |target|
  {
    base + target[..n]
  }

  /** The names passed on the way up, deepest first. */
  ghost predicate SavedUpTo(target: Path, saved: seq<string>) {
    |saved| <= |target| && forall i :: 0 <= i < |saved| ==> saved[i] == target[|target| - 1 - i]
  }

  ghost predicate NoneBelow(folders: set<Path>, base: Path, target: Path, m: nat) {
    m <= |target| && forall k :: m < k <= |target| ==> base + target[..k] !in folders
  }

  /** Dropping the last name of a missing path: either the base was missing, or one name more is saved. */
  lemma {:induction false} ClimbStep(folders: set<Path>, dcPath: Path, target: Path, saved: seq<string>, full: Path)
    requires SavedUpTo(target, saved) && NoneBelow(folders, dcPath + ["vm"], target, |target| - |saved|)
    requires full == dcPath + ["vm"] + target[..|target| - |saved|] && full !in folders
    ensures var dir, base := full[..|full| - 1], dcPath + ["vm"];
            if |saved| == |target| then dir == dcPath && base !in folders
            else
              && dir != dcPath && dir == base + target[..|target| - (|saved| + 1)]
              && SavedUpTo(target, saved + [full[|full| - 1]])
                   && NoneBelow(folders, base, target, |target| - (|saved| + 1))
  {
    var m := |target| - |saved|;
    if m == 0 {
      assert full == dcPath + ["vm"];
    } else {
      assert full[..|full| - 1] == dcPath + ["vm"] + target[..m - 1];
      assert |full[..|full| - 1]| == |dcPath| + m;
    }
  }

  /**
   The template step: walks up from the target to the first folder that exists,
   saving the names passed, then creates them on the way back down.
   */
  method CreateBottomUp(inventory: Inventory, dcPath: Path, request: seq<string>) returns (ok: bool, fullPath: Path)
    requires PrefixClosed(inventory.folders, dcPath + ["vm"]) && ".." !in request
    modifies inventory
    ensures var base, target := dcPath + ["vm"], Clean(request);
            if base in old(inventory.folders) then
              && Created(old(inventory.folders), old(inventory.created), inventory.folders, inventory.created,
                         base, target, inventory.refuses, ok)
              && (ok ==> fullPath == base + target)
            else
              !ok && inventory.folders == old(inventory.folders) && inventory.created == old(inventory.created)
  {
    var base, target := dcPath + ["vm"], Clean(request);
    ghost var before, log := inventory.folders, inventory.created;
    assert NoneBelow(before, base, target, |target|) && SavedUpTo(target, []) && target[..|target|] == target;
    hide *;
    fullPath := base + target;
    var saved := [];
    var found := inventory.Exists(fullPath);
    while !found
      invariant inventory.folders == before && inventory.created == log && found == (fullPath in before)
      invariant |saved| <= |target| && fullPath == base + target[..|target| - |saved|]
      invariant SavedUpTo(target, saved) && NoneBelow(before, base, target, |target| - |saved|)
      decreases |target| - |saved|, if found then 0 else 1
    {
      ClimbStep(before, dcPath, target, saved, fullPath);
      var name := fullPath[|fullPath| - 1];
      fullPath := fullPath[..|fullPath| - 1];
      if fullPath == dcPath {
        return false, fullPath;
      }
      saved := saved + [name];
      found := inventory.Exists(fullPath);
    }
    BaseIsThere(before, base, target, |target| - |saved|);
    ok, fullPath := CreateSaved(inventory, base, target, saved, fullPath);
  }

  lemma {:induction false} BaseIsThere(folders: set<Path>, base: Path, target: Path, m: nat)
    requires m <= |target| && PrefixClosed(folders, base) && base + target[..m] in folders
    ensures base in folders
  {
    if m == 0 {
      assert base + target[..0] == base;
    } else {
      assert target[..m] == target[..m - 1] + [target[m - 1]];
      assert base + target[..m] == base + target[..m - 1] + [target[m - 1]];
      BaseIsThere(folders, base, target, m - 1);
    }
  }

  /** How far a way down to depth n has come: the missing folders so far exist, none was refused. */
  ghost predicate Reached(before: set<Path>, log: seq<Path>, now: set<Path>, log': seq<Path>, base: Path, target: Path,
                          n: nat, refuses: Path -> bool) {
    && n <= |target| && base + target[..n] in now
    && (var some := Missing(before, base, target, n);
        && now == before + PathSet(some) && log' == log + some
        && forall i :: 0 <= i < |some| ==> !refuses(some[i]))
  }

  lemma {:induction false} ReachedStart(before: set<Path>, log: seq<Path>, base: Path, target: Path, m: nat,
                                        refuses: Path -> bool)
    requires m <= |target| && PrefixClosed(before, base) && base + target[..m] in before
    ensures Reached(before, log, before, log, base, target, m, refuses)
  {
    PresentAbove(before, base, target, m);
    assert before + PathSet([]) == before && log + [] == log;
  }

  /** One level down: present means it was there all along; absent means it is created or the run ends. */
  lemma {:induction false} ReachedStep(before: set<Path>, log: seq<Path>, now: set<Path>, log': seq<Path>, base: Path,
                                       target: Path, n: nat, refuses: Path -> bool)
    requires Reached(before, log, now, log', base, target, n, refuses) && n < |target|
    ensures base + target[..n] + [target[n]] == base + target[..n + 1]
    ensures var next := base + target[..n + 1];
            if next in now then next in before && Reached(before, log, now, log', base, target, n + 1, refuses)
            else if refuses(next) then Created(before, log, now, log', base, target, refuses, false)
            else next !in before && Reached(before, log, now + {next}, log' + [next], base, target, n + 1, refuses)
  {
    var next, some := base + target[..n + 1], Missing(before, base, target, n);
    assert target[..n] + [target[n]] == target[..n + 1];
    if next in now {
      MissingIsShallow(before, base, target, n);
      assert Missing(before, base, target, n + 1) == some;
    } else if refuses(next) {
      StopsHere(before, base, target, n, refuses);
    } else {
      assert Missing(before, base, target, n + 1) == some + [next];
      assert PathSet(some + [next]) == PathSet(some) + {next};
      assert log + some + [next] == log + (some + [next]);
    }
  }

  /** The way down has reached the target. */
  lemma {:induction false} ReachedAll(before: set<Path>, log: seq<Path>, now: set<Path>, log': seq<Path>, base: Path,
                                      target: Path, refuses: Path -> bool)
    requires Reached(before, log, now, log', base, target, |target|, refuses)
    ensures Created(before, log, now, log', base, target, refuses, true)
  {
    AllAdmitted(Missing(before, base, target, |target|), refuses);
  }

  /** Missing folders down to depth n are no deeper than n. */
  lemma {:induction false} MissingIsShallow(folders: set<Path>, base: Path, target: Path, n: nat)
    requires n <= |target|
    ensures forall p :: p in Missing(folders, base, target, n) ==> |p| <= |base| + n
  {
    if n > 0 {
      MissingIsShallow(folders, base, target, n - 1);
    }
  }

  /** What is not there at the start is not there on the way until its turn. */
  lemma {:induction false} NotCreatedYet(before: set<Path>, log: seq<Path>, now: set<Path>, log': seq<Path>, base: Path,
                                         target: Path, n: nat, refuses: Path -> bool)
    requires Reached(before, log, now, log', base, target, n, refuses) && n < |target|
    requires base + target[..n + 1] !in before
    ensures base + target[..n + 1] !in now
  {
    MissingIsShallow(before, base, target, n);
  }

  /** The next saved name names a folder that is still absent; creating it is one level down. */
  lemma {:induction false} SavedStep(before: set<Path>, log: seq<Path>, now: set<Path>, log': seq<Path>, base: Path,
                                     target: Path, saved: seq<string>, n: nat, refuses: Path -> bool)
    requires SavedUpTo(target, saved) && NoneBelow(before, base, target, |target| - |saved|)
    requires |target| - |saved| <= n < |target| && Reached(before, log, now, log', base, target, n, refuses)
    ensures var next := AtDepth(base, target, n + 1);
            && saved[|target| - 1 - n] == target[n] && AtDepth(base, target, n) + [target[n]] == next && next !in now
            && if refuses(next) then Created(before, log, now, log', base, target, refuses, false)
               else Reached(before, log, now + {next}, log' + [next], base, target, n + 1, refuses)
  {
    NotCreatedYet(before, log, now, log', base, target, n, refuses);
    ReachedStep(before, log, now, log', base, target, n, refuses);
  }

  lemma SavedFit(base: Path, target: Path, saved: seq<string>)
    requires SavedUpTo(target, saved)
    ensures |saved| <= |target| && AtDepth(base, target, |target| - |saved|) == base + target[..|target| - |saved|]
  {
  }

  lemma Ends(base: Path, target: Path)
    ensures AtDepth(base, target, |target|) == base + target
  {
    assert target[..|target|] == target;
  }

  /** One round of the backward loop. */
  method CreateNext(inventory: Inventory, base: Path, target: Path, saved: seq<string>, i: nat, root: Path,
                    ghost before: set<Path>, ghost log: seq<Path>)
    returns (ok: bool, fullPath: Path)
    requires SavedUpTo(target, saved) && NoneBelow(before, base, target, |target| - |saved|)
    requires i < |saved| <= |target| && target[|target| - 1 - i] != ""
    requires root == AtDepth(base, target, |target| - 1 - i) && root in inventory.folders
    requires Reached(before, log, inventory.folders, inventory.created, base, target, |target| - 1 - i,
                     inventory.refuses)
    modifies inventory
    ensures if ok then
              && fullPath == AtDepth(base, target, |target| - i) && fullPath in inventory.folders
              && Reached(before, log, inventory.folders, inventory.created, base, target, |target| - i,
                         inventory.refuses)
            else Created(before, log, inventory.folders, inventory.created, base, target, inventory.refuses, false)
  {
    hide *;
    SavedStep(before, log, inventory.folders, inventory.created, base, target, saved, |target| - 1 - i,
              inventory.refuses);
    ok := inventory.CreateFolder(root, saved[i]);
    fullPath := root + [saved[i]];
  }

  /** The backward loop over the saved names. */
  method CreateSaved(inventory: Inventory, base: Path, target: Path, saved: seq<string>, root: Path)
    returns (ok: bool, fullPath: Path)
    requires PrefixClosed(inventory.folders, base) && SavedUpTo(target, saved)
    requires root == base + target[..|target| - |saved|] && root in inventory.folders
    requires NoneBelow(inventory.folders, base, target, |target| - |saved|)
    requires forall i :: 0 <= i < |target| ==> target[i] != ""
    modifies inventory
    ensures Created(old(inventory.folders), old(inventory.created), inventory.folders, inventory.created,
                    base, target, inventory.refuses, ok)
    ensures ok ==> fullPath == base + target
  {
    hide *;
    ghost var before, log := inventory.folders, inventory.created;
    SavedFit(base, target, saved);
    ReachedStart(before, log, base, target, |target| - |saved|, inventory.refuses);
    fullPath := root;
    for i := |saved| downto 0
      invariant fullPath == AtDepth(base, target, |target| - i) && fullPath in inventory.folders
      invariant Reached(before, log, inventory.folders, inventory.created, base, target, |target| - i,
                        inventory.refuses)
    {
      ok, fullPath := CreateNext(inventory, base, target, saved, i, fullPath, before, log);
      if !ok {
        return;
      }
    }
    Ends(base, target);
    ReachedAll(before, log, inventory.folders, inventory.created, base, target, inventory.refuses);
    ok := true;
  }

  // ----- top down -----

  lemma {:induction false} CleanPrefix(names: seq<string>, i: nat)
    requires i <= |names|
    ensures Clean(names[..i]) <= Clean(names)
    decreases |names| - i
  {
    if i == |names| {
      assert names[..i] == names;
    } else {
      assert names[..i + 1][..i] == names[..i];
      CleanPrefix(names, i + 1);
    }
  }

  /** One more name of the request: it stays, or it is the next name of the target. */
  lemma {:induction false} CleanStep(request: seq<string>, parent: Path, i: nat)
    requires i < |request| && parent == Clean(request[..i])
    ensures var target := Clean(request);
            && |parent| <= |target| && target[..|parent|] == parent
            && if Dropped(request[i]) then Clean(request[..i + 1]) == parent
               else
                 && Clean(request[..i + 1]) == parent + [request[i]]
                 && |parent| < |target| && target[|parent|] == request[i]
                 && target[..|parent| + 1] == parent + [request[i]]
  {
    assert request[..i + 1][..i] == request[..i];
    CleanPrefix(request, i);
    CleanPrefix(request, i + 1);
  }

  /** One round of the descent: where it leads, and what creating it does. */
  lemma {:induction false} DescendStep(before: set<Path>, log: seq<Path>, now: set<Path>, log': seq<Path>, base: Path,
                                       request: seq<string>, parent: Path, i: nat, refuses: Path -> bool)
    requires i < |request| && parent == Clean(request[..i]) && base + parent in now
    requires Reached(before, log, now, log', base, Clean(request), |parent|, refuses)
    ensures var target, name := Clean(request), request[i];
            var next := if Dropped(name) then parent else parent + [name];
            && next == Clean(request[..i + 1]) && |next| <= |target|
            && if base + next in now then Reached(before, log, now, log', base, target, |next|, refuses)
               else
                 && name != "" && base + parent + [name] == base + next
                 && if refuses(base + next) then Created(before, log, now, log', base, target, refuses, false)
                    else Reached(before, log, now + {base + next}, log' + [base + next], base, target, |next|, refuses)
  {
    CleanStep(request, parent, i);
    if !Dropped(request[i]) {
      ReachedStep(before, log, now, log', base, Clean(request), |parent|, refuses);
    }
  }

  /**
   FindFolder: descends from the base through the request, creating what it does
   not find; a blank or "." name stays where it is.
   */
  method FindFolder(inventory: Inventory, dcPath: Path, request: seq<string>) returns (ok: bool)
    requires PrefixClosed(inventory.folders, dcPath + ["vm"]) && ".." !in request
    modifies inventory
    ensures var base, target := dcPath + ["vm"], Clean(request);
            if base in old(inventory.folders) then
              Created(old(inventory.folders), old(inventory.created), inventory.folders, inventory.created,
                      base, target, inventory.refuses, ok)
            else
              !ok && inventory.folders == old(inventory.folders) && inventory.created == old(inventory.created)
  {
    var base := dcPath + ["vm"];
    ghost var target := Clean(request);
    ghost var before, log := inventory.folders, inventory.created;
    assert request[..0] == [] && Clean([]) == [] && base + [] == base && target[..0] == [];
    hide *;
    var there := inventory.Exists(base);
    if !there {
      return false;
    }
    var parent: Path, parentFolder := [], base;
    ReachedStart(before, log, base, target, 0, inventory.refuses);
    for i := 0 to |request|
      invariant parent == Clean(request[..i]) && |parent| <= |target|
      invariant parentFolder == base + parent && parentFolder in inventory.folders
      invariant Reached(before, log, inventory.folders, inventory.created, base, target, |parent|, inventory.refuses)
    {
      var name := request[i];
      DescendStep(before, log, inventory.folders, inventory.created, base, request, parent, i, inventory.refuses);
      var next := if Dropped(name) then parent else parent + [name];
      var found := inventory.Exists(base + next);
      if !found {
        var made := inventory.CreateFolder(parentFolder, name);
        if !made {
          return false;
        }
      }
      parent, parentFolder := next, base + next;
    }
    assert request[..|request|] == request;
    ReachedAll(before, log, inventory.folders, inventory.created, base, target, inventory.refuses);
    ok := inventory.Exists(base + parent);
  }

  // ----- what both build -----

  lemma {:induction false} MissingMembers(folders: set<Path>, base: Path, target: Path, n: nat)
    requires n <= |target|
    ensures forall p :: p in Missing(folders, base, target, n) ==>
            p !in folders && exists k: nat :: 0 < k <= n && p == base + target[..k]
    ensures forall k :: 0 < k <= n ==>
            base + target[..k] in folders || base + target[..k] in Missing(folders, base, target, n)
  {
    if n > 0 {
      MissingMembers(folders, base, target, n - 1);
    }
  }

  /** A success adds the prefixes of the target and nothing else. */
  lemma {:induction false} SuccessAddsPrefixes(before: set<Path>, log: seq<Path>, after: set<Path>, log': seq<Path>,
                                               base: Path, target: Path, refuses: Path -> bool)
    requires Created(before, log, after, log', base, target, refuses, true) && base in before
    ensures after == before + set k | 0 <= k <= |target| :: base + target[..k]
  {
    MissingMembers(before, base, target, |target|);
    assert base + target[..0] == base;
    forall p | p in after
      ensures p in before || exists k: nat :: k <= |target| && p == base + target[..k]
    {
    }
    forall k | 0 <= k <= |target|
      ensures base + target[..k] in after
    {
    }
  }

  /** A missing folder is listed after its parent. */
  lemma {:induction false} ParentFirst(folders: set<Path>, base: Path, target: Path, n: nat, j: nat) returns (k: nat)
    requires n <= |target| && base in folders && j < |Missing(folders, base, target, n)|
    ensures k < n && Missing(folders, base, target, n)[j] == base + target[..k] + [target[k]]
    ensures base + target[..k] in folders || base + target[..k] in Missing(folders, base, target, n)[..j]
  {
    if j < |Missing(folders, base, target, n - 1)| {
      k := ParentFirst(folders, base, target, n - 1, j);
      assert Missing(folders, base, target, n)[..j] == Missing(folders, base, target, n - 1)[..j];
    } else {
      k := n - 1;
      assert target[..n] == target[..n - 1] + [target[n - 1]];
      assert base + target[..0] == base;
      MissingMembers(folders, base, target, n - 1);
      assert Missing(folders, base, target, n)[..j] == Missing(folders, base, target, n - 1);
    }
  }

  /** Every outcome, a failure midway too, leaves a folder tree: nothing without its parent. */
  lemma {:induction false} StaysPrefixClosed(before: set<Path>, log: seq<Path>, after: set<Path>, log': seq<Path>,
                                             base: Path, target: Path, refuses: Path -> bool, ok: bool)
    requires Created(before, log, after, log', base, target, refuses, ok) && base in before
            && PrefixClosed(before, base)
    ensures PrefixClosed(after, base)
  {
    var missing := Missing(before, base, target, |target|);
    var made := Admitted(missing, refuses);
    forall path: Path, name: string | base + path + [name] in after
      ensures base + path in after
    {
      var p := base + path + [name];
      if p !in before {
        var j :| 0 <= j < |made| && made[j] == p;
        assert missing[j] == p;
        var k := ParentFirst(before, base, target, |target|, j);
        assert base + path == p[..|p| - 1] == base + target[..k];
        assert missing[..j] <= made;
      }
    }
  }

  // ----- running either again -----

  lemma {:induction false} NothingMissing(folders: set<Path>, more: set<Path>, base: Path, target: Path, n: nat)
    requires n <= |target| && more >= folders + PathSet(Missing(folders, base, target, n))
    ensures Missing(more, base, target, n) == []
  {
    if n > 0 {
      assert Missing(folders, base, target, n - 1) <= Missing(folders, base, target, n);
      NothingMissing(folders, more, base, target, n - 1);
      if base + target[..n] !in folders {
        assert Missing(folders, base, target, n)[|Missing(folders, base, target, n - 1)|] == base + target[..n];
      }
    }
  }

  /** After a success by either way nothing is missing, so a rerun of either creates nothing. */
  lemma {:induction false} RerunCreatesNothing(before: set<Path>, log: seq<Path>, after: set<Path>, log': seq<Path>,
                                               base: Path, target: Path, refuses: Path -> bool)
    requires Created(before, log, after, log', base, target, refuses, true)
    ensures forall after', log'', ok ::
              Created(after, log', after', log'', base, target, refuses, ok) ==> ok && after' == after && log'' == log'
  {
    NothingMissing(before, after, base, target, |target|);
    assert after + PathSet([]) == after && log' + [] == log';
  }
}
