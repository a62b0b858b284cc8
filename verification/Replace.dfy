/** The portable updater's file replacement: every backup first, then file by file,
    and on the first exception a rollback of what was changed. Names are one file when
    they fold to one, as on the file systems this runs on. */
module Replacement {
  import opened Bytes
  import opened Wrappers
  import opened PortablePaths

  type Content = seq<byte>
  type Tree = map<string, Content> // by folded name

  datatype File = File(path: string, size: nat, sha: string)

  const MAX_FILES := 20000

  // ----------------------------------------------------------------- the checks

  ghost predicate NoAlias(a: string, b: string) {
    forall s :: 0 <= s < |a| && a[s] == '/' ==> b != a[..s]
  }

  /** Safe names, no two for one file, and none the directory of another. */
  ghost predicate GoodSet(paths: seq<string>) {
    && (forall i :: 0 <= i < |paths| ==> Safe(paths[i]))
    && (forall i, j :: 0 <= i < j < |paths| ==> Fold(paths[i]) != Fold(paths[j]))
    && (forall i, j :: 0 <= i < |paths| && 0 <= j < |paths| ==> NoAlias(Fold(paths[i]), Fold(paths[j])))
  }

  function Folded(paths: seq<string>): (names: set<string>) {
    set i | 0 <= i < |paths| :: Fold(paths[i])
  }

  lemma FoldedSnoc(paths: seq<string>, p: string)
    ensures Folded(paths + [p]) == Folded(paths) + {Fold(p)}
  {
    var all := paths + [p];
    assert all[|paths|] == p && forall i :: 0 <= i < |paths| ==> all[i] == paths[i];
  }

  method CheckSet(paths: seq<string>) returns (ok: bool)
    ensures ok <==> GoodSet(paths)
  {
    hide Safe;
    var names := {};
    assert paths[..0] == [];
    for i := 0 to |paths|
      invariant names == Folded(paths[..i])
      invariant forall k :: 0 <= k < i ==> Safe(paths[k])
      invariant forall j, k :: 0 <= j < k < i ==> Fold(paths[j]) != Fold(paths[k])
    {
      var safe := SafePath(paths[i]);
      if !safe || Fold(paths[i]) in names {
        return false;
      }
      assert paths[..i + 1] == paths[..i] + [paths[i]];
      FoldedSnoc(paths[..i], paths[i]);
      names := names + {Fold(paths[i])};
    }
    assert paths[..|paths|] == paths;
    for i := 0 to |paths|
      invariant forall k, j :: 0 <= k < i && 0 <= j < |paths| ==> NoAlias(Fold(paths[k]), Fold(paths[j]))
    {
      var path := Fold(paths[i]);
      var apart := CheckAlias(path, names);
      if !apart {
        return false;
      }
      assert forall j :: 0 <= j < |paths| ==> Fold(paths[j]) in names;
    }
    return true;
  }

  method CheckAlias(path: string, names: set<string>) returns (ok: bool)
    ensures ok <==> forall b :: b in names ==> NoAlias(path, b)
  {
    for s := 0 to |path|
      invariant forall k :: 0 <= k < s && path[k] == '/' ==> path[..k] !in names
    {
      if path[s] == '/' && path[..s] in names {
        assert !NoAlias(path, path[..s]);
        return false;
      }
    }
    return true;
  }

  function Paths(files: seq<File>): (paths: seq<string>)
    ensures |paths| == |files| && forall i :: 0 <= i < |files| ==> paths[i] == files[i].path
  {
    seq(|files|, i requires 0 <= i < |files| => files[i].path)
  }

  ghost predicate Staged(f: File, payload: Tree, hash: Content -> string) {
    Fold(f.path) in payload && |payload[Fold(f.path)]| == f.size && hash(payload[Fold(f.path)]) == f.sha
  }

  /** What validateTransaction demands. */
  ghost predicate ValidTransaction(root: Tree, payload: Tree, oldFiles: seq<string>, newFiles: seq<File>,
      hash: Content -> string) {
    && 0 < |newFiles| <= MAX_FILES && |oldFiles| <= MAX_FILES
    && GoodSet(oldFiles) && GoodSet(Paths(newFiles))
    && (forall i :: 0 <= i < |newFiles| ==>
          Staged(newFiles[i], payload, hash)
          && (Fold(newFiles[i].path) in root ==> Fold(newFiles[i].path) in Folded(oldFiles)))
  }

  method ValidateTransaction(root: Tree, payload: Tree, oldFiles: seq<string>, newFiles: seq<File>,
      hash: Content -> string)
    returns (ok: bool)
    ensures ok <==> ValidTransaction(root, payload, oldFiles, newFiles, hash)
  {
    hide GoodSet;
    if newFiles == [] || |newFiles| > MAX_FILES || |oldFiles| > MAX_FILES {
      return false;
    }
    ok := CheckSet(oldFiles);
    if !ok {
      return;
    }
    ok := CheckSet(Paths(newFiles));
    if !ok {
      return;
    }
    var oldNames := Folded(oldFiles);
    for i := 0 to |newFiles|
      invariant forall k :: 0 <= k < i ==>
        Staged(newFiles[k], payload, hash) && (Fold(newFiles[k].path) in root ==> Fold(newFiles[k].path) in oldNames)
    {
      var name := Fold(newFiles[i].path);
      if name in root && name !in oldNames {
        return false; // an unknown file blocks the update
      }
      if name !in payload || |payload[name]| != newFiles[i].size || hash(payload[name]) != newFiles[i].sha {
        return false;
      }
    }
    return true;
  }

  // ------------------------------------------------------------------ the folders

  ghost predicate Same(a: Tree, b: Tree, k: string) {
    (k in a <==> k in b) && (k in a ==> a[k] == b[k])
  }

  /** The installation, the staged payload and the backup directory. Every operation
      can throw; a copy that throws can leave part of its file behind. */
  class Folders {
    const payload: Tree
    var root: Tree
    var backup: Tree
    ghost var sound: bool // no operation has thrown so far

    constructor (root: Tree, payload: Tree)
      ensures this.root == root && this.payload == payload && backup == map[] && sound
    {
      this.root := root;
      this.payload := payload;
      this.backup := map[];
      this.sound := true;
    }

    /** validateTreePath: refuses links, or throws for any other reason. */
    method CheckPath() returns (ok: bool)
      modifies this`sound
      ensures (sound ==> old(sound)) && (!ok ==> !sound)
    {
      ok := *;
      sound := sound && ok;
    }

    method BackUp(name: string, content: Content) returns (ok: bool)
      modifies this`backup, this`sound
      ensures ok ==> backup == old(backup)[name := content]
      ensures (sound ==> old(sound)) && (!ok ==> !sound)
    {
      ok := *;
      var kept: nat :| kept <= |content|;
      backup := backup[name := if ok then content else content[..kept]];
      sound := sound && ok;
    }

    method Copy(content: Content, name: string) returns (ok: bool)
      modifies this`root, this`sound
      ensures ok ==> name !in old(root) && root == old(root)[name := content]
      ensures forall k :: k != name ==> Same(root, old(root), k)
      ensures name in old(root) ==> root == old(root)
      ensures (sound ==> old(sound)) && (!ok && name !in old(root) ==> !sound)
    {
      if name in root {
        return false;
      }
      ok := *;
      var kept: nat :| kept <= |content|;
      if ok {
        root := root[name := content];
      } else if * {
        root := root[name := content[..kept]];
      }
      sound := sound && ok;
    }

    method Remove(name: string) returns (ok: bool)
      modifies this`root, this`sound
      ensures root == if ok then old(root) - {name} else old(root)
      ensures (sound ==> old(sound)) && (!ok ==> !sound)
    {
      ok := *;
      if ok {
        root := root - {name};
      }
      sound := sound && ok;
    }

    method Rename(from: string, to: string) returns (ok: bool)
      requires from in root && from != to
      modifies this`root, this`sound
      ensures root == if ok then (old(root) - {from})[to := old(root)[from]] else old(root)
      ensures (sound ==> old(sound)) && (!ok ==> !sound)
    {
      ok := *;
      if ok {
        root := (root - {from})[to := root[from]];
      }
      sound := sound && ok;
    }
  }

  // ------------------------------------------------------------- the replacement

  /** Outside the named files and the staging file nothing has changed. */
  ghost predicate OnlyAt(root: Tree, before: Tree, names: set<string>, temporary: Option<string>) {
    forall k :: k !in names && temporary != Some(k) ==> Same(root, before, k)
  }

  /** The staging file of a failed copy is nobody else's file. */
  ghost predicate Stray(before: Tree, changed: seq<string>, temporary: Option<string>) {
    temporary.Some? ==> temporary.value !in before && temporary.value !in Folded(changed)
  }

  method ReplaceOne(d: Folders, f: File, hash: Content -> string) returns (ok: bool, touched: bool,
      temporary: Option<string>)
    requires Safe(f.path) && Staged(f, d.payload, hash)
    modifies d`root, d`sound
    ensures ok ==> touched && temporary.None? && d.root == old(d.root)[Fold(f.path) := d.payload[Fold(f.path)]]
    ensures OnlyAt(d.root, old(d.root), if touched then {Fold(f.path)} else {}, temporary)
    ensures temporary.Some? ==> temporary.value == Fold(Temporary(f.path)) && temporary.value !in old(d.root)
    ensures (d.sound ==> old(d.sound)) && (!ok && d.sound ==> Fold(Temporary(f.path)) in old(d.root))
  {
    hide Safe, Temporary;
    ok, touched, temporary := false, false, None;
    var checked := d.CheckPath();
    if !checked {
      return;
    }
    var name, temp := Fold(f.path), Fold(Temporary(f.path));
    TemporaryIsNotSafe(f.path, f.path);
    if temp in d.root {
      return; // an unfinished update file blocks replacement
    }
    temporary := Some(temp);
    var content := d.payload[name];
    var copied := d.Copy(content, temp);
    if !copied {
      return;
    }
    if |d.root[temp]| != f.size || hash(d.root[temp]) != f.sha {
      return;
    }
    touched := true;
    var removed := d.Remove(name);
    if !removed {
      return;
    }
    ok := d.Rename(temp, name);
    if ok {
      temporary := None;
    }
  }

  /** The new content of the files replaced so far, everything else as before. */
  ghost predicate Replaced(root: Tree, before: Tree, payload: Tree, names: set<string>) {
    && (forall k :: k in names ==> k in payload && k in root && root[k] == payload[k])
    && (forall k :: k !in names ==> Same(root, before, k))
  }

  method ReplaceAll(d: Folders, newFiles: seq<File>, hash: Content -> string)
    returns (ok: bool, changed: seq<string>, temporary: Option<string>)
    requires GoodSet(Paths(newFiles)) && forall i :: 0 <= i < |newFiles| ==> Staged(newFiles[i], d.payload, hash)
    modifies d`root, d`sound
    ensures changed <= Paths(newFiles)
    ensures ok ==> changed == Paths(newFiles) && temporary.None?
    ensures ok ==> Replaced(d.root, old(d.root), d.payload, Folded(Paths(newFiles)))
    ensures OnlyAt(d.root, old(d.root), Folded(changed), temporary) && Stray(old(d.root), changed, temporary)
    ensures (d.sound ==> old(d.sound)) && (!ok && d.sound ==> Unfinished(old(d.root), newFiles))
  {
    hide Safe, Temporary, NoAlias, Staged;
    ok, changed, temporary := true, [], None;
    var paths := Paths(newFiles);
    assert paths[..0] == [];
    for i := 0 to |newFiles|
      invariant changed == paths[..i] && Replaced(d.root, old(d.root), d.payload, Folded(changed))
      invariant d.sound ==> old(d.sound)
    {
      var touched;
      ghost var was := d.root;
      assert Safe(paths[i]);
      ok, touched, temporary := ReplaceOne(d, newFiles[i], hash);
      FoldedSnoc(changed, paths[i]);
      assert paths[..i + 1] == paths[..i] + [paths[i]];
      if !ok {
        ghost var before := changed;
        if touched {
          changed := changed + [paths[i]];
        }
        if temporary.Some? {
          NobodysFile(newFiles[i].path, paths, old(d.root), was, d.payload, before, changed);
        } else if d.sound {
          WasThere(newFiles, i, old(d.root), was, d.payload, before);
        }
        return;
      }
      StillStaged(newFiles[i], d.payload, hash);
      changed := changed + [paths[i]];
    }
    assert paths[..|paths|] == paths;
    ok := true;
    temporary := None;
  }

  /** A staging file that an earlier update left behind blocks this one. */
  ghost predicate Unfinished(before: Tree, newFiles: seq<File>) {
    exists i :: 0 <= i < |newFiles| && Fold(Temporary(newFiles[i].path)) in before
  }

  lemma WasThere(newFiles: seq<File>, i: nat, before: Tree, root: Tree, payload: Tree, done: seq<string>)
    requires i < |newFiles| && GoodSet(Paths(newFiles)) && done <= Paths(newFiles)
    requires Replaced(root, before, payload, Folded(done)) && Fold(Temporary(newFiles[i].path)) in root
    ensures Unfinished(before, newFiles)
  {
    hide Safe, Temporary, NoAlias;
    var paths, t := Paths(newFiles), Fold(Temporary(newFiles[i].path));
    forall k | 0 <= k < |done|
      ensures Fold(done[k]) != t
    {
      assert done[k] == paths[k];
      TemporaryIsNotSafe(newFiles[i].path, paths[k]);
    }
    assert Same(root, before, t);
  }

  lemma StillStaged(f: File, payload: Tree, hash: Content -> string)
    requires Staged(f, payload, hash)
    ensures Fold(f.path) in payload
  {
  }

  lemma NobodysFile(path: string, paths: seq<string>, before: Tree, root: Tree, payload: Tree, done: seq<string>,
      changed: seq<string>)
    requires forall i :: 0 <= i < |paths| ==> Safe(paths[i])
    requires done <= paths && changed <= paths && Replaced(root, before, payload, Folded(done))
    requires Fold(Temporary(path)) !in root
    ensures Fold(Temporary(path)) !in before && Fold(Temporary(path)) !in Folded(changed)
  {
    hide Safe, Temporary;
    forall i | 0 <= i < |paths|
      ensures Fold(paths[i]) != Fold(Temporary(path))
    {
      TemporaryIsNotSafe(path, paths[i]);
    }
    assert forall i :: 0 <= i < |done| ==> done[i] == paths[i];
    assert forall i :: 0 <= i < |changed| ==> changed[i] == paths[i];
  }

  /** No name, folded, occurs twice among the changed ones. */
  ghost predicate Apart(names: seq<string>) {
    forall i, j :: 0 <= i < j < |names| ==> Fold(names[i]) != Fold(names[j])
  }

  lemma ApartSnoc(names: seq<string>, p: string)
    requires Apart(names) && Fold(p) !in Folded(names)
    ensures Apart(names + [p])
  {
  }

  /** Everything changed is a new file or an old one that was dropped. */
  ghost predicate FromPackage(changed: seq<string>, paths: seq<string>, oldFiles: seq<string>) {
    forall i :: 0 <= i < |changed| ==> changed[i] in paths || changed[i] in oldFiles
  }

  /** Removes the old files that the new package does not have. */
  method DropOld(d: Folders, oldFiles: seq<string>, newNames: set<string>, start: seq<string>, ghost paths: seq<string>)
    returns (ok: bool, changed: seq<string>)
    requires GoodSet(oldFiles) && start == paths && Folded(paths) == newNames && Apart(paths)
    modifies d`root, d`sound
    ensures Apart(changed) && FromPackage(changed, paths, oldFiles)
    ensures paths <= changed && Folded(paths) <= Folded(changed)
    ensures OnlyAt(d.root, old(d.root), Folded(changed) - newNames, None)
    ensures ok ==> forall n :: n in Folded(oldFiles) && n !in newNames ==> n !in d.root
    ensures ok ==> forall n :: n !in Folded(oldFiles) || n in newNames ==> Same(d.root, old(d.root), n)
    ensures (d.sound ==> old(d.sound)) && (!ok ==> !d.sound)
  {
    hide Safe, NoAlias;
    ok, changed := true, start;
    assert oldFiles[..0] == [];
    for i := 0 to |oldFiles|
      invariant Apart(changed) && FromPackage(changed, paths, oldFiles)
      invariant paths <= changed && Folded(paths) <= Folded(changed)
      invariant Folded(changed) <= newNames + Folded(oldFiles[..i])
      invariant OnlyAt(d.root, old(d.root), Folded(changed) - newNames, None)
      invariant forall n :: n in Folded(oldFiles[..i]) && n !in newNames ==> n !in d.root
      invariant d.sound ==> old(d.sound)
    {
      assert oldFiles[..i + 1] == oldFiles[..i] + [oldFiles[i]];
      FoldedSnoc(oldFiles[..i], oldFiles[i]);
      FoldedSnoc(changed, oldFiles[i]);
      if Fold(oldFiles[i]) in newNames {
        continue;
      }
      ok := d.CheckPath();
      if !ok {
        return;
      }
      NotEarlier(oldFiles, i);
      ApartSnoc(changed, oldFiles[i]);
      changed := changed + [oldFiles[i]];
      ok := d.Remove(Fold(oldFiles[i]));
      if !ok {
        return;
      }
    }
    assert oldFiles[..|oldFiles|] == oldFiles;
    ok := true;
  }

  lemma NotEarlier(paths: seq<string>, i: nat)
    requires GoodSet(paths) && i < |paths|
    ensures Fold(paths[i]) !in Folded(paths[..i])
  {
    hide Safe, NoAlias;
    forall k | 0 <= k < i
      ensures Fold(paths[..i][k]) != Fold(paths[i])
    {
      assert paths[..i][k] == paths[k];
    }
  }

  // ------------------------------------------------------------------ the rollback

  /** What the backup directory holds: the listed names, by their exact spelling. */
  ghost predicate BackedUp(backup: Tree, before: Tree, oldFiles: seq<string>, backedUp: seq<string>) {
    && (forall c :: c in backedUp ==>
          c in oldFiles && Fold(c) in before && Fold(c) in backup && backup[Fold(c)] == before[Fold(c)])
    && (forall c :: c in oldFiles && Fold(c) in before ==> c in backedUp)
  }

  method BackUpAll(d: Folders, oldFiles: seq<string>) returns (ok: bool, backedUp: seq<string>)
    requires GoodSet(oldFiles)
    modifies d`backup, d`sound
    ensures ok ==> BackedUp(d.backup, d.root, oldFiles, backedUp)
    ensures (d.sound ==> old(d.sound)) && (!ok ==> !d.sound)
  {
    hide Safe, NoAlias;
    ok, backedUp := true, [];
    for i := 0 to |oldFiles|
      invariant forall c :: c in backedUp ==> c in oldFiles[..i] && Fold(c) in d.root
      invariant forall c :: c in backedUp ==> Fold(c) in d.backup && d.backup[Fold(c)] == d.root[Fold(c)]
      invariant forall c :: c in oldFiles[..i] && Fold(c) in d.root ==> c in backedUp
      invariant d.sound ==> old(d.sound)
    {
      assert oldFiles[..i + 1] == oldFiles[..i] + [oldFiles[i]];
      var name := Fold(oldFiles[i]);
      if name !in d.root {
        continue;
      }
      NotEarlier(oldFiles, i);
      ok := d.BackUp(name, d.root[name]);
      if !ok {
        return;
      }
      backedUp := backedUp + [oldFiles[i]];
    }
    assert oldFiles[..|oldFiles|] == oldFiles;
    ok := true;
  }

  /** One changed name after its rollback. */
  ghost predicate PutBack(root: Tree, backup: Tree, c: string, backedUp: seq<string>) {
    if c in backedUp then Fold(c) in backup && Fold(c) in root && root[Fold(c)] == backup[Fold(c)] else Fold(c) !in root
  }

  /** The changed files in reverse. It goes on after a failure and only reports it. */
  method RollBack(d: Folders, changed: seq<string>, backedUp: seq<string>) returns (ok: bool)
    requires Apart(changed) && forall c :: c in backedUp ==> Fold(c) in d.backup
    modifies d`root, d`sound
    ensures OnlyAt(d.root, old(d.root), Folded(changed), None)
    ensures ok ==> forall i :: 0 <= i < |changed| ==> PutBack(d.root, d.backup, changed[i], backedUp)
    ensures (d.sound ==> old(d.sound)) && (!ok ==> !d.sound)
  {
    ok := true;
    var i := |changed|;
    while i > 0
      invariant 0 <= i <= |changed|
      invariant OnlyAt(d.root, old(d.root), Folded(changed), None)
      invariant ok ==> forall k :: i <= k < |changed| ==> PutBack(d.root, d.backup, changed[k], backedUp)
      invariant (d.sound ==> old(d.sound)) && (!ok ==> !d.sound)
    {
      i := i - 1;
      ghost var was := d.root;
      var done := PutBackOne(d, changed[i], backedUp);
      assert Fold(changed[i]) in Folded(changed);
      forall k | k !in Folded(changed)
        ensures Same(d.root, old(d.root), k)
      {
        assert Same(d.root, was, k) && Same(was, old(d.root), k);
      }
      forall k | i < k < |changed|
        ensures Same(d.root, was, Fold(changed[k]))
      {
      }
      ok := ok && done;
    }
  }

  method PutBackOne(d: Folders, c: string, backedUp: seq<string>) returns (ok: bool)
    requires forall c :: c in backedUp ==> Fold(c) in d.backup
    modifies d`root, d`sound
    ensures forall k :: k != Fold(c) ==> Same(d.root, old(d.root), k)
    ensures ok ==> PutBack(d.root, d.backup, c, backedUp)
    ensures (d.sound ==> old(d.sound)) && (!ok ==> !d.sound)
  {
    ok := d.CheckPath();
    if ok {
      ok := d.Remove(Fold(c));
    }
    if ok && c in backedUp {
      ghost var removed := d.root;
      ok := d.Copy(d.backup[Fold(c)], Fold(c));
      forall k | k != Fold(c)
        ensures Same(d.root, old(d.root), k)
      {
        assert Same(d.root, removed, k);
      }
    }
  }

  /** The changed files that no backup is kept for: their spelling is not in the old list. */
  function Unbacked(changed: seq<string>, oldFiles: seq<string>): (lost: set<string>) {
    set i | 0 <= i < |changed| && changed[i] !in oldFiles :: Fold(changed[i])
  }

  /** Every changed file that was there before has a backup under its own spelling. */
  ghost predicate Restorable(before: Tree, changed: seq<string>, backedUp: seq<string>) {
    forall i :: 0 <= i < |changed| && Fold(changed[i]) in before ==> changed[i] in backedUp
  }

  /** What a rollback without failures leaves: the original without the files that no
      backup is kept for, and so the original exactly when every file was restorable. */
  lemma RestoredExactly(root: Tree, before: Tree, backup: Tree, oldFiles: seq<string>,
      backedUp: seq<string>, changed: seq<string>)
    requires BackedUp(backup, before, oldFiles, backedUp)
    requires OnlyAt(root, before, Folded(changed), None)
    requires forall i :: 0 <= i < |changed| ==> PutBack(root, backup, changed[i], backedUp)
    ensures root == before - Unbacked(changed, oldFiles)
    ensures root == before <==> Restorable(before, changed, backedUp)
  {
    hide Fold;
    var lost := Unbacked(changed, oldFiles);
    forall k
      ensures Same(root, before - lost, k)
    {
      if k in Folded(changed) {
        var i :| 0 <= i < |changed| && Fold(changed[i]) == k;
        assert PutBack(root, backup, changed[i], backedUp);
        assert changed[i] !in oldFiles ==> k in lost;
        if k in lost {
          var j :| 0 <= j < |changed| && changed[j] !in oldFiles && Fold(changed[j]) == k;
          assert PutBack(root, backup, changed[j], backedUp);
        }
      } else {
        assert k !in lost;
        assert Same(root, before, k);
      }
    }
    SameEverywhere(root, before - lost);
    if !Restorable(before, changed, backedUp) {
      var i :| 0 <= i < |changed| && Fold(changed[i]) in before && changed[i] !in backedUp;
      assert PutBack(root, backup, changed[i], backedUp);
    } else {
      assert forall k :: k in lost ==> k !in before;
      assert before - lost == before;
    }
  }

  lemma SameEverywhere(a: Tree, b: Tree)
    requires forall k :: Same(a, b, k)
    ensures a == b
  {
    assert forall k :: k in a <==> k in b by {
      forall k ensures k in a <==> k in b { assert Same(a, b, k); }
    }
    forall k | k in a ensures a[k] == b[k] { assert Same(a, b, k); }
  }

  /** A name for an installed file is spelled as in the old list. */
  ghost predicate PresentAlike(before: Tree, oldFiles: seq<string>, names: seq<string>) {
    forall o, p :: o in oldFiles && p in names && Fold(o) == Fold(p) && Fold(p) in before ==> o == p
  }

  lemma OneSpelling(oldFiles: seq<string>, o: string, p: string)
    requires GoodSet(oldFiles) && o in oldFiles && p in oldFiles && Fold(o) == Fold(p)
    ensures o == p
  {
    hide Fold, Safe, NoAlias;
    var j, k :| 0 <= j < |oldFiles| && 0 <= k < |oldFiles| && oldFiles[j] == o && oldFiles[k] == p;
    assert !(j < k) && !(k < j);
  }

  /** Whatever installed file a new one names in another spelling,
      a failed replacement that got to it and whose rollback works has lost it. */
  lemma MisspelledIsLost(before: Tree, oldFiles: seq<string>, changed: seq<string>, o: string, p: string)
    requires GoodSet(oldFiles) && o in oldFiles && p in changed
    requires Fold(o) == Fold(p) && o != p && Fold(p) in before
    ensures Fold(p) !in before - Unbacked(changed, oldFiles)
  {
    hide Fold, Safe, NoAlias;
    assert p !in oldFiles by {
      if p in oldFiles {
        OneSpelling(oldFiles, o, p);
        assert false;
      }
    }
    var i :| 0 <= i < |changed| && changed[i] == p;
    assert Fold(changed[i]) in Unbacked(changed, oldFiles);
  }

  /** The rollback restores the original exactly when the changed names are spelled so. */
  lemma RestoredIffAlike(before: Tree, oldFiles: seq<string>, newFiles: seq<File>, changed: seq<string>)
    requires GoodSet(oldFiles) && FromPackage(changed, Paths(newFiles), oldFiles)
    requires forall i :: 0 <= i < |newFiles| ==>
      Fold(newFiles[i].path) in before ==> Fold(newFiles[i].path) in Folded(oldFiles)
    ensures before - Unbacked(changed, oldFiles) == before <==> PresentAlike(before, oldFiles, changed)
  {
    hide Fold, Safe, NoAlias;
    var lost := Unbacked(changed, oldFiles);
    if PresentAlike(before, oldFiles, changed) {
      forall i | 0 <= i < |changed| && Fold(changed[i]) in before
        ensures changed[i] in oldFiles
      {
        if changed[i] in Paths(newFiles) {
          var n :| 0 <= n < |newFiles| && Paths(newFiles)[n] == changed[i];
          assert Fold(newFiles[n].path) in Folded(oldFiles);
          var j :| 0 <= j < |oldFiles| && Fold(oldFiles[j]) == Fold(changed[i]);
          assert oldFiles[j] in oldFiles;
        }
      }
      assert before - lost == before;
    } else {
      var o, p :| o in oldFiles && p in changed && Fold(o) == Fold(p) && Fold(p) in before && o != p;
      MisspelledIsLost(before, oldFiles, changed, o, p);
    }
  }

  /** What a caller can check before the call: the new files are spelled as in the old
      list where they are installed. It holds exactly when a working rollback restores
      the original wherever the replacement stops, after any number of files. */
  lemma AlikeIffAlwaysRestored(before: Tree, payload: Tree, oldFiles: seq<string>, newFiles: seq<File>,
      hash: Content -> string)
    requires ValidTransaction(before, payload, oldFiles, newFiles, hash)
    ensures PresentAlike(before, oldFiles, Paths(newFiles)) <==>
            (forall changed | FromPackage(changed, Paths(newFiles), oldFiles) ::
              before - Unbacked(changed, oldFiles) == before)
    ensures PresentAlike(before, oldFiles, Paths(newFiles)) <==>
            (forall k | 0 <= k <= |newFiles| :: before - Unbacked(Paths(newFiles)[..k], oldFiles) == before)
  {
    hide Fold, GoodSet, Staged, Unbacked, PresentAlike;
    var paths := Paths(newFiles);
    assert paths[..|newFiles|] == paths;
    if PresentAlike(before, oldFiles, paths) {
      forall changed | FromPackage(changed, paths, oldFiles)
        ensures before - Unbacked(changed, oldFiles) == before
      {
        AlikeForPart(before, oldFiles, paths, changed);
        RestoredIffAlike(before, oldFiles, newFiles, changed);
      }
      assert forall k | 0 <= k <= |newFiles| :: FromPackage(paths[..k], paths, oldFiles);
    } else {
      assert FromPackage(paths, paths, oldFiles);
      RestoredIffAlike(before, oldFiles, newFiles, paths);
    }
  }

  lemma AlikeForPart(before: Tree, oldFiles: seq<string>, paths: seq<string>, changed: seq<string>)
    requires PresentAlike(before, oldFiles, paths) && FromPackage(changed, paths, oldFiles) && GoodSet(oldFiles)
    ensures PresentAlike(before, oldFiles, changed)
  {
    hide Fold, Safe, NoAlias;
    forall o, p | o in oldFiles && p in changed && Fold(o) == Fold(p) && Fold(p) in before
      ensures o == p
    {
      if p !in paths {
        OneSpelling(oldFiles, o, p);
      }
    }
  }

  // ------------------------------------------------------------------- all together

  datatype Outcome =
    | Refused     // nothing installed was touched
    | Complete
    | RolledBack  // an operation failed and every rollback operation worked
    | Incomplete  // a rollback operation failed too; the backup is named in the error

  ghost predicate Updated(root: Tree, before: Tree, payload: Tree, oldFiles: seq<string>, newFiles: seq<File>,
      hash: Content -> string) {
    var names := Folded(Paths(newFiles));
    && (forall i :: 0 <= i < |newFiles| ==>
          Fold(newFiles[i].path) in root && hash(root[Fold(newFiles[i].path)]) == newFiles[i].sha
          && |root[Fold(newFiles[i].path)]| == newFiles[i].size)
    && (forall n :: n in Folded(oldFiles) && n !in names ==> n !in root)
    && (forall n :: n !in Folded(oldFiles) && n !in names ==> Same(root, before, n))
  }

  /** replaceFiles. All or nothing: a complete replacement brings every verified file,
      drops every old one and touches nothing else; a failed one whose rollback works
      leaves the original without the changed files that are spelled differently in the
      old list, and so all of it when no installed file is. */
  method ReplaceFiles(d: Folders, backupExists: bool, oldFiles: seq<string>, newFiles: seq<File>,
      hash: Content -> string)
    returns (o: Outcome, ghost changed: seq<string>, ghost backedUp: seq<string>, ghost litter: bool)
    modifies d
    ensures o.Refused? ==> d.root == old(d.root)
    ensures !ValidTransaction(old(d.root), d.payload, oldFiles, newFiles, hash) || backupExists ==> o.Refused?
    ensures o.Complete? ==> Updated(d.root, old(d.root), d.payload, oldFiles, newFiles, hash)
    ensures !o.Refused? ==> BackedUp(d.backup, old(d.root), oldFiles, backedUp)
    ensures o.RolledBack? && !litter ==> d.root == old(d.root) - Unbacked(changed, oldFiles)
    ensures o.RolledBack? && !litter ==> (d.root == old(d.root) <==> Restorable(old(d.root), changed, backedUp))
    ensures o.RolledBack? && !litter ==>
      (d.root == old(d.root) <==> PresentAlike(old(d.root), oldFiles, changed))
    ensures o.RolledBack? && !litter && PresentAlike(old(d.root), oldFiles, Paths(newFiles)) ==>
      d.root == old(d.root)
    ensures o.RolledBack? || o.Incomplete? ==> FromPackage(changed, Paths(newFiles), oldFiles)
    ensures changed <= Paths(newFiles) || Paths(newFiles) <= changed
    // it is complete unless something throws or stands against the transaction
    ensures d.sound && !o.Complete? ==>
      || !ValidTransaction(old(d.root), d.payload, oldFiles, newFiles, hash) || backupExists
      || Unfinished(old(d.root), newFiles)
    ensures (o.Incomplete? || litter ==> !d.sound) && (d.sound ==> old(d.sound))
    ensures o.Refused? && d.sound ==>
      !ValidTransaction(old(d.root), d.payload, oldFiles, newFiles, hash) || backupExists
  {
    hide GoodSet, Safe, NoAlias, Staged, Updated, BackedUp, PresentAlike, Unbacked, FromPackage, Unfinished,
         Restorable;
    changed, backedUp, litter := [], [], false;
    ghost var before := d.root;
    var valid := ValidateTransaction(d.root, d.payload, oldFiles, newFiles, hash);
    if !valid || backupExists {
      return Refused, changed, backedUp, litter;
    }
    var saved, names := BackUpAll(d, oldFiles);
    if !saved {
      return Refused, changed, backedUp, litter;
    }
    backedUp := names;
    var ok, done, temporary := Try(d, oldFiles, newFiles, hash);
    changed := done;
    if ok {
      return Complete, changed, backedUp, litter;
    }
    ghost var left := None;
    if temporary.Some? {
      var removed := d.Remove(temporary.value);
      litter := !removed;
      left := if removed then None else temporary;
    }
    assert OnlyAt(d.root, before, Folded(done), left);
    InBackup(d.backup, before, oldFiles, names);
    var restored := RollBack(d, done, names);
    assert OnlyAt(d.root, before, Folded(done), left);
    if restored && !litter {
      RestoredExactly(d.root, before, d.backup, oldFiles, names, done);
      RestoredIffAlike(before, oldFiles, newFiles, done);
      if PresentAlike(before, oldFiles, Paths(newFiles)) {
        AlikeForPart(before, oldFiles, Paths(newFiles), done);
      }
    }
    o := if restored then RolledBack else Incomplete;
  }

  lemma InBackup(backup: Tree, before: Tree, oldFiles: seq<string>, backedUp: seq<string>)
    requires BackedUp(backup, before, oldFiles, backedUp)
    ensures forall c :: c in backedUp ==> Fold(c) in backup
  {
  }

  /** The try block. */
  method Try(d: Folders, oldFiles: seq<string>, newFiles: seq<File>, hash: Content -> string)
    returns (ok: bool, changed: seq<string>, temporary: Option<string>)
    requires ValidTransaction(d.root, d.payload, oldFiles, newFiles, hash)
    modifies d`root, d`sound
    ensures ok ==> Updated(d.root, old(d.root), d.payload, oldFiles, newFiles, hash)
    ensures Apart(changed) && FromPackage(changed, Paths(newFiles), oldFiles)
    ensures changed <= Paths(newFiles) || Paths(newFiles) <= changed
    ensures OnlyAt(d.root, old(d.root), Folded(changed), temporary) && Stray(old(d.root), changed, temporary)
    ensures (d.sound ==> old(d.sound)) && (!ok && d.sound ==> Unfinished(old(d.root), newFiles))
  {
    hide Safe, NoAlias, Staged, Unfinished;
    ok, changed, temporary := ReplaceAll(d, newFiles, hash);
    var paths := Paths(newFiles);
    assert Apart(paths);
    if !ok {
      assert forall i :: 0 <= i < |changed| ==> changed[i] == paths[i];
      return;
    }
    ghost var replaced := d.root;
    ok, changed := DropOld(d, oldFiles, Folded(paths), changed, paths);
    if ok {
      TryUpdates(d.root, replaced, old(d.root), d.payload, oldFiles, newFiles, hash);
    }
  }

  lemma TryUpdates(root: Tree, replaced: Tree, before: Tree, payload: Tree, oldFiles: seq<string>,
      newFiles: seq<File>, hash: Content -> string)
    requires ValidTransaction(before, payload, oldFiles, newFiles, hash)
    requires Replaced(replaced, before, payload, Folded(Paths(newFiles)))
    requires forall n :: n in Folded(oldFiles) && n !in Folded(Paths(newFiles)) ==> n !in root
    requires forall n :: n !in Folded(oldFiles) || n in Folded(Paths(newFiles)) ==> Same(root, replaced, n)
    ensures Updated(root, before, payload, oldFiles, newFiles, hash)
  {
    hide GoodSet;
    var paths := Paths(newFiles);
    forall i | 0 <= i < |newFiles|
      ensures Fold(newFiles[i].path) in root && hash(root[Fold(newFiles[i].path)]) == newFiles[i].sha
      ensures |root[Fold(newFiles[i].path)]| == newFiles[i].size
    {
      assert Staged(newFiles[i], payload, hash);
      assert Fold(paths[i]) in Folded(paths);
      assert Same(root, replaced, Fold(paths[i]));
    }
  }

  /** A run of it: "A" replaces the installed "a". Once the old file is removed, a failure
      whose rollback works leaves no file at all. */
  method LoseFile(content: Content, hash: Content -> string)
    returns (d: Folders, o: Outcome, ghost changed: seq<string>, ghost litter: bool)
    ensures fresh(d) && d.payload == map["a" := content]
    ensures o.RolledBack? && !litter ==> d.root == if changed == [] then map["a" := content] else map[]
    ensures d.sound ==> o.Complete?
  {
    hide Fold, GoodSet, PresentAlike, FromPackage, BackedUp;
    var before: Tree, lower: string, upper: string := map["a" := content], "a", "A";
    SingleLetter(lower);
    SingleLetter(upper);
    d := new Folders(before, before);
    var newFiles := [File(upper, |content|, hash(content))];
    assert Paths(newFiles) == [upper];
    ghost var backedUp;
    o, changed, backedUp, litter := ReplaceFiles(d, false, [lower], newFiles, hash);
    assert ValidTransaction(before, before, [lower], newFiles, hash);
    if o.RolledBack? && !litter {
      if changed != [] {
        assert changed[0] == upper;
        assert upper !in [lower];
        assert "a" in Unbacked(changed, [lower]);
      }
    }
  }

  lemma SingleLetter(p: string)
    requires p == "a" || p == "A"
    ensures Fold(p) == "a" && GoodSet([p]) && Folded([p]) == {"a"}
  {
    assert Fold(p) == "a";
    assert Fold([p][0]) in Folded([p]);
    LetterIsSafe(p);
    assert NoAlias("a", "a");
  }

  lemma LetterIsSafe(p: string)
    requires p == "a" || p == "A"
    ensures Safe(p)
  {
    var lower := Fold(p);
    assert lower == "a";
    assert Find(lower, '/') == 1 && Find(lower, '.') == 1 && lower[..1] == lower;
    assert |TEMP_PREFIX| > |lower|;
    assert SafeComponent(lower);
    assert forall r :: r in RESERVED ==> |r| > 1;
  }
}
