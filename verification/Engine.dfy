/** The transaction engine: execute applies a prepared plan journal first, recover
    undoes what the journal says after the engine has been interrupted. */
module Engine {
  import opened Bytes
  import opened Paths
  import opened Wrappers
  import opened Journal
  import opened Machines
  import opened Writer
  import opened WriteAhead
  import opened Undo
  import opened Runs
  import opened Plans
  import opened Diffs
  import M = Manifest

  const MARKER_FILE: wstring := W(".zzlogg-install-root")
  const INSTALLED_MANIFEST: wstring := W(".zzlogg-files.manifest")
  const STAGED_MANIFEST: wstring := W("files.manifest")

  datatype Request = Request(installRoot: wstring, stagingDir: wstring, journalRoot: wstring, txid: u64,
                             displayVersion: wstring)

  /** What the caller of the engine provides besides the request: whether its image is
      protected, and how much room each volume has. */
  datatype Options = Options(imageOk: bool, preflight: (wstring, u64, u64) -> bool)

  function JournalDirectory(journalRoot: wstring, txid: u64): wstring {
    Under(journalRoot, HexDigits(txid, 16))
  }

  predicate SmallFiles(tree: Tree) {
    forall p :: p in tree ==> |tree[p]| < 0x1_0000_0000_0000_0000
  }

  predicate Registered(world: World, installRoot: wstring) {
    Upper(world.installLocation) == Upper(installRoot) && world.schema == 2
  }

  /** The registered target, the schema and the marker are checked before anything. */
  method RecheckTarget(world: World, m: Machine, installRoot: wstring) returns (ok: bool, version: wstring)
    modifies m`sound
    ensures ok ==>
      Registered(world, installRoot) && Under(installRoot, MARKER_FILE) in m.disk.files && version == m.disk.version
    ensures !ok ==> !m.sound || !Registered(world, installRoot) || Under(installRoot, MARKER_FILE) !in m.disk.files
    ensures m.sound ==> old(m.sound)
  {
    if Upper(world.installLocation) != Upper(installRoot) || world.schema != 2 {
      return false, [];
    }
    var read := m.ReadVersion();
    if read.None? {
      return false, [];
    }
    return Under(installRoot, MARKER_FILE) in m.disk.files, read.value;
  }

  /** The plan is about this tree and this staging: what prepare has established. */
  ghost predicate PlanHolds(plan: seq<Planned>, world: World, files: Tree) {
    && DistinctTargets(plan)
    && forall k :: 0 <= k < |plan| ==> FilePlanned(plan[k], world, files)
  }

  ghost predicate FilePlanned(f: Planned, world: World, files: Tree) {
    match f.op
    case Create =>
      f.target !in files && StagedAs(f, world)
    case Replace =>
      StagedAs(f, world)
    case Delete => true
    case _ => false
  }

  ghost predicate StagedAs(f: Planned, world: World) {
    && f.staged in world.staging
    && world.sha(world.staging[f.staged]) == f.incomingSha && |world.staging[f.staged]| == f.incomingSize
  }

  /** The staging directory still has what these files bring. */
  ghost predicate AllStaged(plan: seq<Planned>, world: World) {
    forall k :: 0 <= k < |plan| && !plan[k].op.Delete? ==> StagedAs(plan[k], world)
  }

  /** Old and new content of one file do not collide under the digest. */
  ghost predicate NoCollision(world: World, files: Tree, target: wstring, staged: wstring) {
    target in files && staged in world.staging && world.sha(world.staging[staged]) == world.sha(files[target])
    ==> world.staging[staged] == files[target]
  }

  /** What the engine takes for granted: the manifests list neither the installed
      manifest nor the marker, contents do not collide, sizes fit their fields. */
  ghost predicate Assumed(plan: seq<Planned>, world: World, files: Tree, r: Request) {
    && NotATarget(plan, Under(r.installRoot, MARKER_FILE))
    && NotATarget(plan, Under(r.installRoot, INSTALLED_MANIFEST))
    && Under(r.installRoot, MARKER_FILE) in files
    && (forall k :: 0 <= k < |plan| ==> NoCollision(world, files, plan[k].target, plan[k].staged))
    && NoCollision(world, files, Under(r.installRoot, INSTALLED_MANIFEST), Under(r.stagingDir, STAGED_MANIFEST))
    && SmallFiles(files) && SmallFiles(world.staging)
  }

  ghost function IncomingFiles(plan: seq<Planned>, world: World, r: Request): (incoming: Tree) {
    var staged := Under(r.stagingDir, STAGED_MANIFEST);
    var base := IncomingOf(plan, world.staging);
    if staged in world.staging then base[Under(r.installRoot, INSTALLED_MANIFEST) := world.staging[staged]] else base
  }

  ghost function NewTree(plan: seq<Planned>, world: World, r: Request, files: Tree): (tree: Tree) {
    var staged := Under(r.stagingDir, STAGED_MANIFEST);
    var tree := After(files, IncomingFiles(plan, world, r), plan);
    if staged in world.staging then tree[Under(r.installRoot, INSTALLED_MANIFEST) := world.staging[staged]] else tree
  }

  /** The transaction that executing this plan from disk d is. */
  ghost function TxOf(plan: seq<Planned>, world: World, r: Request, d: Disk): Tx {
    Tx(world.sha, d.files, d.version, IncomingFiles(plan, world, r), NewTree(plan, world, r, d.files),
       r.displayVersion, Under(r.installRoot, MARKER_FILE))
  }

  lemma IncomingForPlan(plan: seq<Planned>, world: World, r: Request, k: nat)
    requires DistinctTargets(plan) && k < |plan| && !plan[k].op.Delete? && plan[k].staged in world.staging
    requires NotATarget(plan, Under(r.installRoot, INSTALLED_MANIFEST))
    ensures plan[k].target in IncomingFiles(plan, world, r)
    ensures IncomingFiles(plan, world, r)[plan[k].target] == world.staging[plan[k].staged]
  {
    IncomingAt(plan, world.staging, k);
  }

  lemma MarkerSurvives(plan: seq<Planned>, world: World, r: Request, files: Tree)
    requires Assumed(plan, world, files, r)
    ensures Under(r.installRoot, MARKER_FILE) in NewTree(plan, world, r, files)
  {
    AfterElsewhere(files, IncomingFiles(plan, world, r), plan, Under(r.installRoot, MARKER_FILE));
    assert Same(After(files, IncomingFiles(plan, world, r), plan), files, Under(r.installRoot, MARKER_FILE));
  }

  /** No list that the file at path can be parsed as names the marker or the
      installed manifest. */
  ghost predicate NeverLists(tree: Tree, path: wstring, root: wstring) {
    forall es: seq<M.Entry>, k :: path in tree && M.IsManifest(tree[path], es) && 0 <= k < |es| ==>
      var t := TargetPath(root, es[k].relpath);
      t != Under(root, MARKER_FILE) && t != Under(root, INSTALLED_MANIFEST)
  }

  /** What no check of the engine establishes: the manifests never list themselves or
      the marker, old and new content do not collide, sizes fit their fields. */
  ghost predicate Trusted(r: Request, world: World, files: Tree) {
    && NeverLists(files, Under(r.installRoot, INSTALLED_MANIFEST), r.installRoot)
    && NeverLists(world.staging, Under(r.stagingDir, STAGED_MANIFEST), r.installRoot)
    && (forall t, s :: NoCollision(world, files, t, s))
    && SmallFiles(files) && SmallFiles(world.staging)
  }

  /** The manifests of the installation and of the staging directory. */
  ghost predicate ManifestsAt(r: Request, world: World, files: Tree, prior: seq<M.Entry>, next: seq<M.Entry>) {
    && M.IsManifest(At(files, Under(r.installRoot, INSTALLED_MANIFEST)), prior)
    && M.IsManifest(At(world.staging, Under(r.stagingDir, STAGED_MANIFEST)), next)
  }

  /** The content at a path; a missing file has none, and none is no manifest. */
  ghost function At(tree: Tree, path: wstring): (content: Content) {
    if path in tree then tree[path] else []
  }

  /** The plan is the difference of the two manifests, as this request maps it. */
  ghost predicate PlanIs(plan: seq<Planned>, r: Request, prior: seq<M.Entry>, next: seq<M.Entry>) {
    Diff(plan, ByPath(prior), ByPath(next), r.installRoot, r.stagingDir)
  }

  /** One changed path that stands in the way of the update. */
  ghost predicate Obstacle(f: Planned, r: Request, world: World, files: Tree, prior: seq<M.Entry>, next: seq<M.Entry>) {
    && PlannedFor(f, ByPath(prior), ByPath(next), r.installRoot, r.stagingDir)
    && !(Plannable(f, files) && (f.op.Delete? || StagedAs(f, world)))
  }

  /** Drive roots compare without case. */
  predicate SameVolume(r: Request) {
    |r.journalRoot| >= 3 && |r.installRoot| >= 3 && Upper(r.journalRoot[..3]) == Upper(r.installRoot[..3])
  }

  /** Room for the staged copy, the backups and the placed copy on the volumes that
      hold them; one volume that holds both copies needs both at once. */
  ghost predicate Room(plan: seq<Planned>, r: Request, options: Options, files: Tree) {
    var incoming := IncomingTotal(plan);
    var backup := Capped(OldTotal(plan) + |At(files, Under(r.installRoot, INSTALLED_MANIFEST))|);
    if SameVolume(r) then options.preflight(r.journalRoot, Capped(2 * incoming), backup)
    else
      && options.preflight(r.journalRoot, Capped(incoming), backup)
      && options.preflight(r.installRoot, Capped(incoming), 0)
  }

  /** With a preflight that says whether a volume has so many bytes free, there is room
      exactly when each volume can take all that is written to it: the staged copy and
      the backups by the journal, the placed copy by the installation. */
  lemma RoomMeans(plan: seq<Planned>, r: Request, options: Options, files: Tree, free: wstring -> nat)
    requires forall volume: wstring, staging: u64, backup: u64 ::
      options.preflight(volume, staging, backup) <==> staging + backup <= free(volume)
    ensures
      var incoming := IncomingTotal(plan);
      var saved := OldTotal(plan) + |At(files, Under(r.installRoot, INSTALLED_MANIFEST))|;
      && (2 * incoming <= MAX_U64 && saved <= MAX_U64 && SameVolume(r) ==>
            (Room(plan, r, options, files) <==> incoming + incoming + saved <= free(r.journalRoot)))
      && (incoming <= MAX_U64 && saved <= MAX_U64 && !SameVolume(r) ==>
            (Room(plan, r, options, files) <==>
              incoming + saved <= free(r.journalRoot) && incoming <= free(r.installRoot)))
      // and what does not fit into 64 bits asks for all that does
      && (Room(plan, r, options, files) && incoming > MAX_U64 ==> free(r.journalRoot) >= MAX_U64)
      && (Room(plan, r, options, files) && saved > MAX_U64 ==> free(r.journalRoot) >= MAX_U64)
  {
    hide IncomingTotal, OldTotal, At, Under, SameVolume;
  }

  predicate InputsOk(r: Request, world: World, options: Options) {
    && options.imageOk && r.txid != 0
    && StandardPath(r.installRoot) && StandardPath(r.stagingDir) && StandardPath(r.journalRoot)
    && Registered(world, r.installRoot)
  }

  /** Why prepare refuses when every read succeeds. */
  ghost predicate Refusable(r: Request, world: World, options: Options, files: Tree) {
    || !InputsOk(r, world, options) || Under(r.installRoot, MARKER_FILE) !in files
    || (forall prior, next :: !ManifestsAt(r, world, files, prior, next))
    || (exists f, prior, next :: ManifestsAt(r, world, files, prior, next) && Obstacle(f, r, world, files, prior, next))
    || (exists plan, prior, next ::
          ManifestsAt(r, world, files, prior, next) && PlanIs(plan, r, prior, next) && !Room(plan, r, options, files))
  }

  /** What a plan that prepare has accepted guarantees. */
  ghost predicate Checked(plan: seq<Planned>, r: Request, world: World, options: Options, files: Tree,
                          prior: seq<M.Entry>, next: seq<M.Entry>) {
    && InputsOk(r, world, options) && Under(r.installRoot, MARKER_FILE) in files
    && ManifestsAt(r, world, files, prior, next) && PlanIs(plan, r, prior, next)
    && (forall k :: 0 <= k < |plan| ==> Plannable(plan[k], files) && (plan[k].op.Delete? || StagedAs(plan[k], world)))
    && Room(plan, r, options, files)
  }

  /** Nothing stops the two loops over the manifests. */
  ghost predicate Diffable(r: Request, world: World, options: Options, files: Tree, prior: seq<M.Entry>,
      next: seq<M.Entry>) {
    && InputsOk(r, world, options) && Under(r.installRoot, MARKER_FILE) in files
    && ManifestsAt(r, world, files, prior, next)
    && (forall f :: PlannedFor(f, ByPath(prior), ByPath(next), r.installRoot, r.stagingDir) ==> Plannable(f, files))
  }

  /** An accepted plan is the whole difference, and nothing can stand before one. */
  lemma UsableIffFresh(first: seq<Planned>, added: seq<Planned>, r: Request, world: World, options: Options,
      files: Tree, prior: seq<M.Entry>, next: seq<M.Entry>)
    requires Checked(added, r, world, options, files, prior, next)
    ensures Checked(first + added, r, world, options, files, prior, next) <==> first == []
  {
    hide Diff, InputsOk, ManifestsAt, Plannable, StagedAs, Room, Under, ByPath;
    NothingBeforeDiff(first, added, ByPath(prior), ByPath(next), r.installRoot, r.stagingDir);
    if first == [] {
      assert first + added == added;
    }
  }

  /** What an earlier preparation for the same manifests left behind has a target that
      the plan has once more. */
  lemma LeftoverUnusable(first: seq<Planned>, added: seq<Planned>, r: Request, world: World, options: Options,
      files: Tree, prior: seq<M.Entry>, next: seq<M.Entry>)
    requires Checked(added, r, world, options, files, prior, next) && first != []
    requires PlannedFor(first[0], ByPath(prior), ByPath(next), r.installRoot, r.stagingDir)
    ensures !PlanHolds(first + added, world, files)
  {
    hide Diff, PlannedFor, InputsOk, ManifestsAt, Plannable, StagedAs, Room, Under, ByPath, FilePlanned;
    var k := PlannedTwice(first[0], added, ByPath(prior), ByPath(next), r.installRoot, r.stagingDir);
    var plan := first + added;
    assert plan[0].target == plan[|first| + k].target;
  }

  /** Every file of this part of a plan is there for the difference of the two manifests. */
  ghost predicate LeftFor(part: seq<Planned>, r: Request, prior: seq<M.Entry>, next: seq<M.Entry>) {
    forall k :: 0 <= k < |part| ==> PlannedFor(part[k], ByPath(prior), ByPath(next), r.installRoot, r.stagingDir)
  }

  lemma ManifestsAreUnique(r: Request, world: World, files: Tree, prior: seq<M.Entry>, next: seq<M.Entry>,
      prior': seq<M.Entry>, next': seq<M.Entry>)
    requires ManifestsAt(r, world, files, prior, next) && ManifestsAt(r, world, files, prior', next')
    ensures prior' == prior && next' == next
  {
    hide M.IsManifest, At, Under;
    M.ManifestUnique(At(files, Under(r.installRoot, INSTALLED_MANIFEST)), prior, prior');
    M.ManifestUnique(At(world.staging, Under(r.stagingDir, STAGED_MANIFEST)), next, next');
  }

  lemma NotHuge(bytes: seq<byte>, es: seq<M.Entry>)
    requires M.IsManifest(bytes, es)
    ensures |bytes| <= M.MAX_BYTES
  {
  }

  lemma NothingIsNoManifest(es: seq<M.Entry>)
    ensures !M.IsManifest([], es)
  {
  }

  /** Reads and parses a manifest; None says that it is not one or was not read. */
  method ReadManifest(m: Machine, from: Tree, path: wstring) returns (es: Option<seq<M.Entry>>)
    modifies m`sound
    ensures es.Some? ==> path in from && M.IsManifest(from[path], es.value) && m.sound == old(m.sound)
    ensures es.None? && m.sound ==> forall es' :: !M.IsManifest(At(from, path), es')
    ensures m.sound ==> old(m.sound)
  {
    hide M.IsManifest;
    var content := m.Read(from, path);
    var parsed := M.ParseManifest(content);
    if parsed.Refused? {
      if content.None? {
        forall es': seq<M.Entry> ensures !M.IsManifest([], es') {
          NothingIsNoManifest(es');
        }
      }
      return None;
    }
    return Some(parsed.entries);
  }

  /** Every staged file is hashed against the new manifest. */
  method CheckStaged(m: Machine, world: World, plan: seq<Planned>) returns (ok: bool, ghost bad: nat)
    modifies m`sound
    ensures ok ==> AllStaged(plan, world)
    ensures !ok && m.sound ==> bad < |plan| && !plan[bad].op.Delete? && !StagedAs(plan[bad], world)
    ensures m.sound ==> old(m.sound)
  {
    bad := 0;
    for k := 0 to |plan|
      invariant forall i :: 0 <= i < k && !plan[i].op.Delete? ==> StagedAs(plan[i], world)
      invariant m.sound ==> old(m.sound)
    {
      if plan[k].op.Delete? {
        continue;
      }
      var content := m.Read(world.staging, plan[k].staged);
      if content.None? || world.sha(content.value) != plan[k].incomingSha || |content.value| != plan[k].incomingSize {
        return false, k;
      }
    }
    return true, 0;
  }

  lemma SaturatedTwice(n: nat)
    ensures Saturated(Capped(n), Capped(n)) == Capped(2 * n)
  {
  }

  lemma SaturatedMore(n: nat, v: u64)
    ensures Saturated(Capped(n), v) == Capped(n + v)
  {
  }

  /** Both manifests are parsed under the same rules, so their targets are apart. */
  lemma CheckedHolds(plan: seq<Planned>, r: Request, world: World, options: Options, files: Tree,
                     prior: seq<M.Entry>, next: seq<M.Entry>)
    requires Checked(plan, r, world, options, files, prior, next)
    ensures PlanHolds(plan, world, files)
    ensures Trusted(r, world, files) ==> Assumed(plan, world, files, r)
  {
    hide StandardPath, TargetPath, ByPath, M.PlainChars, M.IsManifest, StagedAs, Room, NoCollision, SmallFiles,
         NeverLists;
    forall p | p in ByPath(prior) || p in ByPath(next)
      ensures M.PlainChars(p)
    {
      if p in ByPath(prior) {
        ListedIsPlain(At(files, Under(r.installRoot, INSTALLED_MANIFEST)), prior, p);
      } else {
        ListedIsPlain(At(world.staging, Under(r.stagingDir, STAGED_MANIFEST)), next, p);
      }
    }
    DiffTargetsApart(plan, ByPath(prior), ByPath(next), r.installRoot, r.stagingDir);
    forall k | 0 <= k < |plan|
      ensures FilePlanned(plan[k], world, files)
    {
      assert PlannedFor(plan[k], ByPath(prior), ByPath(next), r.installRoot, r.stagingDir);
    }
    if Trusted(r, world, files) {
      forall k | 0 <= k < |plan|
        ensures plan[k].target != Under(r.installRoot, MARKER_FILE)
        ensures plan[k].target != Under(r.installRoot, INSTALLED_MANIFEST)
      {
        NeverPlanned(plan[k], r, world, files, prior, next);
      }
    }
  }

  lemma ListedIsPlain(bytes: seq<byte>, es: seq<M.Entry>, p: wstring)
    requires M.IsManifest(bytes, es) && p in ByPath(es)
    ensures M.PlainChars(p)
  {
    hide M.PlainChars, ByPath, M.ManifestBytes, M.WellFormedPaths;
    ByPathHolds(es, p);
    var k :| 0 <= k < |es| && es[k].relpath == p;
    assert M.EntryFits(es[k]);
  }

  lemma NeverPlanned(f: Planned, r: Request, world: World, files: Tree, prior: seq<M.Entry>, next: seq<M.Entry>)
    requires PlannedFor(f, ByPath(prior), ByPath(next), r.installRoot, r.stagingDir)
    requires Trusted(r, world, files) && ManifestsAt(r, world, files, prior, next)
    ensures f.target != Under(r.installRoot, MARKER_FILE) && f.target != Under(r.installRoot, INSTALLED_MANIFEST)
  {
    hide TargetPath, ByPath, M.IsManifest, NoCollision, SmallFiles;
    NothingIsNoManifest(prior);
    NothingIsNoManifest(next);
    var p := f.relpath;
    if p in ByPath(prior) {
      ByPathHolds(prior, p);
      var k :| 0 <= k < |prior| && prior[k].relpath == p;
      assert NeverLists(files, Under(r.installRoot, INSTALLED_MANIFEST), r.installRoot);
    } else {
      ByPathHolds(next, p);
      var k :| 0 <= k < |next| && next[k].relpath == p;
      assert NeverLists(world.staging, Under(r.stagingDir, STAGED_MANIFEST), r.installRoot);
    }
  }

  lemma Blocked(r: Request, world: World, options: Options, files: Tree, prior: seq<M.Entry>, next: seq<M.Entry>)
    requires ManifestsAt(r, world, files, prior, next)
    requires exists f :: PlannedFor(f, ByPath(prior), ByPath(next), r.installRoot, r.stagingDir) && !Plannable(f, files)
    ensures Refusable(r, world, options, files)
  {
    hide PlannedFor, Plannable, ManifestsAt, InputsOk, PlanIs, Room;
    var f :| PlannedFor(f, ByPath(prior), ByPath(next), r.installRoot, r.stagingDir) && !Plannable(f, files);
    assert Obstacle(f, r, world, files, prior, next);
  }

  lemma NotStaged(plan: seq<Planned>, k: nat, r: Request, world: World, options: Options, files: Tree,
                  prior: seq<M.Entry>, next: seq<M.Entry>)
    requires ManifestsAt(r, world, files, prior, next) && k < |plan|
    requires Diff(plan, ByPath(prior), ByPath(next), r.installRoot, r.stagingDir)
    requires !plan[k].op.Delete? && !StagedAs(plan[k], world)
    ensures Refusable(r, world, options, files)
  {
    hide PlannedFor, Plannable, ManifestsAt, InputsOk, PlanIs, Room, StagedAs;
    assert Obstacle(plan[k], r, world, files, prior, next);
  }

  lemma NoRoom(plan: seq<Planned>, r: Request, world: World, options: Options, files: Tree,
               prior: seq<M.Entry>, next: seq<M.Entry>)
    requires ManifestsAt(r, world, files, prior, next) && !Room(plan, r, options, files)
    requires Diff(plan, ByPath(prior), ByPath(next), r.installRoot, r.stagingDir)
    ensures Refusable(r, world, options, files)
  {
    hide Diff, ManifestsAt, InputsOk, Room, Obstacle;
    assert PlanIs(plan, r, prior, next);
  }

  lemma NoOldManifest(sound: bool, r: Request, world: World, options: Options, files: Tree)
    requires sound ==> forall es :: !M.IsManifest(At(files, Under(r.installRoot, INSTALLED_MANIFEST)), es)
    ensures sound ==> Refusable(r, world, options, files)
  {
    hide M.IsManifest, InputsOk, Obstacle, PlanIs, At, Under;
  }

  lemma NoNewManifest(sound: bool, r: Request, world: World, options: Options, files: Tree)
    requires sound ==> forall es :: !M.IsManifest(At(world.staging, Under(r.stagingDir, STAGED_MANIFEST)), es)
    ensures sound ==> Refusable(r, world, options, files)
  {
    hide M.IsManifest, InputsOk, Obstacle, PlanIs, At, Under;
  }

  ghost function ManifestPlan(r: Request, world: World, files: Tree): (f: Planned) {
    ManifestStep(world.sha, files, world.staging, Under(r.installRoot, INSTALLED_MANIFEST),
      Under(r.stagingDir, STAGED_MANIFEST))
  }

  function BackupDir(r: Request): (dir: wstring) {
    Under(JournalDirectory(r.journalRoot, r.txid), W("backup"))
  }

  /** What has to be true of the disk for execute to get through when every call
      succeeds: the old files are as the old manifest lists them, both manifests are
      there, and the journal can hold the transaction. */
  ghost predicate Executable(plan: seq<Planned>, r: Request, world: World, d: Disk) {
    AllListed(plan, |plan|, world, d) && ManifestsThere(r, world, d) && Holdable(plan, r, world, d)
  }

  ghost predicate AllListed(plan: seq<Planned>, n: nat, world: World, d: Disk)
    requires n <= |plan|
  {
    forall k :: 0 <= k < n ==> AsListed(world.sha, d.files, plan[k])
  }

  ghost predicate ManifestsThere(r: Request, world: World, d: Disk) {
    Under(r.installRoot, INSTALLED_MANIFEST) in d.files && Under(r.stagingDir, STAGED_MANIFEST) in world.staging
  }

  ghost predicate Holdable(plan: seq<Planned>, r: Request, world: World, d: Disk) {
    Loggable(r.txid, FullLog(plan, BackupDir(r), d.version, ManifestPlan(r, world, d.files)))
  }

  /** The first file that is not as the old manifest lists it, and the journal can hold
      what is written up to the intent to save it. */
  ghost predicate ConflictAt(plan: seq<Planned>, r: Request, world: World, d: Disk, k: nat) {
    && k < |plan| && !AsListed(world.sha, d.files, plan[k]) && AllListed(plan, k, world, d)
    && Loggable(r.txid, SavingLog(plan, BackupDir(r), k))
  }

  ghost predicate Conflicting(plan: seq<Planned>, r: Request, world: World, d: Disk) {
    exists k: nat :: ConflictAt(plan, r, world, d, k)
  }

  /** The log at the intent to save the k-th file of the plan. */
  ghost function SavingLog(plan: seq<Planned>, dir: wstring, k: nat): (rs: seq<Record>)
    requires k < |plan|
  {
    var before := PlanLog(plan[..k], dir);
    before + [BackupRecord(|before|, dir, plan[k].target, plan[k].oldSha, plan[k].oldSize)]
  }

  /** The logs before it and after it. */
  lemma {:induction false} SavingLogBetween(plan: seq<Planned>, dir: wstring, k: nat, i: nat)
    requires i <= k < |plan|
    ensures PlanLog(plan[..i], dir) <= SavingLog(plan, dir, k)
    ensures !plan[k].op.Create? ==> SavingLog(plan, dir, k) <= PlanLog(plan[..k + 1], dir)
  {
    hide PlanLog, StepLog, BackupPath;
    PlanLogPrefix(plan[..k], dir, i);
    assert plan[..k][..i] == plan[..i];
    PlanLogStep(plan, dir, k);
    StepSaves(plan[k], |PlanLog(plan[..k], dir)|, dir);
  }

  lemma StepSaves(f: Planned, n: nat, dir: wstring)
    ensures !f.op.Create? ==> [BackupRecord(n, dir, f.target, f.oldSha, f.oldSize)] <= StepLog(f, n, dir)
  {
    hide BackupPath;
  }

  /** When the journal can hold the whole transaction, there is a conflict exactly when
      some managed file is not as the old manifest lists it. */
  lemma ConflictIffModified(plan: seq<Planned>, r: Request, world: World, d: Disk)
    requires Holdable(plan, r, world, d)
    ensures Conflicting(plan, r, world, d) <==> !AllListed(plan, |plan|, world, d)
  {
    hide Loggable, PlanLog, BackupPath, Under, StepLog, SavingLog, AsListed;
    if k :| 0 <= k < |plan| && !AsListed(world.sha, d.files, plan[k]) {
      var first := FirstModified(plan, world, d, k);
      var dir, manifest := BackupDir(r), ManifestPlan(r, world, d.files);
      SavingLogBetween(plan, dir, first, first);
      PlanLogPrefix(plan, dir, first + 1);
      CreatesAreListed(world, d, plan[first]);
      FullLogHolds(r.txid, plan, dir, d.version, manifest, SavingLog(plan, dir, first));
      assert ConflictAt(plan, r, world, d, first);
    }
  }

  lemma CreatesAreListed(world: World, d: Disk, f: Planned)
    ensures f.op.Create? ==> AsListed(world.sha, d.files, f)
  {
  }

  lemma {:induction false} FirstModified(plan: seq<Planned>, world: World, d: Disk, k: nat) returns (first: nat)
    requires k < |plan| && !AsListed(world.sha, d.files, plan[k])
    ensures first < |plan| && !AsListed(world.sha, d.files, plan[first])
    ensures forall j :: 0 <= j < first ==> AsListed(world.sha, d.files, plan[j])
  {
    hide AsListed;
    if j :| 0 <= j < k && !AsListed(world.sha, d.files, plan[j]) {
      first := FirstModified(plan, world, d, j);
    } else {
      first := k;
    }
  }

  lemma FileNamesApart(root: wstring)
    ensures Under(root, MARKER_FILE) != Under(root, INSTALLED_MANIFEST)
  {
    assert |MARKER_FILE| != |INSTALLED_MANIFEST|;
  }

  lemma BodyLength(txid: u64, rs: seq<Record>)
    ensures |Encode(txid, rs)| >= HEADER_BYTES + RECORD_FIXED * |rs|
  {
  }

  lemma CompleteLength(txid: u64, bytes: seq<byte>, rs: seq<Record>, c: Record)
    requires IsJournal(bytes, txid, rs + [c])
    ensures |bytes| > HEADER_BYTES
  {
    BodyLength(txid, rs + [c]);
  }

  class TxEngine {
    const request: Request
    const world: World
    var options: Options // the volumes fill and empty, so what preflight says can change
    var prepared: bool
    var executed: bool
    var oldDisplayVersion: wstring
    var plan: seq<Planned>

    constructor (request: Request, world: World, options: Options)
      ensures this.request == request && this.world == world && this.options == options
      ensures !prepared && !executed && plan == []
    {
      this.request := request;
      this.world := world;
      this.options := options;
      prepared := false;
      executed := false;
      oldDisplayVersion := [];
      plan := [];
    }

    ghost predicate Ready(d: Disk)
      reads this
    {
      prepared && !executed ==>
        && PlanHolds(plan, world, d.files) && Assumed(plan, world, d.files, request)
        && d.version == oldDisplayVersion
    }

    ghost function Transaction(d: Disk): Tx
      reads this
    {
      TxOf(plan, world, request, d)
    }

    /** Read-only: nothing but this object and the record of failed reads can change.
        The first preparation accepts exactly what Checked says, and refuses only for
        a failed read or for one of the reasons that Refusable lists. A refused one
        leaves what it had planned behind, and the next one adds to that: the plan it
        accepts is a usable one exactly when nothing had been left. */
    method Prepare(m: Machine) returns (o: Outcome, ghost prior: seq<M.Entry>, ghost next: seq<M.Entry>)
      requires m.up
      modifies this`prepared, this`oldDisplayVersion, this`plan, m`sound
      ensures o == if prepared then Prepared else Rejected
      ensures old(prepared) ==> prepared && plan == old(plan) && oldDisplayVersion == old(oldDisplayVersion)
      ensures prepared && !old(prepared) ==>
        exists added :: plan == old(plan) + added && Checked(added, request, world, options, m.disk.files, prior, next)
      ensures prepared && !old(prepared) ==>
        (Checked(plan, request, world, options, m.disk.files, prior, next) <==> old(plan) == [])
      ensures prepared && !old(prepared) && old(plan) != [] && LeftFor(old(plan), request, prior, next) ==>
        !PlanHolds(plan, world, m.disk.files)
      ensures old(plan) <= plan
      ensures forall p, n :: ManifestsAt(request, world, m.disk.files, p, n) ==>
        LeftFor(plan[|old(plan)|..], request, p, n)
      ensures !old(prepared) && m.sound ==>
        forall p, n :: Diffable(request, world, options, m.disk.files, p, n) ==>
          PlanIs(plan[|old(plan)|..], request, p, n)
      ensures prepared && !old(prepared) && old(plan) == [] ==>
        && Checked(plan, request, world, options, m.disk.files, prior, next) && oldDisplayVersion == m.disk.version
      ensures prepared && !old(prepared) && old(plan) == [] && Trusted(request, world, m.disk.files) ==> Ready(m.disk)
      ensures !prepared && m.sound ==>
        Refusable(request, world, options, m.disk.files) || !AllStaged(old(plan), world)
      ensures m.sound ==> old(m.sound)
    {
      hide StandardPath, Registered, M.IsManifest, Checked, Refusable, PlanHolds, Assumed, Trusted, Under;
      prior, next := [], [];
      if prepared {
        return Prepared, [], [];
      }
      var ok := InputsAreOk(m);
      if !ok {
        return Rejected, [], [];
      }
      var oldManifest := ReadManifest(m, m.disk.files, Under(request.installRoot, INSTALLED_MANIFEST));
      if oldManifest.None? {
        NoOldManifest(m.sound, request, world, options, m.disk.files);
        return Rejected, [], [];
      }
      var newManifest := ReadManifest(m, world.staging, Under(request.stagingDir, STAGED_MANIFEST));
      if newManifest.None? {
        NoNewManifest(m.sound, request, world, options, m.disk.files);
        return Rejected, [], [];
      }
      prior, next := oldManifest.value, newManifest.value;
      var added, fits := PlanDiff(m, oldManifest.value, newManifest.value);
      plan := plan + added;
      assert plan[|old(plan)|..] == added;
      forall p, n | ManifestsAt(request, world, m.disk.files, p, n)
        ensures p == prior && n == next
      {
        ManifestsAreUnique(request, world, m.disk.files, prior, next, p, n);
      }
      if !fits {
        return Rejected, prior, next;
      }
      prepared := true;
      UsableIffFresh(old(plan), added, request, world, options, m.disk.files, prior, next);
      if old(plan) != [] && LeftFor(old(plan), request, prior, next) {
        LeftoverUnusable(old(plan), added, request, world, options, m.disk.files, prior, next);
      }
      CheckedHolds(added, request, world, options, m.disk.files, prior, next);
      assert [] + added == added;
      return Prepared, prior, next;
    }

    /** Image, transaction, paths, registration and marker. */
    method InputsAreOk(m: Machine) returns (ok: bool)
      modifies this`oldDisplayVersion, m`sound
      ensures ok ==> InputsOk(request, world, options) && Under(request.installRoot, MARKER_FILE) in m.disk.files
      ensures ok ==> oldDisplayVersion == m.disk.version
      ensures !ok && m.sound ==>
        !InputsOk(request, world, options) || Under(request.installRoot, MARKER_FILE) !in m.disk.files
      ensures !ok && m.sound ==> Refusable(request, world, options, m.disk.files)
      ensures m.sound ==> old(m.sound)
    {
      hide StandardPath, Registered, Under;
      if !options.imageOk {
        return false;
      }
      if || request.txid == 0 || !StandardPath(request.installRoot) || !StandardPath(request.stagingDir)
         || !StandardPath(request.journalRoot) {
        return false;
      }
      ok, oldDisplayVersion := RecheckTarget(world, m, request.installRoot);
    }

    /** The diff, the space it needs and the hashes of what it brings. */
    method PlanDiff(m: Machine, oldManifest: seq<M.Entry>, newManifest: seq<M.Entry>)
      returns (added: seq<Planned>, fits: bool)
      requires ManifestsAt(request, world, m.disk.files, oldManifest, newManifest)
      requires InputsOk(request, world, options) && Under(request.installRoot, MARKER_FILE) in m.disk.files
      modifies m`sound
      ensures fits ==> Checked(added, request, world, options, m.disk.files, oldManifest, newManifest)
      ensures !fits && m.sound ==> Refusable(request, world, options, m.disk.files) || !AllStaged(plan, world)
      ensures LeftFor(added, request, oldManifest, newManifest)
      ensures Diffable(request, world, options, m.disk.files, oldManifest, newManifest) ==>
        PlanIs(added, request, oldManifest, newManifest)
      ensures m.sound ==> old(m.sound)
    {
      hide StandardPath, Registered, Under, ByPath, Diff, M.IsManifest, Room, Refusable, Plannable, StagedAs, InputsOk,
           Capped, Diffable, LeftFor, FilePlanned, IncomingTotal, OldTotal, PlannedFor, Changed, AllStaged, Checked;
      ghost var files := m.disk.files;
      var stagingBytes, backupBytes;
      added, fits, stagingBytes, backupBytes := FindDiff(m, oldManifest, newManifest);
      if !fits {
        return;
      }
      fits := false;
      NothingIsNoManifest(oldManifest);
      var installed := m.Read(m.disk.files, Under(request.installRoot, INSTALLED_MANIFEST));
      if installed.None? {
        return;
      }
      NotHuge(installed.value, oldManifest);
      var room := HasRoom(added, m.disk.files, stagingBytes, backupBytes, |installed.value|);
      if !room {
        NoRoom(added, request, world, options, files, oldManifest, newManifest);
        return;
      }
      ghost var bad;
      fits, bad := CheckStaged(m, world, plan + added);
      if fits {
        AcceptedIsChecked(added, files, oldManifest, newManifest);
      } else if m.sound {
        UnstagedIsRefused(added, bad, files, oldManifest, newManifest);
      }
    }

    lemma AcceptedIsChecked(added: seq<Planned>, files: Tree, prior: seq<M.Entry>, next: seq<M.Entry>)
      requires InputsOk(request, world, options) && Under(request.installRoot, MARKER_FILE) in files
      requires ManifestsAt(request, world, files, prior, next) && PlanIs(added, request, prior, next)
      requires AllStaged(plan + added, world) && Room(added, request, options, files)
      requires forall k :: 0 <= k < |added| ==> Plannable(added[k], files)
      ensures Checked(added, request, world, options, files, prior, next)
    {
      hide InputsOk, Under, ManifestsAt, PlanIs, Room, StagedAs, Plannable;
      assert forall k :: 0 <= k < |added| ==> added[k] == (plan + added)[|plan| + k];
    }

    lemma UnstagedIsRefused(added: seq<Planned>, bad: nat, files: Tree, prior: seq<M.Entry>, next: seq<M.Entry>)
      requires ManifestsAt(request, world, files, prior, next) && PlanIs(added, request, prior, next)
      requires bad < |plan + added| && !(plan + added)[bad].op.Delete? && !StagedAs((plan + added)[bad], world)
      ensures Refusable(request, world, options, files) || !AllStaged(plan, world)
    {
      hide ManifestsAt, Refusable, StagedAs, Diff;
      if bad >= |plan| {
        assert (plan + added)[bad] == added[bad - |plan|];
        NotStaged(added, bad - |plan|, request, world, options, files, prior, next);
      } else {
        assert (plan + added)[bad] == plan[bad];
      }
    }

    /** The two loops over the manifests. */
    method FindDiff(m: Machine, oldManifest: seq<M.Entry>, newManifest: seq<M.Entry>)
      returns (added: seq<Planned>, fits: bool, stagingBytes: u64, backupBytes: u64)
      requires ManifestsAt(request, world, m.disk.files, oldManifest, newManifest)
      ensures fits ==> PlanIs(added, request, oldManifest, newManifest)
      ensures fits ==> forall k :: 0 <= k < |added| ==> Plannable(added[k], m.disk.files)
      ensures fits ==> stagingBytes == Capped(IncomingTotal(added)) && backupBytes == Capped(OldTotal(added))
      ensures !fits ==> Refusable(request, world, options, m.disk.files)
      ensures !fits ==> !Diffable(request, world, options, m.disk.files, oldManifest, newManifest)
      ensures LeftFor(added, request, oldManifest, newManifest)
    {
      hide StandardPath, ByPath, Diff, PartDiff, PlannedFor, M.DistinctKeys, M.ManifestBytes, Refusable, Plannable,
           Capped;
      var index := IndexEntries(oldManifest);
      var refused, incoming;
      refused, incoming, stagingBytes, backupBytes :=
        PlanIncoming(index, newManifest, m.disk.files, request.installRoot, request.stagingDir);
      added, fits := incoming, false;
      if refused {
        Blocked(request, world, options, m.disk.files, oldManifest, newManifest);
        return;
      }
      KeysOfIndex(newManifest);
      var newPaths := set k | 0 <= k < |newManifest| :: newManifest[k].relpath;
      var deletes;
      refused, deletes, backupBytes := PlanDeletes(oldManifest, newPaths, incoming, ByPath(newManifest), m.disk.files,
                                                   request.installRoot, request.stagingDir, backupBytes);
      added, fits := incoming + deletes, !refused;
      if refused {
        Blocked(request, world, options, m.disk.files, oldManifest, newManifest);
      }
    }

    method HasRoom(ghost plan: seq<Planned>, ghost files: Tree, stagingBytes: u64, backupBytes: u64,
        manifestBytes: u64) returns (room: bool)
      requires stagingBytes == Capped(IncomingTotal(plan)) && backupBytes == Capped(OldTotal(plan))
      requires manifestBytes == |At(files, Under(request.installRoot, INSTALLED_MANIFEST))|
      ensures room <==> Room(plan, request, options, files)
    {
      hide IncomingTotal, OldTotal, At, Under, Capped, Saturated;
      SaturatedTwice(IncomingTotal(plan));
      SaturatedMore(OldTotal(plan), manifestBytes);
      var backup := Saturated(backupBytes, manifestBytes);
      if SameVolume(request) {
        return options.preflight(request.journalRoot, Saturated(stagingBytes, stagingBytes), backup);
      }
      return
        && options.preflight(request.journalRoot, stagingBytes, backup)
        && options.preflight(request.installRoot, stagingBytes, 0);
    }

    /** Applies the plan journal first. Whatever happens, and wherever it stops, the
        disk is left as it was or as a scene that recovery understands. */
    method Execute(m: Machine) returns (o: Outcome)
      requires m.up && !m.flushLost && Ready(m.disk)
      modifies this`executed, m
      ensures plan == old(plan)
      ensures o.Applied? ==> m.up && IsNew(old(Transaction(m.disk)), m.disk) && Completed(request.txid, m.disk.journal)
      ensures o.RolledBack? || o.Conflict? ==> m.up && Pristine(old(Transaction(m.disk)), m.disk)
      ensures o.Rejected? ==> m.disk == old(m.disk).(journal := m.disk.journal)
      ensures o.NeedsAuthorizedRecovery? ==> !m.sound
      ensures o.Stopped? <==> !m.up
      ensures o in {Applied, RolledBack, Conflict, Rejected, NeedsAuthorizedRecovery, Stopped}
      // it gets through unless a call fails or something stands against the plan
      ensures m.up && m.sound && !o.Applied? ==>
        !old(prepared) || old(executed) || old(m.disk.journal).Some? || !Executable(plan, request, world, old(m.disk))
      ensures !old(prepared) || old(executed) || old(m.disk.journal).Some? ==> o.Rejected? && m.disk == old(m.disk)
      ensures executed == (old(executed) || old(prepared))
      ensures m.sound && o.Rejected? ==> !old(prepared) || old(executed) || old(m.disk.journal).Some?
      // and when no call fails, the disk and the manifests alone decide the answer
      ensures m.up && m.sound && old(prepared) && !old(executed) && old(m.disk.journal).None? ==>
        && o in {Applied, Conflict, RolledBack}
        && (o.Applied? <==> Executable(plan, request, world, old(m.disk)))
        && (o.Conflict? <==> Conflicting(plan, request, world, old(m.disk)))
      ensures (m.up && m.sound && old(prepared) && !old(executed) && old(m.disk.journal).None?
               && Holdable(plan, request, world, old(m.disk))) ==>
        (o.Conflict? <==> !AllListed(plan, |plan|, world, old(m.disk)))
      // a rejection leaves no journal behind its header, a rollback has one, a conflict has records
      ensures o.Rejected? && old(m.disk.journal).None? ==>
        m.disk.journal.None? || m.disk.journal.value <= Header(request.txid)
      ensures o.RolledBack? || o.Conflict? ==> m.disk.journal.Some? && |m.disk.journal.value| >= HEADER_BYTES
      ensures o.Conflict? ==> |m.disk.journal.value| > HEADER_BYTES
      ensures m.disk == old(m.disk)
        || Scene(old(Transaction(m.disk)), request.txid, m.disk)
        || (m.flushLost && CompleteLost(old(Transaction(m.disk)), request.txid, m.disk))
    {
      hide Scene, CompleteLost, Assumed, PlanHolds, IsNew, TxOf, Executable, Conflicting, Holdable, AllListed,
           Encode, IsJournal, ValidRecord, LogFits, Wal, HoldsLog, HoldsComplete, Completed, Loggable;
      if !prepared || executed {
        return Rejected;
      }
      executed := true;
      if m.disk.journal.Some? {
        return Rejected; // the transaction already exists; authorized recovery owns it
      }
      ghost var tx := Transaction(m.disk);
      TransactionBegins(m.disk);
      var journal := new TxJournal(request.txid);
      var created := journal.Open(m);
      NotStarted(tx, request.txid, old(m.disk), m.disk);
      if !m.up {
        return Stopped;
      }
      if !created {
        return Rejected;
      }
      BodyLength(request.txid, []);
      var made := m.MakeDirectories();
      if !made {
        return RolledBack;
      }
      var run := new Run(world.sha, world.staging, m, journal, BackupDir(request), tx);
      if Holdable(plan, request, world, old(m.disk)) {
        ConflictIffModified(plan, request, world, old(m.disk));
      }
      var failure := Modify(run, m, old(m.disk));
      if failure.None? {
        return Applied;
      }
      if !m.up {
        return Stopped;
      }
      LogBehindHeader(run);
      o := run.RollBack(failure.value);
    }

    lemma LogBehindHeader(run: Run)
      requires run.CanRollBack()
      ensures run.m.disk.journal.Some? && |run.m.disk.journal.value| >= HEADER_BYTES
      ensures run.records != [] ==> |run.m.disk.journal.value| > HEADER_BYTES
    {
      hide IsJournal, Serialize, Wal, LogFits, Undone;
      var txid, journal := run.journal.txid, run.m.disk.journal;
      if HoldsLog(txid, journal, run.logged) {
        BodyLength(txid, run.logged);
      } else {
        var c: Record :| IsJournal(journal.value, txid, run.logged + [c]);
        CompleteLength(txid, journal.value, run.logged, c);
      }
    }

    lemma TransactionBegins(d: Disk)
      ensures Pristine(Transaction(d), d) && Transaction(d).sha == world.sha
      ensures Transaction(d).marker == Under(request.installRoot, MARKER_FILE)
      ensures Assumed(plan, world, d.files, request) ==> Transaction(d).marker in Transaction(d).files
    {
    }

    /** Files, registration, manifest and completion record, in that order. */
    method Modify(run: Run, m: Machine, ghost d: Disk) returns (failure: Option<Outcome>)
      requires run.Running() && run.m == m && m.disk.files == d.files
      requires m.disk.version == d.version == oldDisplayVersion
      requires run.records == [] && run.tx == Transaction(d) && run.sha == world.sha && run.staging == world.staging
      requires run.backupDir == BackupDir(request) && run.journal.txid == request.txid
      requires PlanHolds(plan, world, d.files) && Assumed(plan, world, d.files, request)
      modifies run, m, run.journal
      ensures !m.up || failure.None? ==> run.Left()
      ensures failure.None? ==> m.up && IsNew(run.tx, m.disk) && Completed(run.journal.txid, m.disk.journal)
      ensures failure.Some? && m.up ==> run.CanRollBack() && (failure.value.RolledBack? || failure.value.Conflict?)
      ensures failure.Some? && m.up && m.sound ==> !Executable(plan, request, world, d)
      ensures failure.None? ==> Executable(plan, request, world, d)
      ensures m.up && m.sound ==> (failure == Some(Conflict) <==> Conflicting(plan, request, world, d))
      ensures failure == Some(Conflict) && m.up ==> run.records != []
      ensures m.sound ==> old(m.sound)
    {
      hide Run.Running, Run.CanRollBack, Run.Left, After, PlanLog, AllListed, ManifestsThere, Holdable, Conflicting,
           IsNew, Assumed, PlanHolds, TxOf, Completed;
      failure := ApplyFiles(run, m, d);
      if failure.Some? {
        return;
      }
      ListedMeetsNoConflict(d);
      failure := Conclude(run, m, d);
    }

    lemma ListedMeetsNoConflict(d: Disk)
      requires AllListed(plan, |plan|, world, d)
      ensures !Conflicting(plan, request, world, d)
    {
      hide AsListed, Loggable, SavingLog;
    }

    /** What follows the files: registration, manifest and completion record. */
    method Conclude(run: Run, m: Machine, ghost d: Disk) returns (failure: Option<Outcome>)
      requires run.Running() && run.m == m && m.disk.files == After(d.files, run.tx.incoming, plan)
      requires m.disk.version == d.version == oldDisplayVersion
      requires run.records == PlanLog(plan, BackupDir(request)) && run.tx == Transaction(d)
      requires run.sha == world.sha && run.staging == world.staging
      requires run.backupDir == BackupDir(request) && run.journal.txid == request.txid
      requires run.NewTarget(Under(request.installRoot, INSTALLED_MANIFEST))
      requires Assumed(plan, world, d.files, request)
      modifies run, m, run.journal
      ensures !m.up || failure.None? ==> run.Left()
      ensures failure.None? ==> m.up && IsNew(run.tx, m.disk) && Completed(run.journal.txid, m.disk.journal)
      ensures failure.Some? && m.up ==> run.CanRollBack() && failure.value.RolledBack?
      ensures failure.Some? && m.up && m.sound ==>
        !ManifestsThere(request, world, d) || !Holdable(plan, request, world, d)
      ensures failure.None? ==> ManifestsThere(request, world, d) && Holdable(plan, request, world, d)
      ensures m.sound ==> old(m.sound)
    {
      hide Run.Running, Run.CanRollBack, Run.Left, After, PlanLog, AsListed, Loggable, StepLog, Holdable;
      Milestones(d);
      failure := run.SetVersion(oldDisplayVersion, request.displayVersion);
      if failure.Some? {
        return;
      }
      var installed := Under(request.installRoot, INSTALLED_MANIFEST);
      var staged := Under(request.stagingDir, STAGED_MANIFEST);
      failure := run.PlaceManifest(installed, staged);
      if failure.Some? {
        return;
      }
      MarkerSurvives(plan, world, request, d.files);
      failure := run.Finish();
    }

    /** The logs at which Conclude stands between its parts. */
    lemma Milestones(d: Disk)
      ensures
        var files := PlanLog(plan, BackupDir(request));
        var registered := files + [RegistryRecord(|files|, d.version)];
        var placed := registered + StepLog(ManifestPlan(request, world, d.files), |registered|, BackupDir(request));
        && |placed| == |files| + 3
        && (Holdable(plan, request, world, d) <==> Loggable(request.txid, placed + [CompleteRecord(|placed|)]))
        && (Holdable(plan, request, world, d) ==> Loggable(request.txid, registered) && Loggable(request.txid, placed))
    {
      hide PlanLog, Loggable, BackupPath, Under;
      var dir, manifest := BackupDir(request), ManifestPlan(request, world, d.files);
      var files := PlanLog(plan, dir);
      var registered := files + [RegistryRecord(|files|, d.version)];
      var placed := registered + StepLog(manifest, |registered|, dir);
      assert FullLog(plan, dir, d.version, manifest) == placed + [CompleteRecord(|placed|)];
      if Holdable(plan, request, world, d) {
        FullLogHolds(request.txid, plan, dir, d.version, manifest, registered);
        FullLogHolds(request.txid, plan, dir, d.version, manifest, placed);
      }
    }

    /** The log after k files, and that it can be held. */
    lemma FileMilestone(d: Disk, k: nat)
      requires k < |plan| && Executable(plan, request, world, d)
      ensures AsListed(world.sha, d.files, plan[k])
      ensures Loggable(request.txid, PlanLog(plan[..k + 1], BackupDir(request)))
    {
      hide PlanLog, Loggable, BackupPath, Under, AsListed;
      var dir, manifest := BackupDir(request), ManifestPlan(request, world, d.files);
      PlanLogPrefix(plan, dir, k + 1);
      FullLogHolds(request.txid, plan, dir, d.version, manifest, PlanLog(plan[..k + 1], dir));
    }

    /** The loop over the plan. */
    method ApplyFiles(run: Run, m: Machine, ghost d: Disk) returns (failure: Option<Outcome>)
      requires run.Running() && run.m == m && m.disk.files == d.files
      requires run.records == [] && run.tx == Transaction(d) && run.sha == world.sha && run.staging == world.staging
      requires run.backupDir == BackupDir(request) && run.journal.txid == request.txid
      requires PlanHolds(plan, world, d.files) && Assumed(plan, world, d.files, request)
      modifies run, m, run.journal
      ensures run.Left()
      ensures failure.None? ==> run.Running() && m.disk.version == old(m.disk.version)
      ensures failure.None? ==> m.disk.files == After(d.files, run.tx.incoming, plan)
      ensures failure.None? ==> run.NewTarget(Under(request.installRoot, INSTALLED_MANIFEST))
      ensures failure.None? ==> run.records == PlanLog(plan, BackupDir(request))
      ensures failure.Some? && m.up ==> run.CanRollBack() && (failure.value.RolledBack? || failure.value.Conflict?)
      ensures failure.Some? && m.up && m.sound ==> !Executable(plan, request, world, d)
      ensures failure.None? ==> AllListed(plan, |plan|, world, d)
      ensures m.up && m.sound ==>
        (failure == Some(Conflict) <==> Conflicting(plan, request, world, d))
      ensures failure == Some(Conflict) && m.up ==> run.records != []
      ensures m.sound ==> old(m.sound)
    {
      hide Run.CanRollBack, Run.Left, PlanHolds, Assumed, TxOf, Run.NewTarget, Executable, Run.Running, After,
           Conflicting, AsListed, Loggable, SavingLog, PlanLog, NamesOnly, AllListed, ConflictAt;
      run.RunningCanRollBack();
      EmptyPlan(d);
      NoneListed(d);
      NamesNothing();
      for k := 0 to |plan|
        invariant run.Running() && run.Left() && m.disk.version == old(m.disk.version)
        invariant m.disk.files == After(d.files, run.tx.incoming, plan[..k])
        invariant NamesOnly(run.records, plan, k)
        invariant AllListed(plan, k, world, d)
        invariant run.records == PlanLog(plan[..k], BackupDir(request)) && (m.sound ==> old(m.sound))
      {
        failure := ApplyFile(run, m, d, k);
        OneMoreListed(d, k);
        if failure.Some? {
          if m.up && m.sound {
            OnlyConflict(d, k, failure.value.Conflict?);
          }
          return;
        }
      }
      assert plan[..|plan|] == plan;
      ListedMeetsNoConflict(d);
      ManifestIsNew(run, d);
      return None;
    }

    lemma NoneListed(d: Disk)
      ensures AllListed(plan, 0, world, d)
    {
    }

    lemma NamesNothing()
      ensures NamesOnly([], plan, 0)
    {
    }

    lemma OneMoreListed(d: Disk, k: nat)
      requires k < |plan|
      ensures AllListed(plan, k + 1, world, d) <==>
        AllListed(plan, k, world, d) && AsListed(world.sha, d.files, plan[k])
      ensures ConflictAt(plan, request, world, d, k) <==>
        && AllListed(plan, k, world, d) && !AsListed(world.sha, d.files, plan[k])
        && Loggable(request.txid, SavingLog(plan, BackupDir(request), k))
    {
      hide AsListed, Loggable, SavingLog;
    }

    /** A run that fails at the k-th file has met the conflict there or meets none. */
    lemma OnlyConflict(d: Disk, k: nat, conflict: bool)
      requires k < |plan| && AllListed(plan, k, world, d)
      requires conflict <==> ConflictAt(plan, request, world, d, k)
      requires AsListed(world.sha, d.files, plan[k]) ==>
        !Loggable(request.txid, PlanLog(plan[..k + 1], BackupDir(request)))
      ensures conflict <==> Conflicting(plan, request, world, d)
    {
      hide Loggable, PlanLog, SavingLog, AsListed;
      if c: nat :| ConflictAt(plan, request, world, d, c) {
        if c > k {
          SavingLogBetween(plan, BackupDir(request), c, k + 1);
          var log := SavingLog(plan, BackupDir(request), c);
          var before := PlanLog(plan[..k + 1], BackupDir(request));
          assert log == before + log[|before|..];
          LoggablePrefix(request.txid, before, log[|before|..]);
        }
      }
    }

    lemma EmptyPlan(d: Disk)
      ensures PlanLog(plan[..0], BackupDir(request)) == []
      ensures After(d.files, Transaction(d).incoming, plan[..0]) == d.files
    {
    }

    lemma ManifestIsNew(run: Run, d: Disk)
      requires run.tx == Transaction(d) && NamesOnly(run.records, plan, |plan|)
      requires Assumed(plan, world, d.files, request)
      ensures run.NewTarget(Under(request.installRoot, INSTALLED_MANIFEST))
    {
      FileNamesApart(request.installRoot);
    }

    method ApplyFile(run: Run, m: Machine, ghost d: Disk, k: nat) returns (failure: Option<Outcome>)
      requires run.Running() && run.m == m && k < |plan| && NamesOnly(run.records, plan, k)
      requires m.disk.files == After(d.files, run.tx.incoming, plan[..k])
      requires run.backupDir == BackupDir(request) && run.journal.txid == request.txid
      requires run.records == PlanLog(plan[..k], BackupDir(request))
      requires run.tx == Transaction(d) && run.sha == world.sha && run.staging == world.staging
      requires PlanHolds(plan, world, d.files) && Assumed(plan, world, d.files, request)
      modifies run, m, run.journal
      ensures run.Left()
      ensures failure.None? ==> run.Running() && m.disk.version == old(m.disk.version)
      ensures failure.None? ==> m.disk.files == After(d.files, run.tx.incoming, plan[..k + 1])
      ensures failure.None? ==> NamesOnly(run.records, plan, k + 1)
      ensures failure.None? ==> run.records == PlanLog(plan[..k + 1], BackupDir(request))
      ensures failure.Some? && m.up ==> run.CanRollBack() && (failure.value.RolledBack? || failure.value.Conflict?)
      ensures failure.Some? && m.up && m.sound ==> !Executable(plan, request, world, d)
      ensures failure.None? ==> AsListed(world.sha, d.files, plan[k])
      ensures failure.Some? && m.up && m.sound ==>
        && (failure.value.Conflict? <==>
              !AsListed(world.sha, d.files, plan[k]) && Loggable(request.txid, SavingLog(plan, BackupDir(request), k)))
        && (AsListed(world.sha, d.files, plan[k]) ==>
              !Loggable(request.txid, PlanLog(plan[..k + 1], BackupDir(request))))
      ensures failure == Some(Conflict) && m.up ==> run.records != []
      ensures m.sound ==> old(m.sound)
    {
      hide Run.Running, Run.CanRollBack, Run.Left, After, PlanHolds, Assumed, NamesOnly, Run.NewTarget, Executable,
           PlanLog, StepLog, AsListed, Loggable;
      PlanLogStep(plan, BackupDir(request), k);
      if Executable(plan, request, world, d) {
        FileMilestone(d, k);
      }
      CreatesAreListed(world, d, plan[k]);
      var f := plan[k];
      ghost var records := run.records;
      StepReady(run, d, k);
      AfterStep(d.files, run.tx.incoming, plan, k);
      match f.op {
        case Create =>
          failure := run.Create(f);
        case Replace =>
          failure := run.Replace(f);
        case Delete =>
          failure := run.Delete(f);
        case _ =>
          assert false;
      }
      if failure.None? {
        NamesGrow(records, plan, k, |records|, BackupDir(request));
      }
    }

    ghost predicate NamesOnly(records: seq<Record>, plan: seq<Planned>, k: nat) {
      forall i :: 0 <= i < |records| && NamesTarget(records[i]) ==>
        exists j :: 0 <= j < k && j < |plan| && plan[j].target == records[i].target
    }

    lemma NamesGrow(records: seq<Record>, plan: seq<Planned>, k: nat, n: nat, dir: wstring)
      requires NamesOnly(records, plan, k) && k < |plan|
      ensures NamesOnly(records + StepLog(plan[k], n, dir), plan, k + 1)
    {
      hide StepLog;
      StepNames(plan[k], n, dir);
      var more := records + StepLog(plan[k], n, dir);
      forall i | 0 <= i < |more| && NamesTarget(more[i])
        ensures exists j :: 0 <= j < k + 1 && j < |plan| && plan[j].target == more[i].target
      {
        if i < |records| {
          var j :| 0 <= j < k && j < |plan| && plan[j].target == records[i].target;
        } else {
          assert plan[k].target == more[i].target;
        }
      }
    }

    lemma StepReady(run: Run, d: Disk, k: nat)
      requires run.tx == Transaction(d) && NamesOnly(run.records, plan, k) && k < |plan|
      requires PlanHolds(plan, world, d.files) && Assumed(plan, world, d.files, request)
      ensures run.NewTarget(plan[k].target) && FilePlanned(plan[k], world, d.files)
      ensures !plan[k].op.Delete? ==>
        plan[k].target in run.tx.incoming && run.tx.incoming[plan[k].target] == world.staging[plan[k].staged]
      ensures NoCollision(world, d.files, plan[k].target, plan[k].staged)
    {
      if !plan[k].op.Delete? {
        IncomingForPlan(plan, world, request, k);
      }
    }
  }

  lemma NotStarted(tx: Tx, txid: u64, d: Disk, d': Disk)
    requires Pristine(tx, d) && tx.marker in tx.files && d' == d.(journal := d'.journal)
    requires d'.journal.None? || d'.journal.value <= Header(txid)
    ensures Scene(tx, txid, d')
  {
    if d'.journal.Some? && |d'.journal.value| == HEADER_BYTES {
      assert d'.journal.value == Header(txid) == Encode(txid, []);
      assert Open(tx, txid, d', []);
    }
  }
}
