/** What preparing and executing an update amounts to, in terms of the two manifests:
    an installation that agreed with the old one agrees with the new one. */
module Upgrades {
  import opened Bytes
  import opened Wrappers
  import opened Journal
  import opened Machines
  import opened WriteAhead
  import opened Runs
  import opened Plans
  import opened Diffs
  import opened Engine
  import M = Manifest

  /** Every listed file is there, with the listed size and digest. */
  ghost predicate Agrees(files: Tree, root: wstring, es: seq<M.Entry>, sha: Content -> Digest) {
    forall k :: 0 <= k < |es| ==> Holds(files, root, es[k], sha)
  }

  ghost predicate Holds(files: Tree, root: wstring, e: M.Entry, sha: Content -> Digest) {
    var t := TargetPath(root, e.relpath);
    t in files && sha(files[t]) == e.sha && |files[t]| == e.size
  }

  /** A path that one of the manifests lists. */
  ghost predicate Listed(root: wstring, prior: seq<M.Entry>, next: seq<M.Entry>, t: wstring) {
    exists p :: (p in ByPath(prior) || p in ByPath(next)) && TargetPath(root, p) == t
  }

  /** The tree after the update: the new manifest holds, what only the old one listed
      is gone, the installed manifest is the staged one, and nothing else changed. */
  ghost predicate Updated(r: Request, world: World, before: Tree, after: Tree, prior: seq<M.Entry>,
      next: seq<M.Entry>)
  {
    var installed := Under(r.installRoot, INSTALLED_MANIFEST);
    && Agrees(after, r.installRoot, next, world.sha)
    && (forall p :: p in ByPath(prior) && p !in ByPath(next) ==> TargetPath(r.installRoot, p) !in after)
    && installed in after && M.IsManifest(after[installed], next)
    && (forall t :: t != installed && !Listed(r.installRoot, prior, next, t) ==> Same(after, before, t))
  }

  /** The files of the plan, before the installed manifest is put in place. */
  ghost function PlanTree(plan: seq<Planned>, world: World, r: Request, files: Tree): (tree: Tree) {
    After(files, IncomingFiles(plan, world, r), plan)
  }

  lemma NewTreeIs(plan: seq<Planned>, world: World, r: Request, files: Tree)
    requires Under(r.stagingDir, STAGED_MANIFEST) in world.staging
    ensures NewTree(plan, world, r, files) ==
      PlanTree(plan, world, r, files)
        [Under(r.installRoot, INSTALLED_MANIFEST) := world.staging[Under(r.stagingDir, STAGED_MANIFEST)]]
  {
    hide After, IncomingFiles;
  }

  /** One listed file: brought by the plan, or left alone because it is unchanged. */
  lemma NewEntryHolds(plan: seq<Planned>, r: Request, world: World, files: Tree, prior: seq<M.Entry>,
      next: seq<M.Entry>, e: M.Entry)
    requires PlanIs(plan, r, prior, next) && PlanHolds(plan, world, files)
    requires NotATarget(plan, Under(r.installRoot, INSTALLED_MANIFEST))
    requires forall p :: p in ByPath(prior) || p in ByPath(next) ==> M.PlainChars(p)
    requires Agrees(files, r.installRoot, prior, world.sha)
    requires e.relpath in ByPath(next) && ByPath(next)[e.relpath] == e
    ensures Holds(PlanTree(plan, world, r, files), r.installRoot, e, world.sha)
  {
    hide TargetPath, ByPath, M.PlainChars, NotATarget, After, IncomingFiles, Covers;
    var p := e.relpath;
    if Changed(ByPath(prior), ByPath(next), p) {
      assert Covers(plan, p);
      var k := PlannedAt(plan, p);
      assert PlannedFor(plan[k], ByPath(prior), ByPath(next), r.installRoot, r.stagingDir);
      assert FilePlanned(plan[k], world, files);
      IncomingForPlan(plan, world, r, k);
      AfterAt(files, IncomingFiles(plan, world, r), plan, k);
    } else {
      Untargeted(plan, r, prior, next, p);
      AfterElsewhere(files, IncomingFiles(plan, world, r), plan, TargetPath(r.installRoot, p));
      ByPathHolds(prior, p);
      var k :| 0 <= k < |prior| && prior[k] == ByPath(prior)[p];
      assert Holds(files, r.installRoot, prior[k], world.sha);
    }
  }

  lemma PlannedAt(plan: seq<Planned>, p: wstring) returns (k: nat)
    requires Covers(plan, p)
    ensures k < |plan| && plan[k].relpath == p
  {
    k :| 0 <= k < |plan| && plan[k].relpath == p;
  }

  /** A path that did not change is the target of nothing in the plan. */
  lemma Untargeted(plan: seq<Planned>, r: Request, prior: seq<M.Entry>, next: seq<M.Entry>, p: wstring)
    requires PlanIs(plan, r, prior, next) && !Changed(ByPath(prior), ByPath(next), p) && M.PlainChars(p)
    requires forall q :: q in ByPath(prior) || q in ByPath(next) ==> M.PlainChars(q)
    ensures NotATarget(plan, TargetPath(r.installRoot, p))
  {
    hide TargetPath, ByPath, M.PlainChars, Covers;
    forall k | 0 <= k < |plan|
      ensures plan[k].target != TargetPath(r.installRoot, p)
    {
      assert PlannedFor(plan[k], ByPath(prior), ByPath(next), r.installRoot, r.stagingDir);
      if plan[k].target == TargetPath(r.installRoot, p) {
        TargetsApart(r.installRoot, plan[k].relpath, p);
      }
    }
  }

  lemma OldOnlyIsGone(plan: seq<Planned>, r: Request, world: World, files: Tree, prior: seq<M.Entry>,
      next: seq<M.Entry>, p: wstring)
    requires PlanIs(plan, r, prior, next) && DistinctTargets(plan)
    requires p in ByPath(prior) && p !in ByPath(next)
    ensures TargetPath(r.installRoot, p) !in PlanTree(plan, world, r, files)
  {
    hide TargetPath, ByPath, Covers, After, IncomingFiles, DistinctTargets;
    assert Covers(plan, p);
    var k := PlannedAt(plan, p);
    assert PlannedFor(plan[k], ByPath(prior), ByPath(next), r.installRoot, r.stagingDir);
    AfterAt(files, IncomingFiles(plan, world, r), plan, k);
  }

  lemma UnlistedStays(plan: seq<Planned>, r: Request, world: World, files: Tree, prior: seq<M.Entry>,
      next: seq<M.Entry>, t: wstring)
    requires PlanIs(plan, r, prior, next) && !Listed(r.installRoot, prior, next, t)
    ensures Same(PlanTree(plan, world, r, files), files, t)
  {
    hide TargetPath, ByPath, Covers, After, IncomingFiles;
    forall k | 0 <= k < |plan|
      ensures plan[k].target != t
    {
      assert PlannedFor(plan[k], ByPath(prior), ByPath(next), r.installRoot, r.stagingDir);
    }
    AfterElsewhere(files, IncomingFiles(plan, world, r), plan, t);
  }

  lemma NewTreeUpdated(plan: seq<Planned>, r: Request, world: World, options: Options, files: Tree,
      prior: seq<M.Entry>, next: seq<M.Entry>)
    requires Checked(plan, r, world, options, files, prior, next) && Trusted(r, world, files)
    requires Agrees(files, r.installRoot, prior, world.sha)
    ensures Updated(r, world, files, NewTree(plan, world, r, files), prior, next)
  {
    hide TargetPath, ByPath, Under, M.IsManifest, M.PlainChars, After, IncomingFiles, NewTree, PlanTree, PlanIs,
         PlanHolds, NoCollision, SmallFiles, Room, InputsOk, Plannable, StagedAs, Same, DistinctTargets;
    CheckedHolds(plan, r, world, options, files, prior, next);
    var installed, tree := Under(r.installRoot, INSTALLED_MANIFEST), PlanTree(plan, world, r, files);
    NothingIsNoManifest(next);
    NewTreeIs(plan, world, r, files);
    forall p | p in ByPath(prior) || p in ByPath(next)
      ensures M.PlainChars(p)
    {
      AllPlain(r, world, files, prior, next, p);
    }
    forall k | 0 <= k < |next|
      ensures Holds(NewTree(plan, world, r, files), r.installRoot, next[k], world.sha)
    {
      InIndex(At(world.staging, Under(r.stagingDir, STAGED_MANIFEST)), next, k);
      NewEntryHolds(plan, r, world, files, prior, next, next[k]);
      assert NeverLists(world.staging, Under(r.stagingDir, STAGED_MANIFEST), r.installRoot);
    }
    forall p | p in ByPath(prior) && p !in ByPath(next)
      ensures TargetPath(r.installRoot, p) !in NewTree(plan, world, r, files)
    {
      DistinctPlan(plan, world, files);
      OldOnlyIsGone(plan, r, world, files, prior, next, p);
      NotTheManifest(r, world, files, prior, next, p);
    }
    forall t | t != installed && !Listed(r.installRoot, prior, next, t)
      ensures Same(NewTree(plan, world, r, files), files, t)
    {
      UnlistedStays(plan, r, world, files, prior, next, t);
      SameElsewhere(tree, installed, world.staging[Under(r.stagingDir, STAGED_MANIFEST)], t);
      SameTrans(NewTree(plan, world, r, files), tree, files, t);
    }
  }

  lemma DistinctPlan(plan: seq<Planned>, world: World, files: Tree)
    requires PlanHolds(plan, world, files)
    ensures DistinctTargets(plan)
  {
  }

  lemma SameElsewhere(tree: Tree, at: wstring, content: Content, t: wstring)
    requires t != at
    ensures Same(tree[at := content], tree, t)
  {
  }

  lemma SameTrans(a: Tree, b: Tree, c: Tree, t: wstring)
    requires Same(a, b, t) && Same(b, c, t)
    ensures Same(a, c, t)
  {
  }

  lemma InIndex(bytes: seq<byte>, es: seq<M.Entry>, k: nat)
    requires M.IsManifest(bytes, es) && k < |es|
    ensures es[k].relpath in ByPath(es) && ByPath(es)[es[k].relpath] == es[k]
  {
    hide M.ManifestBytes, M.EntryFits, ByPath;
    ByPathAt(es, k);
  }

  lemma AllPlain(r: Request, world: World, files: Tree, prior: seq<M.Entry>, next: seq<M.Entry>, p: wstring)
    requires ManifestsAt(r, world, files, prior, next) && (p in ByPath(prior) || p in ByPath(next))
    ensures M.PlainChars(p)
  {
    hide M.PlainChars, M.IsManifest, ByPath;
    if p in ByPath(prior) {
      ListedIsPlain(At(files, Under(r.installRoot, INSTALLED_MANIFEST)), prior, p);
    } else {
      ListedIsPlain(At(world.staging, Under(r.stagingDir, STAGED_MANIFEST)), next, p);
    }
  }

  lemma NotTheManifest(r: Request, world: World, files: Tree, prior: seq<M.Entry>, next: seq<M.Entry>, p: wstring)
    requires Trusted(r, world, files) && ManifestsAt(r, world, files, prior, next) && p in ByPath(prior)
    ensures TargetPath(r.installRoot, p) != Under(r.installRoot, INSTALLED_MANIFEST)
  {
    hide TargetPath, ByPath, M.IsManifest, NoCollision, SmallFiles;
    NothingIsNoManifest(prior);
    ByPathHolds(prior, p);
    var k :| 0 <= k < |prior| && prior[k].relpath == p;
    assert NeverLists(files, Under(r.installRoot, INSTALLED_MANIFEST), r.installRoot);
  }

  /** Preparing and executing once. Applied means updated in the sense of the two
      manifests; every other answer that is given leaves files and version as they
      were. */
  method Update(engine: TxEngine, m: Machine) returns (o: Outcome, ghost prior: seq<M.Entry>, ghost next: seq<M.Entry>)
    requires m.up && !m.flushLost && !engine.prepared && !engine.executed && engine.plan == []
    requires Trusted(engine.request, engine.world, m.disk.files)
    modifies engine, m
    ensures o.Applied? ==>
      && ManifestsAt(engine.request, engine.world, old(m.disk.files), prior, next)
      && (Agrees(old(m.disk.files), engine.request.installRoot, prior, engine.world.sha) ==>
            Updated(engine.request, engine.world, old(m.disk.files), m.disk.files, prior, next))
      && m.disk.version == engine.request.displayVersion
    ensures o in {Rejected, RolledBack, Conflict} ==>
      m.disk.files == old(m.disk.files) && m.disk.version == old(m.disk.version)
    ensures o.NeedsAuthorizedRecovery? ==> !m.sound
    // a conflict is the answer to a managed file that is not as the old manifest lists it
    ensures m.up && m.sound && o.Conflict? ==>
      && ManifestsAt(engine.request, engine.world, old(m.disk.files), prior, next)
      && !Agrees(old(m.disk.files), engine.request.installRoot, prior, engine.world.sha)
    ensures m.up && m.sound && !o.Applied? ==>
      || Refusable(engine.request, engine.world, engine.options, old(m.disk.files)) || old(m.disk.journal).Some?
      || !Executable(engine.plan, engine.request, engine.world, old(m.disk))
    ensures o in {Applied, Rejected, RolledBack, Conflict, NeedsAuthorizedRecovery, Stopped}
  {
    hide M.IsManifest, Agrees, Updated, PlanIs, NewTree, IncomingFiles, PlanHolds, Assumed, Scene, CompleteLost,
         Checked, Trusted, Refusable, Executable, Conflicting, Holdable, AllListed;
    ghost var before := m.disk;
    ghost var files := before.files;
    o, prior, next := engine.Prepare(m);
    if o.Rejected? {
      return;
    }
    ghost var plan := engine.plan;
    o := engine.Execute(m);
    CheckedManifests(plan, engine.request, engine.world, engine.options, files, prior, next);
    if Agrees(files, engine.request.installRoot, prior, engine.world.sha) {
      AgreeingMeetsNoConflict(plan, engine.request, engine.world, before, prior, next);
    }
    if o.Applied? {
      if Agrees(files, engine.request.installRoot, prior, engine.world.sha) {
        NewTreeUpdated(plan, engine.request, engine.world, engine.options, files, prior, next);
      }
    }
  }

  lemma CheckedManifests(plan: seq<Planned>, r: Request, world: World, options: Options, files: Tree,
      prior: seq<M.Entry>, next: seq<M.Entry>)
    requires Checked(plan, r, world, options, files, prior, next)
    ensures ManifestsAt(r, world, files, prior, next) && PlanIs(plan, r, prior, next)
  {
    hide PlanIs, ManifestsAt, Room, InputsOk, Plannable, StagedAs;
  }

  /** Every file that the plan replaces or deletes is one that the old manifest lists. */
  lemma AgreeingMeetsNoConflict(plan: seq<Planned>, r: Request, world: World, d: Disk, prior: seq<M.Entry>,
      next: seq<M.Entry>)
    requires PlanIs(plan, r, prior, next) && Agrees(d.files, r.installRoot, prior, world.sha)
    ensures !Conflicting(plan, r, world, d)
  {
    hide TargetPath, ByPath, Covers, Loggable, SavingLog;
    forall k | 0 <= k < |plan|
      ensures AsListed(world.sha, d.files, plan[k])
    {
      assert PlannedFor(plan[k], ByPath(prior), ByPath(next), r.installRoot, r.stagingDir);
      var p := plan[k].relpath;
      if p in ByPath(prior) {
        ByPathHolds(prior, p);
        var i :| 0 <= i < |prior| && prior[i] == ByPath(prior)[p];
        assert Holds(d.files, r.installRoot, prior[i], world.sha);
      }
    }
  }
}
