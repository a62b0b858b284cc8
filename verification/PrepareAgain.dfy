/** A run of the engine in which a preparation is refused for want of room, and the next
    one on the same engine accepts a plan that names the same file twice. */
module PrepareAgain {
  import opened Bytes
  import opened Paths
  import opened Wrappers
  import opened Journal
  import opened Machines
  import opened Runs
  import opened Diffs
  import opened Engine
  import M = Manifest

  const ROOT: wstring := [67, 58, 92, 105]     // C:\i
  const STAGING: wstring := [67, 58, 92, 115]  // C:\s
  const JOURNALS: wstring := [67, 58, 92, 106] // C:\j
  const NAME: wstring := [97]                  // a

  function TheRequest(): (r: Request) {
    Request(ROOT, STAGING, JOURNALS, 1, [])
  }

  /** The new manifest lists one empty file, the installed one none. */
  function Next(sha: Content -> Digest): (es: seq<M.Entry>) {
    [M.Entry(NAME, 0, sha([]))]
  }

  function TheWorld(sha: Content -> Digest): (world: World) {
    World(sha, map[TargetPath(STAGING, NAME) := [], Under(STAGING, STAGED_MANIFEST) := M.ManifestBytes(Next(sha))],
          ROOT, 2)
  }

  function Installed(): (files: Tree) {
    map[Under(ROOT, MARKER_FILE) := [], Under(ROOT, INSTALLED_MANIFEST) := M.ManifestBytes([])]
  }

  function Volumes(room: bool): (options: Options) {
    Options(true, (volume, staging, backup) => room)
  }

  lemma NotSpecial(c: wchar)
    requires Letter(c)
    ensures c !in W("/:*?\"<>|")
  {
    var special := W("/:*?\"<>|");
    assert special == [47, 58, 42, 63, 34, 60, 62, 124];
  }

  lemma OneLetter(c: wchar)
    requires Letter(c)
    ensures StandardComponent([c])
  {
    hide W;
    NotSpecial(c);
    var stem := Upper([c][..Find([c], DOT)]);
    assert |stem| <= 1;
    assert [c][0] == c;
  }

  lemma ShortPath(root: wstring)
    requires |root| == 4 && root[..3] == [67, 58, 92] && Letter(root[3])
    ensures StandardPath(root) && StandardPath(TargetPath(root, NAME))
  {
    hide StandardComponent, W;
    var c := root[3];
    OneLetter(c);
    OneLetter(97);
    assert root[0] == root[..3][0] && root[1] == root[..3][1] && root[2] == root[..3][2];
    assert root[3..] == [c];
    assert Find([c], BACKSLASH) == 1 by { assert [c][0] != BACKSLASH; }
    assert [c][..1] == [c];
    assert Native(NAME) == NAME;
    var target := TargetPath(root, NAME);
    assert target == root + [BACKSLASH, 97] && target[3..] == [c, BACKSLASH, 97];
    assert target[3..][0] == c && target[3..][1] == BACKSLASH;
    assert Find(target[3..], BACKSLASH) == 1;
    assert target[3..][..1] == [c] && target[3..][2..] == [97];
    assert Find([97], BACKSLASH) == 1 by { assert [97][0] == 97; }
    assert [97][..1] == [97];
    assert StandardComponents([97]);
  }

  /** The paths of this run are different files. */
  lemma FilesApart()
    ensures Under(ROOT, MARKER_FILE) != Under(ROOT, INSTALLED_MANIFEST)
    ensures TargetPath(ROOT, NAME) !in Installed()
    ensures TargetPath(STAGING, NAME) != Under(STAGING, STAGED_MANIFEST)
  {
    FileNamesApart(ROOT);
    assert |TargetPath(ROOT, NAME)| == 6;
    assert |Under(ROOT, MARKER_FILE)| > 6 && |Under(ROOT, INSTALLED_MANIFEST)| > 6;
    assert |TargetPath(STAGING, NAME)| == 6 && |Under(STAGING, STAGED_MANIFEST)| > 6;
  }

  lemma InputsAreGood(sha: Content -> Digest, options: Options)
    requires options.imageOk
    ensures InputsOk(TheRequest(), TheWorld(sha), options)
  {
    hide StandardPath, M.ManifestBytes;
    ShortPath(ROOT);
    ShortPath(STAGING);
    ShortPath(JOURNALS);
  }

  lemma TwoManifests(sha: Content -> Digest)
    ensures ManifestsAt(TheRequest(), TheWorld(sha), Installed(), [], Next(sha))
  {
    hide M.ManifestBytes, Under, TargetPath;
    FilesApart();
    M.OneCharacter(97, 0, sha([]));
    M.NoEntries();
  }

  /** The file is the only difference. */
  lemma OnlyTheFile(sha: Content -> Digest, f: Planned)
    ensures PlannedFor(f, ByPath([]), ByPath(Next(sha)), ROOT, STAGING) ==>
      && f.relpath == NAME && f.op.Create? && f.target == TargetPath(ROOT, NAME)
      && Plannable(f, Installed()) && StagedAs(f, TheWorld(sha))
  {
    hide StandardPath, M.ManifestBytes;
    var next := Next(sha);
    assert next[..0] == [];
    assert ByPath(next) == map[NAME := next[0]];
    FilesApart();
    ShortPath(ROOT);
  }

  lemma Covered(sha: Content -> Digest, plan: seq<Planned>)
    requires Diff(plan, ByPath([]), ByPath(Next(sha)), ROOT, STAGING)
    ensures plan != []
  {
    var next := Next(sha);
    assert next[..0] == [];
    assert Changed(ByPath([]), ByPath(next), NAME);
    assert Covers(plan, NAME);
  }

  lemma NothingAgainst(sha: Content -> Digest)
    ensures Diffable(TheRequest(), TheWorld(sha), Volumes(false), Installed(), [], Next(sha))
    ensures !Refusable(TheRequest(), TheWorld(sha), Volumes(true), Installed())
  {
    hide InputsOk, PlannedFor, Plannable, StagedAs, ByPath, M.ManifestBytes, Under, ManifestsAt, PlanIs;
    var r, world, files := TheRequest(), TheWorld(sha), Installed();
    InputsAreGood(sha, Volumes(false));
    InputsAreGood(sha, Volumes(true));
    TwoManifests(sha);
    forall f ensures PlannedFor(f, ByPath([]), ByPath(Next(sha)), ROOT, STAGING) ==>
      Plannable(f, files) && StagedAs(f, world)
    {
      OnlyTheFile(sha, f);
    }
    forall prior, next | ManifestsAt(r, world, files, prior, next)
      ensures prior == [] && next == Next(sha)
    {
      ManifestsAreUnique(r, world, files, [], Next(sha), prior, next);
    }
  }

  lemma RefusedForRoom(sha: Content -> Digest, plan: seq<Planned>, prior: seq<M.Entry>, next: seq<M.Entry>)
    ensures !Checked(plan, TheRequest(), TheWorld(sha), Volumes(false), Installed(), prior, next)
  {
    hide InputsOk, ManifestsAt, PlanIs, Plannable, StagedAs, Under, M.ManifestBytes;
  }

  lemma LeftBehind(sha: Content -> Digest, left: seq<Planned>)
    requires PlanIs(left, TheRequest(), [], Next(sha))
    ensures left != [] && AllStaged(left, TheWorld(sha)) && LeftFor(left, TheRequest(), [], Next(sha))
  {
    hide ByPath, PlannedFor, StagedAs, Plannable, M.ManifestBytes, Changed, Covers;
    Covered(sha, left);
    forall k | 0 <= k < |left|
      ensures StagedAs(left[k], TheWorld(sha))
    {
      OnlyTheFile(sha, left[k]);
    }
  }

  lemma CheckedFor(sha: Content -> Digest, plan: seq<Planned>, options: Options, prior: seq<M.Entry>,
      next: seq<M.Entry>)
    requires Checked(plan, TheRequest(), TheWorld(sha), options, Installed(), prior, next)
    ensures prior == [] && next == Next(sha)
  {
    hide InputsOk, ManifestsAt, PlanIs, Plannable, StagedAs, Under, M.ManifestBytes, Room;
    TwoManifests(sha);
    ManifestsAreUnique(TheRequest(), TheWorld(sha), Installed(), [], Next(sha), prior, next);
  }

  /** Once a file has been planned and left behind, there is no usable plan any more. */
  method PrepareTwice(sha: Content -> Digest) returns (engine: TxEngine, m: Machine)
    ensures fresh(engine) && fresh(m) && m.up && m.disk.files == Installed()
    ensures engine.request == TheRequest() && engine.world == TheWorld(sha) && engine.options == Volumes(true)
    ensures m.sound ==>
      && engine.prepared && !PlanHolds(engine.plan, engine.world, m.disk.files)
      && forall p, n :: !Checked(engine.plan, engine.request, engine.world, engine.options, m.disk.files, p, n)
  {
    hide Checked, PlanHolds, Refusable, Diffable, PlannedFor, Plannable, StagedAs, ByPath, M.ManifestBytes, Under,
         ManifestsAt, PlanIs, LeftFor;
    m := new Machine(Disk(None, Installed(), map[], []));
    engine := new TxEngine(TheRequest(), TheWorld(sha), Volumes(false));
    NothingAgainst(sha);
    ghost var prior, next;
    var o;
    o, prior, next := engine.Prepare(m);
    assert [] + engine.plan == engine.plan;
    assert engine.plan[0..] == engine.plan;
    RefusedForRoom(sha, engine.plan, prior, next);
    assert !engine.prepared;
    ghost var left := engine.plan;
    if m.sound {
      TwoManifests(sha);
      LeftBehind(sha, left);
    }
    engine.options := Volumes(true);
    o, prior, next := engine.Prepare(m);
    if m.sound {
      ghost var added :| engine.plan == left + added
        && Checked(added, TheRequest(), TheWorld(sha), Volumes(true), Installed(), prior, next);
      CheckedFor(sha, added, Volumes(true), prior, next);
      assert !Checked(engine.plan, TheRequest(), TheWorld(sha), Volumes(true), Installed(), prior, next);
      forall p, n
        ensures !Checked(engine.plan, TheRequest(), TheWorld(sha), Volumes(true), Installed(), p, n)
      {
        if Checked(engine.plan, TheRequest(), TheWorld(sha), Volumes(true), Installed(), p, n) {
          CheckedFor(sha, engine.plan, Volumes(true), p, n);
          assert false;
        }
      }
    }
  }
}
