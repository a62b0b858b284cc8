/** The manifest-driven diff: which files an update creates, replaces and deletes,
    and how many bytes it needs for that. */
module Diffs {
  import opened Bytes
  import opened Paths
  import opened Wrappers
  import opened Journal
  import opened Machines
  import opened Runs
  import opened Plans
  import opened Manifest

  type Index = map<wstring, Entry>

  function Under(root: wstring, leaf: wstring): wstring {
    root + [BACKSLASH] + leaf
  }

  function Native(relpath: wstring): (w: wstring)
    ensures |w| == |relpath|
  {
    seq(|relpath|, i requires 0 <= i < |relpath| => if relpath[i] == SLASH then BACKSLASH else relpath[i])
  }

  function TargetPath(root: wstring, relpath: wstring): wstring {
    Under(root, Native(relpath))
  }

  /** Relative paths have no backslash of their own, so targets stay apart. */
  lemma TargetsApart(root: wstring, p: wstring, q: wstring)
    requires PlainChars(p) && PlainChars(q) && TargetPath(root, p) == TargetPath(root, q)
    ensures p == q
  {
    var a, b := Native(p), Native(q);
    assert TargetPath(root, p)[|root| + 1..] == a && TargetPath(root, q)[|root| + 1..] == b;
    forall i | 0 <= i < |p|
      ensures p[i] == q[i]
    {
      assert a[i] == b[i] && PlainChar(p[i]) && PlainChar(q[i]);
    }
  }

  // ------------------------------------------------------------------- the index

  /** The entries by path; of two with one path the later one. */
  function ByPath(es: seq<Entry>): (index: Index) {
    if es == [] then map[] else ByPath(es[..|es| - 1])[es[|es| - 1].relpath := es[|es| - 1]]
  }

  lemma {:induction false} ByPathHolds(es: seq<Entry>, p: wstring)
    ensures p in ByPath(es) ==> ByPath(es)[p] in es && ByPath(es)[p].relpath == p
    ensures p !in ByPath(es) ==> forall e :: e in es ==> e.relpath != p
  {
    if es != [] {
      var init := es[..|es| - 1];
      assert es == init + [es[|es| - 1]];
      ByPathHolds(init, p);
    }
  }

  /** Exact paths are as unique as the folded ones. */
  lemma {:induction false} ByPathAt(es: seq<Entry>, k: nat)
    requires DistinctKeys(es) && k < |es|
    ensures es[k].relpath in ByPath(es) && ByPath(es)[es[k].relpath] == es[k]
    decreases |es|
  {
    if k < |es| - 1 {
      var init := es[..|es| - 1];
      assert init[k] == es[k];
      ByPathAt(init, k);
      assert Upper(es[k].relpath) != Upper(es[|es| - 1].relpath);
    }
  }

  // -------------------------------------------------------------------- the diff

  predicate SameContent(a: Entry, b: Entry) {
    a.size == b.size && a.sha == b.sha
  }

  predicate Changed(prior: Index, next: Index, p: wstring) {
    if p in next then p !in prior || !SameContent(prior[p], next[p]) else p in prior
  }

  /** f is what has to be done for a path that the two manifests disagree on. */
  predicate PlannedFor(f: Planned, prior: Index, next: Index, root: wstring, staging: wstring) {
    var p := f.relpath;
    && Changed(prior, next, p) && f.target == TargetPath(root, p)
    && f.op == (if p !in next then Delete else if p !in prior then Create else Replace)
    && (p in next ==>
          f.staged == TargetPath(staging, p) && f.incomingSize == next[p].size && f.incomingSha == next[p].sha)
    && (p !in next ==> f.incomingSize == 0)
    && (p in prior ==> f.oldSize == prior[p].size && f.oldSha == prior[p].sha)
    && (p !in prior ==> f.oldSize == 0)
  }

  /** Every path the manifests disagree on is planned for, once, and no other path. */
  ghost predicate Diff(plan: seq<Planned>, prior: Index, next: Index, root: wstring, staging: wstring) {
    && (forall k :: 0 <= k < |plan| ==> PlannedFor(plan[k], prior, next, root, staging))
    && (forall p :: Changed(prior, next, p) ==> Covers(plan, p))
    && (forall i, j :: 0 <= i < j < |plan| ==> plan[i].relpath != plan[j].relpath)
  }

  ghost predicate Covers(plan: seq<Planned>, p: wstring) {
    exists k :: 0 <= k < |plan| && plan[k].relpath == p
  }

  lemma CoversMore(plan: seq<Planned>, f: Planned, p: wstring)
    ensures Covers(plan + [f], p) <==> Covers(plan, p) || f.relpath == p
  {
    var all := plan + [f];
    assert all[|plan|] == f;
    if k :| 0 <= k < |plan| && plan[k].relpath == p {
      assert all[k].relpath == p;
    }
  }

  /** A prefix of the plan: the right operations, for exactly these paths. */
  ghost predicate PartDiff(plan: seq<Planned>, prior: Index, next: Index, root: wstring, staging: wstring,
      done: set<wstring>) {
    && (forall k :: 0 <= k < |plan| ==> PlannedFor(plan[k], prior, next, root, staging))
    && (forall p :: Covers(plan, p) <==> p in done && Changed(prior, next, p))
    && (forall i, j :: 0 <= i < j < |plan| ==> plan[i].relpath != plan[j].relpath)
  }

  lemma PartGrows(plan: seq<Planned>, f: Planned, prior: Index, next: Index, root: wstring, staging: wstring,
      done: set<wstring>)
    requires PartDiff(plan, prior, next, root, staging, done) && f.relpath !in done
    requires PlannedFor(f, prior, next, root, staging)
    ensures PartDiff(plan + [f], prior, next, root, staging, done + {f.relpath})
  {
    hide PlannedFor, Changed, Covers;
    forall p
      ensures Covers(plan + [f], p) <==> p in done + {f.relpath} && Changed(prior, next, p)
    {
      CoversMore(plan, f, p);
      ChangedWhenPlanned(f, prior, next, root, staging);
    }
    forall i | 0 <= i < |plan|
      ensures plan[i].relpath != f.relpath
    {
      assert Covers(plan, plan[i].relpath) by { CoveredAt(plan, i); }
    }
  }

  lemma CoveredAt(plan: seq<Planned>, i: nat)
    requires i < |plan|
    ensures Covers(plan, plan[i].relpath)
  {
  }

  lemma ChangedWhenPlanned(f: Planned, prior: Index, next: Index, root: wstring, staging: wstring)
    requires PlannedFor(f, prior, next, root, staging)
    ensures Changed(prior, next, f.relpath)
  {
  }

  lemma PartPlanned(plan: seq<Planned>, prior: Index, next: Index, root: wstring, staging: wstring, done: set<wstring>)
    requires PartDiff(plan, prior, next, root, staging, done)
    ensures forall k :: 0 <= k < |plan| ==> PlannedFor(plan[k], prior, next, root, staging)
  {
    hide PlannedFor, Changed, Covers;
  }

  lemma PartSkips(plan: seq<Planned>, p: wstring, prior: Index, next: Index, root: wstring, staging: wstring,
      done: set<wstring>)
    requires PartDiff(plan, prior, next, root, staging, done) && !Changed(prior, next, p)
    ensures PartDiff(plan, prior, next, root, staging, done + {p})
  {
    hide PlannedFor, Covers;
  }

  lemma WholeDiff(plan: seq<Planned>, prior: Index, next: Index, root: wstring, staging: wstring, done: set<wstring>)
    requires PartDiff(plan, prior, next, root, staging, done)
    requires forall p :: p in prior || p in next ==> p in done
    ensures Diff(plan, prior, next, root, staging)
  {
    hide PlannedFor, Covers;
  }

  /** Nothing can stand before a whole difference: whatever it is for, its path is either
      unchanged or planned for a second time. */
  lemma NothingBeforeDiff(first: seq<Planned>, added: seq<Planned>, prior: Index, next: Index, root: wstring,
      staging: wstring)
    requires Diff(added, prior, next, root, staging)
    ensures Diff(first + added, prior, next, root, staging) <==> first == []
  {
    hide PlannedFor, Changed;
    var all := first + added;
    if first == [] {
      assert all == added;
    } else if PlannedFor(all[0], prior, next, root, staging) {
      var k := PlannedTwice(all[0], added, prior, next, root, staging);
      assert all[|first| + k].relpath == all[0].relpath;
    }
  }

  lemma PlannedTwice(f: Planned, added: seq<Planned>, prior: Index, next: Index, root: wstring, staging: wstring)
    returns (k: nat)
    requires Diff(added, prior, next, root, staging) && PlannedFor(f, prior, next, root, staging)
    ensures k < |added| && added[k].relpath == f.relpath && added[k].target == f.target
  {
    hide Changed;
    ChangedWhenPlanned(f, prior, next, root, staging);
    assert Covers(added, f.relpath);
    k :| 0 <= k < |added| && added[k].relpath == f.relpath;
    assert PlannedFor(added[k], prior, next, root, staging);
  }

  // ------------------------------------------------------------------- the space

  const MAX_U64: u64 := 0xffff_ffff_ffff_ffff

  function Capped(n: nat): (v: u64) {
    if n <= MAX_U64 then n else MAX_U64
  }

  /** Saturating addition: once the limit is reached it is never left. */
  function Saturated(a: u64, b: u64): (v: u64)
    ensures v == Capped(a + b)
  {
    if b > MAX_U64 - a then MAX_U64 else a + b
  }

  function IncomingTotal(plan: seq<Planned>): (n: nat) {
    if plan == [] then 0 else IncomingTotal(plan[..|plan| - 1]) + plan[|plan| - 1].incomingSize
  }

  function OldTotal(plan: seq<Planned>): (n: nat) {
    if plan == [] then 0 else OldTotal(plan[..|plan| - 1]) + plan[|plan| - 1].oldSize
  }

  lemma TotalsGrow(plan: seq<Planned>, f: Planned)
    ensures IncomingTotal(plan + [f]) == IncomingTotal(plan) + f.incomingSize
    ensures OldTotal(plan + [f]) == OldTotal(plan) + f.oldSize
  {
    assert (plan + [f])[..|plan|] == plan;
  }

  // ------------------------------------------------------------------- the loops

  /** Collisions and nonstandard paths: why a file may not be planned. */
  ghost predicate Plannable(f: Planned, files: Tree) {
    StandardPath(f.target) && (f.op.Create? ==> f.target !in files)
  }

  ghost function PathsOf(es: seq<Entry>): (ps: set<wstring>) {
    set k | 0 <= k < |es| :: es[k].relpath
  }

  lemma PathsGrow(es: seq<Entry>, k: nat)
    requires k < |es|
    ensures PathsOf(es[..k + 1]) == PathsOf(es[..k]) + {es[k].relpath}
  {
    var more, less := es[..k + 1], es[..k];
    assert more[k] == es[k] && forall i :: 0 <= i < k ==> more[i] == less[i];
  }

  lemma NotYet(es: seq<Entry>, k: nat)
    requires DistinctKeys(es) && k < |es|
    ensures es[k].relpath !in PathsOf(es[..k])
  {
    forall i | 0 <= i < k
      ensures es[..k][i].relpath != es[k].relpath
    {
      assert Upper(es[i].relpath) != Upper(es[k].relpath);
    }
  }

  /** Creates and replacements, in the order of the new manifest. What was added
      before a refusal is returned with it, because the caller keeps it. */
  method PlanIncoming(prior: Index, newManifest: seq<Entry>, files: Tree, root: wstring, staging: wstring)
    returns (refused: bool, added: seq<Planned>, stagingBytes: u64, backupBytes: u64)
    requires DistinctKeys(newManifest)
    ensures !refused ==> PartDiff(added, prior, ByPath(newManifest), root, staging, PathsOf(newManifest))
    ensures !refused ==> forall k :: 0 <= k < |added| ==> Plannable(added[k], files)
    ensures refused ==> exists f :: PlannedFor(f, prior, ByPath(newManifest), root, staging) && !Plannable(f, files)
    ensures forall k :: 0 <= k < |added| ==> PlannedFor(added[k], prior, ByPath(newManifest), root, staging)
    ensures stagingBytes == Capped(IncomingTotal(added)) && backupBytes == Capped(OldTotal(added))
  {
    hide StandardPath, TargetPath, DistinctKeys, ByPath, Capped, PlannedFor, Changed, Covers, PartDiff, Saturated,
         IncomingTotal, OldTotal;
    ghost var next := ByPath(newManifest);
    refused, added, stagingBytes, backupBytes := false, [], 0, 0;
    NothingPlanned(prior, next, root, staging);
    assert newManifest[..0] == [];
    var i := 0;
    while i < |newManifest|
      invariant 0 <= i <= |newManifest|
      invariant PartDiff(added, prior, next, root, staging, PathsOf(newManifest[..i]))
      invariant forall k :: 0 <= k < |added| ==> PlannedFor(added[k], prior, next, root, staging)
      invariant forall k :: 0 <= k < |added| ==> Plannable(added[k], files)
      invariant stagingBytes == Capped(IncomingTotal(added)) && backupBytes == Capped(OldTotal(added))
    {
      var entry := newManifest[i];
      ByPathAt(newManifest, i);
      NotYet(newManifest, i);
      PathsGrow(newManifest, i);
      if entry.relpath in prior && SameContent(prior[entry.relpath], entry) {
        assert !Changed(prior, next, entry.relpath) by { Unchanged(prior, next, entry); }
        PartSkips(added, entry.relpath, prior, next, root, staging, PathsOf(newManifest[..i]));
        i := i + 1;
        continue;
      }
      var replaced := entry.relpath in prior;
      var f := Planned(if replaced then Replace else Create, entry.size, entry.sha,
                       if replaced then prior[entry.relpath].size else 0,
                       if replaced then prior[entry.relpath].sha else NoDigest(),
                       entry.relpath, TargetPath(root, entry.relpath), TargetPath(staging, entry.relpath));
      IncomingPlanned(f, entry, prior, next, root, staging);
      if !replaced && f.target in files {
        refused := true; // the payload collides with an unknown existing file
        return;
      }
      var standard := StandardPath(f.target);
      if !standard {
        refused := true;
        return;
      }
      AddOne(added, f, stagingBytes, backupBytes);
      PartGrows(added, f, prior, next, root, staging, PathsOf(newManifest[..i]));
      stagingBytes := Saturated(stagingBytes, f.incomingSize);
      backupBytes := Saturated(backupBytes, f.oldSize);
      added := added + [f];
      i := i + 1;
    }
    assert newManifest[..i] == newManifest;
  }

  lemma NothingPlanned(prior: Index, next: Index, root: wstring, staging: wstring)
    ensures PartDiff([], prior, next, root, staging, PathsOf([]))
    ensures Capped(IncomingTotal([])) == 0 && Capped(OldTotal([])) == 0
  {
  }

  lemma Unchanged(prior: Index, next: Index, e: Entry)
    requires e.relpath in prior && SameContent(prior[e.relpath], e) && e.relpath in next && next[e.relpath] == e
    ensures !Changed(prior, next, e.relpath)
  {
  }

  lemma IncomingPlanned(f: Planned, e: Entry, prior: Index, next: Index, root: wstring, staging: wstring)
    requires e.relpath in next && next[e.relpath] == e && !(e.relpath in prior && SameContent(prior[e.relpath], e))
    requires f.relpath == e.relpath && f.target == TargetPath(root, e.relpath)
    requires f.staged == TargetPath(staging, e.relpath)
    requires f.op == (if e.relpath in prior then Replace else Create)
    requires f.incomingSize == e.size && f.incomingSha == e.sha
    requires e.relpath in prior ==> f.oldSize == prior[e.relpath].size && f.oldSha == prior[e.relpath].sha
    requires e.relpath !in prior ==> f.oldSize == 0
    ensures PlannedFor(f, prior, next, root, staging)
  {
    hide TargetPath;
  }

  lemma AddOne(added: seq<Planned>, f: Planned, stagingBytes: u64, backupBytes: u64)
    requires stagingBytes == Capped(IncomingTotal(added)) && backupBytes == Capped(OldTotal(added))
    ensures Saturated(stagingBytes, f.incomingSize) == Capped(IncomingTotal(added + [f]))
    ensures Saturated(backupBytes, f.oldSize) == Capped(OldTotal(added + [f]))
  {
    hide IncomingTotal, OldTotal;
    TotalsGrow(added, f);
  }

  /** Deletions, in the order of the old manifest. */
  method PlanDeletes(oldManifest: seq<Entry>, newPaths: set<wstring>, planned: seq<Planned>, ghost next: Index,
      ghost files: Tree, root: wstring, ghost staging: wstring, startBytes: u64)
    returns (refused: bool, added: seq<Planned>, backupBytes: u64)
    requires DistinctKeys(oldManifest) && next.Keys == newPaths
    requires PartDiff(planned, ByPath(oldManifest), next, root, staging, newPaths)
    requires forall k :: 0 <= k < |planned| ==> Plannable(planned[k], files)
    requires startBytes == Capped(OldTotal(planned))
    ensures !refused ==> Diff(planned + added, ByPath(oldManifest), next, root, staging)
    ensures !refused ==> forall k :: 0 <= k < |planned + added| ==> Plannable((planned + added)[k], files)
    ensures refused ==> exists f :: PlannedFor(f, ByPath(oldManifest), next, root, staging) && !Plannable(f, files)
    ensures forall k :: 0 <= k < |planned + added| ==>
      PlannedFor((planned + added)[k], ByPath(oldManifest), next, root, staging)
    ensures backupBytes == Capped(OldTotal(planned + added)) && IncomingTotal(planned + added) == IncomingTotal(planned)
  {
    hide StandardPath, TargetPath, DistinctKeys, ByPath, Capped, PlannedFor, Changed, Covers, PartDiff, Diff,
         Saturated, IncomingTotal, OldTotal;
    ghost var prior := ByPath(oldManifest);
    refused, added, backupBytes := false, [], startBytes;
    PartPlanned(planned, prior, next, root, staging, newPaths);
    assert planned + added == planned && oldManifest[..0] == [] && newPaths + PathsOf([]) == newPaths;
    var i := 0;
    while i < |oldManifest|
      invariant 0 <= i <= |oldManifest|
      invariant PartDiff(planned + added, prior, next, root, staging, newPaths + PathsOf(oldManifest[..i]))
      invariant forall k :: 0 <= k < |planned + added| ==> PlannedFor((planned + added)[k], prior, next, root, staging)
      invariant forall k :: 0 <= k < |planned + added| ==> Plannable((planned + added)[k], files)
      invariant backupBytes == Capped(OldTotal(planned + added))
      invariant IncomingTotal(planned + added) == IncomingTotal(planned)
    {
      var entry := oldManifest[i];
      ByPathAt(oldManifest, i);
      NotYet(oldManifest, i);
      PathsGrow(oldManifest, i);
      ghost var done := newPaths + PathsOf(oldManifest[..i]);
      assert newPaths + PathsOf(oldManifest[..i + 1]) == done + {entry.relpath};
      if entry.relpath in newPaths {
        assert done + {entry.relpath} == done;
        i := i + 1;
        continue;
      }
      var f := Planned(Delete, 0, NoDigest(), entry.size, entry.sha,
                       entry.relpath, TargetPath(root, entry.relpath), []);
      DeletePlanned(f, entry, prior, next, root, staging);
      var standard := StandardPath(f.target);
      if !standard {
        refused := true;
        return;
      }
      assert planned + (added + [f]) == planned + added + [f];
      DeleteOne(planned + added, f, backupBytes);
      PartGrows(planned + added, f, prior, next, root, staging, done);
      backupBytes := Saturated(backupBytes, f.oldSize);
      added := added + [f];
      i := i + 1;
    }
    assert oldManifest[..i] == oldManifest;
    forall p | p in prior || p in next
      ensures p in newPaths + PathsOf(oldManifest)
    {
      ByPathHolds(oldManifest, p);
    }
    WholeDiff(planned + added, prior, next, root, staging, newPaths + PathsOf(oldManifest));
  }

  lemma DeletePlanned(f: Planned, e: Entry, prior: Index, next: Index, root: wstring, staging: wstring)
    requires e.relpath !in next && e.relpath in prior && prior[e.relpath] == e
    requires f.relpath == e.relpath && f.target == TargetPath(root, e.relpath) && f.op.Delete?
    requires f.incomingSize == 0 && f.oldSize == e.size && f.oldSha == e.sha
    ensures PlannedFor(f, prior, next, root, staging)
  {
    hide TargetPath;
  }

  lemma DeleteOne(plan: seq<Planned>, f: Planned, backupBytes: u64)
    requires backupBytes == Capped(OldTotal(plan)) && f.incomingSize == 0
    ensures Saturated(backupBytes, f.oldSize) == Capped(OldTotal(plan + [f]))
    ensures IncomingTotal(plan + [f]) == IncomingTotal(plan)
  {
    hide IncomingTotal, OldTotal;
    TotalsGrow(plan, f);
  }

  /** The paths of a manifest are the domain of its index. */
  lemma KeysOfIndex(es: seq<Entry>)
    requires DistinctKeys(es)
    ensures ByPath(es).Keys == PathsOf(es)
  {
    forall p
      ensures p in ByPath(es) <==> p in PathsOf(es)
    {
      ByPathHolds(es, p);
      if p in PathsOf(es) {
        var k :| 0 <= k < |es| && es[k].relpath == p;
        ByPathAt(es, k);
      }
    }
  }

  /** oldByPath: the index of the old manifest, entry by entry. */
  method IndexEntries(es: seq<Entry>) returns (index: Index)
    ensures index == ByPath(es)
  {
    index := map[];
    assert es[..0] == [];
    for i := 0 to |es|
      invariant index == ByPath(es[..i])
    {
      assert es[..i + 1][..i] == es[..i];
      index := index[es[i].relpath := es[i]];
    }
    assert es[..|es|] == es;
  }

  /** Distinct paths without backslashes make distinct targets. */
  lemma DiffTargetsApart(plan: seq<Planned>, prior: Index, next: Index, root: wstring, staging: wstring)
    requires Diff(plan, prior, next, root, staging)
    requires forall p :: p in prior || p in next ==> PlainChars(p)
    ensures DistinctTargets(plan)
  {
    hide TargetPath, PlainChars, Covers;
    forall i, j | 0 <= i < j < |plan|
      ensures plan[i].target != plan[j].target
    {
      if plan[i].target == plan[j].target {
        assert PlannedFor(plan[i], prior, next, root, staging) && PlannedFor(plan[j], prior, next, root, staging);
        TargetsApart(root, plan[i].relpath, plan[j].relpath);
      }
    }
  }
}
