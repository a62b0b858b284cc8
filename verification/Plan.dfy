/** What a plan means: the content it brings for each target and the tree it is to
    leave, defined file by file and independently of how execute works. */
module Plans {
  import opened Bytes
  import opened Paths
  import opened Journal
  import opened Machines
  import opened WriteAhead
  import opened Runs

  /** The staged content of each target of the plan. */
  ghost function IncomingOf(plan: seq<Planned>, staging: Tree): (incoming: Tree) {
    if |plan| == 0 then map[]
    else
      var f := plan[|plan| - 1];
      var before := IncomingOf(plan[..|plan| - 1], staging);
      if f.op.Delete? || f.staged !in staging then before else before[f.target := staging[f.staged]]
  }

  /** The tree after the files of the plan, taken in order. */
  ghost function After(files: Tree, incoming: Tree, plan: seq<Planned>): (tree: Tree) {
    if |plan| == 0 then files
    else
      var f := plan[|plan| - 1];
      var before := After(files, incoming, plan[..|plan| - 1]);
      if f.op.Delete? then before - {f.target}
      else if f.target in incoming then before[f.target := incoming[f.target]]
      else before
  }

  ghost predicate DistinctTargets(plan: seq<Planned>) {
    forall i, j :: 0 <= i < j < |plan| ==> plan[i].target != plan[j].target
  }

  ghost predicate NotATarget(plan: seq<Planned>, t: wstring) {
    forall i :: 0 <= i < |plan| ==> plan[i].target != t
  }

  lemma {:induction false} IncomingAt(plan: seq<Planned>, staging: Tree, k: nat)
    requires DistinctTargets(plan) && k < |plan| && !plan[k].op.Delete? && plan[k].staged in staging
    ensures plan[k].target in IncomingOf(plan, staging)
    ensures IncomingOf(plan, staging)[plan[k].target] == staging[plan[k].staged]
    decreases |plan|
  {
    if k < |plan| - 1 {
      var init := plan[..|plan| - 1];
      assert init[k] == plan[k];
      IncomingAt(init, staging, k);
    }
  }

  lemma {:induction false} IncomingElsewhere(plan: seq<Planned>, staging: Tree, t: wstring)
    requires NotATarget(plan, t)
    ensures t !in IncomingOf(plan, staging)
    decreases |plan|
  {
    if |plan| > 0 {
      IncomingElsewhere(plan[..|plan| - 1], staging, t);
    }
  }

  lemma {:induction false} AfterElsewhere(files: Tree, incoming: Tree, plan: seq<Planned>, t: wstring)
    requires NotATarget(plan, t)
    ensures Same(After(files, incoming, plan), files, t)
    decreases |plan|
  {
    if |plan| > 0 {
      AfterElsewhere(files, incoming, plan[..|plan| - 1], t);
    }
  }

  /** With distinct targets, each file of the plan ends as the plan says. */
  lemma {:induction false} AfterAt(files: Tree, incoming: Tree, plan: seq<Planned>, k: nat)
    requires DistinctTargets(plan) && k < |plan|
    ensures var t := plan[k].target; var tree := After(files, incoming, plan);
      && (plan[k].op.Delete? ==> t !in tree)
      && (!plan[k].op.Delete? && t in incoming ==> t in tree && tree[t] == incoming[t])
    decreases |plan|
  {
    if k < |plan| - 1 {
      var init := plan[..|plan| - 1];
      assert init[k] == plan[k];
      AfterAt(files, incoming, init, k);
    }
  }

  lemma AfterStep(files: Tree, incoming: Tree, plan: seq<Planned>, k: nat)
    requires k < |plan|
    ensures After(files, incoming, plan[..k + 1]) ==
      var f := plan[k]; var before := After(files, incoming, plan[..k]);
      if f.op.Delete? then before - {f.target}
      else if f.target in incoming then before[f.target := incoming[f.target]]
      else before
  {
    assert plan[..k + 1][..k] == plan[..k];
  }

  /** What a run of the plan journals for its files. */
  function PlanLog(plan: seq<Planned>, dir: wstring): (rs: seq<Record>) {
    if |plan| == 0 then []
    else
      var before := PlanLog(plan[..|plan| - 1], dir);
      before + StepLog(plan[|plan| - 1], |before|, dir)
  }

  lemma PlanLogStep(plan: seq<Planned>, dir: wstring, k: nat)
    requires k < |plan|
    ensures PlanLog(plan[..k + 1], dir) == PlanLog(plan[..k], dir) + StepLog(plan[k], |PlanLog(plan[..k], dir)|, dir)
  {
    assert plan[..k + 1][..k] == plan[..k];
  }

  /** And for the whole transaction: the files, the registration, the manifest, the end. */
  function FullLog(plan: seq<Planned>, dir: wstring, version: wstring, manifest: Planned): (rs: seq<Record>) {
    var files := PlanLog(plan, dir);
    files + [RegistryRecord(|files|, version)] + StepLog(manifest, |files| + 1, dir) + [CompleteRecord(|files| + 3)]
  }

  lemma {:induction false} PlanLogPrefix(plan: seq<Planned>, dir: wstring, k: nat)
    requires k <= |plan|
    ensures PlanLog(plan[..k], dir) <= PlanLog(plan, dir)
    decreases |plan| - k
  {
    hide StepLog;
    if k == |plan| {
      assert plan[..k] == plan;
    } else {
      PlanLogPrefix(plan, dir, k + 1);
      PlanLogStep(plan, dir, k);
    }
  }

  /** Every log that the run passes through can be held if the whole one can. */
  lemma FullLogHolds(txid: u64, plan: seq<Planned>, dir: wstring, version: wstring, manifest: Planned, rs: seq<Record>)
    requires Loggable(txid, FullLog(plan, dir, version, manifest)) && rs <= FullLog(plan, dir, version, manifest)
    ensures Loggable(txid, rs)
  {
    hide Loggable, FullLog;
    var full := FullLog(plan, dir, version, manifest);
    assert full == rs + full[|rs|..];
    LoggablePrefix(txid, rs, full[|rs|..]);
  }
}
