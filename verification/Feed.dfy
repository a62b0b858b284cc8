/** The update feed: any number of publishers write signed manifests to one branch, each
    on top of the head that it read before it started, without forcing. */
module Feed {
  import opened Wrappers

  // ------------------------------------------------------------------ the versions

  predicate Digit(c: char) {
    '0' <= c <= '9'
  }

  function DigitOf(c: char): (d: nat)
    requires Digit(c)
    ensures d < 10
  {
    c as int - '0' as int
  }

  /** YY.MM.PP with a month from 01 to 12. */
  predicate IsVersion(v: string) {
    && |v| == 8 && v[2] == '.' && v[5] == '.'
    && Digit(v[0]) && Digit(v[1]) && Digit(v[3]) && Digit(v[4]) && Digit(v[6]) && Digit(v[7])
    && ((v[3] == '0' && v[4] != '0') || (v[3] == '1' && v[4] <= '2'))
  }

  /** The number that remains when the dots are taken out. */
  function Joined(v: string): (n: nat)
    requires IsVersion(v)
  {
    100000 * DigitOf(v[0]) + 10000 * DigitOf(v[1]) + 1000 * DigitOf(v[3]) + 100 * DigitOf(v[4])
    + 10 * DigitOf(v[6]) + DigitOf(v[7])
  }

  /** Text order, character by character. */
  predicate TextLess(a: string, b: string) {
    if b == [] then false
    else if a == [] then true
    else a[0] < b[0] || (a[0] == b[0] && TextLess(a[1..], b[1..]))
  }

  lemma TextLessAt(a: string, b: string, n: nat)
    requires n < |a| && n < |b| && a[..n] == b[..n] && a[n] != b[n]
    ensures TextLess(a, b) <==> a[n] < b[n]
    decreases n
  {
    if n > 0 {
      assert a[0] == a[..n][0] && b[0] == b[..n][0];
      assert a[1..][..n - 1] == a[..n][1..] && b[1..][..n - 1] == b[..n][1..];
      TextLessAt(a[1..], b[1..], n - 1);
    }
  }

  lemma TextLessSame(a: string)
    ensures !TextLess(a, a)
  {
  }

  /** For versions, text order is the order of the joined numbers, in both directions. */
  lemma VersionOrder(a: string, b: string)
    requires IsVersion(a) && IsVersion(b)
    ensures TextLess(a, b) <==> Joined(a) < Joined(b)
    ensures a == b <==> Joined(a) == Joined(b)
  {
    hide TextLess;
    if a == b {
      TextLessSame(a);
    } else {
      var n := FirstDifference(a, b);
      TextLessAt(a, b, n);
      JoinedAt(a, b, n);
    }
  }

  lemma FirstDifference(a: string, b: string) returns (n: nat)
    requires |a| == |b| && a != b
    ensures n < |a| && a[..n] == b[..n] && a[n] != b[n]
  {
    n := 0;
    while n < |a| && a[n] == b[n]
      invariant n <= |a| && a[..n] == b[..n]
    {
      n := n + 1;
    }
    assert a[..|a|] == a && b[..|b|] == b;
  }

  lemma JoinedAt(a: string, b: string, n: nat)
    requires IsVersion(a) && IsVersion(b) && n < 8 && a[..n] == b[..n] && a[n] != b[n]
    ensures Joined(a) < Joined(b) <==> a[n] < b[n]
    ensures Joined(a) != Joined(b)
  {
    assert forall i :: 0 <= i < n ==> a[i] == a[..n][i] && b[i] == b[..n][i];
    assert n != 2 && n != 5;
  }

  // ----------------------------------------------------------------- the manifests

  datatype Channel = Stable | Preview

  /** rest stands for every other signed field: artifacts, policy, requirements. */
  datatype Payload = Payload(
    metadataSequence: nat, issuedAt: nat, expiresAt: nat, notes: map<string, string>,
    version: string, releaseSequence: nat, rest: map<string, string>)

  const SEQUENCE_LIMIT := 0x1_0000_0000_0000_0000

  predicate ValidPayload(channel: Channel, p: Payload) {
    && IsVersion(p.version)
    && 1 <= p.metadataSequence < SEQUENCE_LIMIT && 1 <= p.releaseSequence < SEQUENCE_LIMIT
    && (channel.Stable? ==> p.releaseSequence == Joined(p.version))
  }

  /** The fields that a published stable version keeps for good. */
  function Immutable(p: Payload): (fields: (string, nat, map<string, string>)) {
    (p.version, p.releaseSequence, p.rest)
  }

  /** check_progress, as an accepted pair. */
  predicate Progress(previous: Payload, current: Payload, channel: Channel) {
    && current.metadataSequence > previous.metadataSequence
    && !TextLess(current.version, previous.version)
    && current.releaseSequence >= previous.releaseSequence
    && (channel.Stable? && current.version == previous.version ==> Immutable(current) == Immutable(previous))
  }

  /** The relation that survives any number of publications. */
  predicate Later(previous: Payload, current: Payload, channel: Channel) {
    && current.metadataSequence >= previous.metadataSequence
    && JoinedOrZero(current) >= JoinedOrZero(previous)
    && current.releaseSequence >= previous.releaseSequence
    && (channel.Stable? && current.version == previous.version ==> Immutable(current) == Immutable(previous))
    && (current != previous ==> current.metadataSequence > previous.metadataSequence)
  }

  function JoinedOrZero(p: Payload): (n: nat) {
    if IsVersion(p.version) then Joined(p.version) else 0
  }

  /** previous with the corrections of current: sequence, dates and release notes. */
  function Corrected(previous: Payload, current: Payload): (p: Payload) {
    previous.(metadataSequence := current.metadataSequence, issuedAt := current.issuedAt,
              expiresAt := current.expiresAt, notes := current.notes)
  }

  /** A stable manifest may follow another exactly when its sequence number is larger and
      its version later, or the same with nothing but corrections. */
  lemma StableProgress(previous: Payload, current: Payload)
    requires ValidPayload(Stable, previous) && ValidPayload(Stable, current)
    ensures Progress(previous, current, Stable) <==>
      && current.metadataSequence > previous.metadataSequence
      && (Joined(current.version) > Joined(previous.version) || current == Corrected(previous, current))
  {
    hide TextLess, Joined, IsVersion;
    VersionOrder(current.version, previous.version);
    StableSequenceFollowsVersion(previous, current);
  }

  /** For a stable manifest the sequence check is implied by the version check. */
  lemma StableSequenceFollowsVersion(previous: Payload, current: Payload)
    requires ValidPayload(Stable, previous) && ValidPayload(Stable, current)
    ensures current.releaseSequence >= previous.releaseSequence <==> !TextLess(current.version, previous.version)
    ensures current.releaseSequence == previous.releaseSequence <==> current.version == previous.version
  {
    VersionOrder(current.version, previous.version);
  }

  lemma ProgressIsLater(previous: Payload, current: Payload, channel: Channel)
    requires ValidPayload(channel, previous) && ValidPayload(channel, current) && Progress(previous, current, channel)
    ensures Later(previous, current, channel)
  {
    VersionOrder(current.version, previous.version);
  }

  /** Far apart: equal versions at both ends squeeze everything in between. */
  lemma LaterTrans(a: Payload, b: Payload, c: Payload, channel: Channel)
    requires ValidPayload(channel, a) && ValidPayload(channel, b) && ValidPayload(channel, c)
    requires Later(a, b, channel) && Later(b, c, channel)
    ensures Later(a, c, channel)
  {
    VersionOrder(a.version, b.version);
    VersionOrder(b.version, c.version);
  }

  // ------------------------------------------------------------------- the branch

  type Files = map<Channel, Payload>

  datatype Commit = Commit(parent: Option<nat>, files: Files)

  /** A commit changes one channel, and that one only forward. */
  ghost predicate CommitOk(commits: seq<Commit>, i: nat)
    requires i < |commits|
  {
    && (forall ch :: ch in commits[i].files ==> ValidPayload(ch, commits[i].files[ch]))
    && (commits[i].parent.Some? ==>
          && commits[i].parent.value < i
          && Advances(commits[commits[i].parent.value].files, commits[i].files))
  }

  ghost predicate Advances(before: Files, after: Files) {
    exists ch, p :: Publishes(before, after, ch, p)
  }

  ghost predicate Publishes(before: Files, after: Files, ch: Channel, p: Payload) {
    after == before[ch := p] && (ch in before ==> Progress(before[ch], p, ch))
  }

  /** The remote repository: commits are only added, the branch only moves forward. */
  class Remote {
    var commits: seq<Commit>
    var head: Option<nat>
    ghost var heads: seq<nat> // every commit that has been the head, in order

    ghost predicate Valid()
      reads this
    {
      && (forall i :: 0 <= i < |commits| ==> CommitOk(commits, i))
      && (forall k :: 0 <= k < |heads| ==> heads[k] < |commits|)
      && (forall k :: 0 < k < |heads| ==> commits[heads[k]].parent == Some(heads[k - 1]))
      && head == (if heads == [] then None else Some(heads[|heads| - 1]))
    }

    constructor ()
      ensures Valid() && head == None && heads == [] && commits == []
    {
      commits, head, heads := [], None, [];
    }

    predicate Ancestor(a: nat, b: nat)
      requires b < |commits|
      reads this
      decreases b
    {
      a == b || (commits[b].parent.Some? && commits[b].parent.value < b && Ancestor(a, commits[b].parent.value))
    }

    lemma AncestorIsOlder(a: nat, b: nat)
      requires b < |commits| && Ancestor(a, b)
      ensures a <= b
      decreases b
    {
    }

    lemma {:induction false} HeadsGrow(j: nat, k: nat)
      requires Valid() && j <= k < |heads|
      ensures heads[j] <= heads[k] && (j < k ==> heads[j] < heads[k])
      decreases k
    {
      if j < k {
        HeadsGrow(j, k - 1);
        assert CommitOk(commits, heads[k]);
      }
    }

    method AddCommit(c: Commit) returns (id: nat)
      requires Valid() && CommitOk(commits + [c], |commits|)
      modifies this`commits
      ensures Valid() && id == |old(commits)| && commits == old(commits) + [c]
    {
      hide CommitOk;
      id := |commits|;
      ghost var before := commits;
      commits := commits + [c];
      forall i | 0 <= i < |commits|
        ensures CommitOk(commits, i)
      {
        if i < |before| {
          CommitStays(before, c, i);
        }
      }
    }

    /** POST git/refs: only when there is no such branch. */
    method CreateRef(id: nat) returns (ok: bool)
      requires Valid() && id < |commits|
      modifies this`head, this`heads
      ensures Valid() && (ok <==> old(head).None?)
      ensures heads == if ok then [id] else old(heads)
    {
      ok := head.None?;
      if ok {
        head, heads := Some(id), [id];
      }
    }

    /** PATCH without force: only a fast-forward. On top of what was a head once, that
        means on top of what is the head now. */
    method UpdateRef(id: nat, baseline: nat) returns (ok: bool)
      requires Valid() && id < |commits| && commits[id].parent == Some(baseline) && baseline in heads && id !in heads
      modifies this`head, this`heads
      ensures Valid()
      ensures ok <==> old(head) == Some(baseline)
      ensures heads == if ok then old(heads) + [id] else old(heads)
    {
      assert heads != [];
      ok := Ancestor(head.value, id);
      FastForward(id, baseline);
      if ok {
        heads := heads + [id];
        head := Some(id);
      }
    }

    lemma FastForward(id: nat, baseline: nat)
      requires Valid() && id < |commits| && commits[id].parent == Some(baseline) && baseline in heads && id !in heads
      ensures Ancestor(heads[|heads| - 1], id) <==> heads[|heads| - 1] == baseline
    {
      var k :| 0 <= k < |heads| && heads[k] == baseline;
      HeadsGrow(k, |heads| - 1);
      assert CommitOk(commits, id);
      if Ancestor(heads[|heads| - 1], id) {
        AncestorIsOlder(heads[|heads| - 1], baseline);
      }
    }

    /** Along the branch history, in either channel and over any distance. */
    lemma {:induction false} HistoryIsOrdered(j: nat, k: nat, ch: Channel)
      requires Valid() && j <= k < |heads| && ch in commits[heads[j]].files
      ensures ch in commits[heads[k]].files
      ensures ValidPayload(ch, commits[heads[j]].files[ch]) && ValidPayload(ch, commits[heads[k]].files[ch])
      ensures Later(commits[heads[j]].files[ch], commits[heads[k]].files[ch], ch)
      decreases k
    {
      hide ValidPayload, Later, Progress;
      assert CommitOk(commits, heads[j]) && CommitOk(commits, heads[k]);
      if j == k {
        LaterSame(commits[heads[j]].files[ch], ch);
      } else {
        HistoryIsOrdered(j, k - 1, ch);
        var a, b, c := commits[heads[j]].files[ch], commits[heads[k - 1]].files, commits[heads[k]].files;
        assert Advances(b, c);
        var x, p :| Publishes(b, c, x, p);
        if x == ch {
          ProgressIsLater(b[ch], c[ch], ch);
        } else {
          LaterSame(b[ch], ch);
        }
        LaterTrans(a, b[ch], c[ch], ch);
      }
    }

    /** Two stable manifests of one version, however far apart, agree on everything
        that is not volatile. */
    lemma SameVersionSameContents(j: nat, k: nat)
      requires Valid() && j <= k < |heads| && Stable in commits[heads[j]].files
      ensures Stable in commits[heads[k]].files
      ensures var a, b := commits[heads[j]].files[Stable], commits[heads[k]].files[Stable];
        && (a.version == b.version ==> Immutable(a) == Immutable(b) && b == Corrected(a, b))
        && !TextLess(b.version, a.version) && b.metadataSequence >= a.metadataSequence
    {
      hide TextLess;
      HistoryIsOrdered(j, k, Stable);
      var a, b := commits[heads[j]].files[Stable], commits[heads[k]].files[Stable];
      VersionOrder(b.version, a.version);
    }
  }

  lemma LaterSame(p: Payload, ch: Channel)
    ensures Later(p, p, ch)
  {
  }

  lemma CommitStays(commits: seq<Commit>, c: Commit, i: nat)
    requires i < |commits| && CommitOk(commits, i)
    ensures CommitOk(commits + [c], i)
  {
  }

  // ---------------------------------------------------------------- a publication

  /** One run of the publisher: it reads, takes its time, and stores. */
  class Publisher {
    const channel: Channel
    var baseline: Option<nat>
    var previous: Option<Payload>

    constructor (channel: Channel)
      ensures this.channel == channel && baseline == None && previous == None
    {
      this.channel := channel;
      baseline, previous := None, None;
    }

    /** What was read stays true of the commits, whatever others do meanwhile. */
    ghost predicate Captured(commits: seq<Commit>, heads: seq<nat>)
      reads this
    {
      baseline.Some? ==>
        && baseline.value in heads && baseline.value < |commits|
        && previous == (if channel in commits[baseline.value].files
                        then Some(commits[baseline.value].files[channel]) else None)
    }

    lemma CapturedStays(commits: seq<Commit>, heads: seq<nat>, commits': seq<Commit>, heads': seq<nat>)
      requires Captured(commits, heads) && commits <= commits' && heads <= heads'
      ensures Captured(commits', heads')
    {
    }

    /** The head is read first; the manifest is then read at that commit, or, when
        there was no branch, at whatever the branch is by then. */
    method CaptureHead(r: Remote)
      requires r.Valid()
      modifies this`baseline
      ensures baseline == r.head && (baseline.Some? ==> baseline.value in r.heads)
    {
      baseline := r.head;
    }

    method ReadPrevious(r: Remote)
      requires r.Valid() && (baseline.Some? ==> baseline.value in r.heads)
      modifies this`previous
      ensures Captured(r.commits, r.heads)
    {
      previous := None;
      var reference := if baseline.Some? then baseline else r.head;
      if reference.Some? && channel in r.commits[reference.value].files {
        previous := Some(r.commits[reference.value].files[channel]);
      }
    }

    /** Checks progress and stores. The branch moves only if it is still where it was. */
    method Store(r: Remote, current: Payload) returns (ok: bool)
      requires r.Valid() && Captured(r.commits, r.heads)
      modifies r
      ensures r.Valid() && old(r.commits) <= r.commits
      ensures !ok ==> r.heads == old(r.heads) && r.head == old(r.head)
      ensures ok <==> ValidPayload(channel, current) && (previous.Some? ==> Progress(previous.value, current, channel))
                      && baseline == old(r.head) && (baseline.None? ==> previous.None?)
      ensures ok ==> r.head.Some? && r.heads == old(r.heads) + [r.head.value]
      ensures ok ==>
        r.commits[r.head.value].files ==
          (if baseline.None? then map[] else old(r.commits)[baseline.value].files)[channel := current]
    {
      hide ValidPayload, Progress, CommitOk;
      if !ValidPayload(channel, current) {
        return false;
      }
      if previous.Some? && !Progress(previous.value, current, channel) {
        return false;
      }
      if baseline.None? {
        if previous.Some? {
          return false; // the branch disappeared after reading the manifest
        }
        RootOk(r.commits, channel, current);
        var id := r.AddCommit(Commit(None, map[channel := current]));
        ok := r.CreateRef(id);
      } else {
        var files := r.commits[baseline.value].files;
        ChildOk(r.commits, baseline.value, channel, current);
        var id := r.AddCommit(Commit(baseline, files[channel := current]));
        ok := r.UpdateRef(id, baseline.value);
      }
    }
  }

  lemma RootOk(commits: seq<Commit>, ch: Channel, p: Payload)
    requires ValidPayload(ch, p)
    ensures CommitOk(commits + [Commit(None, map[ch := p])], |commits|)
  {
    hide ValidPayload;
  }

  lemma ChildOk(commits: seq<Commit>, baseline: nat, ch: Channel, p: Payload)
    requires baseline < |commits| && CommitOk(commits, baseline) && ValidPayload(ch, p)
    requires ch in commits[baseline].files ==> Progress(commits[baseline].files[ch], p, ch)
    ensures CommitOk(commits + [Commit(Some(baseline), commits[baseline].files[ch := p])], |commits|)
  {
    hide ValidPayload, Progress;
    var files := commits[baseline].files;
    assert Publishes(files, files[ch := p], ch, p);
  }
}
