/** The names that a portable package may contain, and when two of them are one file. */
module PortablePaths {
  import opened Bytes

  const MAX_NAME := 220
  const TEMP_PREFIX := ".zzlogg-update-"
  const TEMP_NAME := ".zzlogg-update-new"

  const RESERVED: set<string> := {
    "data", "config", "settings", "session", "sessions", "logs",
    "zzlogg.conf", "zzlogg_session.conf", "zzlogg.ini", "zzlogg_session.ini", "klogg.conf",
    "klogg_session.conf", "storage-manifest.ini", ".zzlogg-update.lock"
  }

  function FoldChar(c: char): (d: char)
    ensures !('A' <= d <= 'Z')
  {
    if 'A' <= c <= 'Z' then c + ' ' else c
  }

  /** Two names are the same file exactly when they fold to one. */
  function Fold(s: string): (f: string)
    ensures |f| == |s|
    ensures forall i :: 0 <= i < |s| ==> f[i] == FoldChar(s[i])
  {
    seq(|s|, i requires 0 <= i < |s| => FoldChar(s[i]))
  }

  predicate SafeChar(c: char) {
    && 32 as char <= c < 127 as char
    && c !in {'\\', ':', '<', '>', '"', '|', '?', '*', '~'}
  }

  predicate DeviceStem(stem: string) {
    || stem in {"con", "prn", "aux", "nul", "conin$", "conout$"}
    || (|stem| == 4 && (stem[..3] == "com" || stem[..3] == "lpt") && '0' <= stem[3] <= '9')
  }

  predicate SafeComponent(c: string) {
    && c != [] && c[|c| - 1] != '.' && c[|c| - 1] != ' '
    && !DeviceStem(c[..Find(c, '.')])
    && !(TEMP_PREFIX <= c)
  }

  /** Every component of a folded name. */
  predicate SafeComponents(lower: string)
    decreases |lower|
  {
    lower == [] ||
    var end := Find(lower, '/');
    SafeComponent(lower[..end]) && (end == |lower| || SafeComponents(lower[end + 1..]))
  }

  predicate Safe(p: string) {
    && 0 < |p| <= MAX_NAME && p[0] != '/' && p[|p| - 1] != '/'
    && (forall i :: 0 <= i < |p| ==> SafeChar(p[i]))
    && Fold(p)[..Find(Fold(p), '/')] !in RESERVED
    && SafeComponents(Fold(p))
  }

  /** safePath, component by component. */
  method SafePath(path: string) returns (ok: bool)
    ensures ok <==> Safe(path)
  {
    hide SafeComponent, RESERVED;
    if path == [] || |path| > MAX_NAME || path[0] == '/' || path[|path| - 1] == '/' {
      return false;
    }
    for i := 0 to |path|
      invariant forall k :: 0 <= k < i ==> SafeChar(path[k])
    {
      if !SafeChar(path[i]) {
        return false;
      }
    }
    var lower := Fold(path);
    if lower[..Find(lower, '/')] in RESERVED {
      return false;
    }
    ok := SafeParts(lower);
  }

  method SafeParts(lower: string) returns (ok: bool)
    ensures ok <==> SafeComponents(lower)
  {
    hide SafeComponent;
    var start := 0;
    assert lower[0..] == lower;
    while start < |lower|
      invariant 0 <= start <= |lower| && SafeComponents(lower) == SafeComponents(lower[start..])
    {
      var rest := lower[start..];
      var end := Find(rest, '/');
      if !SafeComponent(rest[..end]) {
        return false;
      }
      if end == |rest| {
        return true;
      }
      assert rest[end + 1..] == lower[start + end + 1..];
      start := start + end + 1;
    }
    return true;
  }

  /** The directory part of a name, with its slash. */
  function Parent(p: string): (d: string)
    ensures |d| <= |p| && d == p[..|d|]
    ensures d == [] || d[|d| - 1] == '/'
  {
    if p == [] then []
    else if p[|p| - 1] == '/' then p
    else
      assert p[..|p| - 1][..|Parent(p[..|p| - 1])|] == p[..|Parent(p[..|p| - 1])|];
      Parent(p[..|p| - 1])
  }

  /** Where the new content of a file is staged, next to it. */
  function Temporary(p: string): (t: string) {
    Parent(p) + TEMP_NAME
  }

  /** The staging file is never a file that a package may name. */
  lemma TemporaryIsNotSafe(p: string, q: string)
    requires Safe(q)
    ensures Fold(Temporary(p)) != Fold(q)
  {
    hide SafeComponent, RESERVED;
    if Fold(Temporary(p)) == Fold(q) {
      var t, d, tail := Fold(Temporary(p)), Parent(p), Fold(TEMP_NAME);
      TempComponent();
      FoldedTail(d, TEMP_NAME);
      TailComponent(t, |d|, tail);
    }
  }

  lemma FoldedTail(d: string, name: string)
    ensures Fold(d + name)[|d|..] == Fold(name)
    ensures d != [] && d[|d| - 1] == '/' ==> Fold(d + name)[|d| - 1] == '/'
  {
    var f := Fold(d + name);
    assert |f[|d|..]| == |Fold(name)|;
    forall i | 0 <= i < |name|
      ensures f[|d|..][i] == Fold(name)[i]
    {
      assert (d + name)[|d| + i] == name[i];
    }
  }

  lemma TempComponent()
    ensures var name := Fold(TEMP_NAME); name != [] && '/' !in name && !SafeComponent(name)
  {
    var name := TEMP_NAME;
    assert Fold(name) == name;
    assert TEMP_PREFIX <= name;
  }

  /** What follows a slash to the end of a safe name is a component of it. */
  lemma {:induction false} TailComponent(lower: string, at: nat, tail: string)
    requires at < |lower| && (at == 0 || lower[at - 1] == '/') && lower[at..] == tail
    requires '/' !in tail && !SafeComponent(tail)
    ensures !SafeComponents(lower)
    decreases |lower|
  {
    hide SafeComponent;
    var end := Find(lower, '/');
    if at == 0 {
      assert lower == tail && end == |lower|;
      assert lower[..end] == lower;
    } else {
      FindBefore(lower, '/', at - 1);
      assert lower[end + 1..][at - end - 1..] == lower[at..];
      TailComponent(lower[end + 1..], at - end - 1, tail);
    }
  }

  lemma FindBefore(s: string, c: char, k: nat)
    requires k < |s| && s[k] == c
    ensures Find(s, c) <= k
  {
    var found := Find(s, c);
    assert forall i :: 0 <= i < found ==> s[..found][i] == s[i];
  }
}
