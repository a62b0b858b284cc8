/** The path rules shared by the install lock, the journal and the engine. */
module Paths {
  import opened Bytes

  const SLASH: wchar := 47
  const BACKSLASH: wchar := 92
  const COLON: wchar := 58
  const DOT: wchar := 46
  const SPACE: wchar := 32

  const MAX_PATH := 260

  function UpperChar(c: wchar): (u: wchar)
    ensures !(97 <= u <= 122)
  {
    if 97 <= c <= 122 then c - 32 else c
  }

  function Upper(w: wstring): (u: wstring)
    ensures |u| == |w|
  {
    seq(|w|, i requires 0 <= i < |w| => UpperChar(w[i]))
  }

  predicate Letter(c: wchar) {
    65 <= c <= 90 || 97 <= c <= 122
  }

  predicate ReservedStem(stem: wstring) {
    || stem == W("CON") || stem == W("PRN") || stem == W("AUX") || stem == W("NUL")
    || stem == W("CONIN$") || stem == W("CONOUT$")
    || (&& |stem| == 4
        && (stem[..3] == W("COM") || stem[..3] == W("LPT"))
        && (49 <= stem[3] <= 57 || stem[3] == 0xb9 || stem[3] == 0xb2 || stem[3] == 0xb3))
  }

  predicate StandardComponent(c: wstring) {
    && |c| > 0
    && c[|c| - 1] != DOT && c[|c| - 1] != SPACE
    && (forall i :: 0 <= i < |c| ==> c[i] >= 32 && c[i] !in W("/:*?\"<>|"))
    && !ReservedStem(Upper(c[..Find(c, DOT)]))
  }

  /** The components after the drive; the last one must not be missing. */
  predicate StandardComponents(rest: wstring)
    decreases |rest|
  {
    if |rest| == 0 then false
    else
      var end := Find(rest, BACKSLASH);
      && StandardComponent(rest[..end])
      && (end == |rest| || StandardComponents(rest[end + 1..]))
  }

  /** An absolute local path below a drive root, in the one accepted spelling. */
  predicate StandardPath(p: wstring) {
    && 4 <= |p| < MAX_PATH
    && p[1] == COLON && p[2] == BACKSLASH && Letter(p[0])
    && StandardComponents(p[3..])
  }

  /** A file with a one-letter name below the root of drive C. */
  lemma ShortPathIsStandard(p: wstring)
    requires |p| == 4 && p[..3] == [67, 58, 92] && 97 <= p[3] <= 122
    ensures StandardPath(p)
  {
    var rest := p[3..];
    assert p[0] == p[..3][0] && p[1] == p[..3][1] && p[2] == p[..3][2];
    assert rest == [p[3]] && p[3] !in W("/:*?\"<>|") && p[3] != BACKSLASH && p[3] != DOT;
    assert Find(rest, BACKSLASH) == 1 && Find(rest, DOT) == 1;
    assert rest[..1] == rest;
    assert |Upper(rest)| == 1;
    assert !ReservedStem(Upper(rest));
    assert StandardComponent(rest);
  }
}
