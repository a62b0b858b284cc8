/** The ownership manifest that lists an installation's files: its byte layout, the
    strict parser and the writer, and what the two agree on. */
module Manifest {
  import opened Bytes
  import opened Paths
  import opened Wrappers
  import Journal
  import Utf8

  const MAGIC: seq<byte> := [90, 90, 84, 88, 77, 65, 78, 49]
  const HEADER_BYTES := 16
  const ENTRY_FIXED := 44
  const MAX_ENTRIES := 4096
  const MAX_PATH_BYTES := 384
  const MAX_BYTES := 0x40_0000

  datatype Entry = Entry(relpath: wstring, size: u64, sha: Journal.Digest)

  // -------------------------------------------------------------- relative paths

  /** The component before i, the place of a slash or the end, is not empty and
      does not end like "." or ".." or in a space. */
  predicate EndsWell(p: wstring, i: nat)
    requires i <= |p|
  {
    i > 0 && p[i - 1] != SLASH && p[i - 1] != DOT && p[i - 1] != SPACE
  }

  predicate PlainChar(c: wchar) {
    c >= 32 && c != BACKSLASH && c != COLON
  }

  predicate PlainChars(w: wstring) {
    forall i :: 0 <= i < |w| ==> PlainChar(w[i])
  }

  ghost predicate RelativePath(p: wstring) {
    && 0 < |p| <= MAX_PATH_BYTES
    && PlainChars(p)
    && (forall i :: 0 <= i <= |p| && (i == |p| || p[i] == SLASH) ==> EndsWell(p, i))
  }

  /** One component: not empty, no dots, no trailing dot or space, plain characters. */
  predicate GoodComponent(c: wstring) {
    && c != [] && c != [DOT] && c != [DOT, DOT]
    && c[|c| - 1] != DOT && c[|c| - 1] != SPACE
    && PlainChars(c)
  }

  /** validRelativePath, component by component. */
  method ValidRelativePath(path: wstring) returns (ok: bool)
    ensures ok <==> RelativePath(path)
  {
    hide GoodComponent, EndsWell, PlainChars;
    if path == [] || |path| > MAX_PATH_BYTES || path[0] == SLASH || path[|path| - 1] == SLASH {
      BadEnds(path);
      return false;
    }
    var begin := 0;
    EmptyIsPlain(path[..0]);
    while true
      invariant 0 <= begin < |path|
      invariant begin > 0 ==> path[begin - 1] == SLASH
      invariant PlainChars(path[..begin])
      invariant forall i :: 0 <= i < begin && path[i] == SLASH ==> EndsWell(path, i)
      decreases |path| - begin
    {
      var end := begin + Find(path[begin..], SLASH);
      var component := path[begin..end];
      Component(path, begin, end);
      if !GoodComponent(component) {
        return false;
      }
      if end == |path| {
        assert path[..end] == path;
        return true;
      }
      begin := end + 1;
    }
  }

  lemma EmptyIsPlain(w: wstring)
    requires w == []
    ensures PlainChars(w)
  {
  }

  lemma BadEnds(path: wstring)
    requires path == [] || |path| > MAX_PATH_BYTES || path[0] == SLASH || path[|path| - 1] == SLASH
    ensures !RelativePath(path)
  {
    hide PlainChars;
    assert path != [] ==> !EndsWell(path, 0) && (path[|path| - 1] == SLASH ==> !EndsWell(path, |path|));
  }

  /** The component between two slashes, seen from inside and from outside. */
  lemma Component(path: wstring, begin: nat, end: nat)
    requires begin < |path| && end == begin + Find(path[begin..], SLASH)
    requires begin > 0 ==> path[begin - 1] == SLASH
    requires PlainChars(path[..begin])
    ensures begin <= end <= |path| && (end < |path| ==> path[end] == SLASH)
    ensures forall i :: begin <= i < end ==> path[i] != SLASH
    ensures GoodComponent(path[begin..end]) ==> EndsWell(path, end) && PlainChars(path[..end])
    ensures GoodComponent(path[begin..end]) && end < |path| ==> PlainChars(path[..end + 1])
    ensures !GoodComponent(path[begin..end]) ==> !EndsWell(path, end) || !PlainChars(path)
  {
    hide PlainChars, EndsWell, GoodComponent;
    var c := path[begin..end];
    assert c == path[begin..][..end - begin];
    assert SLASH !in c;
    forall i | begin <= i < end
      ensures path[i] != SLASH
    {
      assert c[i - begin] == path[i];
    }
    ComponentEnd(path, begin, end);
    assert path[..end] == path[..begin] + c;
    PlainJoined(path[..begin], c);
    if end < |path| {
      assert path[..end + 1] == path[..end] + [SLASH];
      PlainJoined(path[..end], [SLASH]);
      SlashIsPlain();
    }
    assert path == path[..end] + path[end..];
    PlainJoined(path[..end], path[end..]);
  }

  lemma SlashIsPlain()
    ensures PlainChars([SLASH])
  {
  }

  lemma PlainJoined(a: wstring, b: wstring)
    ensures PlainChars(a + b) <==> PlainChars(a) && PlainChars(b)
  {
    var w := a + b;
    assert forall i :: 0 <= i < |a| ==> w[i] == a[i];
    assert forall i :: 0 <= i < |b| ==> w[|a| + i] == b[i];
  }

  lemma ComponentEnd(path: wstring, begin: nat, end: nat)
    requires begin <= end <= |path| && begin < |path| && (begin > 0 ==> path[begin - 1] == SLASH)
    requires SLASH !in path[begin..end]
    ensures GoodComponent(path[begin..end]) <==> EndsWell(path, end) && PlainChars(path[begin..end])
  {
    hide PlainChars;
    var c := path[begin..end];
    if c != [] {
      assert c[|c| - 1] == path[end - 1];
    }
  }

  // ------------------------------------------------------------------ the layout

  function EntryBytes(e: Entry): (s: seq<byte>) {
    var u := Utf8.Encoded(e.relpath);
    Put32(|u| % 0x1_0000_0000) + Put64(e.size) + e.sha + u
  }

  function Entries(es: seq<Entry>): (s: seq<byte>) {
    if es == [] then [] else EntryBytes(es[0]) + Entries(es[1..])
  }

  function Front(count: u32): (s: seq<byte>)
    ensures |s| == HEADER_BYTES
  {
    MAGIC + Put32(1) + Put32(count)
  }

  function ManifestBytes(es: seq<Entry>): (s: seq<byte>) {
    Front(|es| % 0x1_0000_0000) + Entries(es)
  }

  /** A safe path whose encoding is short enough. */
  ghost predicate EntryFits(e: Entry) {
    RelativePath(e.relpath) && 0 < |Utf8.Encoded(e.relpath)| <= MAX_PATH_BYTES
  }

  /** No two paths are the same up to ASCII case. */
  ghost predicate DistinctKeys(es: seq<Entry>) {
    forall i, j :: 0 <= i < j < |es| ==> Upper(es[i].relpath) != Upper(es[j].relpath)
  }

  /** What the writer accepts. */
  ghost predicate Writable(es: seq<Entry>) {
    && |es| <= MAX_ENTRIES
    && (forall i :: 0 <= i < |es| ==> EntryFits(es[i]))
    && DistinctKeys(es)
    && |ManifestBytes(es)| <= MAX_BYTES
  }

  ghost predicate WellFormedPaths(es: seq<Entry>) {
    forall i :: 0 <= i < |es| ==> Utf8.WellFormed(es[i].relpath)
  }

  /** bytes is the manifest of exactly these entries. */
  ghost predicate IsManifest(bytes: seq<byte>, es: seq<Entry>) {
    Writable(es) && WellFormedPaths(es) && bytes == ManifestBytes(es)
  }

  // ------------------------------------------------------------- reading an entry

  /** The entry at the front of s, when its path is short enough and real UTF-8. */
  ghost function GetEntry(s: seq<byte>): (e: Option<Entry>) {
    if |s| < ENTRY_FIXED then None
    else GetPath(Get32(s[..4]), Get64(s[4..12]), s[12..44], s[44..])
  }

  ghost function GetPath(n: nat, size: u64, sha: Journal.Digest, tail: seq<byte>): (e: Option<Entry>) {
    if n == 0 || n > MAX_PATH_BYTES || n > |tail| || !Utf8.Utf8Octets(tail[..n]) then None
    else Some(Entry(Utf8.Wide(tail[..n]), size, sha))
  }

  lemma EntrySlices(a: seq<byte>, b: seq<byte>, c: seq<byte>, d: seq<byte>, rest: seq<byte>)
    requires |a| == 4 && |b| == 8 && |c| == 32
    ensures var s := a + b + c + d + rest;
      && s[..4] == a && s[4..12] == b && s[12..44] == c && s[44..] == d + rest
  {
  }

  /** A written entry reads back as itself exactly when its path is well formed. */
  lemma GetPutEntry(e: Entry, rest: seq<byte>)
    requires 0 < |Utf8.Encoded(e.relpath)| <= MAX_PATH_BYTES
    ensures Utf8.WellFormed(e.relpath) ==> GetEntry(EntryBytes(e) + rest) == Some(e)
    ensures !Utf8.WellFormed(e.relpath) ==> GetEntry(EntryBytes(e) + rest) == None
  {
    hide Utf8.Encoded, Utf8.Utf8Octets, Utf8.Wide, Utf8.WellFormed, Get32, Get64, GetPath, Put32, Put64;
    var u := Utf8.Encoded(e.relpath);
    EntrySlices(Put32(|u|), Put64(e.size), e.sha, u, rest);
    GetPutPath(e, rest);
  }

  lemma GetPutPath(e: Entry, rest: seq<byte>)
    requires 0 < |Utf8.Encoded(e.relpath)| <= MAX_PATH_BYTES
    ensures var u := Utf8.Encoded(e.relpath);
      GetPath(|u|, e.size, e.sha, u + rest) == if Utf8.WellFormed(e.relpath) then Some(e) else None
  {
    hide Utf8.Encoded, Utf8.Utf8Octets, Utf8.Wide, Utf8.WellFormed;
    Utf8.DecodeEncode(e.relpath);
    var u := Utf8.Encoded(e.relpath);
    assert (u + rest)[..|u|] == u;
  }

  /** Whatever reads as an entry is exactly what writing that entry gives. */
  lemma PutGetEntry(s: seq<byte>)
    requires GetEntry(s).Some?
    ensures var e := GetEntry(s).value;
      && Utf8.WellFormed(e.relpath) && 0 < |Utf8.Encoded(e.relpath)| <= MAX_PATH_BYTES
      && |EntryBytes(e)| <= |s| && s == EntryBytes(e) + s[|EntryBytes(e)|..]
  {
    hide Utf8.Encoded, Utf8.Utf8Octets, Utf8.Wide, Utf8.WellFormed, Get32, Get64, Put32, Put64;
    var n: nat := Get32(s[..4]);
    PutGet32(s[..4]); PutGet64(s[4..12]);
    Utf8.EncodeDecode(s[44..][..n]);
    Reassemble(s, n);
  }

  lemma Reassemble(s: seq<byte>, n: nat)
    requires 44 + n <= |s|
    ensures s == s[..4] + s[4..12] + s[12..44] + s[44..][..n] + s[44 + n..]
  {
  }

  lemma {:induction false} EntriesSnoc(es: seq<Entry>, e: Entry)
    ensures Entries(es + [e]) == Entries(es) + EntryBytes(e)
  {
    hide EntryBytes;
    if es == [] {
      assert [e][1..] == [];
    } else {
      assert (es + [e])[1..] == es[1..] + [e];
      EntriesSnoc(es[1..], e);
    }
  }

  ghost predicate Readable(es: seq<Entry>) {
    forall i :: 0 <= i < |es| ==> 0 < |Utf8.Encoded(es[i].relpath)| <= MAX_PATH_BYTES && Utf8.WellFormed(es[i].relpath)
  }

  /** Entries read in order from the front of a list of entries are its first ones. */
  lemma {:induction false} EntriesPrefix(ps: seq<Entry>, rest: seq<byte>, es: seq<Entry>)
    requires Readable(ps) && Readable(es) && |ps| <= |es| && Entries(ps) + rest == Entries(es)
    ensures ps <= es && rest == Entries(es[|ps|..])
    decreases |ps|
  {
    hide EntryBytes, GetEntry, Utf8.Encoded, Utf8.WellFormed;
    if ps == [] {
      assert es[0..] == es;
    } else {
      var tail, tail' := Entries(ps[1..]) + rest, Entries(es[1..]);
      assert EntryBytes(ps[0]) + tail == Entries(ps) + rest;
      GetPutEntry(ps[0], tail);
      GetPutEntry(es[0], tail');
      assert ps[0] == es[0];
      var front := EntryBytes(ps[0]);
      assert tail == (front + tail)[|front|..] && tail' == (front + tail')[|front|..];
      EntriesPrefix(ps[1..], rest, es[1..]);
      assert es[1..][|ps[1..]|..] == es[|ps|..];
      assert ps == [ps[0]] + ps[1..] && es == [es[0]] + es[1..];
    }
  }

  /** The bytes of a manifest determine its entries. */
  lemma ManifestUnique(bytes: seq<byte>, es: seq<Entry>, es': seq<Entry>)
    requires IsManifest(bytes, es) && IsManifest(bytes, es')
    ensures es == es'
  {
    hide Entries, Front;
    SameCount(es, bytes);
    SameCount(es', bytes);
    assert Entries(es) == bytes[HEADER_BYTES..] == Entries(es');
    assert Entries(es) + [] == Entries(es');
    EntriesPrefix(es, [], es');
  }

  lemma FrontSlices(a: seq<byte>, b: seq<byte>, c: seq<byte>, rest: seq<byte>)
    requires |a| == 8 && |b| == |c| == 4
    ensures var s := a + b + c + rest; s[..8] == a && s[8..12] == b && s[12..16] == c && s[16..] == rest
  {
  }

  lemma FrontFields(count: u32, rest: seq<byte>)
    ensures var s := Front(count) + rest;
      && s[..8] == MAGIC && Get32(s[8..12]) == 1 && Get32(s[12..16]) == count && s[HEADER_BYTES..] == rest
  {
    hide Get32, Put32;
    var magic := MAGIC;
    FrontSlices(magic, Put32(1), Put32(count), rest);
  }

  /** The magic, the version and the number of entries. */
  lemma FrontLayout(count: u32)
    ensures var s := Front(count);
      && s[..8] == [0x5a, 0x5a, 0x54, 0x58, 0x4d, 0x41, 0x4e, 0x31] && s[8..12] == [1, 0, 0, 0]
      && (forall k :: 0 <= k < 4 ==> s[12 + k] == Digit(count, k))
  {
    hide Put32, Digit;
    var magic := MAGIC;
    FrontSlices(magic, Put32(1), Put32(count), []);
    assert Front(count) == magic + Put32(1) + Put32(count) + [];
    assert Put32(1) == [1, 0, 0, 0] by { OneAsBytes(); }
    forall k | 0 <= k < 4
      ensures Front(count)[12 + k] == Digit(count, k)
    {
      Put32At(count, k);
      assert Front(count)[12 + k] == Front(count)[12..16][k];
    }
  }

  lemma OneAsBytes()
    ensures Put32(1) == [1, 0, 0, 0]
  {
  }

  lemma EntryParts(a: seq<byte>, b: seq<byte>, c: seq<byte>, d: seq<byte>)
    requires |a| == 4 && |b| == 8 && |c| == 32
    ensures var s := a + b + c + d;
      && (forall k :: 0 <= k < 4 ==> s[k] == a[k]) && (forall k :: 0 <= k < 8 ==> s[4 + k] == b[k])
      && s[12..44] == c && s[44..] == d
  {
  }

  /** Where every field of an entry is: the length of its path, its size, its digest and
      the path in UTF-8. */
  lemma EntryLayout(e: Entry)
    requires EntryFits(e)
    ensures var s := EntryBytes(e);
      && |s| == ENTRY_FIXED + |Utf8.Encoded(e.relpath)|
      && (forall k :: 0 <= k < 4 ==> s[k] == Digit(|Utf8.Encoded(e.relpath)|, k))
      && (forall k :: 0 <= k < 8 ==> s[4 + k] == Digit(e.size, k))
      && s[12..44] == e.sha && s[44..] == Utf8.Encoded(e.relpath)
  {
    hide Put32, Put64, Digit, Utf8.Encoded, RelativePath;
    var u := Utf8.Encoded(e.relpath);
    EntryParts(Put32(|u|), Put64(e.size), e.sha, u);
    forall k | 0 <= k < 4
      ensures Put32(|u|)[k] == Digit(|u|, k)
    {
      Put32At(|u|, k);
    }
    forall k | 0 <= k < 8
      ensures Put64(e.size)[k] == Digit(e.size, k)
    {
      Put64At(e.size, k);
    }
  }

  lemma SameCount(es: seq<Entry>, bytes: seq<byte>)
    requires |es| <= MAX_ENTRIES && bytes == ManifestBytes(es)
    ensures |bytes| >= HEADER_BYTES && Get32(bytes[12..16]) == |es| && bytes[HEADER_BYTES..] == Entries(es)
    ensures bytes[..8] == MAGIC && Get32(bytes[8..12]) == 1
  {
    hide Entries, Front, Get32;
    FrontFields(|es|, Entries(es));
  }

  lemma FrontRead(bytes: seq<byte>)
    requires |bytes| >= HEADER_BYTES && bytes[..8] == MAGIC && Get32(bytes[8..12]) == 1
    ensures bytes == Front(Get32(bytes[12..16])) + bytes[HEADER_BYTES..]
  {
    PutGet32(bytes[8..12]); PutGet32(bytes[12..16]);
    assert bytes == bytes[..8] + bytes[8..12] + bytes[12..16] + bytes[16..];
  }

  // -------------------------------------------------------------------- the parser

  datatype ManifestError = Unreadable | TooLarge | BadFormat | UnsafePath

  datatype Parse = Parsed(entries: seq<Entry>) | Refused(error: ManifestError)

  /** One entry from at: the checks of the parsing loop up to the path's spelling. */
  method ReadEntry(bytes: seq<byte>, at: nat) returns (e: Option<Entry>, error: ManifestError)
    requires at <= |bytes|
    ensures e.Some? <==> GetEntry(bytes[at..]).Some? && RelativePath(GetEntry(bytes[at..]).value.relpath)
    ensures e.Some? ==> e == GetEntry(bytes[at..])
    ensures error.BadFormat? || error.UnsafePath?
  {
    hide Utf8.Utf8Octets, Utf8.Wide, Get32, Get64, RelativePath;
    ghost var s := bytes[at..];
    if |bytes| - at < 4 {
      return None, BadFormat;
    }
    assert bytes[at..at + 4] == s[..4];
    var pathBytes := Get32(bytes[at..at + 4]);
    if pathBytes == 0 || pathBytes > MAX_PATH_BYTES {
      return None, UnsafePath;
    }
    if |bytes| - at < 12 {
      return None, BadFormat;
    }
    assert bytes[at + 4..at + 12] == s[4..12];
    var size := Get64(bytes[at + 4..at + 12]);
    if |bytes| - at - 12 < 32 + pathBytes {
      return None, BadFormat;
    }
    assert bytes[at + 12..at + 44] == s[12..44] && bytes[at + 44..at + 44 + pathBytes] == s[44..][..pathBytes];
    var relpath := Utf8.Decode(bytes[at + 44..at + 44 + pathBytes]);
    if relpath.None? {
      return None, UnsafePath;
    }
    var valid := ValidRelativePath(relpath.value);
    if !valid {
      return None, UnsafePath;
    }
    return Some(Entry(relpath.value, size, bytes[at + 12..at + 44])), BadFormat;
  }

  /** What the parsing loop knows after the entries before at. */
  ghost predicate Reading(bytes: seq<byte>, count: nat, at: nat, parsed: seq<Entry>) {
    && at <= |bytes| <= MAX_BYTES && |parsed| <= count <= MAX_ENTRIES
    && bytes == Front(count) + Entries(parsed) + bytes[at..]
    && (forall i :: 0 <= i < |parsed| ==> EntryFits(parsed[i]))
    && DistinctKeys(parsed) && WellFormedPaths(parsed)
  }

  /** parseManifestFile on the content of the file, None when it cannot be read:
      the entries of a manifest, and a refusal of everything that is not one. */
  method ParseManifest(file: Option<seq<byte>>) returns (r: Parse)
    ensures r.Parsed? ==> file.Some? && IsManifest(file.value, r.entries)
    ensures r.Refused? && file.Some? ==> forall es :: !IsManifest(file.value, es)
    ensures r == Refused(Unreadable) <==> file.None?
    ensures r == Refused(TooLarge) <==> file.Some? && |file.value| > MAX_BYTES
  {
    hide GetEntry, EntryFits, Front, Entries;
    if file.None? {
      return Refused(Unreadable);
    }
    var bytes := file.value;
    if |bytes| > MAX_BYTES {
      return Refused(TooLarge);
    }
    if |bytes| < HEADER_BYTES {
      return Refused(BadFormat);
    }
    forall es: seq<Entry> | IsManifest(bytes, es)
      ensures bytes[..8] == MAGIC && Get32(bytes[8..12]) == 1 && Get32(bytes[12..16]) == |es| <= MAX_ENTRIES
    {
      SameCount(es, bytes);
    }
    if bytes[..8] != MAGIC || Get32(bytes[8..12]) != 1 || Get32(bytes[12..16]) > MAX_ENTRIES {
      return Refused(BadFormat);
    }
    FrontRead(bytes);
    r := ReadEntries(bytes, Get32(bytes[12..16]));
  }

  /** The parsing loop and the test that nothing is left. */
  method ReadEntries(bytes: seq<byte>, count: nat) returns (r: Parse)
    requires HEADER_BYTES <= |bytes| <= MAX_BYTES && count <= MAX_ENTRIES
    requires bytes == Front(count) + bytes[HEADER_BYTES..]
    ensures r.Parsed? ==> IsManifest(bytes, r.entries)
    ensures r.Refused? ==> r.error.BadFormat? || r.error.UnsafePath?
    ensures r.Refused? ==> forall es :: IsManifest(bytes, es) ==> |es| != count
  {
    hide GetEntry, EntryFits, Front, Entries, EntryBytes, Upper, Utf8.WellFormed, IsManifest, Reading;
    var parsed: seq<Entry>, seen: set<wstring>, at: nat, i := [], {}, HEADER_BYTES, 0;
    ReadingStarts(bytes, count);
    while i < count
      invariant i == |parsed| <= count && at <= |bytes| && Reading(bytes, count, at, parsed)
      invariant seen == set k | 0 <= k < |parsed| :: Upper(parsed[k].relpath)
    {
      var e, error := ReadEntry(bytes, at);
      if e.None? {
        EntryRefused(bytes, count, at, parsed);
        return Refused(error);
      }
      if Upper(e.value.relpath) in seen {
        KeyRefused(bytes, count, at, parsed, e.value);
        return Refused(UnsafePath);
      }
      AcceptEntry(bytes, count, at, parsed, e.value);
      SeenGrows(parsed, e.value);
      seen := seen + {Upper(e.value.relpath)};
      at := at + |EntryBytes(e.value)|;
      parsed := parsed + [e.value];
      i := i + 1;
    }
    if at != |bytes| {
      forall es: seq<Entry> | IsManifest(bytes, es) ensures |es| != count {
        if |es| == count {
          NothingLeft(bytes, count, at, parsed, es);
        }
      }
      return Refused(BadFormat);
    }
    ReadingEnds(bytes, count, parsed);
    return Parsed(parsed);
  }

  lemma ReadingStarts(bytes: seq<byte>, count: nat)
    requires HEADER_BYTES <= |bytes| <= MAX_BYTES && count <= MAX_ENTRIES
    requires bytes == Front(count) + bytes[HEADER_BYTES..]
    ensures Reading(bytes, count, HEADER_BYTES, [])
  {
    assert Entries([]) == [] && Front(count) + [] == Front(count);
  }

  lemma ReadingEnds(bytes: seq<byte>, count: nat, parsed: seq<Entry>)
    requires Reading(bytes, count, |bytes|, parsed) && |parsed| == count
    ensures IsManifest(bytes, parsed)
  {
    hide Front, Entries, EntryFits;
    assert bytes[|bytes|..] == [];
  }

  lemma EntryRefused(bytes: seq<byte>, count: nat, at: nat, parsed: seq<Entry>)
    requires Reading(bytes, count, at, parsed) && |parsed| < count && at <= |bytes|
    requires GetEntry(bytes[at..]).Some? ==> !RelativePath(GetEntry(bytes[at..]).value.relpath)
    ensures forall es :: IsManifest(bytes, es) ==> |es| != count
  {
    hide GetEntry, RelativePath, Reading, IsManifest;
    forall es: seq<Entry> | IsManifest(bytes, es) ensures |es| != count {
      if |es| == count {
        ManifestStep(bytes, count, at, parsed, es);
      }
    }
  }

  lemma KeyRefused(bytes: seq<byte>, count: nat, at: nat, parsed: seq<Entry>, e: Entry)
    requires Reading(bytes, count, at, parsed) && |parsed| < count && at <= |bytes|
    requires GetEntry(bytes[at..]) == Some(e)
    requires exists k :: 0 <= k < |parsed| && Upper(parsed[k].relpath) == Upper(e.relpath)
    ensures forall es :: IsManifest(bytes, es) ==> |es| != count
  {
    hide GetEntry, Reading, EntryFits, Entries, Front, Utf8.WellFormed, Upper;
    forall es: seq<Entry> | IsManifest(bytes, es) ensures |es| != count {
      if |es| == count {
        ManifestStep(bytes, count, at, parsed, es);
      }
    }
  }

  lemma EntriesNone()
    ensures Entries([]) == []
  {
  }

  lemma SeenGrows(es: seq<Entry>, e: Entry)
    ensures (set k | 0 <= k < |es + [e]| :: Upper((es + [e])[k].relpath))
         == (set k | 0 <= k < |es| :: Upper(es[k].relpath)) + {Upper(e.relpath)}
  {
    var all := es + [e];
    assert all[|es|] == e && forall k :: 0 <= k < |es| ==> all[k] == es[k];
  }

  lemma ReadableManifest(bytes: seq<byte>, es: seq<Entry>)
    requires IsManifest(bytes, es)
    ensures Readable(es)
  {
    hide Utf8.Encoded, Utf8.WellFormed, RelativePath;
  }

  lemma ReadableSoFar(bytes: seq<byte>, count: nat, at: nat, parsed: seq<Entry>)
    requires Reading(bytes, count, at, parsed)
    ensures Readable(parsed)
  {
    hide Utf8.Encoded, Utf8.WellFormed, RelativePath;
  }

  lemma RestOf(bytes: seq<byte>, count: nat, at: nat, parsed: seq<Entry>, es: seq<Entry>)
    requires Reading(bytes, count, at, parsed) && IsManifest(bytes, es) && |es| == count
    ensures parsed <= es && bytes[at..] == Entries(es[|parsed|..])
  {
    hide Entries, EntryFits, Utf8.WellFormed;
    ReadableManifest(bytes, es);
    ReadableSoFar(bytes, count, at, parsed);
    SameCount(es, bytes);
    assert Front(count) + Entries(parsed) + bytes[at..] == Front(count) + (Entries(parsed) + bytes[at..]);
    assert bytes[HEADER_BYTES..] == Entries(parsed) + bytes[at..];
    EntriesPrefix(parsed, bytes[at..], es);
  }

  lemma ManifestStep(bytes: seq<byte>, count: nat, at: nat, parsed: seq<Entry>, es: seq<Entry>)
    requires Reading(bytes, count, at, parsed) && |parsed| < count && IsManifest(bytes, es) && |es| == count
    ensures parsed <= es && GetEntry(bytes[at..]) == Some(es[|parsed|]) && EntryFits(es[|parsed|])
  {
    hide GetEntry, EntryBytes, Utf8.WellFormed, RelativePath;
    RestOf(bytes, count, at, parsed, es);
    var rest := es[|parsed|..];
    assert rest[0] == es[|parsed|];
    GetPutEntry(rest[0], Entries(rest[1..]));
  }

  lemma NothingLeft(bytes: seq<byte>, count: nat, at: nat, parsed: seq<Entry>, es: seq<Entry>)
    requires Reading(bytes, count, at, parsed) && |parsed| == count && IsManifest(bytes, es) && |es| == count
    ensures at == |bytes|
  {
    RestOf(bytes, count, at, parsed, es);
    assert es[|parsed|..] == [];
    assert bytes[at..] == [];
  }

  lemma AcceptEntry(bytes: seq<byte>, count: nat, at: nat, parsed: seq<Entry>, e: Entry)
    requires Reading(bytes, count, at, parsed) && |parsed| < count
    requires GetEntry(bytes[at..]) == Some(e) && RelativePath(e.relpath)
    requires forall k :: 0 <= k < |parsed| ==> Upper(parsed[k].relpath) != Upper(e.relpath)
    ensures at + |EntryBytes(e)| <= |bytes| && Reading(bytes, count, at + |EntryBytes(e)|, parsed + [e])
  {
    hide GetEntry, EntryBytes, Entries, RelativePath, Utf8.WellFormed, Front;
    PutGetEntry(bytes[at..]);
    EntriesSnoc(parsed, e);
    var next := at + |EntryBytes(e)|;
    assert bytes[at..] == EntryBytes(e) + bytes[next..];
    assert Front(count) + Entries(parsed) + (EntryBytes(e) + bytes[next..])
        == Front(count) + (Entries(parsed) + EntryBytes(e)) + bytes[next..];
  }

  // -------------------------------------------------------------------- the writer

  /** writeManifestFile up to the file itself: exactly the writable lists have bytes. */
  method WriteManifest(entries: seq<Entry>) returns (file: Option<seq<byte>>)
    ensures file.Some? <==> Writable(entries)
    ensures file.Some? ==> file.value == ManifestBytes(entries)
  {
    hide EntryFits, EntryBytes, Entries, Front, Upper;
    if |entries| > MAX_ENTRIES {
      return None;
    }
    var seen, bytes := {}, Front(|entries|);
    EntriesNone();
    assert entries[..0] == [];
    var i := 0;
    while i < |entries|
      invariant 0 <= i <= |entries| && bytes == Front(|entries|) + Entries(entries[..i])
      invariant forall k :: 0 <= k < i ==> EntryFits(entries[k])
      invariant DistinctKeys(entries[..i])
      invariant seen == set k | 0 <= k < i :: Upper(entries[k].relpath)
    {
      var entry := entries[i];
      if Upper(entry.relpath) in seen {
        return None;
      }
      var piece := WriteEntry(entry);
      if piece.None? {
        return None;
      }
      assert entries[..i + 1] == entries[..i] + [entry];
      EntriesSnoc(entries[..i], entry);
      bytes := bytes + piece.value;
      seen := seen + {Upper(entry.relpath)};
      i := i + 1;
    }
    assert entries[..i] == entries;
    if |bytes| > MAX_BYTES {
      return None;
    }
    return Some(bytes);
  }

  /** The bytes of one entry, when its path may be listed. */
  method WriteEntry(entry: Entry) returns (piece: Option<seq<byte>>)
    ensures piece.Some? <==> EntryFits(entry)
    ensures piece.Some? ==> piece.value == EntryBytes(entry)
  {
    hide RelativePath, Utf8.Encoded, Put32, Put64;
    var valid := ValidRelativePath(entry.relpath);
    if !valid {
      return None;
    }
    var utf8 := Utf8.Encode(entry.relpath);
    if utf8 == [] || |utf8| > MAX_PATH_BYTES {
      return None;
    }
    return Some(Put32(|utf8|) + Put64(entry.size) + entry.sha + utf8);
  }

  /** Parsing what was written gives the entries back exactly when every path is
      well-formed UTF-16; otherwise the installation's own parser refuses the file. */
  method WriteThenParse(entries: seq<Entry>) returns (written: Option<seq<byte>>, read: Parse)
    ensures written.Some? <==> Writable(entries)
    ensures written.Some? ==> (read == Parsed(entries) <==> WellFormedPaths(entries))
    ensures written.Some? && !WellFormedPaths(entries) ==> read.Refused?
  {
    hide Writable, WellFormedPaths;
    written := WriteManifest(entries);
    read := ParseManifest(written);
    if written.Some? {
      WrittenReadable(entries, written.value, read);
    }
  }

  /** A file named by one character can be listed, and read back exactly when the
      character is no surrogate. */
  lemma OneCharacter(c: wchar, size: u64, sha: Journal.Digest)
    requires PlainChar(c) && c != SLASH && c != DOT && c != SPACE
    ensures var es := [Entry([c], size, sha)];
      Writable(es) && (WellFormedPaths(es) <==> !(0xd800 <= c <= 0xdfff))
  {
    var e := Entry([c], size, sha);
    assert [c][1..] == [];
    assert Utf8.Encoded([c][1..]) == [] && Utf8.WellFormed([c][1..]);
    assert Utf8.Encoded([c]) == Utf8.CharBytes(c) + [];
    assert EntryFits(e);
    assert Entries([e]) == EntryBytes(e) + Entries([]);
    assert [e][0].relpath == [c];
  }

  lemma NoEntries()
    ensures IsManifest(ManifestBytes([]), [])
  {
  }

  /** A name that the writer takes and the parser refuses. */
  lemma LoneSurrogateWritten()
    ensures var es := [Entry([0xd800], 0, seq(32, i => 0))]; Writable(es) && !WellFormedPaths(es)
  {
    OneCharacter(0xd800, 0, seq(32, i => 0));
  }

  lemma WrittenReadable(entries: seq<Entry>, bytes: seq<byte>, read: Parse)
    requires Writable(entries) && bytes == ManifestBytes(entries)
    requires read.Parsed? ==> IsManifest(bytes, read.entries)
    requires read.Refused? ==> forall es :: !IsManifest(bytes, es)
    ensures WellFormedPaths(entries) ==> read == Parsed(entries)
    ensures !WellFormedPaths(entries) ==> read.Refused?
  {
    hide Writable, ManifestBytes, WellFormedPaths;
    if WellFormedPaths(entries) {
      assert IsManifest(bytes, entries);
      ManifestUnique(bytes, entries, read.entries);
    } else if read.Parsed? {
      LoneSurrogateRefused(entries, read.entries);
    }
  }

  /** No list of well-formed paths has the bytes of a list with an ill-formed one. */
  lemma LoneSurrogateRefused(entries: seq<Entry>, es: seq<Entry>)
    requires Writable(entries) && !WellFormedPaths(entries)
    requires Writable(es) && WellFormedPaths(es)
    ensures ManifestBytes(entries) != ManifestBytes(es)
  {
    hide Entries, EntryFits, Utf8.WellFormed;
    if ManifestBytes(entries) == ManifestBytes(es) {
      var bytes := ManifestBytes(es);
      SameCount(entries, bytes);
      SameCount(es, bytes);
      EntriesTell(entries, es);
    }
  }

  lemma {:induction false} EntriesTell(entries: seq<Entry>, es: seq<Entry>)
    requires |entries| == |es| && Entries(entries) == Entries(es) && WellFormedPaths(es)
    requires forall i :: 0 <= i < |es| ==> EntryFits(es[i]) && EntryFits(entries[i])
    ensures WellFormedPaths(entries)
    decreases |es|
  {
    hide EntryBytes, GetEntry, Utf8.Encoded, Utf8.WellFormed, RelativePath;
    if es != [] {
      var tail, tail' := Entries(entries[1..]), Entries(es[1..]);
      GetPutEntry(entries[0], tail);
      GetPutEntry(es[0], tail');
      assert entries[0] == es[0];
      var front := EntryBytes(es[0]);
      assert tail == (front + tail)[|front|..] && tail' == (front + tail')[|front|..];
      EntriesTell(entries[1..], es[1..]);
      assert entries == [entries[0]] + entries[1..];
    }
  }
}
