/** The check of a portable package's ZIP directory before anything is extracted; the
    record layouts are those of sections 4.3.7, 4.3.12 and 4.3.16 of APPNOTE.TXT. */
module Zip {
  import opened Bytes
  import opened Wrappers
  import opened PortablePaths

  const END_SIGNATURE := 0x06054b50
  const CENTRAL_SIGNATURE := 0x02014b50
  const LOCAL_SIGNATURE := 0x04034b50
  const END_FIXED := 22
  const CENTRAL_FIXED := 46
  const LOCAL_FIXED := 30
  const MAX_TAIL := 65557
  const MAX_CENTRAL := 0x100_0000
  const MAX_ENTRIES := 20000
  const FILE_LIMIT := 0x2000_0000
  const TOTAL_LIMIT := 0x1_0000_0000

  datatype ZipEntry = ZipEntry(name: string, size: u32, compressed: u32, offset: u32, directory: bool)

  function U16(s: seq<byte>, p: nat): (v: u16)
    requires p + 2 <= |s|
  {
    Get16(s[p..p + 2])
  }

  function U32(s: seq<byte>, p: nat): (v: u32)
    requires p + 4 <= |s|
  {
    Get32(s[p..p + 4])
  }

  function Latin1(s: seq<byte>): (t: string)
    ensures |t| == |s|
  {
    seq(|s|, i requires 0 <= i < |s| => s[i] as char)
  }

  // ------------------------------------------------------------ the end of the file

  /** An end-of-directory record at e whose comment reaches to the end of the file. */
  predicate EndAt(file: seq<byte>, e: nat) {
    && e + END_FIXED <= |file| && |file| <= e + MAX_TAIL
    && U32(file, e) == END_SIGNATURE && e + END_FIXED + U16(file, e + 20) == |file|
  }

  ghost predicate LastEnd(file: seq<byte>, e: nat) {
    EndAt(file, e) && forall k: nat :: EndAt(file, k) ==> k <= e
  }

  /** One disk, one directory, right in front of the end record. */
  predicate EndOk(file: seq<byte>, e: nat)
    requires EndAt(file, e)
  {
    && U16(file, e + 4) == 0 && U16(file, e + 6) == 0 && U16(file, e + 8) == U16(file, e + 10)
    && 0 < U16(file, e + 10) < MAX_ENTRIES
    && U32(file, e + 12) <= MAX_CENTRAL && U32(file, e + 16) + U32(file, e + 12) == e
  }

  method FindEnd(file: seq<byte>) returns (e: Option<nat>)
    ensures e.Some? ==> LastEnd(file, e.value)
    ensures e.None? ==> forall k: nat :: !EndAt(file, k)
  {
    hide U16, U32;
    if |file| < END_FIXED {
      return None;
    }
    var tailSize := if |file| < MAX_TAIL then |file| else MAX_TAIL;
    var i: int := tailSize - END_FIXED;
    while i >= 0
      invariant -1 <= i <= tailSize - END_FIXED
      invariant forall k: nat :: EndAt(file, k) ==> k <= |file| - tailSize + i
    {
      var k: nat := |file| - tailSize + i;
      if U32(file, k) == END_SIGNATURE && k + END_FIXED + U16(file, k + 20) == |file| {
        return Some(k);
      }
      i := i - 1;
    }
    return None;
  }

  // ------------------------------------------------------------- the central records

  /** A record whose name, extra field and comment fit into the directory. */
  predicate Fits(c: seq<byte>, p: nat) {
    && p + CENTRAL_FIXED <= |c| && U32(c, p) == CENTRAL_SIGNATURE
    && U16(c, p + 28) > 0 && p + CENTRAL_FIXED + U16(c, p + 28) + U16(c, p + 30) + U16(c, p + 32) <= |c|
  }

  function NextAt(c: seq<byte>, p: nat): (q: nat)
    requires Fits(c, p)
    ensures p + CENTRAL_FIXED < q <= |c|
  {
    p + CENTRAL_FIXED + U16(c, p + 28) + U16(c, p + 30) + U16(c, p + 32)
  }

  function RawName(c: seq<byte>, p: nat): (raw: seq<byte>)
    requires Fits(c, p)
  {
    c[p + CENTRAL_FIXED..p + CENTRAL_FIXED + U16(c, p + 28)]
  }

  function EntryAt(c: seq<byte>, p: nat): (e: ZipEntry)
    requires Fits(c, p)
  {
    var name := Latin1(RawName(c, p));
    ZipEntry(name, U32(c, p + 24), U32(c, p + 20), U32(c, p + 42), name[|name| - 1] == '/')
  }

  /** Which bytes of a record an entry is read from: compressed size, size and offset with
      their low bytes first, and the name after the fixed part. */
  lemma EntryLayout(c: seq<byte>, p: nat)
    requires Fits(c, p)
    ensures var e := EntryAt(c, p);
      && (forall k :: 0 <= k < 4 ==>
            c[p + 20 + k] == Digit(e.compressed, k) && c[p + 24 + k] == Digit(e.size, k)
            && c[p + 42 + k] == Digit(e.offset, k))
      && |e.name| == c[p + 28] as int + 0x100 * c[p + 29] as int
      && (forall k :: 0 <= k < |e.name| ==> e.name[k] as int == c[p + 46 + k])
      && (e.directory <==> e.name[|e.name| - 1] == '/')
  {
    hide Digit, U32;
    U32Bytes(c, p + 20);
    U32Bytes(c, p + 24);
    U32Bytes(c, p + 42);
  }

  lemma U32Bytes(s: seq<byte>, p: nat)
    requires p + 4 <= |s|
    ensures forall k :: 0 <= k < 4 ==> s[p + k] == Digit(U32(s, p), k)
  {
    hide Get32, Digit;
    forall k | 0 <= k < 4
      ensures s[p..p + 4][k] == Digit(U32(s, p), k)
    {
      Get32At(s[p..p + 4], k);
    }
  }

  /** The three signatures as they are in a file. */
  lemma Signatures(s: seq<byte>)
    requires |s| >= 4
    ensures U32(s, 0) == END_SIGNATURE <==> s[..4] == [0x50, 0x4b, 5, 6]
    ensures U32(s, 0) == CENTRAL_SIGNATURE <==> s[..4] == [0x50, 0x4b, 1, 2]
    ensures U32(s, 0) == LOCAL_SIGNATURE <==> s[..4] == [0x50, 0x4b, 3, 4]
  {
    PutGet32(s[0..4]);
    assert s[0..4] == s[..4];
    assert Put32(END_SIGNATURE) == [0x50, 0x4b, 5, 6];
    assert Put32(CENTRAL_SIGNATURE) == [0x50, 0x4b, 1, 2];
    assert Put32(LOCAL_SIGNATURE) == [0x50, 0x4b, 3, 4];
    hide Get32, Put32;
  }

  /** The name without the slash that marks a directory. */
  function PathOf(e: ZipEntry): (path: string)
    requires e.name != []
  {
    if e.directory then e.name[..|e.name| - 1] else e.name
  }

  /** Not encrypted, stored or deflated, on this disk, a plain file or directory. */
  predicate KindOk(c: seq<byte>, p: nat)
    requires Fits(c, p)
  {
    var mode := U32(c, p + 38) / 0x1_0000 / 0x1000 * 0x1000;
    && U16(c, p + 8) % 2 == 0 && (U16(c, p + 10) == 0 || U16(c, p + 10) == 8) && U16(c, p + 34) == 0
    && (mode == 0 || mode == 0x8000 || (EntryAt(c, p).directory && mode == 0x4000))
    && U32(c, p + 38) / 0x400 % 2 == 0
  }

  /** The local header repeats the central record, and its data ends before the directory. */
  predicate LocalOk(file: seq<byte>, offset: nat, c: seq<byte>, p: nat)
    requires Fits(c, p) && offset <= |file|
  {
    var local, n: nat := U32(c, p + 42), U16(c, p + 28);
    && local + LOCAL_FIXED <= offset
    && U32(file, local) == LOCAL_SIGNATURE
    && U16(file, local + 6) == U16(c, p + 8) && U16(file, local + 8) == U16(c, p + 10) && U16(file, local + 26) == n
    && local + LOCAL_FIXED + n <= |file| && file[local + LOCAL_FIXED..local + LOCAL_FIXED + n] == RawName(c, p)
    && LocalEnd(file, local, n, U32(c, p + 20)) <= offset
  }

  function LocalEnd(file: seq<byte>, local: nat, n: nat, compressed: nat): (end: nat)
    requires local + LOCAL_FIXED <= |file|
  {
    local + LOCAL_FIXED + n + U16(file, local + 28) + compressed
  }

  predicate EntryOk(file: seq<byte>, offset: nat, c: seq<byte>, p: nat)
    requires offset <= |file|
  {
    && Fits(c, p) && Safe(PathOf(EntryAt(c, p))) && KindOk(c, p)
    && EntryAt(c, p).size <= FILE_LIMIT && (EntryAt(c, p).directory ==> EntryAt(c, p).size == 0)
    && LocalOk(file, offset, c, p)
  }

  type Span = (nat, nat)

  function SpanAt(file: seq<byte>, offset: nat, c: seq<byte>, p: nat): (r: Span)
    requires offset <= |file| && EntryOk(file, offset, c, p)
    ensures r.0 + LOCAL_FIXED <= r.1 <= offset
  {
    (U32(c, p + 42), LocalEnd(file, U32(c, p + 42), U16(c, p + 28), U32(c, p + 20)))
  }

  // ---------------------------------------------------------- what is to be accepted

  /** Records one after the other from the start of the directory. */
  ghost predicate Tiles(c: seq<byte>, starts: seq<nat>) {
    && |starts| > 0 && starts[0] == 0
    && forall i :: 0 <= i < |starts| - 1 ==> Fits(c, starts[i]) && starts[i + 1] == NextAt(c, starts[i])
  }

  ghost function SizeTotal(c: seq<byte>, starts: seq<nat>, n: nat): (total: nat)
    requires n <= |starts|
  {
    if n == 0 then 0
    else SizeTotal(c, starts, n - 1) + (if Fits(c, starts[n - 1]) then EntryAt(c, starts[n - 1]).size else 0)
  }

  predicate Apart(a: Span, b: Span) {
    a.1 <= b.0 || b.1 <= a.0
  }

  ghost predicate Distinct(c: seq<byte>, starts: seq<nat>, n: nat)
    requires n <= |starts| && forall i :: 0 <= i < n ==> Fits(c, starts[i])
  {
    forall i, j :: 0 <= i < j < n ==> Fold(PathOf(EntryAt(c, starts[i]))) != Fold(PathOf(EntryAt(c, starts[j])))
  }

  /** The records tile the directory exactly, every one agrees with its local header,
      names are distinct up to case, local ranges are disjoint and lie before the
      directory, and the sizes add up to no more than the limit. */
  ghost predicate Accepts(file: seq<byte>, e: nat, starts: seq<nat>) {
    && LastEnd(file, e) && EndOk(file, e)
    && var offset := U32(file, e + 16); var c := file[offset..e]; var count := U16(file, e + 10);
    && Tiles(c, starts) && |starts| == count + 1 && starts[count] == |c|
    && (forall i :: 0 <= i < count ==> EntryOk(file, offset, c, starts[i]))
    && Distinct(c, starts, count)
    && SizeTotal(c, starts, count) <= TOTAL_LIMIT
    && (forall i, j :: 0 <= i < j < count ==>
          Apart(SpanAt(file, offset, c, starts[i]), SpanAt(file, offset, c, starts[j])))
  }

  lemma {:induction false} TilesUnique(c: seq<byte>, starts: seq<nat>, other: seq<nat>, k: nat)
    requires Tiles(c, starts) && Tiles(c, other) && k < |starts| && k < |other|
    ensures starts[k] == other[k]
  {
    hide Fits;
    if k > 0 {
      TilesUnique(c, starts, other, k - 1);
    }
  }

  lemma {:induction false} TotalGrows(c: seq<byte>, starts: seq<nat>, n: nat, m: nat)
    requires n <= m <= |starts|
    ensures SizeTotal(c, starts, n) <= SizeTotal(c, starts, m)
    decreases m
  {
    hide Fits, EntryAt;
    if n < m {
      TotalGrows(c, starts, n, m - 1);
    }
  }

  lemma {:induction false} TotalSame(c: seq<byte>, starts: seq<nat>, other: seq<nat>, n: nat)
    requires Tiles(c, starts) && Tiles(c, other) && n <= |starts| && n <= |other|
    ensures SizeTotal(c, starts, n) == SizeTotal(c, other, n)
  {
    hide Fits, EntryAt;
    if n > 0 {
      TilesUnique(c, starts, other, n - 1);
      TotalSame(c, starts, other, n - 1);
    }
  }

  // -------------------------------------------------------------------- the sorting

  predicate Before(a: Span, b: Span) {
    a.0 < b.0 || (a.0 == b.0 && a.1 <= b.1)
  }

  ghost predicate Ordered(s: seq<Span>) {
    forall k :: 0 < k < |s| ==> Before(s[k - 1], s[k])
  }

  function Insert(x: Span, s: seq<Span>): (t: seq<Span>)
    ensures t != [] && t[0] == if s == [] || Before(x, s[0]) then x else s[0]
    ensures Ordered(s) ==> Ordered(t)
    ensures multiset(t) == multiset(s) + multiset{x}
  {
    if s == [] then [x]
    else if Before(x, s[0]) then [x] + s
    else
      assert s == [s[0]] + s[1..];
      [s[0]] + Insert(x, s[1..])
  }

  /** std::sort on pairs. */
  function Sort(s: seq<Span>): (t: seq<Span>)
    ensures Ordered(t) && multiset(t) == multiset(s)
  {
    if s == [] then []
    else
      assert s == s[..|s| - 1] + [s[|s| - 1]];
      Insert(s[|s| - 1], Sort(s[..|s| - 1]))
  }

  ghost predicate PairwiseApart(s: seq<Span>) {
    forall i, j :: 0 <= i < j < |s| ==> Apart(s[i], s[j])
  }

  lemma Twice(s: seq<Span>, i: nat, j: nat)
    requires i < j < |s| && s[i] == s[j]
    ensures multiset(s)[s[i]] >= 2
  {
    assert s == s[..j] + s[j..];
    assert s[i] == s[..j][i] && s[j] == s[j..][0];
    assert s[i] in multiset(s[..j]) && s[j] in multiset(s[j..]);
  }

  lemma TwoPlaces(s: seq<Span>, x: Span) returns (i: nat, j: nat)
    requires multiset(s)[x] >= 2
    ensures i < j < |s| && s[i] == s[j] == x
  {
    assert x in multiset(s);
    i :| 0 <= i < |s| && s[i] == x;
    var rest := s[..i] + s[i + 1..];
    assert s == s[..i] + [x] + s[i + 1..];
    assert multiset(rest)[x] >= 1;
    assert x in rest;
    var k :| 0 <= k < |rest| && rest[k] == x;
    if k < i {
      i, j := k, i;
    } else {
      j := k + 1;
    }
  }

  /** Being pairwise apart does not depend on the order. */
  lemma ApartInAnyOrder(s: seq<Span>, t: seq<Span>)
    requires multiset(s) == multiset(t) && PairwiseApart(s)
    ensures PairwiseApart(t)
  {
    forall i, j | 0 <= i < j < |t|
      ensures Apart(t[i], t[j])
    {
      if t[i] == t[j] {
        Twice(t, i, j);
        var p, q := TwoPlaces(s, t[i]);
        assert Apart(s[p], s[q]);
      } else {
        assert t[i] in multiset(s) && t[j] in multiset(s);
        var p :| 0 <= p < |s| && s[p] == t[i];
        var q :| 0 <= q < |s| && s[q] == t[j];
        assert p < q ==> Apart(s[p], s[q]);
        assert q < p ==> Apart(s[q], s[p]);
      }
    }
  }

  /** In order, neighbours that do not overlap are enough. */
  lemma {:induction false} NeighboursApart(s: seq<Span>, i: nat, j: nat)
    requires forall k :: 0 <= k < |s| ==> s[k].0 <= s[k].1
    requires forall k :: 0 < k < |s| ==> s[k - 1].1 <= s[k].0
    requires i < j < |s|
    ensures s[i].1 <= s[j].0
    decreases j
  {
    assert s[j - 1].1 <= s[j].0;
    if i < j - 1 {
      NeighboursApart(s, i, j - 1);
    }
  }

  method CheckRanges(ranges: seq<Span>) returns (ok: bool)
    requires forall k :: 0 <= k < |ranges| ==> ranges[k].0 < ranges[k].1
    ensures ok <==> PairwiseApart(ranges)
  {
    var sorted := Sort(ranges);
    forall k | 0 <= k < |sorted|
      ensures sorted[k].0 < sorted[k].1
    {
      assert sorted[k] in multiset(ranges);
    }
    var i := 1;
    while i < |sorted|
      invariant 1 <= i
      invariant forall k :: 0 < k < i && k < |sorted| ==> sorted[k - 1].1 <= sorted[k].0
    {
      if sorted[i - 1].1 > sorted[i].0 {
        assert Before(sorted[i - 1], sorted[i]) && !Apart(sorted[i - 1], sorted[i]);
        if PairwiseApart(ranges) {
          ApartInAnyOrder(ranges, sorted);
        }
        return false;
      }
      i := i + 1;
    }
    forall p, q | 0 <= p < q < |sorted|
      ensures Apart(sorted[p], sorted[q])
    {
      NeighboursApart(sorted, p, q);
    }
    ApartInAnyOrder(sorted, ranges);
    return true;
  }

  // ------------------------------------------------------------------- the directory

  /** What the loop has established after n records. */
  ghost predicate ReadSoFar(file: seq<byte>, offset: nat, c: seq<byte>, starts: seq<nat>, n: nat) {
    && offset <= |file| && |starts| == n + 1 && Tiles(c, starts)
    && (forall i :: 0 <= i < n ==> EntryOk(file, offset, c, starts[i]))
  }

  lemma OkFits(file: seq<byte>, offset: nat, c: seq<byte>, p: nat)
    requires offset <= |file| && EntryOk(file, offset, c, p)
    ensures Fits(c, p) && EntryAt(c, p).name != [] && SpanAt(file, offset, c, p).0 < SpanAt(file, offset, c, p).1
  {
    hide U16, U32, Safe, KindOk;
  }

  /** One record: the checks of the loop body, in its order, except the shared sets. */
  method ReadEntry(file: seq<byte>, offset: nat, c: seq<byte>, p: nat) returns (ok: bool)
    requires offset <= |file|
    ensures ok <==> EntryOk(file, offset, c, p)
  {
    hide U16, U32, Safe, KindOk;
    if p + CENTRAL_FIXED > |c| || U32(c, p) != CENTRAL_SIGNATURE {
      return false;
    }
    var nameSize, extra, comment := U16(c, p + 28), U16(c, p + 30), U16(c, p + 32);
    if nameSize == 0 || p + CENTRAL_FIXED + nameSize + extra + comment > |c| {
      return false;
    }
    var entry := EntryAt(c, p);
    var safe := SafePath(PathOf(entry));
    if !safe || !KindOk(c, p) || entry.size > FILE_LIMIT || (entry.directory && entry.size != 0) {
      return false;
    }
    return LocalOk(file, offset, c, p);
  }

  function Key(c: seq<byte>, p: nat): (key: string)
    requires Fits(c, p)
  {
    Fold(PathOf(EntryAt(c, p)))
  }

  lemma OneMore(file: seq<byte>, offset: nat, c: seq<byte>, starts: seq<nat>, n: nat)
    requires ReadSoFar(file, offset, c, starts, n) && EntryOk(file, offset, c, starts[n])
    ensures Fits(c, starts[n])
    ensures var more := starts + [NextAt(c, starts[n])];
      && ReadSoFar(file, offset, c, more, n + 1)
      && SizeTotal(c, more, n) == SizeTotal(c, starts, n)
      && SizeTotal(c, more, n + 1) == SizeTotal(c, starts, n) + EntryAt(c, starts[n]).size
  {
    hide U16, U32, Safe, KindOk, LocalOk, Fits, NextAt, EntryAt;
    OkFits(file, offset, c, starts[n]);
    TotalSame(c, starts, starts + [NextAt(c, starts[n])], n);
  }

  /** The first records of any acceptable tiling are the ones that were read. */
  lemma SameStart(file: seq<byte>, e: nat, other: seq<nat>, starts: seq<nat>, n: nat)
    requires Accepts(file, e, other)
    requires var offset := U32(file, e + 16); ReadSoFar(file, offset, file[offset..e], starts, n)
    requires n <= U16(file, e + 10)
    ensures forall k :: 0 <= k <= n ==> other[k] == starts[k]
  {
    hide U16, U32, EntryOk, Fits, NextAt, SizeTotal, Apart, EntryAt;
    var offset := U32(file, e + 16);
    forall k | 0 <= k <= n
      ensures other[k] == starts[k]
    {
      TilesUnique(file[offset..e], starts, other, k);
    }
  }

  ghost predicate Spans(file: seq<byte>, offset: nat, c: seq<byte>, starts: seq<nat>, n: nat, ranges: seq<Span>)
    requires ReadSoFar(file, offset, c, starts, n)
  {
    |ranges| == n && forall i :: 0 <= i < n ==> ranges[i] == SpanAt(file, offset, c, starts[i])
  }

  /** Refusing at record n is right: no acceptable tiling exists. */
  ghost predicate NoneAccepted(file: seq<byte>, e: nat) {
    forall other :: !Accepts(file, e, other)
  }

  lemma BadRecord(file: seq<byte>, e: nat, starts: seq<nat>, n: nat)
    requires EndAt(file, e) && EndOk(file, e)
    requires var offset := U32(file, e + 16);
      && ReadSoFar(file, offset, file[offset..e], starts, n) && n < U16(file, e + 10)
      && !EntryOk(file, offset, file[offset..e], starts[n])
    ensures NoneAccepted(file, e)
  {
    hide U16, U32, EntryOk, Fits, NextAt, SizeTotal, Apart, EntryAt;
    forall other: seq<nat>
      ensures !Accepts(file, e, other)
    {
      if Accepts(file, e, other) {
        SameStart(file, e, other, starts, n);
      }
    }
  }

  lemma BadTotal(file: seq<byte>, e: nat, starts: seq<nat>, n: nat)
    requires EndAt(file, e) && EndOk(file, e)
    requires var offset := U32(file, e + 16);
      && ReadSoFar(file, offset, file[offset..e], starts, n) && n <= U16(file, e + 10)
      && SizeTotal(file[offset..e], starts, n) > TOTAL_LIMIT
    ensures NoneAccepted(file, e)
  {
    hide U16, U32, EntryOk, Fits, NextAt, SizeTotal, Apart, EntryAt;
    forall other: seq<nat>
      ensures !Accepts(file, e, other)
    {
      if Accepts(file, e, other) {
        var c := file[U32(file, e + 16)..e];
        TotalSame(c, starts, other, n);
        TotalGrows(c, other, n, U16(file, e + 10));
      }
    }
  }

  lemma BadName(file: seq<byte>, e: nat, starts: seq<nat>, n: nat, j: nat)
    requires EndAt(file, e) && EndOk(file, e)
    requires var offset := U32(file, e + 16); var c := file[offset..e];
      ReadSoFar(file, offset, c, starts, n) && j < n - 1 && n <= U16(file, e + 10)
      && Fits(c, starts[j]) && Fits(c, starts[n - 1]) && Key(c, starts[j]) == Key(c, starts[n - 1])
    ensures NoneAccepted(file, e)
  {
    hide U16, U32, EntryOk, Fits, NextAt, SizeTotal, Apart, EntryAt, PathOf;
    forall other: seq<nat>
      ensures !Accepts(file, e, other)
    {
      if Accepts(file, e, other) {
        SameStart(file, e, other, starts, n);
      }
    }
  }

  /** After the last record: what is left to check decides. */
  lemma AllRead(file: seq<byte>, e: nat, starts: seq<nat>, ranges: seq<Span>)
    requires LastEnd(file, e) && EndOk(file, e)
    requires var offset := U32(file, e + 16); var c := file[offset..e]; var count := U16(file, e + 10);
      && ReadSoFar(file, offset, c, starts, count) && Spans(file, offset, c, starts, count, ranges)
      && DistinctKeys(c, starts, count) && SizeTotal(c, starts, count) <= TOTAL_LIMIT
    ensures (starts[U16(file, e + 10)] == e - U32(file, e + 16) && PairwiseApart(ranges)) <==> Accepts(file, e, starts)
    ensures !Accepts(file, e, starts) ==> NoneAccepted(file, e)
  {
    hide U16, U32, Fits, NextAt, SizeTotal, Apart, EntryAt, EntryOk, PathOf;
    var offset, count := U32(file, e + 16), U16(file, e + 10);
    var c := file[offset..e];
    forall i | 0 <= i < count
      ensures Fits(c, starts[i])
    {
      OkFits(file, offset, c, starts[i]);
    }
    forall other: seq<nat> | Accepts(file, e, other)
      ensures other == starts
    {
      SameStart(file, e, other, starts, count);
    }
  }

  ghost predicate DistinctKeys(c: seq<byte>, starts: seq<nat>, n: nat)
    requires n <= |starts|
  {
    && (forall i :: 0 <= i < n ==> Fits(c, starts[i]))
    && (forall i, j :: 0 <= i < j < n ==> Key(c, starts[i]) != Key(c, starts[j]))
  }

  /** inspectZip: accepts exactly the files whose directory is as Accepts says, and
      returns its entries in order. */
  method InspectZip(file: seq<byte>) returns (r: Option<seq<ZipEntry>>, ghost e: nat, ghost starts: seq<nat>)
    ensures r.Some? ==> Accepts(file, e, starts) && |r.value| == |starts| - 1
    ensures r.Some? ==> forall i :: 0 <= i < |r.value| ==>
      Fits(file[U32(file, e + 16)..e], starts[i]) && r.value[i] == EntryAt(file[U32(file, e + 16)..e], starts[i])
    ensures r.None? ==> forall e' :: NoneAccepted(file, e')
  {
    hide U16, U32, EntryAt, Accepts, EndOk, EndAt, NoneAccepted;
    e, starts := 0, [];
    var end := FindEnd(file);
    if end.None? {
      forall e': nat ensures NoneAccepted(file, e') { NoEnd(file, e'); }
      return None, e, starts;
    }
    e := end.value;
    OnlyEnd(file, end.value);
    if !EndOk(file, end.value) {
      return None, e, starts;
    }
    EndRead(file, end.value);
    r, starts := ReadDirectory(file, end.value);
  }

  lemma NoEnd(file: seq<byte>, e: nat)
    requires !LastEnd(file, e) || !EndOk(file, e)
    ensures NoneAccepted(file, e)
  {
  }

  lemma OnlyEnd(file: seq<byte>, e: nat)
    requires LastEnd(file, e)
    ensures EndAt(file, e)
    ensures forall e': nat :: e' != e ==> NoneAccepted(file, e')
    ensures !EndOk(file, e) ==> NoneAccepted(file, e)
  {
    hide EndAt, EndOk, U16, U32;
    forall e': nat | e' != e
      ensures NoneAccepted(file, e')
    {
      NoEnd(file, e');
    }
    if !EndOk(file, e) {
      NoEnd(file, e);
    }
  }

  lemma EndRead(file: seq<byte>, e: nat)
    requires EndAt(file, e) && EndOk(file, e)
    ensures e + END_FIXED <= |file| && U32(file, e + 16) + U32(file, e + 12) == e
  {
  }

  method ReadDirectory(file: seq<byte>, e: nat) returns (r: Option<seq<ZipEntry>>, ghost starts: seq<nat>)
    requires LastEnd(file, e) && EndOk(file, e) && e + END_FIXED <= |file| && U32(file, e + 16) <= e
    ensures r.Some? ==> Accepts(file, e, starts) && |r.value| == |starts| - 1
    ensures r.Some? ==> forall i :: 0 <= i < |r.value| ==>
      Fits(file[U32(file, e + 16)..e], starts[i]) && r.value[i] == EntryAt(file[U32(file, e + 16)..e], starts[i])
    ensures r.None? ==> NoneAccepted(file, e)
  {
    hide U16, U32, EntryAt, EntryOk, Accepts, EndOk, Fits, NextAt, SpanAt, SizeTotal, NoneAccepted, PairwiseApart,
         Key, Tiles, LastEnd, EndAt;
    var count, offset := U16(file, e + 10), U32(file, e + 16);
    var central := file[offset..e];
    var entries: seq<ZipEntry>, names: set<string>, ranges: seq<Span>, total: u64, pos: nat := [], {}, [], 0, 0;
    starts := [0];
    StartOfDirectory(file, offset, central);
    var i := 0;
    while i < count
      invariant 0 <= i <= count && ReadSoFar(file, offset, central, starts, i) && starts[i] == pos
      invariant DistinctKeys(central, starts, i)
      invariant names == set k | 0 <= k < i && Fits(central, starts[k]) :: Key(central, starts[k])
      invariant total == SizeTotal(central, starts, i) <= TOTAL_LIMIT
      invariant Spans(file, offset, central, starts, i, ranges)
      invariant |entries| == i && forall k :: 0 <= k < i ==> entries[k] == EntryAt(central, starts[k])
    {
      EndOfLast(file, e);
      var ok := ReadEntry(file, offset, central, pos);
      if !ok {
        BadRecord(file, e, starts, i);
        return None, starts;
      }
      OkFits(file, offset, central, pos);
      var entry := EntryAt(central, pos);
      SizeFits(file, offset, central, pos);
      OneMore(file, offset, central, starts, i);
      var key := Key(central, pos);
      ghost var before := starts;
      starts := starts + [NextAt(central, pos)];
      if key in names {
        ghost var j :| 0 <= j < i && Key(central, before[j]) == key;
        BadName(file, e, starts, i + 1, j);
        return None, starts;
      }
      total := (total + entry.size) % 0x1_0000_0000_0000_0000;
      if total > TOTAL_LIMIT {
        BadTotal(file, e, starts, i + 1);
        return None, starts;
      }
      KeysGrow(central, before, i, NextAt(central, pos));
      names := names + {key};
      ranges := ranges + [SpanAt(file, offset, central, pos)];
      entries := entries + [entry];
      pos := NextAt(central, pos);
      i := i + 1;
    }
    AllRead(file, e, starts, ranges);
    forall k | 0 <= k < |ranges|
      ensures ranges[k].0 < ranges[k].1
    {
      OkFits(file, offset, central, starts[k]);
    }
    if pos != |central| {
      return None, starts;
    }
    var apart := CheckRanges(ranges);
    if !apart {
      return None, starts;
    }
    return Some(entries), starts;
  }

  lemma KeysGrow(c: seq<byte>, starts: seq<nat>, n: nat, next: nat)
    requires |starts| == n + 1 && DistinctKeys(c, starts, n) && Fits(c, starts[n])
    ensures DistinctKeys(c, starts + [next], n)
    ensures (set k | 0 <= k < n + 1 && Fits(c, (starts + [next])[k]) :: Key(c, (starts + [next])[k]))
         == (set k | 0 <= k < n && Fits(c, starts[k]) :: Key(c, starts[k])) + {Key(c, starts[n])}
  {
    hide Fits, Key;
    var more := starts + [next];
    assert forall k :: 0 <= k <= n ==> more[k] == starts[k];
  }

  lemma EndOfLast(file: seq<byte>, e: nat)
    requires LastEnd(file, e)
    ensures EndAt(file, e)
  {
  }

  lemma StartOfDirectory(file: seq<byte>, offset: nat, c: seq<byte>)
    requires offset <= |file|
    ensures ReadSoFar(file, offset, c, [0], 0) && SizeTotal(c, [0], 0) == 0
    ensures DistinctKeys(c, [0], 0) && Spans(file, offset, c, [0], 0, [])
  {
  }

  lemma SizeFits(file: seq<byte>, offset: nat, c: seq<byte>, p: nat)
    requires offset <= |file| && EntryOk(file, offset, c, p)
    ensures Fits(c, p) && EntryAt(c, p).size <= FILE_LIMIT
  {
    hide U16, U32, Safe, KindOk, LocalOk;
  }
}
