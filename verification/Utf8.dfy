/** Strict UTF-8 between manifest bytes and wide strings, against the grammar of
    section 4 of RFC 3629. */
module Utf8 {
  import opened Bytes
  import opened Wrappers

  // --------------------------------------------------------------- the grammar

  predicate Tail(b: byte) {
    0x80 <= b <= 0xbf
  }

  /** UTF8-char: UTF8-1 / UTF8-2 / UTF8-3 / UTF8-4. */
  predicate Utf8Char(c: seq<byte>) {
    match |c|
    case 1 => c[0] <= 0x7f
    case 2 => 0xc2 <= c[0] <= 0xdf && Tail(c[1])
    case 3 =>
      && Tail(c[2])
      && (|| (c[0] == 0xe0 && 0xa0 <= c[1] <= 0xbf)
          || (0xe1 <= c[0] <= 0xec && Tail(c[1]))
          || (c[0] == 0xed && 0x80 <= c[1] <= 0x9f)
          || (0xee <= c[0] <= 0xef && Tail(c[1])))
    case 4 =>
      && Tail(c[2]) && Tail(c[3])
      && (|| (c[0] == 0xf0 && 0x90 <= c[1] <= 0xbf)
          || (0xf1 <= c[0] <= 0xf3 && Tail(c[1]))
          || (c[0] == 0xf4 && 0x80 <= c[1] <= 0x8f))
    case _ => false
  }

  /** UTF8-octets: any number of UTF8-char one after the other. */
  ghost predicate Utf8Octets(s: seq<byte>)
    decreases |s|
  {
    s == [] || exists n :: 0 < n <= |s| && Utf8Char(s[..n]) && Utf8Octets(s[n..])
  }

  /** The length that a first byte announces, or zero when none starts with it. */
  function LeadLength(b: byte): (n: nat)
    ensures n <= 4
  {
    if b < 0x80 then 1
    else if 0xc2 <= b <= 0xdf then 2
    else if 0xe0 <= b <= 0xef then 3
    else if 0xf0 <= b <= 0xf4 then 4
    else 0
  }

  lemma OctetsStep(s: seq<byte>)
    requires |s| > 0
    ensures var n := LeadLength(s[0]);
      Utf8Octets(s) <==> n > 0 && n <= |s| && Utf8Char(s[..n]) && Utf8Octets(s[n..])
  {
    if Utf8Octets(s) {
      var n :| 0 < n <= |s| && Utf8Char(s[..n]) && Utf8Octets(s[n..]);
      assert s[..n][0] == s[0];
      assert n == LeadLength(s[0]);
    }
  }

  // ---------------------------------------------------------------- the scalars

  predicate High(u: wchar) {
    0xd800 <= u <= 0xdbff
  }

  predicate Low(u: wchar) {
    0xdc00 <= u <= 0xdfff
  }

  /** The Unicode scalar value of one UTF8-char. */
  function Scalar(c: seq<byte>): (cp: int)
    requires Utf8Char(c)
    ensures 0 <= cp <= 0x10ffff && !(0xd800 <= cp <= 0xdfff)
  {
    var b0: int := c[0];
    if |c| == 1 then b0
    else
      var b1: int := c[1];
      if |c| == 2 then (b0 - 0xc0) * 0x40 + (b1 - 0x80)
      else
        var b2: int := c[2];
        if |c| == 3 then (b0 - 0xe0) * 0x1000 + (b1 - 0x80) * 0x40 + (b2 - 0x80)
        else
          var b3: int := c[3];
          (b0 - 0xf0) * 0x4_0000 + (b1 - 0x80) * 0x1000 + (b2 - 0x80) * 0x40 + (b3 - 0x80)
  }

  /** One scalar in UTF-16. */
  function Units(cp: int): (w: wstring)
    requires 0 <= cp <= 0x10ffff
    ensures 1 <= |w| <= 2
  {
    if cp < 0x1_0000 then [cp] else [0xd800 + (cp - 0x1_0000) / 0x400, 0xdc00 + (cp - 0x1_0000) % 0x400]
  }

  /** The wide string that a sequence of UTF8-char stands for. */
  ghost function Wide(s: seq<byte>): (w: wstring)
    requires Utf8Octets(s)
    decreases |s|
  {
    if s == [] then []
    else
      OctetsStep(s);
      var n := LeadLength(s[0]);
      Units(Scalar(s[..n])) + Wide(s[n..])
  }

  // -------------------------------------------------------------------- decoding

  /** The value after shifting in the given tail bytes. */
  ghost function Accumulated(first: int, tail: seq<byte>): (cp: int) {
    if |tail| == 0 then first
    else
      var last: int := tail[|tail| - 1];
      Accumulated(first, tail[..|tail| - 1]) * 0x40 + (last - 0x80)
  }

  /** The range checks made after the tail bytes are the byte ranges of the grammar. */
  lemma CharValue(c: seq<byte>, cp: int)
    requires 2 <= |c| <= 4 && |c| == LeadLength(c[0]) && forall j :: 1 <= j < |c| ==> Tail(c[j])
    requires cp == Accumulated(c[0] - LeadMark(|c|), c[1..])
    ensures Utf8Char(c) <==> LeastScalar(|c|) <= cp <= 0x10ffff && !(0xd800 <= cp <= 0xdfff)
    ensures Utf8Char(c) ==> cp == Scalar(c)
  {
    var t, first := c[1..], c[0] - LeadMark(|c|);
    Accumulate(first, t[..1]);
    if |c| == 2 {
      assert t[..1] == t;
    } else {
      assert t[..2][..1] == t[..1];
      Accumulate(first, t[..2]);
      if |c| == 3 {
        assert t[..2] == t;
      } else {
        assert t[..3][..2] == t[..2] && t[..3] == t;
        Accumulate(first, t[..3]);
      }
    }
  }

  lemma Accumulate(first: int, t: seq<byte>)
    requires |t| > 0
    ensures Accumulated(first, t) ==
      (if |t| == 1 then first else Accumulated(first, t[..|t| - 1])) * 0x40 + (t[|t| - 1] as int - 0x80)
  {
    if |t| == 1 {
      assert t[..0] == [];
    }
  }

  /** The bits that mark the first byte of a longer character. */
  function LeadMark(n: nat): (mark: int) {
    if n == 2 then 0xc0 else if n == 3 then 0xe0 else 0xf0
  }

  function LeastScalar(n: nat): (least: int) {
    if n == 2 then 0x80 else if n == 3 then 0x800 else 0x1_0000
  }

  /** The tail bytes of the character at i, shifted into the value of its first byte. */
  method DecodeTail(s: seq<byte>, i: nat, extra: nat, first: int) returns (ok: bool, cp: int)
    requires i + extra < |s|
    ensures ok <==> forall p :: i < p <= i + extra ==> Tail(s[p])
    ensures ok ==> cp == Accumulated(first, s[i + 1..i + 1 + extra])
  {
    ok, cp := true, first;
    var k := 1;
    while k <= extra
      invariant 1 <= k <= extra + 1
      invariant forall p :: i < p < i + k ==> Tail(s[p])
      invariant cp == Accumulated(first, s[i + 1..i + k])
    {
      var next: byte := s[i + k];
      if next < 0x80 || next > 0xbf {
        return false, cp;
      }
      assert s[i + 1..i + k + 1] == s[i + 1..i + k] + [next];
      cp := cp * 0x40 + (next as int - 0x80);
      k := k + 1;
    }
  }

  /** One character longer than a byte. */
  method DecodeLong(s: seq<byte>, i: nat) returns (ok: bool, n: nat, cp: int)
    requires i < |s| && s[i] >= 0x80
    ensures ok <==> n > 0 && i + n <= |s| && Utf8Char(s[i..i + n])
    ensures n == LeadLength(s[i])
    ensures ok ==> cp == Scalar(s[i..i + n])
  {
    var lead, extra, min := s[i], 0, 0;
    n, cp := 0, 0;
    if lead >= 0xc2 && lead <= 0xdf {
      extra, cp, min := 1, lead - 0xc0, 0x80;
    } else if lead >= 0xe0 && lead <= 0xef {
      extra, cp, min := 2, lead - 0xe0, 0x800;
    } else if lead >= 0xf0 && lead <= 0xf4 {
      extra, cp, min := 3, lead - 0xf0, 0x1_0000;
    } else {
      return false, 0, 0;
    }
    n := extra + 1;
    if i + extra >= |s| {
      return false, n, cp;
    }
    ok, cp := DecodeTail(s, i, extra, cp);
    ghost var c := s[i..i + n];
    assert c[1..] == s[i + 1..i + n];
    if !ok {
      TailMissing(s, i, n);
      return;
    }
    CharValue(c, cp);
    ok := !(cp < min || cp > 0x10ffff || (cp >= 0xd800 && cp <= 0xdfff));
  }

  lemma TailMissing(s: seq<byte>, i: nat, n: nat)
    requires 2 <= n && i + n <= |s| && n == LeadLength(s[i]) && exists p :: i < p < i + n && !Tail(s[p])
    ensures !Utf8Char(s[i..i + n])
  {
    var p :| i < p < i + n && !Tail(s[p]);
    assert s[i..i + n][p - i] == s[p];
  }

  /** decodeUtf8: the wide string exactly of the byte strings in the grammar. */
  method Decode(s: seq<byte>) returns (out: Option<wstring>)
    ensures out.Some? <==> Utf8Octets(s)
    ensures out.Some? ==> out.value == Wide(s)
  {
    hide Utf8Char, Scalar, Units, Utf8Octets, Wide, LeadLength;
    var w: wstring, i := [], 0;
    assert s[0..] == s;
    while i < |s|
      invariant 0 <= i <= |s|
      invariant Utf8Octets(s) <==> Utf8Octets(s[i..])
      invariant Utf8Octets(s) ==> Wide(s) == w + Wide(s[i..])
    {
      var lead := s[i];
      if lead < 0x80 {
        OneByte(s, i);
        StepOver(s, i, 1);
        w := w + [lead as int];
        i := i + 1;
        continue;
      }
      var ok, n, cp := DecodeLong(s, i);
      if !ok {
        StepFails(s, i, n);
        return None;
      }
      StepOver(s, i, n);
      w := w + Units(cp);
      i := i + n;
    }
    EmptyOctets(s[i..]);
    return Some(w);
  }

  lemma EmptyOctets(s: seq<byte>)
    requires s == []
    ensures Utf8Octets(s) && Wide(s) == []
  {
  }

  lemma OneByte(s: seq<byte>, i: nat)
    requires i < |s| && s[i] < 0x80
    ensures LeadLength(s[i]) == 1 && Utf8Char(s[i..i + 1]) && Units(Scalar(s[i..i + 1])) == [s[i]]
  {
  }

  lemma StepOver(s: seq<byte>, i: nat, n: nat)
    requires i < |s| && n == LeadLength(s[i]) && 0 < n && i + n <= |s| && Utf8Char(s[i..i + n])
    ensures Utf8Octets(s[i..]) <==> Utf8Octets(s[i + n..])
    ensures Utf8Octets(s[i..]) ==> Wide(s[i..]) == Units(Scalar(s[i..i + n])) + Wide(s[i + n..])
  {
    hide Utf8Char, Scalar, Units, LeadLength;
    OctetsStep(s[i..]);
    assert s[i..][n..] == s[i + n..] && s[i..][..n] == s[i..i + n] && s[i..][0] == s[i];
  }

  lemma StepFails(s: seq<byte>, i: nat, n: nat)
    requires i < |s| && n == LeadLength(s[i]) && !(0 < n && i + n <= |s| && Utf8Char(s[i..i + n]))
    ensures !Utf8Octets(s[i..])
  {
    hide Utf8Char, LeadLength, Utf8Octets;
    OctetsStep(s[i..]);
    assert s[i..][0] == s[i];
    if 0 < n && i + n <= |s| {
      assert s[i..][..n] == s[i..i + n];
    }
  }

  // -------------------------------------------------------------------- encoding

  /** The bytes of one code point; surrogate code points get three bytes too. */
  function CharBytes(cp: int): (c: seq<byte>)
    requires 0 <= cp <= 0x10ffff
    ensures 1 <= |c| <= 4
  {
    var high := cp / 0x40;
    var higher := high / 0x40;
    if cp < 0x80 then [cp]
    else if cp < 0x800 then [0xc0 + high, 0x80 + cp % 0x40]
    else if cp < 0x1_0000 then [0xe0 + higher, 0x80 + high % 0x40, 0x80 + cp % 0x40]
    else [0xf0 + higher / 0x40, 0x80 + higher % 0x40, 0x80 + high % 0x40, 0x80 + cp % 0x40]
  }

  predicate Pair(w: wstring) {
    |w| >= 2 && High(w[0]) && Low(w[1])
  }

  function PairScalar(high: wchar, low: wchar): (cp: int)
    requires High(high) && Low(low)
    ensures 0x1_0000 <= cp <= 0x10ffff
  {
    0x1_0000 + (high - 0xd800) * 0x400 + (low - 0xdc00)
  }

  function Encoded(w: wstring): (s: seq<byte>)
    decreases |w|
  {
    if w == [] then []
    else if Pair(w) then CharBytes(PairScalar(w[0], w[1])) + Encoded(w[2..])
    else CharBytes(w[0]) + Encoded(w[1..])
  }

  /** Every surrogate is half of a pair. */
  predicate WellFormed(w: wstring)
    decreases |w|
  {
    if w == [] then true
    else if Pair(w) then WellFormed(w[2..])
    else !High(w[0]) && !Low(w[0]) && WellFormed(w[1..])
  }

  /** The bytes appended for one code point. */
  method EncodeChar(cp: int) returns (c: seq<byte>)
    requires 0 <= cp <= 0x10ffff
    ensures c == CharBytes(cp)
  {
    if cp < 0x80 {
      return [cp];
    }
    c := [0x80 + cp % 0x40];
    if cp < 0x800 {
      return [0xc0 + cp / 0x40] + c;
    }
    c := [0x80 + cp / 0x40 % 0x40] + c;
    if cp < 0x1_0000 {
      return [0xe0 + cp / 0x40 / 0x40] + c;
    }
    return [0xf0 + cp / 0x40 / 0x40 / 0x40, 0x80 + cp / 0x40 / 0x40 % 0x40] + c;
  }

  /** encodeUtf8. */
  method Encode(w: wstring) returns (out: seq<byte>)
    ensures out == Encoded(w)
  {
    hide CharBytes;
    out := [];
    var i := 0;
    assert w[0..] == w;
    while i < |w|
      invariant 0 <= i <= |w| && Encoded(w) == out + Encoded(w[i..])
    {
      var cp: int := w[i];
      ghost var was := i;
      assert Encoded(w[i..]) == EncodedHead(w[i..]) + Encoded(w[i + HeadLength(w[i..])..]) by {
        assert w[i..][HeadLength(w[i..])..] == w[i + HeadLength(w[i..])..];
      }
      if 0xd800 <= cp <= 0xdbff && i + 1 < |w| && 0xdc00 <= w[i + 1] <= 0xdfff {
        i := i + 1;
        cp := 0x1_0000 + (cp - 0xd800) * 0x400 + (w[i] as int - 0xdc00);
      }
      var c := EncodeChar(cp);
      assert c == EncodedHead(w[was..]);
      out := out + c;
      i := i + 1;
    }
  }

  ghost function HeadLength(w: wstring): (n: nat) {
    if Pair(w) then 2 else 1
  }

  ghost function EncodedHead(w: wstring): (c: seq<byte>)
    requires w != []
  {
    CharBytes(if Pair(w) then PairScalar(w[0], w[1]) else w[0])
  }

  // ------------------------------------------------------------------ both ways

  lemma CharBytesValid(cp: int)
    requires 0 <= cp <= 0x10ffff && !(0xd800 <= cp <= 0xdfff)
    ensures var c := CharBytes(cp); Utf8Char(c) && Scalar(c) == cp && LeadLength(c[0]) == |c|
  {
    var high := cp / 0x40;
    var higher := high / 0x40;
    assert cp == high * 0x40 + cp % 0x40 && high == higher * 0x40 + high % 0x40;
    if 0x1_0000 <= cp {
      assert higher == higher / 0x40 * 0x40 + higher % 0x40;
    }
  }

  lemma SurrogateBytesInvalid(cp: int)
    requires 0xd800 <= cp <= 0xdfff
    ensures |CharBytes(cp)| == 3 && LeadLength(CharBytes(cp)[0]) == 3 && !Utf8Char(CharBytes(cp))
  {
    var higher := cp / 0x40 / 0x40;
    assert higher == 13 && cp / 0x40 % 0x40 >= 32;
  }

  lemma ScalarBytes(c: seq<byte>)
    requires Utf8Char(c)
    ensures CharBytes(Scalar(c)) == c
  {
    if |c| == 4 {
      FourScalarBytes(c);
    } else if |c| == 3 {
      ThreeScalarBytes(c);
    }
  }

  lemma ThreeScalarBytes(c: seq<byte>)
    requires |c| == 3 && Utf8Char(c)
    ensures CharBytes(Scalar(c)) == c
  {
    var cp, b1: int, b2: int := Scalar(c), c[1], c[2];
    assert 0x800 <= cp < 0x1_0000 && cp % 0x40 == b2 - 0x80;
    assert cp / 0x40 == (c[0] as int - 0xe0) * 0x40 + (b1 - 0x80);
  }

  lemma FourScalarBytes(c: seq<byte>)
    requires |c| == 4 && Utf8Char(c)
    ensures CharBytes(Scalar(c)) == c
  {
    var cp, b1: int, b2: int, b3: int := Scalar(c), c[1], c[2], c[3];
    var higher := (c[0] as int - 0xf0) * 0x40 + (b1 - 0x80);
    assert 0x1_0000 <= cp && cp % 0x40 == b3 - 0x80;
    assert cp / 0x40 == higher * 0x40 + (b2 - 0x80);
  }

  /** Decoding accepts what encoding writes exactly when no surrogate is alone, and
      then it gives the same string back. */
  lemma {:induction false} DecodeEncode(w: wstring)
    ensures Utf8Octets(Encoded(w)) <==> WellFormed(w)
    ensures WellFormed(w) ==> Wide(Encoded(w)) == w
    decreases |w|
  {
    hide CharBytes, Scalar, Utf8Char, Utf8Octets, LeadLength;
    if w == [] {
      EmptyOctets([]);
    } else {
      var used := HeadLength(w);
      var cp: int := if Pair(w) then PairScalar(w[0], w[1]) else w[0];
      var c, rest := CharBytes(cp), Encoded(w[used..]);
      DecodeEncode(w[used..]);
      assert (c + rest)[..|c|] == c && (c + rest)[|c|..] == rest && (c + rest)[0] == c[0];
      OctetsStep(c + rest);
      if 0xd800 <= cp <= 0xdfff {
        SurrogateBytesInvalid(cp);
      } else {
        CharBytesValid(cp);
        UnitsOfHead(w);
        assert w == w[..used] + w[used..];
      }
    }
  }

  lemma UnitsOfHead(w: wstring)
    requires w != []
    ensures Units(if Pair(w) then PairScalar(w[0], w[1]) else w[0]) == w[..HeadLength(w)]
  {
    if Pair(w) {
      assert (PairScalar(w[0], w[1]) - 0x1_0000) / 0x400 == w[0] - 0xd800;
    }
  }

  /** Encoding a decoded string gives the same bytes back. */
  lemma {:induction false} EncodeDecode(s: seq<byte>)
    requires Utf8Octets(s)
    ensures WellFormed(Wide(s)) && Encoded(Wide(s)) == s
    decreases |s|
  {
    hide CharBytes, Scalar, Utf8Char, Utf8Octets, LeadLength, Units;
    if s == [] {
      EmptyOctets(s);
    } else {
      OctetsStep(s);
      var n := LeadLength(s[0]);
      var cp, rest := Scalar(s[..n]), Wide(s[n..]);
      EncodeDecode(s[n..]);
      ScalarBytes(s[..n]);
      assert Wide(s) == Units(cp) + rest;
      EncodedUnits(cp, rest);
      assert s == s[..n] + s[n..];
    }
  }

  lemma EncodedUnits(cp: int, rest: wstring)
    requires 0 <= cp <= 0x10ffff && !(0xd800 <= cp <= 0xdfff)
    ensures Encoded(Units(cp) + rest) == CharBytes(cp) + Encoded(rest)
    ensures WellFormed(Units(cp) + rest) <==> WellFormed(rest)
  {
    hide CharBytes;
    var w := Units(cp) + rest;
    assert w[|Units(cp)|..] == rest;
    if cp >= 0x1_0000 {
      assert Pair(w) && PairScalar(w[0], w[1]) == cp;
    }
  }
}
