/** Byte and wide-character sequences and the little-endian integers that the
    update journal, the manifest and the ZIP directory are written with. */
module Bytes {

  type byte = x: int | 0 <= x < 256
  type wchar = x: int | 0 <= x < 0x1_0000
  type wstring = seq<wchar>
  type u16 = x: int | 0 <= x < 0x1_0000
  type u32 = x: int | 0 <= x < 0x1_0000_0000
  type u64 = x: int | 0 <= x < 0x1_0000_0000_0000_0000

  /** Little-endian numbers; each Put is undone by its Get, and each Get by its Put. */
  function Get16(s: seq<byte>): (v: u16)
    requires |s| == 2
  {
    var low: int, high: int := s[0], s[1];
    low + 0x100 * high
  }

  function Get32(s: seq<byte>): (v: u32)
    requires |s| == 4
  {
    var b0: int, b1: int, b2: int, b3: int := s[0], s[1], s[2], s[3];
    b0 + 0x100 * b1 + 0x1_0000 * b2 + 0x100_0000 * b3
  }

  function Put32(v: u32): (s: seq<byte>)
    ensures |s| == 4 && Get32(s) == v
  {
    var v1 := v / 0x100;
    var v2 := v1 / 0x100;
    [v % 0x100, v1 % 0x100, v2 % 0x100, v2 / 0x100]
  }

  function Get64(s: seq<byte>): (v: u64)
    requires |s| == 8
  {
    var low: int, high: int := Get32(s[..4]), Get32(s[4..]);
    low + 0x1_0000_0000 * high
  }

  function Put64(v: u64): (s: seq<byte>)
    ensures |s| == 8 && Get64(s) == v
  {
    var low, high := Put32(v % 0x1_0000_0000), Put32(v / 0x1_0000_0000);
    assert (low + high)[..4] == low && (low + high)[4..] == high;
    low + high
  }

  lemma PutGet32(s: seq<byte>)
    requires |s| == 4
    ensures Put32(Get32(s)) == s
  {
    var v := Get32(s);
    var b1: int, b2: int, b3: int := s[1], s[2], s[3];
    assert v / 0x100 == b1 + 0x100 * (b2 + 0x100 * b3) && v % 0x100 == s[0];
    assert v / 0x100 / 0x100 == b2 + 0x100 * b3;
  }

  lemma PutGet64(s: seq<byte>)
    requires |s| == 8
    ensures Put64(Get64(s)) == s
  {
    var low: int, high: int := Get32(s[..4]), Get32(s[4..]);
    assert Get64(s) % 0x1_0000_0000 == low && Get64(s) / 0x1_0000_0000 == high;
    PutGet32(s[..4]); PutGet32(s[4..]);
    assert s == s[..4] + s[4..];
  }

  // ------------------------------------------------------------ where each byte goes

  /** The byte of weight 256^k of a number. */
  function Digit(v: nat, k: nat): (b: byte)
    decreases k
  {
    if k == 0 then v % 256 else Digit(v / 256, k - 1)
  }

  function Power256(k: nat): (n: nat)
    ensures n > 0
  {
    if k == 0 then 1 else 256 * Power256(k - 1)
  }

  lemma {:induction false} DigitIsWeighted(v: nat, k: nat)
    ensures Digit(v, k) == v / Power256(k) % 256
    decreases k
  {
    if k > 0 {
      DigitIsWeighted(v / 256, k - 1);
      DivOnce(v, Power256(k - 1));
    }
  }

  lemma DivOnce(v: nat, n: nat)
    requires n > 0
    ensures v / (256 * n) == v / 256 / n
  {
    var u := v / 256;
    var q, r := u / n, u % n;
    assert u == n * q + r;
    assert v == 256 * (n * q) + (256 * r + v % 256);
    assert 256 * (n * q) == 256 * n * q;
    Quotient(v, 256 * n, q, 256 * r + v % 256);
  }

  lemma Quotient(v: int, n: int, q: int, r: int)
    requires n > 0 && v == n * q + r && 0 <= r < n
    ensures v / n == q
  {
    Multiple(n, q - v / n);
    assert n * (q - v / n) == v % n - r;
  }

  lemma Multiple(n: int, d: int)
    requires n > 0
    ensures d >= 1 ==> n * d >= n
    ensures d <= -1 ==> n * d <= -n
  {
  }

  /** Numbers are little-endian: byte k of a written number is the one of weight 256^k. */
  lemma Put32At(v: u32, k: nat)
    requires k < 4
    ensures Put32(v)[k] == Digit(v, k)
  {
    SmallDigit(v, k);
  }

  lemma Put64At(v: u64, k: nat)
    requires k < 8
    ensures Put64(v)[k] == Digit(v, k)
  {
    hide Put32, Get32;
    var low, high := v % 0x1_0000_0000, v / 0x1_0000_0000;
    if k < 4 {
      Put32At(low, k);
      LowHalf(v, k);
    } else {
      Put32At(high, k - 4);
      HighHalf(v, k);
    }
  }

  /** What is added above a digit does not change it. */
  lemma {:induction false} AddHigh(w: nat, t: nat, k: nat)
    ensures Digit(w + Power256(k + 1) * t, k) == Digit(w, k)
    decreases k
  {
    var x := Power256(k) * t;
    assert Power256(k + 1) * t == 256 * x;
    assert (w + 256 * x) % 256 == w % 256 && (w + 256 * x) / 256 == w / 256 + x;
    if k > 0 {
      AddHigh(w / 256, t, k - 1);
    }
  }

  lemma LowHalf(v: u64, k: nat)
    requires k < 4
    ensures Digit(v % 0x1_0000_0000, k) == Digit(v, k)
  {
    var w, h := v % 0x1_0000_0000, v / 0x1_0000_0000;
    assert Power256(2) == 0x1_0000;
    assert Power256(4) == 0x1_0000_0000;
    AddHigh(w, if k == 0 then 0x100_0000 * h else if k == 1 then 0x1_0000 * h else if k == 2 then 0x100 * h else h, k);
  }

  lemma SmallDigit(v: nat, k: nat)
    requires k < 4
    ensures Digit(v, k) == (if k == 0 then v else if k == 1 then v / 0x100 else if k == 2 then v / 0x1_0000
                            else v / 0x100_0000) % 0x100
  {
    assert Power256(1) == 0x100;
    assert Power256(2) == 0x1_0000;
    assert Power256(3) == 0x100_0000;
    DigitIsWeighted(v, k);
  }

  lemma HighHalf(v: u64, k: nat)
    requires 4 <= k
    ensures Digit(v / 0x1_0000_0000, k - 4) == Digit(v, k)
  {
    assert v / 0x1_0000_0000 == v / 0x100 / 0x100 / 0x100 / 0x100;
    assert Digit(v, k) == Digit(v / 0x100, k - 1);
    assert Digit(v / 0x100, k - 1) == Digit(v / 0x100 / 0x100, k - 2);
    assert Digit(v / 0x100 / 0x100, k - 2) == Digit(v / 0x100 / 0x100 / 0x100, k - 3);
    assert Digit(v / 0x100 / 0x100 / 0x100, k - 3) == Digit(v / 0x100 / 0x100 / 0x100 / 0x100, k - 4);
  }

  lemma Get16At(s: seq<byte>, k: nat)
    requires |s| == 2 && k < 2
    ensures Digit(Get16(s), k) == s[k]
  {
  }

  lemma Get32At(s: seq<byte>, k: nat)
    requires |s| == 4 && k < 4
    ensures Digit(Get32(s), k) == s[k]
  {
    hide Get32, Put32;
    PutGet32(s);
    Put32At(Get32(s), k);
  }

  lemma Get64At(s: seq<byte>, k: nat)
    requires |s| == 8 && k < 8
    ensures Digit(Get64(s), k) == s[k]
  {
    hide Get64, Put64;
    PutGet64(s);
    Put64At(Get64(s), k);
  }

  /** Wide characters as two bytes each, low byte first, without a terminator. */
  function WideBytes(w: wstring): (s: seq<byte>)
    ensures |s| == 2 * |w|
  {
    if |w| == 0 then [] else [w[0] % 256, w[0] / 256] + WideBytes(w[1..])
  }

  function WideFrom(s: seq<byte>): (w: wstring)
    requires |s| % 2 == 0
    ensures |s| == 2 * |w|
  {
    if |s| == 0 then []
    else
      var high: int, low: int := s[1], s[0];
      [256 * high + low] + WideFrom(s[2..])
  }

  lemma {:induction false} WideFromBytes(w: wstring)
    ensures WideFrom(WideBytes(w)) == w
  {
    if |w| > 0 {
      WideFromBytes(w[1..]);
      assert WideBytes(w)[2..] == WideBytes(w[1..]);
      assert w == [w[0]] + w[1..];
    }
  }

  lemma {:induction false} WideBytesFrom(s: seq<byte>)
    requires |s| % 2 == 0
    ensures WideBytes(WideFrom(s)) == s
  {
    if |s| > 0 {
      WideBytesFrom(s[2..]);
      assert WideFrom(s)[1..] == WideFrom(s[2..]);
      assert s == [s[0], s[1]] + s[2..];
    }
  }

  lemma {:induction false} WideBytesAt(w: wstring, i: nat)
    requires i < |w|
    ensures WideBytes(w)[2 * i] == Digit(w[i], 0) && WideBytes(w)[2 * i + 1] == Digit(w[i], 1)
  {
    assert Digit(w[0], 1) == w[0] / 256;
    if i > 0 {
      WideBytesAt(w[1..], i - 1);
    }
  }

  /** The wide string of an ASCII literal. */
  function W(s: string): (w: wstring)
    ensures |w| == |s|
  {
    seq(|s|, i requires 0 <= i < |s| => s[i] as int % 0x1_0000)
  }

  /** Where c first occurs in w, or |w|. */
  function Find<T(==)>(w: seq<T>, c: T): (k: nat)
    ensures k <= |w|
    ensures k < |w| ==> w[k] == c
    ensures c !in w[..k]
  {
    if |w| == 0 then 0
    else if w[0] == c then 0
    else
      var k := 1 + Find(w[1..], c);
      assert w[..k] == [w[0]] + w[1..][..k - 1];
      k
  }
}
