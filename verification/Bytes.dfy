/**
 Bytes and the little-endian integer fields every wire format of the gateway is made of.
 Casts that Rust writes `as u16` and `as u32` truncate: they are `TruncU16` and `TruncU32`.
 */
module Bytes {

  type u8 = x: int | 0 <= x < 0x100
  type u16 = x: int | 0 <= x < 0x1_0000
  type u32 = x: int | 0 <= x < 0x1_0000_0000

  const U16_MAX := 0xFFFF
  const U32_MAX := 0xFFFF_FFFF

  function TruncU16(n: nat): u16 { n % 0x1_0000 }

  function TruncU32(n: nat): u32 { n % 0x1_0000_0000 }

  /** Byte `i` of a number, counted from the low end. */
  function LeDigit(v: nat, i: nat): u8 {
    if i == 0 then v % 0x100 else LeDigit(v / 0x100, i - 1)
  }

  function PutU16(v: u16): seq<u8> {
    seq(2, i requires 0 <= i < 2 => LeDigit(v, i))
  }

  function PutU32(v: u32): seq<u8> {
    seq(4, i requires 0 <= i < 4 => LeDigit(v, i))
  }

  /** The number a byte string spells, low byte first. */
  function LeValue(s: seq<u8>): nat {
    if s == [] then 0 else s[0] + 0x100 * LeValue(s[1..])
  }

  /** The u16 field at offset `i`. */
  function U16At(s: seq<u8>, i: nat): u16
    requires i + 2 <= |s|
  {
    U16Bound(s[i..i + 2]);
    LeValue(s[i..i + 2])
  }

  /** The u32 field at offset `i`. */
  function U32At(s: seq<u8>, i: nat): u32
    requires i + 4 <= |s|
  {
    U32Bound(s[i..i + 4]);
    LeValue(s[i..i + 4])
  }

  lemma U16Bound(s: seq<u8>)
    requires |s| == 2
    ensures LeValue(s) == s[0] + 0x100 * LeValue(s[1..]) <= U16_MAX
  {
    assert LeValue(s[1..]) == s[1..][0] + 0x100 * LeValue(s[1..][1..]);
  }

  lemma U32Bound(s: seq<u8>)
    requires |s| == 4
    ensures LeValue(s) <= U32_MAX
  {
    U16Bound(s[2..]);
    assert s[1..][1..] == s[2..];
    assert LeValue(s[1..]) == s[1..][0] + 0x100 * LeValue(s[2..]);
  }

  /** What four bytes spell, low byte first. */
  function Four(a: nat, b: nat, c: nat, d: nat): nat {
    a + 256 * b + 65536 * c + 16777216 * d
  }

  /** A field is its bytes, each weighing 256 times what the one before it does. */
  lemma FieldValues(s: seq<u8>, i: nat)
    requires i + 2 <= |s|
    ensures U16At(s, i) == Four(s[i], s[i + 1], 0, 0)
    ensures i + 4 <= |s| ==> U32At(s, i) == Four(s[i], s[i + 1], s[i + 2], s[i + 3])
  {
    TwoBytes(s[i..i + 2]);
    if i + 4 <= |s| {
      var f := s[i..i + 4];
      assert f[1..][1..] == f[2..];
      TwoBytes(f[2..]);
      assert LeValue(f[1..]) == f[1..][0] + 0x100 * LeValue(f[2..]);
    }
  }

  lemma TwoBytes(s: seq<u8>)
    requires |s| == 2
    ensures LeValue(s) == Four(s[0], s[1], 0, 0)
  {
    assert LeValue(s[1..]) == s[1..][0] + 0x100 * LeValue(s[1..][1..]);
  }

  lemma Peel(a: u8, x: nat, e: u8, y: nat)
    ensures a + 256 * x == e + 256 * y <==> a == e && x == y
  {
  }

  lemma Nested(a: nat, b: nat, c: nat, d: nat)
    ensures Four(a, b, c, d) == a + 256 * (b + 256 * (c + 256 * d))
  {
  }

  /** Four bytes are determined by the number they spell. */
  lemma SameFour(a: u8, b: u8, c: u8, d: u8, e: u8, f: u8, g: u8, h: u8)
    ensures Four(a, b, c, d) == Four(e, f, g, h) <==> a == e && b == f && c == g && d == h
  {
    Nested(a, b, c, d);
    Nested(e, f, g, h);
    var z: nat, w: nat := c + 256 * d, g + 256 * h;
    var x: nat, y: nat := b + 256 * z, f + 256 * w;
    Peel(a, x, e, y);
    Peel(b, z, f, w);
    Peel(c, d, g, h);
  }

  /** A cast leaves of a number what is over a multiple of the type's size. */
  lemma CastsTruncate(q: nat, r: nat)
    ensures r < 0x1_0000 ==> TruncU16(0x1_0000 * q + r) == r
    ensures r < 0x1_0000_0000 ==> TruncU32(0x1_0000_0000 * q + r) == r
  {
  }

  lemma LowDigit(r: u8, q: nat)
    ensures (r + 0x100 * q) % 0x100 == r && (r + 0x100 * q) / 0x100 == q
  {
  }

  function Power256(n: nat): nat {
    if n == 0 then 1 else 0x100 * Power256(n - 1)
  }

  /** The digits of a number spell it. */
  lemma {:induction false} DigitsSpell(s: seq<u8>, v: nat)
    requires v < Power256(|s|)
    requires forall i :: 0 <= i < |s| ==> s[i] == LeDigit(v, i)
    ensures LeValue(s) == v
  {
    if s != [] {
      forall i | 0 <= i < |s| - 1 ensures s[1..][i] == LeDigit(v / 0x100, i) {
        assert s[i + 1] == LeDigit(v, i + 1);
      }
      DigitsSpell(s[1..], v / 0x100);
    }
  }

  /** The number spelled by some bytes has them as digits. */
  lemma {:induction false} SpelledDigits(s: seq<u8>, i: nat)
    requires i < |s|
    ensures LeDigit(LeValue(s), i) == s[i]
    decreases i
  {
    LowDigit(s[0], LeValue(s[1..]));
    if i > 0 {
      SpelledDigits(s[1..], i - 1);
    }
  }

  /** The two bytes at `i` are the encoding of `v` exactly when `v` is what is read there. */
  lemma {:induction false} U16Field(s: seq<u8>, i: nat, v: u16)
    requires i + 2 <= |s|
    ensures s[i..i + 2] == PutU16(v) <==> U16At(s, i) == v
  {
    var f := s[i..i + 2];
    U16Bound(f);
    assert Power256(2) == 0x100 * Power256(1) == 0x1_0000;
    if f == PutU16(v) {
      DigitsSpell(f, v);
    }
    SpelledDigits(f, 0);
    SpelledDigits(f, 1);
    assert f == PutU16(LeValue(f));
  }

  /** The four bytes at `i` are the encoding of `v` exactly when `v` is what is read there. */
  lemma {:induction false} U32Field(s: seq<u8>, i: nat, v: u32)
    requires i + 4 <= |s|
    ensures s[i..i + 4] == PutU32(v) <==> U32At(s, i) == v
  {
    var f := s[i..i + 4];
    U32Bound(f);
    assert Power256(2) == 0x100 * Power256(1) == 0x1_0000;
    assert Power256(4) == 0x100 * Power256(3) == 0x1_0000_0000;
    if f == PutU32(v) {
      DigitsSpell(f, v);
    }
    forall k | 0 <= k < 4 ensures f[k] == LeDigit(LeValue(f), k) {
      SpelledDigits(f, k);
    }
    assert f == PutU32(LeValue(f));
  }

  /** Concatenation of a list of byte strings, in order. */
  function Flatten(parts: seq<seq<u8>>): seq<u8> {
    if parts == [] then [] else parts[0] + Flatten(parts[1..])
  }

  lemma FlattenAppend(xs: seq<seq<u8>>, ys: seq<seq<u8>>)
    ensures Flatten(xs + ys) == Flatten(xs) + Flatten(ys)
  {
    if xs == [] {
      assert xs + ys == ys;
    } else {
      FlattenAppend(xs[1..], ys);
      assert (xs + ys)[1..] == xs[1..] + ys;
    }
  }

  lemma Associate<T>(a: seq<T>, b: seq<T>, c: seq<T>)
    ensures a + b + c == a + (b + c)
  {
  }

  // ---------- Pieces side by side, each found where it lies ----------

  lemma TailSlice(b: seq<u8>, i: nat, j: nat, k: nat)
    requires j <= k && i + k <= |b|
    ensures b[i..][j..k] == b[i + j..i + k]
  {
    var s, t := b[i..][j..k], b[i + j..i + k];
    assert forall x :: 0 <= x < k - j ==> s[x] == t[x];
  }

  lemma FieldInTail(b: seq<u8>, i: nat, j: nat)
    requires i <= |b|
    ensures i + j + 2 <= |b| ==> U16At(b[i..], j) == U16At(b, i + j)
    ensures i + j + 4 <= |b| ==> U32At(b[i..], j) == U32At(b, i + j)
  {
    if i + j + 2 <= |b| {
      TailSlice(b, i, j, j + 2);
    }
    if i + j + 4 <= |b| {
      TailSlice(b, i, j, j + 4);
    }
  }

  lemma InFront(t: seq<u8>, u: seq<u8>, i: nat, j: nat)
    requires i <= j <= |t|
    ensures (t + u)[i..j] == t[i..j]
  {
    assert forall k :: 0 <= k < j - i ==> (t + u)[i..j][k] == t[i..j][k];
  }

  lemma Beside2(t: seq<u8>, u: seq<u8>, i: nat, j: nat)
    requires i == |t| && j == i + |u|
    ensures |t + u| == j && (t + u)[i..] == u && (t + u)[i..j] == u && (t + u)[..i] == t == (t + u)[0..i]
  {
  }

  lemma Beside3(a: seq<u8>, b: seq<u8>, c: seq<u8>, i: nat, j: nat, k: nat)
    requires i == |a| && j == i + |b| && k == j + |c|
    ensures var p := a + b + c;
            |p| == k && p[0..i] == a && p[i..j] == b && p[j..k] == c == p[j..]
  {
    Beside2(a, b, i, j);
    Beside2(a + b, c, j, k);
    InFront(a + b, c, 0, i);
    InFront(a + b, c, i, j);
  }

  lemma Beside4(a: seq<u8>, b: seq<u8>, c: seq<u8>, d: seq<u8>, i: nat, j: nat, k: nat, l: nat)
    requires i == |a| && j == i + |b| && k == j + |c| && l == k + |d|
    ensures var p := a + b + c + d;
            |p| == l && p[0..i] == a && p[i..j] == b && p[j..k] == c && p[k..l] == d == p[k..]
  {
    Beside3(a, b, c, i, j, k);
    Beside2(a + b + c, d, k, l);
    InFront(a + b + c, d, 0, i);
    InFront(a + b + c, d, i, j);
    InFront(a + b + c, d, j, k);
  }

  lemma Beside5(a: seq<u8>, b: seq<u8>, c: seq<u8>, d: seq<u8>, e: seq<u8>, i: nat, j: nat, k: nat, l: nat, m: nat)
    requires i == |a| && j == i + |b| && k == j + |c| && l == k + |d| && m == l + |e|
    ensures var p := a + b + c + d + e;
            |p| == m && p[0..i] == a && p[i..j] == b && p[j..k] == c && p[k..l] == d && p[l..m] == e == p[l..]
  {
    Beside4(a, b, c, d, i, j, k, l);
    var t := a + b + c + d;
    Beside2(t, e, l, m);
    InFront(t, e, 0, i);
    InFront(t, e, i, j);
    InFront(t, e, j, k);
    InFront(t, e, k, l);
  }
}
