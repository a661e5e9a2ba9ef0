/** UTF-16 strings in little-endian bytes, as TSG messages carry names (RFC 2781, sections 2.1 and 2.2). */
module Utf16 {
  import opened Bytes
  import opened Wrappers

  /** A Unicode scalar value: any code point but the surrogates. */
  type Scalar = x: int | 0 <= x < 0xD800 || 0xE000 <= x < 0x11_0000

  /** A Rust string, as the scalars it holds. */
  type Str = seq<Scalar>

  predicate IsHigh(u: u16) { 0xD800 <= u < 0xDC00 }

  predicate IsLow(u: u16) { 0xDC00 <= u < 0xE000 }

  function EncodeScalar(c: Scalar): seq<u16> {
    if c < 0x1_0000 then [c]
    else [0xD800 + (c - 0x1_0000) / 0x400, 0xDC00 + (c - 0x1_0000) % 0x400]
  }

  function Encode(s: Str): seq<u16> {
    if s == [] then [] else EncodeScalar(s[0]) + Encode(s[1..])
  }

  function Combine(high: u16, low: u16): Scalar
    requires IsHigh(high) && IsLow(low)
  {
    0x1_0000 + 0x400 * (high as int - 0xD800) + (low - 0xDC00)
  }

  /** `String::from_utf16`: an unpaired surrogate makes the whole string invalid. */
  function Decode(u: seq<u16>): Option<Str> {
    if u == [] then Some([])
    else if !IsHigh(u[0]) && !IsLow(u[0]) then
      match Decode(u[1..]) case Some(s) => Some([u[0]] + s) case None => None
    else if IsHigh(u[0]) && |u| >= 2 && IsLow(u[1]) then
      match Decode(u[2..]) case Some(s) => Some([Combine(u[0], u[1])] + s) case None => None
    else None
  }

  /** A surrogate pair and the scalar it stands for determine each other. */
  lemma PairOfScalar(c: Scalar)
    requires c >= 0x1_0000
    ensures var u := EncodeScalar(c);
            |u| == 2 && IsHigh(u[0]) && IsLow(u[1]) && Combine(u[0], u[1]) == c
  {
  }

  lemma ScalarOfPair(high: u16, low: u16)
    requires IsHigh(high) && IsLow(low)
    ensures EncodeScalar(Combine(high, low)) == [high, low]
  {
  }

  lemma DecodePair(high: u16, low: u16, c: Scalar, rest: seq<u16>, s: Str)
    requires IsHigh(high) && IsLow(low) && Combine(high, low) == c && Decode(rest) == Some(s)
    ensures Decode([high, low] + rest) == Some([c] + s)
  {
    assert ([high, low] + rest)[2..] == rest;
  }

  lemma DecodeUnit(c: u16, rest: seq<u16>, s: Str)
    requires !IsHigh(c) && !IsLow(c) && Decode(rest) == Some(s)
    ensures Decode([c] + rest) == Some([c] + s)
  {
    assert ([c] + rest)[1..] == rest;
  }

  lemma {:induction false} DecodeEncode(s: Str)
    ensures Decode(Encode(s)) == Some(s)
  {
    if s != [] {
      DecodeEncode(s[1..]);
      assert s == [s[0]] + s[1..];
      if s[0] >= 0x1_0000 {
        var u := EncodeScalar(s[0]);
        PairOfScalar(s[0]);
        assert u == [u[0], u[1]];
        DecodePair(u[0], u[1], s[0], Encode(s[1..]), s[1..]);
      } else {
        DecodeUnit(s[0], Encode(s[1..]), s[1..]);
      }
    }
  }

  lemma DecodeHead(u: seq<u16>, k: nat)
    requires u != [] && Decode(u).Some? && k == (if IsHigh(u[0]) then 2 else 1)
    ensures k <= |u| && Decode(u[k..]).Some? && (k == 2 ==> IsLow(u[1]))
    ensures Decode(u).value[1..] == Decode(u[k..]).value
    ensures k == 1 ==> !IsLow(u[0])
    ensures Decode(u).value[0] == if k == 2 then Combine(u[0], u[1]) else u[0]
  {
  }

  lemma EncodeHead(u: seq<u16>, k: nat, c: Scalar)
    requires u != [] && k == (if IsHigh(u[0]) then 2 else 1) && k <= |u|
    requires if k == 2 then IsLow(u[1]) && c == Combine(u[0], u[1]) else c == u[0] && !IsLow(u[0])
    ensures EncodeScalar(c) == u[..k]
  {
    if k == 2 {
      ScalarOfPair(u[0], u[1]);
    }
  }

  lemma {:induction false} EncodeDecode(u: seq<u16>)
    ensures Decode(u).Some? ==> Encode(Decode(u).value) == u
  {
    if u != [] && Decode(u).Some? {
      var k := if IsHigh(u[0]) then 2 else 1;
      DecodeHead(u, k);
      EncodeHead(u, k, Decode(u).value[0]);
      EncodeDecode(u[k..]);
      assert u == u[..k] + u[k..];
    }
  }

  /** One unit for a scalar below 2^16, else a high and a low surrogate, ten bits of what is above it each. */
  predicate UnitsOf(c: Scalar, u: seq<u16>) {
    || (|u| == 1 && u[0] == c)
    || (|u| == 2 && 0xD800 <= u[0] < 0xDC00 <= u[1] < 0xE000
        && c == 65536 + 1024 * (u[0] as int - 0xD800) + (u[1] as int - 0xDC00))
  }

  /** An encoding is the units of the scalars, one after the other, and nothing else is. */
  lemma {:induction false} EncodesScalars(c: Scalar, s: Str, u: seq<u16>)
    ensures UnitsOf(c, u) <==> u == EncodeScalar(c)
    ensures Encode([]) == [] && (UnitsOf(c, u) ==> Encode([c] + s) == u + Encode(s))
  {
    assert ([c] + s)[1..] == s;
    if |u| == 2 {
      assert u == [u[0], u[1]];
    } else if |u| == 1 {
      assert u == [u[0]];
    }
    if u != EncodeScalar(c) && |u| == 2 && c >= 0x1_0000 && UnitsOf(c, u) {
      ScalarOfPair(u[0], u[1]);
    }
  }

  function UnitsToBytes(u: seq<u16>): seq<u8> {
    if u == [] then [] else PutU16(u[0]) + UnitsToBytes(u[1..])
  }

  function BytesToUnits(b: seq<u8>): seq<u16>
    requires |b| % 2 == 0
  {
    if b == [] then [] else [U16At(b, 0)] + BytesToUnits(b[2..])
  }

  lemma {:induction false} UnitsReadBack(u: seq<u16>)
    ensures |UnitsToBytes(u)| == 2 * |u| && BytesToUnits(UnitsToBytes(u)) == u
  {
    if u != [] {
      UnitsReadBack(u[1..]);
      var b := UnitsToBytes(u);
      assert b[2..] == UnitsToBytes(u[1..]) && b[0..2] == PutU16(u[0]);
      U16Field(b, 0, u[0]);
    }
  }

  lemma UnitsLength(b: seq<u8>)
    requires |b| % 2 == 0
    ensures |BytesToUnits(b)| == |b| / 2
  {
  }

  /** The units before the first zero: all of them when there is none. */
  function CutAtNul(u: seq<u16>): seq<u16> {
    if u == [] || u[0] == 0 then [] else [u[0]] + CutAtNul(u[1..])
  }

  lemma CutAtNulShortens(u: seq<u16>)
    ensures |CutAtNul(u)| <= |u| && 0 !in CutAtNul(u)
  {
  }

  /** `read_utf16le`: an odd length or an unpaired surrogate is an error. */
  function ReadUtf16Le(data: seq<u8>): Option<Str> {
    if |data| % 2 != 0 then None else Decode(CutAtNul(BytesToUnits(data)))
  }

  lemma {:induction false} UnitAt(b: seq<u8>, i: nat)
    requires |b| % 2 == 0 && 2 * i < |b|
    ensures |BytesToUnits(b)| == |b| / 2 && BytesToUnits(b)[i] == U16At(b, 2 * i)
    decreases i
  {
    UnitsLength(b);
    if i > 0 {
      UnitAt(b[2..], i - 1);
      TailSlice(b, 2, 2 * i - 2, 2 * i);
    }
  }

  lemma {:induction false} CutExactly(u: seq<u16>, c: seq<u16>)
    ensures CutAtNul(u) == c <==> c <= u && 0 !in c && (|c| == |u| || u[|c|] == 0)
  {
    if u != [] && u[0] != 0 {
      if c != [] {
        CutExactly(u[1..], c[1..]);
        assert c == [c[0]] + c[1..];
        assert c <= u ==> c[1..] <= u[1..];
        assert c[0] == u[0] && c[1..] <= u[1..] ==> c <= u;
      }
    }
  }

  /** The bytes are the units of `s`, none of them zero, and then nothing or a zero unit and anything. */
  predicate NameStands(data: seq<u8>, s: Str) {
    var u := Encode(s);
    && |data| % 2 == 0 && 2 * |u| <= |data|
    && (forall i :: 0 <= i < |u| ==> U16At(data, 2 * i) == u[i] != 0)
    && (2 * |u| == |data| || U16At(data, 2 * |u|) == 0)
  }

  /** Bytes are read as `s` exactly if they are its units up to their end or a zero unit. */
  lemma {:induction false} ReadsExactly(data: seq<u8>, s: Str)
    ensures ReadUtf16Le(data) == Some(s) <==> NameStands(data, s)
  {
    if |data| % 2 == 0 {
      var u, c := BytesToUnits(data), Encode(s);
      UnitsLength(data);
      forall i | 0 <= i < |u| ensures u[i] == U16At(data, 2 * i) {
        UnitAt(data, i);
      }
      CutExactly(u, c);
      DecodeEncode(s);
      EncodeDecode(CutAtNul(u));
      assert c <= u <==> |c| <= |u| && forall i :: 0 <= i < |c| ==> c[i] == u[i];
    }
  }

  /** `encode_utf16le`: the units low byte first, and a terminating zero unit. */
  function Utf16Le(s: Str): seq<u8> {
    UnitsToBytes(Encode(s)) + [0, 0]
  }

  method EncodeUtf16Le(s: Str) returns (out: seq<u8>)
    ensures out == Utf16Le(s)
  {
    var units := Encode(s);
    out := [];
    for i := 0 to |units|
      invariant out + UnitsToBytes(units[i..]) == UnitsToBytes(units)
    {
      assert units[i..][1..] == units[i + 1..];
      out := out + PutU16(units[i]);
    }
    out := out + [0, 0];
  }

  /** The scalars before the first NUL. */
  function StrBeforeNul(s: Str): Str {
    if s == [] || s[0] == 0 then [] else [s[0]] + StrBeforeNul(s[1..])
  }

  lemma StrBeforeNulAll(s: Str)
    ensures StrBeforeNul(s) == s <==> 0 !in s
  {
    if s != [] && s[0] != 0 {
      StrBeforeNulAll(s[1..]);
      assert s == [s[0]] + s[1..];
    }
  }

  lemma CutCons(u: u16, t: seq<u16>)
    requires u != 0
    ensures CutAtNul([u] + t) == [u] + CutAtNul(t)
  {
    assert ([u] + t)[1..] == t;
  }

  lemma {:induction false} CutAtNulSkips(head: seq<u16>, rest: seq<u16>)
    requires 0 !in head
    ensures CutAtNul(head + rest) == head + CutAtNul(rest)
  {
    if head == [] {
      assert head + rest == rest;
    } else {
      var t := head[1..];
      assert head == [head[0]] + t;
      CutAtNulSkips(t, rest);
      Associate([head[0]], t, rest);
      CutCons(head[0], t + rest);
      Associate([head[0]], t, CutAtNul(rest));
    }
  }

  /** No unit of a scalar but NUL is zero, so cutting units is cutting scalars. */
  lemma {:induction false} NulCutsAlike(s: Str)
    ensures CutAtNul(Encode(s) + [0]) == Encode(StrBeforeNul(s))
  {
    if s != [] && s[0] != 0 {
      NulCutsAlike(s[1..]);
      var head, rest := EncodeScalar(s[0]), Encode(s[1..]) + [0];
      assert Encode(s) + [0] == head + rest;
      CutAtNulSkips(head, rest);
      var t := StrBeforeNul(s);
      assert t[1..] == StrBeforeNul(s[1..]) && Encode(t) == head + Encode(t[1..]);
    }
  }

  lemma UnitsAppendZero(u: seq<u16>)
    ensures UnitsToBytes(u + [0]) == UnitsToBytes(u) + [0, 0]
  {
    assert LeDigit(0, 1) == 0 && PutU16(0) == [0, 0];
    if u != [] {
      UnitsAppendZero(u[1..]);
      assert (u + [0])[1..] == u[1..] + [0];
    }
  }

  lemma TerminatedUnits(s: Str)
    ensures |Utf16Le(s)| == 2 * (|Encode(s)| + 1)
    ensures BytesToUnits(Utf16Le(s)) == Encode(s) + [0]
  {
    UnitsAppendZero(Encode(s));
    UnitsReadBack(Encode(s) + [0]);
  }

  lemma ReadOf(data: seq<u8>, u: seq<u16>, s: Str)
    requires |data| % 2 == 0 && BytesToUnits(data) == u && CutAtNul(u) == Encode(s)
    ensures ReadUtf16Le(data) == Some(s)
  {
    DecodeEncode(s);
  }

  /** Every string decodes from its encoding up to its first NUL, surrogate pairs included. */
  lemma {:induction false} ReadBackUntilNul(s: Str)
    ensures |Utf16Le(s)| == 2 * |Encode(s)| + 2
    ensures ReadUtf16Le(Utf16Le(s)) == Some(StrBeforeNul(s))
  {
    TerminatedUnits(s);
    NulCutsAlike(s);
    ReadOf(Utf16Le(s), Encode(s) + [0], StrBeforeNul(s));
  }

  /** Whatever is read has no NUL and took at least its own encoding's bytes. */
  lemma {:induction false} ReadIsShort(data: seq<u8>)
    ensures ReadUtf16Le(data).Some? ==>
              var s := ReadUtf16Le(data).value; 0 !in s && 2 * |Encode(s)| <= |data|
  {
    if ReadUtf16Le(data).Some? {
      var units := BytesToUnits(data);
      UnitsLength(data);
      CutAtNulShortens(units);
      EncodeDecode(CutAtNul(units));
      NulEncodesNul(ReadUtf16Le(data).value);
    }
  }

  lemma NulEncodesNul(s: Str)
    ensures 0 in s ==> 0 in Encode(s)
  {
    if s != [] && s[0] != 0 {
      NulEncodesNul(s[1..]);
    }
  }
}
