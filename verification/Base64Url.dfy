/** Base64 with the URL-safe alphabet and without padding (RFC 4648, section 5). */
module Base64Url {
  import opened Bytes
  import opened Wrappers

  type Sextet = x: int | 0 <= x < 64

  function ToChar(v: Sextet): u8 {
    if v < 26 then 65 + v
    else if v < 52 then 97 + (v - 26)
    else if v < 62 then 48 + (v - 52)
    else if v == 62 then 45
    else 95
  }

  function FromChar(b: u8): Option<Sextet> {
    if 65 <= b <= 90 then Some(b - 65)
    else if 97 <= b <= 122 then Some(b - 97 + 26)
    else if 48 <= b <= 57 then Some(b - 48 + 52)
    else if b == 45 then Some(62)
    else if b == 95 then Some(63)
    else None
  }

  // Three bytes as four sextets, and back.

  function First(x: u8): Sextet { x / 4 }

  function Second(x: u8, y: u8): Sextet { x % 4 * 16 + y / 16 }

  function Third(y: u8, z: u8): Sextet { y % 16 * 4 + z / 64 }

  function Fourth(z: u8): Sextet { z % 64 }

  function High(a: Sextet, b: Sextet): u8 { a * 4 + b / 16 }

  function Middle(b: Sextet, c: Sextet): u8 { b % 16 * 16 + c / 4 }

  function Low(c: Sextet, e: Sextet): u8 { c % 4 * 64 + e }

  function Encode(d: seq<u8>): seq<u8> {
    if d == [] then []
    else if |d| == 1 then [ToChar(First(d[0])), ToChar(Second(d[0], 0))]
    else if |d| == 2 then [ToChar(First(d[0])), ToChar(Second(d[0], d[1])), ToChar(Third(d[1], 0))]
    else
      [ToChar(First(d[0])), ToChar(Second(d[0], d[1])), ToChar(Third(d[1], d[2])), ToChar(Fourth(d[2]))] + Encode(d[3..])
  }

  /** The decoder takes no padding, no stray character and no set bits behind the last byte. */
  function Decode(t: seq<u8>): Option<seq<u8>> {
    if t == [] then Some([])
    else if |t| == 1 || FromChar(t[0]).None? || FromChar(t[1]).None? then None
    else
      var (a, b) := (FromChar(t[0]).value, FromChar(t[1]).value);
      if |t| == 2 then (if b % 16 == 0 then Some([High(a, b)]) else None)
      else if FromChar(t[2]).None? then None
      else
        var c := FromChar(t[2]).value;
        if |t| == 3 then (if c % 4 == 0 then Some([High(a, b), Middle(b, c)]) else None)
        else if FromChar(t[3]).None? then None
        else
          match Decode(t[4..])
          case None => None
          case Some(rest) => Some([High(a, b), Middle(b, c), Low(c, FromChar(t[3]).value)] + rest)
  }

  lemma Chars(v: Sextet)
    ensures FromChar(ToChar(v)) == Some(v)
  {
  }

  lemma CharBack(b: u8)
    ensures FromChar(b).Some? ==> ToChar(FromChar(b).value) == b
  {
  }

  lemma HighBack(x: u8, y: u8)
    ensures High(First(x), Second(x, y)) == x && Second(x, 0) % 16 == 0
  {
  }

  lemma LowNibble(q: nat, r: nat)
    requires r < 16
    ensures (q * 16 + r) % 16 == r
  {
  }

  lemma Quarters(q: nat, r: nat)
    requires r < 4
    ensures (q * 4 + r) / 4 == q && (q * 4 + r) % 4 == r
  {
  }

  lemma MiddleBack(x: u8, y: u8, z: u8)
    ensures Middle(Second(x, y), Third(y, z)) == y && Third(y, 0) % 4 == 0
  {
    LowNibble(x % 4, y / 16);
    Quarters(y % 16, z / 64);
    assert Middle(Second(x, y), Third(y, z)) == y / 16 * 16 + y % 16;
  }

  lemma LowBack(y: u8, z: u8)
    ensures Low(Third(y, z), Fourth(z)) == z
  {
    Quarters(y % 16, z / 64);
    assert Low(Third(y, z), Fourth(z)) == z / 64 * 64 + z % 64;
  }

  lemma Regroup(x: u8, y: u8, z: u8)
    ensures High(First(x), Second(x, y)) == x && Middle(Second(x, y), Third(y, z)) == y
    ensures Low(Third(y, z), Fourth(z)) == z
    ensures Second(x, 0) % 16 == 0 && Third(y, 0) % 4 == 0
  {
    HighBack(x, y);
    MiddleBack(x, y, z);
    LowBack(y, z);
  }

  lemma Ungroup(a: Sextet, b: Sextet, c: Sextet, e: Sextet)
    ensures First(High(a, b)) == a && Second(High(a, b), Middle(b, c)) == b
    ensures Third(Middle(b, c), Low(c, e)) == c && Fourth(Low(c, e)) == e
    ensures b % 16 == 0 ==> Second(High(a, b), 0) == b
    ensures c % 4 == 0 ==> Third(Middle(b, c), 0) == c
  {
  }

  lemma DecodeGroup(t: seq<u8>, a: Sextet, b: Sextet, c: Sextet, e: Sextet)
    requires |t| >= 4 && t[..4] == [ToChar(a), ToChar(b), ToChar(c), ToChar(e)]
    ensures match Decode(t[4..])
            case None => Decode(t).None?
            case Some(rest) => Decode(t) == Some([High(a, b), Middle(b, c), Low(c, e)] + rest)
  {
    Chars(a);
    Chars(b);
    Chars(c);
    Chars(e);
    assert forall i :: 0 <= i < 4 ==> t[i] == t[..4][i];
  }

  lemma EncodeGroup(x: u8, y: u8, z: u8, rest: seq<u8>)
    ensures Encode([x, y, z] + rest) ==
            [ToChar(First(x)), ToChar(Second(x, y)), ToChar(Third(y, z)), ToChar(Fourth(z))] + Encode(rest)
  {
    var d := [x, y, z] + rest;
    assert d[3..] == rest && d[0] == x && d[1] == y && d[2] == z;
  }

  lemma DecodeTail(a: Sextet, b: Sextet, c: Sextet)
    ensures b % 16 == 0 ==> Decode([ToChar(a), ToChar(b)]) == Some([High(a, b)])
    ensures c % 4 == 0 ==> Decode([ToChar(a), ToChar(b), ToChar(c)]) == Some([High(a, b), Middle(b, c)])
  {
    Chars(a);
    Chars(b);
    Chars(c);
  }

  lemma SextetsOf(d: seq<u8>) returns (a: Sextet, b: Sextet, c: Sextet)
    requires 1 <= |d| <= 2
    ensures High(a, b) == d[0]
    ensures if |d| == 1 then Encode(d) == [ToChar(a), ToChar(b)] && b % 16 == 0
            else Encode(d) == [ToChar(a), ToChar(b), ToChar(c)] && c % 4 == 0 && Middle(b, c) == d[1]
  {
    var x, y := d[0], if |d| == 2 then d[1] else 0;
    Regroup(x, y, 0);
    a, b, c := First(x), Second(x, y), Third(y, 0);
  }

  lemma ShortDecodes(d: seq<u8>, t: seq<u8>, a: Sextet, b: Sextet, c: Sextet)
    requires 1 <= |d| <= 2 && High(a, b) == d[0]
    requires if |d| == 1 then t == [ToChar(a), ToChar(b)] && b % 16 == 0
             else t == [ToChar(a), ToChar(b), ToChar(c)] && c % 4 == 0 && Middle(b, c) == d[1]
    ensures Decode(t) == Some(d)
  {
    DecodeTail(a, b, c);
    assert d == if |d| == 1 then [d[0]] else [d[0], d[1]];
  }

  /** Every byte string decodes back from its encoding. */
  lemma {:induction false} DecodeEncode(d: seq<u8>)
    ensures Decode(Encode(d)) == Some(d)
  {
    if |d| >= 3 {
      assert d == [d[0], d[1], d[2]] + d[3..];
      EncodeGroup(d[0], d[1], d[2], d[3..]);
      DecodeEncode(d[3..]);
      assert Encode(d)[4..] == Encode(d[3..]);
      DecodeGroup(Encode(d), First(d[0]), Second(d[0], d[1]), Third(d[1], d[2]), Fourth(d[2]));
      Regroup(d[0], d[1], d[2]);
    } else if d != [] {
      var a, b, c := SextetsOf(d);
      ShortDecodes(d, Encode(d), a, b, c);
    }
  }

  lemma GroupAt(t: seq<u8>) returns (a: Sextet, b: Sextet, c: Sextet, e: Sextet)
    requires |t| >= 4 && Decode(t).Some?
    ensures t[..4] == [ToChar(a), ToChar(b), ToChar(c), ToChar(e)] && Decode(t[4..]).Some?
  {
    a, b, c, e := FromChar(t[0]).value, FromChar(t[1]).value, FromChar(t[2]).value, FromChar(t[3]).value;
    CharBack(t[0]);
    CharBack(t[1]);
    CharBack(t[2]);
    CharBack(t[3]);
  }

  lemma TailAt(t: seq<u8>) returns (a: Sextet, b: Sextet, c: Sextet)
    requires 2 <= |t| <= 3 && Decode(t).Some?
    ensures if |t| == 2 then t == [ToChar(a), ToChar(b)] && b % 16 == 0
            else t == [ToChar(a), ToChar(b), ToChar(c)] && c % 4 == 0
  {
    a, b, c := FromChar(t[0]).value, FromChar(t[1]).value, if |t| == 3 then FromChar(t[2]).value else 0;
    CharBack(t[0]);
    CharBack(t[1]);
    if |t| == 3 {
      CharBack(t[2]);
    }
  }

  /** Only the encoding of a byte string decodes to it. */
  lemma {:induction false} EncodeDecode(t: seq<u8>)
    requires Decode(t).Some?
    ensures Encode(Decode(t).value) == t
  {
    if |t| >= 4 {
      var a, b, c, e := GroupAt(t);
      DecodeGroup(t, a, b, c, e);
      EncodeGroup(High(a, b), Middle(b, c), Low(c, e), Decode(t[4..]).value);
      Ungroup(a, b, c, e);
      EncodeDecode(t[4..]);
      assert t == t[..4] + t[4..];
    } else if t != [] {
      var a, b, c := TailAt(t);
      DecodeTail(a, b, c);
      Ungroup(a, b, c, 0);
    }
  }

  /** An encoding is made of the alphabet alone. */
  lemma {:induction false} InAlphabet(d: seq<u8>)
    ensures forall b :: b in Encode(d) ==> FromChar(b).Some?
  {
    if |d| >= 3 {
      InAlphabet(d[3..]);
    }
  }

  // ---------- What an encoding spells ----------

  /** The number that bytes spell, highest first. */
  function Spelled(d: seq<u8>): nat {
    if d == [] then 0 else 256 * Spelled(d[..|d| - 1]) + d[|d| - 1]
  }

  /** `A` to `Z`, `a` to `z`, `0` to `9`, `-` and `_` stand for 0 to 63. */
  predicate StandsFor(b: u8, v: nat) {
    || (65 <= b <= 90 && v == b - 65) || (97 <= b <= 122 && v == b - 71) || (48 <= b <= 57 && v == b + 4)
    || (b == 45 && v == 62) || (b == 95 && v == 63)
  }

  /** Characters and the sextets they stand for. */
  predicate Sextets(t: seq<u8>, vs: seq<Sextet>) {
    |t| == |vs| && forall i :: 0 <= i < |t| ==> StandsFor(t[i], vs[i])
  }

  /** The number that sextets spell, highest first. */
  function Number(vs: seq<Sextet>): nat {
    if vs == [] then 0 else 64 * Number(vs[..|vs| - 1]) + vs[|vs| - 1]
  }

  lemma CharStandsFor(v: Sextet)
    ensures StandsFor(ToChar(v), v)
  {
  }

  lemma SextetsJoin(t: seq<u8>, vs: seq<Sextet>, u: seq<u8>, ws: seq<Sextet>)
    requires Sextets(t, vs) && Sextets(u, ws)
    ensures Sextets(t + u, vs + ws)
  {
  }

  lemma NumberOf4(a: Sextet, b: Sextet, c: Sextet, e: Sextet)
    ensures Number([a, b]) == 64 * a + b && Number([a, b, c]) == 4096 * a + 64 * b + c
    ensures Number([a, b, c, e]) == 262144 * a + 4096 * b + 64 * c + e
  {
    assert [a, b, c, e][..3] == [a, b, c] && [a, b, c][..2] == [a, b] && [a, b][..1] == [a] && [a][..0] == [];
    assert Number([a]) == a;
  }

  lemma SpelledOf3(x: u8, y: u8, z: u8)
    ensures Spelled([x]) == x && Spelled([x, y]) == 256 * x + y && Spelled([x, y, z]) == 65536 * x + 256 * y + z
  {
    assert [x, y, z][..2] == [x, y] && [x, y][..1] == [x] && [x][..0] == [];
  }

  /** What encodings leave open behind the last byte: nothing, two bits, or four. */
  function Filled(n: nat): nat {
    if n % 3 == 0 then 1 else if n % 3 == 2 then 4 else 16
  }

  /** Characters that spell these bytes. */
  predicate Spell(vs: seq<Sextet>, d: seq<u8>) {
    |vs| == (4 * |d| + 2) / 3 && Number(vs) == Spelled(d) * Filled(|d|)
  }

  lemma OneSpells(x: u8) returns (vs: seq<Sextet>)
    ensures Sextets(Encode([x]), vs) && Spell(vs, [x])
  {
    vs := [First(x), Second(x, 0)];
    CharStandsFor(vs[0]);
    CharStandsFor(vs[1]);
    NumberOf4(vs[0], vs[1], 0, 0);
    SpelledOf3(x, 0, 0);
  }

  lemma TwoSpell(x: u8, y: u8) returns (vs: seq<Sextet>)
    ensures Sextets(Encode([x, y]), vs) && Spell(vs, [x, y])
  {
    vs := [First(x), Second(x, y), Third(y, 0)];
    CharStandsFor(vs[0]);
    CharStandsFor(vs[1]);
    CharStandsFor(vs[2]);
    NumberOf4(vs[0], vs[1], vs[2], 0);
    SpelledOf3(x, y, 0);
  }

  lemma ThreeSpell(x: u8, y: u8, z: u8) returns (vs: seq<Sextet>)
    ensures Sextets(Encode([x, y, z]), vs) && Spell(vs, [x, y, z])
  {
    vs := [First(x), Second(x, y), Third(y, z), Fourth(z)];
    CharStandsFor(vs[0]);
    CharStandsFor(vs[1]);
    CharStandsFor(vs[2]);
    CharStandsFor(vs[3]);
    NumberOf4(vs[0], vs[1], vs[2], vs[3]);
    SpelledOf3(x, y, z);
    EncodeGroup(x, y, z, []);
    assert [x, y, z] + [] == [x, y, z];
  }

  /** Three bytes, two or one spell, but for the zero bits behind them, what their characters do. */
  lemma GroupSpells(d: seq<u8>) returns (vs: seq<Sextet>)
    requires 1 <= |d| <= 3
    ensures Sextets(Encode(d), vs) && Spell(vs, d)
  {
    if |d| == 1 {
      assert d == [d[0]];
      vs := OneSpells(d[0]);
    } else if |d| == 2 {
      assert d == [d[0], d[1]];
      vs := TwoSpell(d[0], d[1]);
    } else {
      assert d == [d[0], d[1], d[2]];
      vs := ThreeSpell(d[0], d[1], d[2]);
    }
  }

  lemma GroupJoins(x: u8, y: u8, z: u8, rest: seq<u8>, b: seq<u8>)
    requires Encode(rest + b) == Encode(rest) + Encode(b)
    ensures Encode([x, y, z] + rest + b) == Encode([x, y, z] + rest) + Encode(b)
  {
    var four := [ToChar(First(x)), ToChar(Second(x, y)), ToChar(Third(y, z)), ToChar(Fourth(z))];
    EncodeGroup(x, y, z, rest);
    EncodeGroup(x, y, z, rest + b);
    Associate([x, y, z], rest, b);
    Associate(four, Encode(rest), Encode(b));
  }

  lemma {:induction false} EncodeJoins(a: seq<u8>, b: seq<u8>)
    requires |a| % 3 == 0
    ensures Encode(a + b) == Encode(a) + Encode(b)
  {
    if a == [] {
      assert a + b == b;
    } else {
      EncodeJoins(a[3..], b);
      GroupJoins(a[0], a[1], a[2], a[3..], b);
      assert a == [a[0], a[1], a[2]] + a[3..];
    }
  }

  lemma NumberSnoc(vs: seq<Sextet>, v: Sextet)
    ensures Number(vs + [v]) == 64 * Number(vs) + v
  {
    assert (vs + [v])[..|vs|] == vs;
  }

  lemma NumberBehind4(vs: seq<Sextet>, a: Sextet, b: Sextet, c: Sextet, e: Sextet)
    ensures Number(vs + [a, b]) == 4096 * Number(vs) + (64 * a + b)
    ensures Number(vs + [a, b, c]) == 262144 * Number(vs) + (4096 * a + 64 * b + c)
    ensures Number(vs + [a, b, c, e]) == 16777216 * Number(vs) + (262144 * a + 4096 * b + 64 * c + e)
  {
    NumberSnoc(vs, a);
    NumberSnoc(vs + [a], b);
    NumberSnoc(vs + [a] + [b], c);
    NumberSnoc(vs + [a] + [b] + [c], e);
    assert vs + [a] + [b] == vs + [a, b] && vs + [a] + [b] + [c] == vs + [a, b, c];
    assert vs + [a] + [b] + [c] + [e] == vs + [a, b, c, e];
  }

  lemma NumberBehind(vs: seq<Sextet>, ws: seq<Sextet>)
    requires 2 <= |ws| <= 4
    ensures Number(vs + ws) == Number(vs) * (if |ws| == 4 then 16777216 else if |ws| == 3 then 262144 else 4096) + Number(ws)
  {
    var a, b, c, e := ws[0], ws[1], if |ws| > 2 then ws[2] else 0, if |ws| > 3 then ws[3] else 0;
    NumberBehind4(vs, a, b, c, e);
    NumberOf4(a, b, c, e);
    assert ws == if |ws| == 2 then [a, b] else if |ws| == 3 then [a, b, c] else [a, b, c, e];
  }

  lemma SpelledSnoc(d: seq<u8>, b: u8)
    ensures Spelled(d + [b]) == 256 * Spelled(d) + b
  {
    assert (d + [b])[..|d|] == d;
  }

  lemma SpelledBehind3(d: seq<u8>, x: u8, y: u8, z: u8)
    ensures Spelled(d + [x]) == 256 * Spelled(d) + x && Spelled(d + [x, y]) == 65536 * Spelled(d) + (256 * x + y)
    ensures Spelled(d + [x, y, z]) == 16777216 * Spelled(d) + (65536 * x + 256 * y + z)
  {
    SpelledSnoc(d, x);
    SpelledSnoc(d + [x], y);
    SpelledSnoc(d + [x] + [y], z);
    assert d + [x] + [y] == d + [x, y] && d + [x] + [y] + [z] == d + [x, y, z];
  }

  lemma SpelledBehind(d: seq<u8>, e: seq<u8>)
    requires 1 <= |e| <= 3
    ensures Spelled(d + e) == Spelled(d) * (if |e| == 3 then 16777216 else if |e| == 2 then 65536 else 256) + Spelled(e)
  {
    var x, y, z := e[0], if |e| > 1 then e[1] else 0, if |e| > 2 then e[2] else 0;
    SpelledBehind3(d, x, y, z);
    SpelledOf3(x, y, z);
    assert e == if |e| == 1 then [x] else if |e| == 2 then [x, y] else [x, y, z];
  }

  lemma Weigh(n: nat, m: nat, k: nat)
    requires 1 <= k <= 3
    ensures n * (if k == 3 then 16777216 else if k == 2 then 262144 else 4096) + m * Filled(k)
            == (n * (if k == 3 then 16777216 else if k == 2 then 65536 else 256) + m) * Filled(k)
  {
  }

  lemma GroupMore(front: seq<u8>, group: seq<u8>, us: seq<Sextet>, ws: seq<Sextet>)
    requires |front| % 3 == 0 && 1 <= |group| <= 3 && |ws| == |group| + 1
    requires Number(us) == Spelled(front) && Number(ws) == Spelled(group) * Filled(|group|)
    ensures Number(us + ws) == Spelled(front + group) * Filled(|group|)
  {
    var n, m, k := Spelled(front), Spelled(group), |group|;
    NumberBehind(us, ws);
    SpelledBehind(front, group);
    Weigh(n, m, k);
  }

  lemma GroupsOf(n: nat, g: nat)
    requires g == (if n % 3 == 0 then 3 else n % 3) && n > 0
    ensures g <= n && (n - g) % 3 == 0 && (4 * (n - g) + 2) / 3 + g + 1 == (4 * n + 2) / 3 && Filled(n) == Filled(g)
    ensures Filled(n - g) == 1
  {
  }

  lemma OneGroupMore(front: seq<u8>, group: seq<u8>, us: seq<Sextet>, ws: seq<Sextet>)
    requires |front| % 3 == 0 && Sextets(Encode(front), us) && Sextets(Encode(group), ws)
    ensures Sextets(Encode(front + group), us + ws)
  {
    EncodeJoins(front, group);
    SextetsJoin(Encode(front), us, Encode(group), ws);
  }

  lemma SpellMore(front: seq<u8>, group: seq<u8>, us: seq<Sextet>, ws: seq<Sextet>, d: seq<u8>)
    requires d == front + group && d != [] && |group| == (if |d| % 3 == 0 then 3 else |d| % 3)
    requires Spell(us, front) && Spell(ws, group)
    ensures Spell(us + ws, d)
  {
    GroupsOf(|d|, |group|);
    GroupMore(front, group, us, ws);
  }

  lemma LastGroup(d: seq<u8>) returns (front: seq<u8>, group: seq<u8>)
    requires d != []
    ensures d == front + group && |front| % 3 == 0 && |front| < |d| && 1 <= |group| <= 3
    ensures |group| == if |d| % 3 == 0 then 3 else |d| % 3
  {
    var g := if |d| % 3 == 0 then 3 else |d| % 3;
    front, group := d[..|d| - g], d[|d| - g..];
  }

  /**
   The characters of an encoding, sixes of bits highest first, spell the number that the bytes
   spell, with two zero bits behind it where two bytes are left over and four where one is.
   */
  lemma {:induction false} EncodeSpells(d: seq<u8>) returns (vs: seq<Sextet>)
    ensures Sextets(Encode(d), vs) && Spell(vs, d)
    decreases |d|
  {
    if d == [] {
      vs := [];
    } else {
      var front, group := LastGroup(d);
      var us := EncodeSpells(front);
      var ws := GroupSpells(group);
      OneGroupMore(front, group, us, ws);
      SpellMore(front, group, us, ws, d);
      vs := us + ws;
    }
  }
}
