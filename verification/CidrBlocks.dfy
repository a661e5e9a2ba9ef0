/**
 CIDR blocks over 32-bit and 128-bit addresses. Words are naturals below 2^w; the machine
 operations on them, `&` and a truncating `<<`, are written out bit by bit.
 */
module CidrBlocks {
  import opened Bytes

  function Pow2(n: nat): nat {
    if n == 0 then 1 else 2 * Pow2(n - 1)
  }

  function BitAnd(x: nat, y: nat): nat {
    if x == 0 then 0
    else (if x % 2 == 1 && y % 2 == 1 then 1 else 0) + 2 * BitAnd(x / 2, y / 2)
  }

  function Double(x: nat, times: nat): nat {
    if times == 0 then x else 2 * Double(x, times - 1)
  }

  function Halve(x: nat, times: nat): nat {
    if times == 0 then x else Halve(x / 2, times - 1)
  }

  /** The `w` low bits of a number. */
  function LowBits(x: nat, w: nat): nat {
    if w == 0 then 0 else x % 2 + 2 * LowBits(x / 2, w - 1)
  }

  /** `x << k` on words of `w` bits: what leaves the word is lost. */
  function ShiftLeft(w: nat, x: nat, k: nat): nat {
    LowBits(Double(x, k), w)
  }

  const V4_BITS: nat := 32
  const V6_BITS: nat := 128

  /** 2^w - 1, the largest word. */
  function AllOnes(w: nat): nat {
    if w == 0 then 0 else 2 * AllOnes(w - 1) + 1
  }

  /** `ipv4_mask` and `ipv6_mask`: a shift by the full width is never asked for. */
  function Mask(w: nat, prefix: nat): nat
    requires prefix <= w
  {
    if prefix == 0 then 0 else ShiftLeft(w, AllOnes(w), w - prefix)
  }

  datatype IpAddr = V4(bits: nat) | V6(bits: nat) {
    function Width(): nat { if V4? then V4_BITS else V6_BITS }

    predicate Valid() { bits < Pow2(Width()) }
  }

  datatype Cidr = Cidr(network: IpAddr, prefix: u8) {
    predicate Valid() { network.Valid() && prefix <= network.Width() }

    predicate Contains(ip: IpAddr)
      requires Valid()
    {
      match (network, ip)
      case (V4(n), V4(a)) => BitAnd(n, Mask(V4_BITS, prefix)) == BitAnd(a, Mask(V4_BITS, prefix))
      case (V6(n), V6(a)) => BitAnd(n, Mask(V6_BITS, prefix)) == BitAnd(a, Mask(V6_BITS, prefix))
      case _ => false
    }

    /** How many address bits the prefix leaves open. */
    function OpenBits(): nat
      requires Valid()
    {
      network.Width() - prefix
    }
  }

  // ---------- Halving is division by a power of two ----------

  lemma QuotientUnique(x: nat, d: nat, q: nat, r: nat)
    requires r < d && x == q * d + r
    ensures x / d == q
  {
    var e: int := x / d - q;
    assert e * d == r - x % d;
    assert e * d < d && e * d + d > 0;
  }

  lemma HalfThenQuotient(x: nat, d: nat)
    requires d > 0
    ensures x / 2 / d == x / (2 * d)
  {
    var q, r := x / 2 / d, x / 2 % d;
    assert x == q * (2 * d) + (2 * r + x % 2);
    QuotientUnique(x, 2 * d, q, 2 * r + x % 2);
  }

  lemma Pow2Positive(n: nat)
    ensures Pow2(n) >= 1
  {
  }

  lemma {:induction false} HalveIsQuotient(x: nat, k: nat)
    ensures Pow2(k) >= 1 && Halve(x, k) == x / Pow2(k)
    decreases k
  {
    Pow2Positive(k);
    if k > 0 {
      HalveIsQuotient(x / 2, k - 1);
      HalfThenQuotient(x, Pow2(k - 1));
    }
  }

  lemma HalveBelow(x: nat, p: nat, k: nat)
    requires x < Pow2(p + k)
    ensures Halve(x, k) < Pow2(p)
    decreases k
  {
    if k > 0 {
      HalveBelow(x / 2, p, k - 1);
    }
  }

  lemma MoreHalving(x: nat, y: nat, k: nat, j: nat)
    requires Halve(x, k) == Halve(y, k) && k <= j
    ensures Halve(x, j) == Halve(y, j)
    decreases k
  {
    if k > 0 {
      MoreHalving(x / 2, y / 2, k - 1, j - 1);
    }
  }

  // ---------- What masking does ----------

  lemma AndAllOnes(x: nat, p: nat)
    requires x < Pow2(p)
    ensures BitAnd(x, AllOnes(p)) == x
  {
    if x > 0 {
      AndAllOnes(x / 2, p - 1);
    }
  }

  lemma AndDoubled(x: nat, m: nat, k: nat)
    ensures BitAnd(x, Double(m, k)) == Double(BitAnd(Halve(x, k), m), k)
    decreases k
  {
    if k > 0 {
      AndDoubled(x / 2, m, k - 1);
      assert Double(m, k) / 2 == Double(m, k - 1) && Double(m, k) % 2 == 0;
    }
  }

  lemma {:induction false} LowBitsOfOnes(n: nat, w: nat)
    requires w <= n
    ensures LowBits(AllOnes(n), w) == AllOnes(w)
  {
    if w > 0 {
      assert AllOnes(n) / 2 == AllOnes(n - 1) && AllOnes(n) % 2 == 1;
      LowBitsOfOnes(n - 1, w - 1);
    }
  }

  lemma LowBitsOfDoubled(n: nat, k: nat, w: nat)
    requires k <= w <= n + k
    ensures LowBits(Double(AllOnes(n), k), w) == Double(AllOnes(w - k), k)
    decreases k
  {
    if k == 0 {
      LowBitsOfOnes(n, w);
    } else {
      assert Double(AllOnes(n), k) / 2 == Double(AllOnes(n), k - 1);
      LowBitsOfDoubled(n, k - 1, w - 1);
    }
  }

  lemma DoubleZero(k: nat)
    ensures Double(0, k) == 0
  {
  }

  lemma {:induction false} AllOnesIsLargest(w: nat)
    ensures AllOnes(w) == Pow2(w) - 1
  {
    if w > 0 {
      AllOnesIsLargest(w - 1);
    }
  }

  lemma {:induction false} DoubleOfOnes(n: nat, k: nat)
    ensures Double(AllOnes(n), k) == Pow2(n + k) - Pow2(k)
  {
    if k == 0 {
      AllOnesIsLargest(n);
    } else {
      DoubleOfOnes(n, k - 1);
    }
  }

  /**
   The shift is of the largest word, 2^w - 1, and the mask is `prefix` ones followed by zeros,
   which is 2^w - 2^(w - prefix).
   */
  lemma {:induction false} MaskIsLeadingOnes(w: nat, prefix: nat)
    requires prefix <= w
    ensures AllOnes(w) == Pow2(w) - 1
    ensures Mask(w, prefix) == Double(AllOnes(prefix), w - prefix) == Pow2(w) - Pow2(w - prefix)
  {
    AllOnesIsLargest(w);
    DoubleOfOnes(prefix, w - prefix);
    if prefix == 0 {
      DoubleZero(w);
    } else {
      LowBitsOfDoubled(w, w - prefix, w);
    }
  }

  /** Masking a word clears exactly the bits below the prefix. */
  lemma {:induction false} MaskedWord(w: nat, prefix: nat, x: nat)
    requires prefix <= w && x < Pow2(w)
    ensures BitAnd(x, Mask(w, prefix)) == Double(Halve(x, w - prefix), w - prefix)
  {
    MaskIsLeadingOnes(w, prefix);
    AndDoubled(x, AllOnes(prefix), w - prefix);
    HalveBelow(x, prefix, w - prefix);
    AndAllOnes(Halve(x, w - prefix), prefix);
  }

  lemma DoubleInjective(a: nat, b: nat, k: nat)
    requires Double(a, k) == Double(b, k)
    ensures a == b
  {
  }

  /** Equal but for the `open` low bits, that is in the quotients by 2^open. */
  predicate SameLeading(x: nat, y: nat, open: nat) {
    Pow2Positive(open);
    x / Pow2(open) == y / Pow2(open)
  }

  /** Two 32-bit or two 128-bit addresses that agree in their first `prefix` bits. */
  predicate SameNetwork(a: IpAddr, b: IpAddr, prefix: nat) {
    match (a, b)
    case (V4(x), V4(y)) => prefix <= 32 && SameLeading(x, y, 32 - prefix)
    case (V6(x), V6(y)) => prefix <= 128 && SameLeading(x, y, 128 - prefix)
    case _ => false
  }

  /** Containment is agreement of the leading bits. */
  lemma {:induction false} ContainsIsLeadingBits(c: Cidr, ip: IpAddr)
    requires c.Valid() && ip.Valid()
    ensures c.Contains(ip) <==> SameNetwork(c.network, ip, c.prefix)
  {
    HalveIsQuotient(c.network.bits, c.OpenBits());
    HalveIsQuotient(ip.bits, c.OpenBits());
    ContainsByHalving(c, ip);
  }

  lemma {:induction false} ContainsByHalving(c: Cidr, ip: IpAddr)
    requires c.Valid() && ip.Valid()
    ensures c.Contains(ip) <==>
            c.network.V4? == ip.V4?
            && Halve(c.network.bits, c.OpenBits()) == Halve(ip.bits, c.OpenBits())
  {
    if c.network.V4? == ip.V4? {
      MaskedWordsAgree(ip.Width(), c.prefix, c.network.bits, ip.bits);
    }
  }

  lemma MaskedWordsAgree(w: nat, prefix: nat, x: nat, y: nat)
    requires prefix <= w && x < Pow2(w) && y < Pow2(w)
    ensures BitAnd(x, Mask(w, prefix)) == BitAnd(y, Mask(w, prefix)) <==> Halve(x, w - prefix) == Halve(y, w - prefix)
  {
    MaskedWord(w, prefix, x);
    MaskedWord(w, prefix, y);
    if BitAnd(x, Mask(w, prefix)) == BitAnd(y, Mask(w, prefix)) {
      DoubleInjective(Halve(x, w - prefix), Halve(y, w - prefix), w - prefix);
    }
  }

  /** Any member of a block names the same block: containment is an equivalence of addresses. */
  lemma {:induction false} ContainsIsEquivalence(a: IpAddr, b: IpAddr, c: IpAddr, prefix: u8)
    requires a.Valid() && b.Valid() && c.Valid()
    requires prefix <= a.Width() && prefix <= b.Width() && prefix <= c.Width()
    ensures Cidr(a, prefix).Contains(a)
    ensures Cidr(a, prefix).Contains(b) ==> Cidr(b, prefix).Contains(a)
    ensures Cidr(a, prefix).Contains(b) && Cidr(b, prefix).Contains(c) ==> Cidr(a, prefix).Contains(c)
  {
    ContainsByHalving(Cidr(a, prefix), a);
    ContainsByHalving(Cidr(a, prefix), b);
    ContainsByHalving(Cidr(b, prefix), a);
    ContainsByHalving(Cidr(b, prefix), c);
    ContainsByHalving(Cidr(a, prefix), c);
  }

  /** The shortest prefix accepts the whole family, the longest only the network itself. */
  lemma {:induction false} ExtremePrefixes(c: Cidr, ip: IpAddr)
    requires c.Valid() && ip.Valid() && c.network.V4? == ip.V4?
    ensures c.prefix == 0 ==> c.Contains(ip)
    ensures c.prefix == (if c.network.V4? then 32 else 128) ==> (c.Contains(ip) <==> ip == c.network)
  {
    ContainsByHalving(c, ip);
    HalveAll(c.network.bits, c.network.Width());
    HalveAll(ip.bits, c.network.Width());
  }

  lemma HalveAll(x: nat, w: nat)
    requires x < Pow2(w)
    ensures Halve(x, w) == 0 && Halve(x, 0) == x
  {
    HalveBelow(x, 0, w);
  }

  /** A longer prefix of the same network accepts a subset. */
  lemma {:induction false} LongerPrefixNarrows(network: IpAddr, short: u8, long: u8, ip: IpAddr)
    requires network.Valid() && ip.Valid() && short <= long <= network.Width()
    ensures Cidr(network, long).Contains(ip) ==> Cidr(network, short).Contains(ip)
  {
    var l, s := Cidr(network, long), Cidr(network, short);
    ContainsByHalving(l, ip);
    ContainsByHalving(s, ip);
    if l.Contains(ip) {
      MoreHalving(network.bits, ip.bits, l.OpenBits(), s.OpenBits());
    }
  }

  // ---------- How many addresses a block has ----------

  /** The `n` numbers from `lo` on. */
  ghost function Interval(lo: nat, n: nat): set<nat> {
    if n == 0 then {} else Interval(lo, n - 1) + {lo + n - 1}
  }

  lemma IntervalSize(lo: nat, n: nat)
    ensures forall x :: x in Interval(lo, n) <==> lo <= x < lo + n
    ensures |Interval(lo, n)| == n
  {
  }

  lemma HalveInverse(x: nat, q: nat, k: nat)
    ensures Halve(x, k) == q <==> Double(q, k) <= x < Double(q, k) + Pow2(k)
    decreases k
  {
    if k > 0 {
      HalveInverse(x / 2, q, k - 1);
    }
  }

  lemma DoubleBelow(q: nat, p: nat, k: nat)
    requires q < Pow2(p)
    ensures Double(q, k) + Pow2(k) <= Pow2(p + k)
    decreases k
  {
    if k > 0 {
      DoubleBelow(q, p, k - 1);
    }
  }

  /** The words of `p + k` bits that share the leading `p` bits of `n`. */
  lemma WordsWithPrefix(n: nat, p: nat, k: nat, x: nat)
    requires n < Pow2(p + k)
    ensures var lo := Double(Halve(n, k), k);
            x < Pow2(p + k) && Halve(n, k) == Halve(x, k) <==> lo <= x < lo + Pow2(k)
  {
    HalveInverse(x, Halve(n, k), k);
    HalveBelow(n, p, k);
    DoubleBelow(Halve(n, k), p, k);
  }

  /** The addresses of the network's own family that a block accepts. */
  ghost function Block(c: Cidr): set<nat>
    requires c.Valid()
  {
    set x: nat | 0 <= x < Pow2(c.network.Width())
                 && c.Contains(if c.network.V4? then V4(x) else V6(x))
  }

  /** A block is one aligned run of exactly 2^(w - prefix) addresses. */
  lemma {:induction false} BlockIsAlignedRun(c: Cidr)
    requires c.Valid()
    ensures var k := c.OpenBits();
            Block(c) == Interval(Double(Halve(c.network.bits, k), k), Pow2(k)) && |Block(c)| == Pow2(k)
  {
    var k := c.OpenBits();
    var lo := Double(Halve(c.network.bits, k), k);
    IntervalSize(lo, Pow2(k));
    forall x: nat ensures x in Block(c) <==> x in Interval(lo, Pow2(k)) {
      InBlock(c, x);
    }
  }

  lemma InBlock(c: Cidr, x: nat)
    requires c.Valid()
    ensures var k := c.OpenBits();
            var lo := Double(Halve(c.network.bits, k), k);
            x in Block(c) <==> lo <= x < lo + Pow2(k)
  {
    WordsWithPrefix(c.network.bits, c.prefix, c.OpenBits(), x);
    if x < Pow2(c.network.Width()) {
      ContainsByHalving(c, if c.network.V4? then V4(x) else V6(x));
    }
  }
}
