/** Decimal numbers as Rust prints and parses them, on ASCII bytes. */
module Decimal {
  import opened Bytes
  import opened Wrappers

  const PLUS: u8 := 43
  const MINUS: u8 := 45
  const ZERO: u8 := 48

  predicate IsDigit(b: u8) { ZERO <= b <= ZERO + 9 }

  predicate AllDigits(t: seq<u8>) {
    forall i :: 0 <= i < |t| ==> IsDigit(t[i])
  }

  function Digits(n: nat): seq<u8> {
    if n < 10 then [ZERO + n] else Digits(n / 10) + [ZERO + n % 10]
  }

  /** What `{}` prints. */
  function Show(i: int): seq<u8> {
    if i < 0 then [MINUS] + Digits(-i) else Digits(i)
  }

  function Number(t: seq<u8>): nat
    requires AllDigits(t)
  {
    if t == [] then 0 else 10 * Number(t[..|t| - 1]) + (t[|t| - 1] - ZERO)
  }

  /** `str::parse` for an integer type of range `min..=max`; a `-` is a digit error when unsigned. */
  function Parse(t: seq<u8>, min: int, max: int): (r: Option<int>)
    ensures r.Some? ==> min <= r.value <= max
  {
    if t == [] then None
    else
      var negative := t[0] == MINUS && min < 0;
      var digits := if negative || t[0] == PLUS then t[1..] else t;
      if digits == [] || !AllDigits(digits) then None
      else
        var n: int := if negative then 0 - Number(digits) else Number(digits);
        if min <= n <= max then Some(n) else None
  }

  lemma {:induction false} DigitsReadBack(n: nat)
    ensures Digits(n) != [] && AllDigits(Digits(n)) && Number(Digits(n)) == n
  {
    if n >= 10 {
      DigitsReadBack(n / 10);
      var d := Digits(n);
      assert d[..|d| - 1] == Digits(n / 10);
    }
  }

  lemma ParseDigits(n: nat, min: int, max: int)
    requires min <= n <= max
    ensures Parse(Digits(n), min, max) == Some(n)
  {
    DigitsReadBack(n);
    assert IsDigit(Digits(n)[0]);
  }

  lemma ParseNegative(i: int, min: int, max: int)
    requires min <= i <= max && i < 0
    ensures Parse([MINUS] + Digits(-i), min, max) == Some(i)
  {
    DigitsReadBack(-i);
    assert ([MINUS] + Digits(-i))[1..] == Digits(-i);
  }

  /** Every integer in range parses back from what is printed. */
  lemma {:induction false} ParseShow(i: int, min: int, max: int)
    requires min <= i <= max
    ensures Parse(Show(i), min, max) == Some(i)
  {
    if i < 0 {
      ParseNegative(i, min, max);
    } else {
      ParseDigits(i, min, max);
    }
  }

  // ---------- What a numeral means ----------

  function Pow10(n: nat): nat {
    if n == 0 then 1 else 10 * Pow10(n - 1)
  }

  lemma JoinStep(m: nat, p: nat, k: nat, d: nat)
    ensures 10 * (m * p + k) + d == m * (10 * p) + (10 * k + d)
  {
  }

  /** Digits (48 to 57) weigh ten times what the next ones do. */
  lemma {:induction false} NumberByPlaces(a: seq<u8>, b: seq<u8>)
    requires AllDigits(a + b)
    ensures AllDigits(a) && AllDigits(b) && Number(a + b) == Number(a) * Pow10(|b|) + Number(b)
    ensures |a| == 1 ==> 48 <= a[0] <= 57 && Number(a) == a[0] - 48
    decreases |b|
  {
    var t := a + b;
    assert forall i :: 0 <= i < |a| ==> t[i] == a[i];
    assert forall i :: 0 <= i < |b| ==> t[|a| + i] == b[i];
    if b == [] {
      assert t == a;
    } else {
      var front := b[..|b| - 1];
      assert t[..|t| - 1] == a + front;
      NumberByPlaces(a, front);
      JoinStep(Number(a), Pow10(|front|), Number(front), b[|b| - 1] - ZERO);
    }
  }

  /** A numeral: one digit at least, behind a `+` (43) or nothing, or behind a `-` (45) if it is negative. */
  predicate Numeral(t: seq<u8>, signed: bool, v: int) {
    || (t != [] && AllDigits(t) && v == Number(t))
    || (|t| >= 2 && AllDigits(t[1..]) && t[0] == 43 && v == Number(t[1..]))
    || (|t| >= 2 && AllDigits(t[1..]) && signed && t[0] == 45 && v == 0 - Number(t[1..]))
  }

  /** A text parses to a number exactly if it is a numeral for it and the number is in range. */
  lemma {:induction false} ParsesExactly(t: seq<u8>, min: int, max: int, v: int)
    ensures Parse(t, min, max) == Some(v) <==> Numeral(t, min < 0, v) && min <= v <= max
  {
    assert t != [] && AllDigits(t) ==> IsDigit(t[0]);
  }
}
