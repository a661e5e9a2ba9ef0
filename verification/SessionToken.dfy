/**
 Signed session tokens, `<user id>:<issued at>.<base64url of a MAC>`, and the cookie that carries
 them. Strings are ASCII bytes; the MAC is any function of secret and payload, the clock a parameter.
 */
module SessionToken {
  import opened Bytes
  import opened Texts
  import opened Wrappers
  import Base64Url
  import Decimal

  type Mac = (seq<u8>, seq<u8>) -> seq<u8>

  const DOT: u8 := 46
  const COLON: u8 := 58
  const SEMICOLON: u8 := 59

  const I64_MIN := -0x8000_0000_0000_0000
  const I64_MAX := 0x7FFF_FFFF_FFFF_FFFF
  const U64_MAX := 0xFFFF_FFFF_FFFF_FFFF

  type i64 = x: int | I64_MIN <= x <= I64_MAX
  type u64 = x: int | 0 <= x <= U64_MAX

  const SESSION_TTL_SECS := 86400
  /** "rdg_session=" */
  const COOKIE_PREFIX: Text := [114, 100, 103, 95, 115, 101, 115, 115, 105, 111, 110, 61]

  // ---------- Strings ----------

  function LastIndexOf(t: Text, c: u8): (i: nat)
    requires c in t
    ensures i < |t| && t[i] == c && c !in t[i + 1..]
  {
    if t[|t| - 1] == c then |t| - 1
    else
      assert c in t[..|t| - 1];
      var i := LastIndexOf(t[..|t| - 1], c);
      assert t[i + 1..] == t[..|t| - 1][i + 1..] + [t[|t| - 1]];
      i
  }

  /** `split` at every `c`. */
  function Split(t: Text, c: u8): seq<Text> {
    if c !in t then [t] else [t[..IndexOf(t, c)]] + Split(t[IndexOf(t, c) + 1..], c)
  }

  predicate IsSpace(b: u8) { 9 <= b <= 13 || b == 32 }

  /** Nothing but spaces, tabs, line feeds and the like. */
  predicate Blank(t: Text) { forall b :: b in t ==> 9 <= b <= 13 || b == 32 }

  function TrimStart(t: Text): Text {
    if t != [] && IsSpace(t[0]) then TrimStart(t[1..]) else t
  }

  function TrimEnd(t: Text): Text {
    if t != [] && IsSpace(t[|t| - 1]) then TrimEnd(t[..|t| - 1]) else t
  }

  function Trim(t: Text): Text { TrimEnd(TrimStart(t)) }

  // ---------- Tokens ----------

  function Payload(userId: i64, issuedAt: u64): Text {
    Decimal.Show(userId) + [COLON] + Decimal.Show(issuedAt)
  }

  function Signed(payload: Text, secret: seq<u8>, mac: Mac): Text {
    payload + [DOT] + Base64Url.Encode(mac(secret, payload))
  }

  /** `sign_session`. */
  function SignSession(userId: i64, issuedAt: u64, secret: seq<u8>, mac: Mac): Text {
    Signed(Payload(userId, issuedAt), secret, mac)
  }

  predicate Fresh(issuedAt: int, now: u64) {
    (if now < issuedAt then 0 else now - issuedAt) <= SESSION_TTL_SECS
  }

  /** What a payload with a valid signature is worth. */
  function ReadPayload(payload: Text, now: u64): Option<i64> {
    var fields := Split(payload, COLON);
    if |fields| != 2 then None
    else
      var userId := Decimal.Parse(fields[0], I64_MIN, I64_MAX);
      var issuedAt := Decimal.Parse(fields[1], 0, U64_MAX);
      if userId.None? || issuedAt.None? || !Fresh(issuedAt.value, now) then None else Some(userId.value)
  }

  /** `validate_session_token`. */
  function ValidateToken(token: Text, secret: seq<u8>, mac: Mac, now: u64): Option<i64> {
    if DOT !in token then None
    else
      var dot := LastIndexOf(token, DOT);
      var payload := token[..dot];
      match Base64Url.Decode(token[dot + 1..])
      case None => None
      case Some(sig) => if sig != mac(secret, payload) then None else ReadPayload(payload, now)
  }

  /** The first segment that is the session cookie, without its name. */
  function FindCookie(segments: seq<Text>): Option<Text> {
    if segments == [] then None
    else if COOKIE_PREFIX <= Trim(segments[0]) then Some(Trim(segments[0])[|COOKIE_PREFIX|..])
    else FindCookie(segments[1..])
  }

  /** `validate_session_cookie`. */
  function ValidateCookie(header: Option<Text>, secret: seq<u8>, mac: Mac, now: u64): Option<i64> {
    if header.None? then None
    else
      match FindCookie(Split(header.value, SEMICOLON))
      case None => None
      case Some(token) => ValidateToken(token, secret, mac, now)
  }

  // ---------- Splitting and trimming ----------

  lemma SplitCons(a: Text, c: u8, rest: Text)
    requires c !in a
    ensures Split(a + [c] + rest, c) == [a] + Split(rest, c)
  {
    FirstAfter(a, c, rest);
  }

  /** A text has exactly two fields when the separator is in it exactly once. */
  lemma {:induction false} TwoFields(t: Text, c: u8)
    ensures |Split(t, c)| == 2 <==> exists a: Text, b: Text {:trigger a + [c] + b} :: t == a + [c] + b && c !in a && c !in b
    ensures forall a: Text, b: Text {:trigger a + [c] + b} :: t == a + [c] + b && c !in a && c !in b ==> Split(t, c) == [a, b]
  {
    forall a: Text, b: Text | t == a + [c] + b && c !in a && c !in b ensures Split(t, c) == [a, b] {
      SplitCons(a, c, b);
    }
    if |Split(t, c)| == 2 {
      var i := IndexOf(t, c);
      var a, b := t[..i], t[i + 1..];
      assert t == a + [c] + b;
      assert Split(t, c) == [a] + Split(b, c);
      assert c !in b;
    }
  }

  lemma {:induction false} TrimStartBlank(ws: Text, core: Text)
    requires Blank(ws) && core != [] && !IsSpace(core[0])
    ensures TrimStart(ws + core) == core
  {
    if ws == [] {
      assert ws + core == core;
    } else {
      assert ws[0] in ws && forall b :: b in ws[1..] ==> b in ws;
      assert (ws + core)[1..] == ws[1..] + core;
      TrimStartBlank(ws[1..], core);
    }
  }

  lemma {:induction false} TrimEndBlank(core: Text, ws: Text)
    requires Blank(ws) && core != [] && !IsSpace(core[|core| - 1])
    ensures TrimEnd(core + ws) == core
  {
    if ws == [] {
      assert core + ws == core;
    } else {
      var n := |ws| - 1;
      assert ws[n] in ws && forall b :: b in ws[..n] ==> b in ws;
      assert (core + ws)[..|core| + n] == core + ws[..n];
      TrimEndBlank(core, ws[..n]);
    }
  }

  /** White space around a text is trimmed and nothing else. */
  lemma {:induction false} TrimPadded(before: Text, core: Text, after: Text)
    requires Blank(before) && Blank(after)
    requires core != [] && !IsSpace(core[0]) && !IsSpace(core[|core| - 1])
    ensures Trim(before + core + after) == core
  {
    assert before + core + after == before + (core + after);
    TrimStartBlank(before, core + after);
    TrimEndBlank(core, after);
  }

  // ---------- Tokens ----------

  lemma SignatureHasNoDot(d: seq<u8>)
    ensures DOT !in Base64Url.Encode(d)
  {
    Base64Url.InAlphabet(d);
  }

  lemma LastOf(a: Text, c: u8, e: Text)
    requires c !in e
    ensures c in a + [c] + e && LastIndexOf(a + [c] + e, c) == |a|
    decreases |e|
  {
    var t := a + [c] + e;
    assert t[|a|] == c;
    if e != [] {
      assert e[|e| - 1] in e && t[|t| - 1] == e[|e| - 1];
      assert t[..|t| - 1] == a + [c] + e[..|e| - 1];
      LastOf(a, c, e[..|e| - 1]);
    }
  }

  lemma DotOfSigned(payload: Text, secret: seq<u8>, mac: Mac)
    ensures var t := Signed(payload, secret, mac);
            DOT in t && LastIndexOf(t, DOT) == |payload|
  {
    SignatureHasNoDot(mac(secret, payload));
    LastOf(payload, DOT, Base64Url.Encode(mac(secret, payload)));
  }

  lemma SignedReads(payload: Text, secret: seq<u8>, mac: Mac, now: u64)
    ensures ValidateToken(Signed(payload, secret, mac), secret, mac, now) == ReadPayload(payload, now)
  {
    var token := Signed(payload, secret, mac);
    DotOfSigned(payload, secret, mac);
    Base64Url.DecodeEncode(mac(secret, payload));
    assert token[..|payload|] == payload;
    assert token[|payload| + 1..] == Base64Url.Encode(mac(secret, payload));
  }

  lemma Rejoined(t: Text, i: nat)
    requires i < |t|
    ensures t == t[..i] + [t[i]] + t[i + 1..]
  {
  }

  lemma WasSigned(token: Text, secret: seq<u8>, mac: Mac, now: u64)
    requires ValidateToken(token, secret, mac, now).Some?
    ensures exists payload: Text :: token == Signed(payload, secret, mac)
  {
    var dot := LastIndexOf(token, DOT);
    var payload, sig := token[..dot], token[dot + 1..];
    Rejoined(token, dot);
    Base64Url.EncodeDecode(sig);
    SignedFrom(token, payload, sig, secret, mac);
  }

  lemma SignedFrom(token: Text, payload: Text, sig: Text, secret: seq<u8>, mac: Mac)
    requires token == payload + [DOT] + sig && sig == Base64Url.Encode(mac(secret, payload))
    ensures token == Signed(payload, secret, mac)
  {
  }

  /**
   The signature check passes exactly the tokens `payload.base64(mac(payload))`, of which each
   payload has one; the payload then decides, whatever the MAC is and however many dots it has.
   */
  lemma {:induction false} SignatureDecides(token: Text, secret: seq<u8>, mac: Mac, now: u64)
    ensures forall payload: Text {:trigger payload + [46]} ::
              token == payload + [46] + Base64Url.Encode(mac(secret, payload)) ==>
                ValidateToken(token, secret, mac, now) == ReadPayload(payload, now)
    ensures (forall payload: Text {:trigger payload + [46]} ::
               token != payload + [46] + Base64Url.Encode(mac(secret, payload))) ==>
              ValidateToken(token, secret, mac, now) == None
  {
    forall payload: Text | token == Signed(payload, secret, mac)
      ensures ValidateToken(token, secret, mac, now) == ReadPayload(payload, now)
    {
      SignedReads(payload, secret, mac, now);
    }
    if ValidateToken(token, secret, mac, now).Some? {
      WasSigned(token, secret, mac, now);
      var payload: Text :| token == Signed(payload, secret, mac);
      assert token == payload + [46] + Base64Url.Encode(mac(secret, payload));
    }
  }

  lemma DigitsAlone(n: nat)
    ensures Decimal.Digits(n) != [] && forall b :: b in Decimal.Digits(n) ==> Decimal.IsDigit(b)
  {
    Decimal.DigitsReadBack(n);
  }

  lemma ShownAlone(i: int)
    ensures Decimal.Show(i) != [] && COLON !in Decimal.Show(i) && SEMICOLON !in Decimal.Show(i)
    ensures !IsSpace(Decimal.Show(i)[0])
  {
    DigitsAlone(if i < 0 then -i else i);
    assert Decimal.Show(i)[0] in Decimal.Show(i);
  }

  lemma PayloadReads(userId: i64, issuedAt: u64, now: u64)
    ensures ReadPayload(Payload(userId, issuedAt), now) == if now <= issuedAt + 86400 then Some(userId) else None
  {
    ShownAlone(userId);
    ShownAlone(issuedAt);
    TwoFields(Payload(userId, issuedAt), COLON);
    Decimal.ParseShow(userId, I64_MIN, I64_MAX);
    Decimal.ParseShow(issuedAt, 0, U64_MAX);
  }

  /**
   The other direction: a payload is worth a user exactly if it is two numbers around one colon (58),
   a signed one of 64 bits and an unsigned one no more than 86400 seconds back.
   */
  lemma {:induction false} PayloadAcceptedExactly(payload: Text, now: u64, userId: i64)
    ensures ReadPayload(payload, now) == Some(userId) <==>
            exists a: Text, b: Text {:trigger a + [58] + b} ::
              && payload == a + [58] + b && 58 !in a && 58 !in b
              && Decimal.Parse(a, -0x8000_0000_0000_0000, 0x7FFF_FFFF_FFFF_FFFF) == Some(userId)
              && Decimal.Parse(b, 0, 0xFFFF_FFFF_FFFF_FFFF).Some?
              && now <= Decimal.Parse(b, 0, 0xFFFF_FFFF_FFFF_FFFF).value + 86400
  {
    TwoFields(payload, COLON);
  }

  /**
   A token is the user's number, a colon, the time of issue, a dot (46) and the MAC of what stands
   before it; it validates to the user for 86400 seconds, and to nobody after them.
   */
  lemma {:induction false} TokenValidates(userId: i64, issuedAt: u64, secret: seq<u8>, mac: Mac, now: u64)
    ensures var payload := Decimal.Show(userId) + [58] + Decimal.Show(issuedAt);
            SignSession(userId, issuedAt, secret, mac) == payload + [46] + Base64Url.Encode(mac(secret, payload))
    ensures ValidateToken(SignSession(userId, issuedAt, secret, mac), secret, mac, now)
            == if now <= issuedAt + 86400 then Some(userId) else None
  {
    SignatureDecides(SignSession(userId, issuedAt, secret, mac), secret, mac, now);
    PayloadReads(userId, issuedAt, now);
  }

  // ---------- Cookies ----------

  /** Other cookies, each with the `;` (59) behind it. */
  function Before(cookies: seq<Text>): Text {
    if cookies == [] then [] else cookies[0] + [59] + Before(cookies[1..])
  }

  predicate NotTheSession(cookie: Text) {
    SEMICOLON !in cookie && !(COOKIE_PREFIX <= Trim(cookie))
  }

  lemma {:induction false} FindSkips(others: seq<Text>, rest: Text)
    requires forall c :: c in others ==> NotTheSession(c)
    ensures FindCookie(Split(Before(others) + rest, SEMICOLON)) == FindCookie(Split(rest, SEMICOLON))
  {
    if others == [] {
      assert Before(others) + rest == rest;
    } else {
      assert others[0] in others;
      var more := Before(others[1..]) + rest;
      assert Before(others) + rest == others[0] + [SEMICOLON] + more;
      SplitCons(others[0], SEMICOLON, more);
      FindSkips(others[1..], rest);
    }
  }

  lemma TokenShape(userId: i64, issuedAt: u64, secret: seq<u8>, mac: Mac)
    ensures var t := SignSession(userId, issuedAt, secret, mac);
            t != [] && SEMICOLON !in t && !IsSpace(t[0]) && !IsSpace(t[|t| - 1])
  {
    ShownAlone(userId);
    ShownAlone(issuedAt);
    var e := Base64Url.Encode(mac(secret, Payload(userId, issuedAt)));
    Base64Url.InAlphabet(mac(secret, Payload(userId, issuedAt)));
    var t := SignSession(userId, issuedAt, secret, mac);
    if e != [] {
      assert e[|e| - 1] in e && t[|t| - 1] == e[|e| - 1];
    } else {
      assert t[|t| - 1] == DOT;
    }
  }

  lemma FirstIsFound(segment: Text, more: seq<Text>, token: Text)
    requires Trim(segment) == COOKIE_PREFIX + token
    ensures FindCookie([segment] + more) == Some(token)
  {
    assert ([segment] + more)[0] == segment;
    assert (COOKIE_PREFIX + token)[|COOKIE_PREFIX|..] == token;
  }

  lemma SegmentTrims(blank: Text, token: Text, blank': Text)
    requires Blank(blank) && Blank(blank') && token != [] && SEMICOLON !in token && !IsSpace(token[|token| - 1])
    ensures var segment := blank + (COOKIE_PREFIX + token) + blank';
            SEMICOLON !in segment && Trim(segment) == COOKIE_PREFIX + token
  {
    var core := COOKIE_PREFIX + token;
    assert core[|core| - 1] == token[|token| - 1] && core[0] == COOKIE_PREFIX[0];
    TrimPadded(blank, core, blank');
  }

  lemma SplitHead(segment: Text, rest: Text)
    requires SEMICOLON !in segment && (rest == [] || rest[0] == SEMICOLON)
    ensures exists more: seq<Text> :: Split(segment + rest, SEMICOLON) == [segment] + more
  {
    if rest == [] {
      assert segment + rest == segment;
      assert Split(segment, SEMICOLON) == [segment] + [];
    } else {
      assert segment + rest == segment + [SEMICOLON] + rest[1..];
      SplitCons(segment, SEMICOLON, rest[1..]);
    }
  }

  /** The cookie is found whatever stands around it, and the value is the token. */
  lemma FindsCookie(blank: Text, token: Text, blank': Text, rest: Text)
    requires Blank(blank) && Blank(blank') && (rest == [] || rest[0] == SEMICOLON)
    requires token != [] && SEMICOLON !in token && !IsSpace(token[|token| - 1])
    ensures FindCookie(Split(blank + (COOKIE_PREFIX + token) + blank' + rest, SEMICOLON)) == Some(token)
  {
    var segment := blank + (COOKIE_PREFIX + token) + blank';
    SegmentTrims(blank, token, blank');
    SplitHead(segment, rest);
    var more: seq<Text> :| Split(segment + rest, SEMICOLON) == [segment] + more;
    FirstIsFound(segment, more, token);
  }

  /**
   For every user, issue time, secret and MAC: the cookie of a signed token, "rdg_session=" and
   the token, behind any other cookies and before anything, validates to the user for 86400
   seconds and to nobody afterwards.
   */
  lemma {:induction false} CookieValidates(userId: i64, issuedAt: u64, secret: seq<u8>, mac: Mac, now: u64,
                                           others: seq<Text>, blank: Text, blank': Text, rest: Text)
    requires forall c :: c in others ==> NotTheSession(c)
    requires Blank(blank) && Blank(blank') && (rest == [] || rest[0] == 59)
    ensures var token := SignSession(userId, issuedAt, secret, mac);
            var cookie := [114, 100, 103, 95, 115, 101, 115, 115, 105, 111, 110, 61] + token;
            var header := Before(others) + (blank + cookie + blank' + rest);
            ValidateCookie(Some(header), secret, mac, now) == if now <= issuedAt + 86400 then Some(userId) else None
  {
    var token := SignSession(userId, issuedAt, secret, mac);
    TokenShape(userId, issuedAt, secret, mac);
    FindSkips(others, blank + (COOKIE_PREFIX + token) + blank' + rest);
    FindsCookie(blank, token, blank', rest);
    TokenValidates(userId, issuedAt, secret, mac, now);
  }
}
