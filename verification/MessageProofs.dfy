/** Reading back what was written: which messages survive, and how a stream of them splits. */
module MessageProofs {
  import opened Bytes
  import opened Wrappers
  import opened Utf16
  import opened Messages

  /** A name that `write` and `parse` carry: no NUL inside, and a byte length that fits u16. */
  predicate NameFits(s: Str) {
    0 !in s && 2 * |Encode(s)| + 2 <= U16_MAX
  }

  /** The message types `parse_message` has a case for. */
  predicate HasParser(t: u16) {
    t in {1, 2, 4, 5, 6, 7, 8, 9, 0xA, 0xD, 0xE, 0xF}
  }

  /** Option fields agree with the flags, nothing the writer drops is set, and lengths fit. */
  predicate Writable(m: TsgMessage) {
    match m
    case HandshakeRequest(_, _, _, _) => true
    case HandshakeResponse(_, _, _, _, _) => true
    case TunnelCreate(_, _, _, cookie) => cookie.None?
    case TunnelResponse(_, _, fields, _, tunnel, caps) =>
      (tunnel.Some? <==> HasFlag(fields, 1)) && (caps.Some? <==> HasFlag(fields, 2))
    case TunnelAuth(_, name) => NameFits(name)
    case TunnelAuthResponse(_, _, _, _, soh) => soh.None?
    case ChannelCreate(_, _, _, _, name) => NameFits(name)
    case ChannelResponse(_, fields, _, channel, udp, cookie) =>
      && (channel.Some? <==> HasFlag(fields, 1))
      && (udp.Some? <==> HasFlag(fields, 2))
      && (cookie.Some? <==> HasFlag(fields, 4))
      && (cookie.Some? ==> |cookie.value| <= U16_MAX)
    case Data(data) => |data| <= U32_MAX - 8
    case Keepalive => true
    case CloseChannel(payload) => |payload| <= U32_MAX - 8
    case CloseChannelResponse(payload) => payload == []
    case Unknown(t, payload) => !HasParser(t) && |payload| <= U32_MAX - 8
  }

  // ---------- Fields at known offsets ----------

  lemma U16AtHead(v: u16, t: seq<u8>)
    ensures U16At(PutU16(v) + t, 0) == v && (PutU16(v) + t)[2..] == t
  {
    assert (PutU16(v) + t)[0..2] == PutU16(v);
    U16Field(PutU16(v) + t, 0, v);
  }

  lemma U32AtHead(v: u32, t: seq<u8>)
    ensures U32At(PutU32(v) + t, 0) == v && (PutU32(v) + t)[4..] == t
  {
    assert (PutU32(v) + t)[0..4] == PutU32(v);
    U32Field(PutU32(v) + t, 0, v);
  }

  lemma SizeIsPayload(m: TsgMessage)
    ensures |Payload(m)| == DeclaredSize(m)
  {
  }

  lemma HeaderFields(t: u16, length: u32, body: seq<u8>)
    ensures var buf := Header(t, length) + body;
            |buf| == 8 + |body| && U16At(buf, 0) == t && U32At(buf, 4) == length
  {
    var buf := Header(t, length) + body;
    assert buf[0..2] == PutU16(t) && buf[4..8] == PutU32(length);
    U16Field(buf, 0, t);
    U32Field(buf, 4, length);
  }

  /** The payload's leading `k` bytes are what a header of that length hands to the parsers. */
  lemma EnvelopeOpens(t: u16, length: u32, body: seq<u8>)
    requires 8 <= length <= 8 + |body|
    ensures ParseMessage(Header(t, length) + body) == ParsePayload(t, body[..length - 8])
  {
    var buf := Header(t, length) + body;
    HeaderFields(t, length, body);
    assert buf[8..length] == body[..length - 8];
  }

  // ---------- Option fields ----------

  /** An announced field that is there is taken and an unannounced absent one is not. */
  lemma TakeU32Written(v: Option<u32>, rest: seq<u8>)
    ensures TakeU32(PutOptU32(v) + rest, v.Some?) == Ok((v, rest))
  {
    if v.Some? {
      U32AtHead(v.value, rest);
    } else {
      assert PutOptU32(v) + rest == rest;
    }
  }

  lemma TakeU16Written(v: Option<u16>, rest: seq<u8>)
    ensures TakeU16(PutOptU16(v) + rest, v.Some?) == Ok((v, rest))
  {
    if v.Some? {
      U16AtHead(v.value, rest);
    } else {
      assert PutOptU16(v) + rest == rest;
    }
  }

  lemma TunnelResponseFixed(server: u16, err: u32, fields: u16, res: u16, opts: seq<u8>)
    ensures var p := PutU16(server) + PutU32(err) + PutU16(fields) + PutU16(res) + opts;
            && U16At(p, 0) == server && U32At(p, 2) == err && U16At(p, 6) == fields && U16At(p, 8) == res
            && p[10..] == opts
  {
    var p := PutU16(server) + PutU32(err) + PutU16(fields) + PutU16(res) + opts;
    Beside5(PutU16(server), PutU32(err), PutU16(fields), PutU16(res), opts, 2, 6, 8, 10, 10 + |opts|);
    U16Field(p, 0, server);
    U32Field(p, 2, err);
    U16Field(p, 6, fields);
    U16Field(p, 8, res);
  }

  lemma TunnelResponseReads(m: TsgMessage)
    requires m.TunnelResponse? && Writable(m)
    ensures ParsePayload(TypeCode(m), Payload(m)) == Ok(m)
  {
    var fixed := PutU16(m.serverVersion) + PutU32(m.errorCode) + PutU16(m.fieldsPresent) + PutU16(m.reserved);
    Associate(fixed, PutOptU32(m.tunnelId), PutOptU32(m.caps));
    TunnelResponseFixed(m.serverVersion, m.errorCode, m.fieldsPresent, m.reserved,
                        PutOptU32(m.tunnelId) + PutOptU32(m.caps));
    TakeU32Written(m.tunnelId, PutOptU32(m.caps));
    TakeU32Written(m.caps, []);
    assert PutOptU32(m.caps) + [] == PutOptU32(m.caps);
  }

  lemma TakeBytesWritten(v: seq<u8>)
    requires |v| <= U16_MAX
    ensures TakeBytes(PutU16(|v|) + v) == Ok(v)
  {
    U16AtHead(|v|, v);
    assert (PutU16(|v|) + v)[2..2 + |v|] == v;
  }

  lemma ChannelResponseFixed(err: u32, fields: u16, res: u16, opts: seq<u8>)
    ensures var p := PutU32(err) + PutU16(fields) + PutU16(res) + opts;
            U32At(p, 0) == err && U16At(p, 4) == fields && U16At(p, 6) == res && p[8..] == opts
  {
    var p := PutU32(err) + PutU16(fields) + PutU16(res) + opts;
    Beside4(PutU32(err), PutU16(fields), PutU16(res), opts, 4, 6, 8, 8 + |opts|);
    U32Field(p, 0, err);
    U16Field(p, 4, fields);
    U16Field(p, 6, res);
  }

  lemma ChannelResponseFrom(m: TsgMessage, p: seq<u8>, afterId: seq<u8>, afterPort: seq<u8>)
    requires m.ChannelResponse? && |p| >= 8
    requires U32At(p, 0) == m.errorCode && U16At(p, 4) == m.fieldsPresent && U16At(p, 6) == m.reserved
    requires TakeU32(p[8..], HasFlag(m.fieldsPresent, 1)) == Ok((m.channelId, afterId))
    requires TakeU16(afterId, HasFlag(m.fieldsPresent, 2)) == Ok((m.udpPort, afterPort))
    requires if HasFlag(m.fieldsPresent, 4) then m.authCookie.Some? && TakeBytes(afterPort) == Ok(m.authCookie.value)
             else m.authCookie.None?
    ensures ParseChannelResponse(p) == Ok(m)
  {
  }

  lemma CookieReads(m: TsgMessage)
    requires m.ChannelResponse? && Writable(m) && m.authCookie.Some?
    ensures TakeBytes(PutOptBytes(m.authCookie)) == Ok(m.authCookie.value)
  {
    assert TruncU16(|m.authCookie.value|) == |m.authCookie.value|;
    TakeBytesWritten(m.authCookie.value);
  }

  lemma Regrouped(fixed: seq<u8>, a: seq<u8>, b: seq<u8>, c: seq<u8>)
    ensures fixed + a + b + c == fixed + (a + (b + c))
  {
    Associate(fixed + a, b, c);
    Associate(fixed, a, b + c);
  }

  lemma ChannelResponseReads(m: TsgMessage)
    requires m.ChannelResponse? && Writable(m)
    ensures ParsePayload(TypeCode(m), Payload(m)) == Ok(m)
  {
    var fixed := PutU32(m.errorCode) + PutU16(m.fieldsPresent) + PutU16(m.reserved);
    var channel, udp, cookie := PutOptU32(m.channelId), PutOptU16(m.udpPort), PutOptBytes(m.authCookie);
    Regrouped(fixed, channel, udp, cookie);
    ChannelResponseFixed(m.errorCode, m.fieldsPresent, m.reserved, channel + (udp + cookie));
    TakeU32Written(m.channelId, udp + cookie);
    TakeU16Written(m.udpPort, cookie);
    if m.authCookie.Some? {
      CookieReads(m);
    }
    ChannelResponseFrom(m, fixed + (channel + (udp + cookie)), udp + cookie, cookie);
  }

  // ---------- Names ----------

  lemma TakeNameOf(x: seq<u8>, rest: seq<u8>, s: Str)
    requires |x| <= U16_MAX && ReadUtf16Le(x) == Some(s)
    ensures TakeName(PutU16(TruncU16(|x|)) + x + rest) == Ok(s)
  {
    assert TruncU16(|x|) == |x|;
    U16AtHead(|x|, x + rest);
    assert PutU16(|x|) + x + rest == PutU16(|x|) + (x + rest);
  }

  /** A name whose length fits reads back up to its first NUL, whatever follows it. */
  lemma {:induction false} NameReads(s: Str, rest: seq<u8>)
    requires 2 * |Encode(s)| + 2 <= U16_MAX
    ensures TakeName(PutName(s) + rest) == Ok(StrBeforeNul(s))
  {
    ReadBackUntilNul(s);
    TakeNameOf(Utf16Le(s), rest, StrBeforeNul(s));
  }

  /** A name that comes back unchanged, even from a cut-off payload, was one that fits. */
  lemma {:induction false} NameExact(s: Str, p: seq<u8>)
    requires |p| >= 2 && U16At(p, 0) == TruncU16(|Utf16Le(s)|) && TakeName(p) == Ok(s)
    ensures NameFits(s)
  {
    ReadBackUntilNul(s);
    ReadIsShort(p[2..2 + U16At(p, 0)]);
  }

  // ---------- Every message ----------

  lemma NameAlone(s: Str)
    requires NameFits(s)
    ensures TakeName(PutName(s)) == Ok(s)
  {
    NameReads(s, []);
    StrBeforeNulAll(s);
    assert PutName(s) + [] == PutName(s);
  }

  lemma TunnelAuthReads(m: TsgMessage)
    requires m.TunnelAuth? && Writable(m)
    ensures ParsePayload(TypeCode(m), Payload(m)) == Ok(m)
  {
    NameAlone(m.clientName);
    U16AtHead(m.fieldsPresent, PutName(m.clientName));
  }

  lemma ChannelCreateFixed(nres: u8, nalt: u8, port: u16, protocol: u16, name: seq<u8>)
    ensures var p := [nres, nalt] + PutU16(port) + PutU16(protocol) + name;
            |p| == 6 + |name| && p[0] == nres && p[1] == nalt && U16At(p, 2) == port && U16At(p, 4) == protocol
            && p[6..] == name
  {
    var p := [nres, nalt] + PutU16(port) + PutU16(protocol) + name;
    Beside4([nres, nalt], PutU16(port), PutU16(protocol), name, 2, 4, 6, |p|);
    assert p[0] == p[0..2][0] && p[1] == p[0..2][1];
    U16Field(p, 2, port);
    U16Field(p, 4, protocol);
  }

  lemma ChannelCreateReads(m: TsgMessage)
    requires m.ChannelCreate? && Writable(m)
    ensures ParsePayload(TypeCode(m), Payload(m)) == Ok(m)
  {
    NameAlone(m.serverName);
    ChannelCreateFixed(m.numResources, m.numAltResources, m.port, m.protocol, PutName(m.serverName));
  }

  lemma HandshakeRequestReads(m: TsgMessage)
    requires m.HandshakeRequest?
    ensures ParsePayload(TypeCode(m), Payload(m)) == Ok(m)
  {
    var p := Payload(m);
    Beside3([m.majorVersion, m.minorVersion], PutU16(m.clientVersion), PutU16(m.extAuth), 2, 4, 6);
    assert p[0] == p[0..2][0] && p[1] == p[0..2][1];
    U16Field(p, 2, m.clientVersion);
    U16Field(p, 4, m.extAuth);
  }

  lemma HandshakeResponseReads(m: TsgMessage)
    requires m.HandshakeResponse?
    ensures ParsePayload(TypeCode(m), Payload(m)) == Ok(m)
  {
    var p := Payload(m);
    Beside4(PutU32(m.errorCode), [m.majorVersion, m.minorVersion], PutU16(m.serverVersion), PutU16(m.extAuth), 4, 6, 8, 10);
    assert p[4] == p[4..6][0] && p[5] == p[4..6][1];
    U32Field(p, 0, m.errorCode);
    U16Field(p, 6, m.serverVersion);
    U16Field(p, 8, m.extAuth);
  }

  lemma TunnelCreateReads(m: TsgMessage)
    requires m.TunnelCreate? && Writable(m)
    ensures ParsePayload(TypeCode(m), Payload(m)) == Ok(m)
  {
    var p := Payload(m);
    Beside3(PutU32(m.capsFlags), PutU16(m.fieldsPresent), PutU16(m.reserved), 4, 6, 8);
    U32Field(p, 0, m.capsFlags);
    U16Field(p, 4, m.fieldsPresent);
    U16Field(p, 6, m.reserved);
  }

  lemma TunnelAuthResponseReads(m: TsgMessage)
    requires m.TunnelAuthResponse? && Writable(m)
    ensures ParsePayload(TypeCode(m), Payload(m)) == Ok(m)
  {
    var p := Payload(m);
    Beside5(PutU32(m.errorCode), PutU16(m.flags), PutU16(m.reserved), PutU32(m.idleTimeout), PutU32(0), 4, 6, 8, 12, 16);
    U32Field(p, 0, m.errorCode);
    U16Field(p, 4, m.flags);
    U16Field(p, 6, m.reserved);
    U32Field(p, 8, m.idleTimeout);
  }

  /** Messages whose payload is taken as it is. */
  lemma PlainReads(m: TsgMessage)
    requires m.Data? || m.Keepalive? || m.CloseChannel? || m.CloseChannelResponse? || m.Unknown?
    requires Writable(m)
    ensures ParsePayload(TypeCode(m), Payload(m)) == Ok(m)
  {
  }

  /** The payload of a writable message parses to that message. */
  lemma {:induction false} PayloadReads(m: TsgMessage)
    requires Writable(m)
    ensures ParsePayload(TypeCode(m), Payload(m)) == Ok(m)
  {
    match m
    case TunnelResponse(_, _, _, _, _, _) => TunnelResponseReads(m);
    case ChannelResponse(_, _, _, _, _, _) => ChannelResponseReads(m);
    case TunnelAuth(_, _) => TunnelAuthReads(m);
    case ChannelCreate(_, _, _, _, _) => ChannelCreateReads(m);
    case HandshakeRequest(_, _, _, _) => HandshakeRequestReads(m);
    case HandshakeResponse(_, _, _, _, _) => HandshakeResponseReads(m);
    case TunnelCreate(_, _, _, _) => TunnelCreateReads(m);
    case TunnelAuthResponse(_, _, _, _, _) => TunnelAuthResponseReads(m);
    case _ => PlainReads(m);
  }

  lemma TunnelResponseExact(m: TsgMessage, p: seq<u8>)
    requires m.TunnelResponse? && ParseTunnelResponse(p) == Ok(m)
    ensures Writable(m)
  {
  }

  lemma ChannelResponseExact(m: TsgMessage, p: seq<u8>)
    requires m.ChannelResponse? && ParseChannelResponse(p) == Ok(m)
    ensures Writable(m)
  {
  }

  lemma TunnelAuthExact(m: TsgMessage, k: nat)
    requires m.TunnelAuth? && k <= |Payload(m)| && ParseTunnelAuth(Payload(m)[..k]) == Ok(m)
    ensures Writable(m)
  {
    var p, n := Payload(m), TruncU16(|Utf16Le(m.clientName)|);
    assert p == PutU16(m.fieldsPresent) + PutU16(n) + Utf16Le(m.clientName);
    assert p[..k][2..][0..2] == p[2..4] == PutU16(n);
    U16Field(p[..k][2..], 0, n);
    NameExact(m.clientName, p[..k][2..]);
  }

  lemma ChannelCreateExact(m: TsgMessage, k: nat)
    requires m.ChannelCreate? && k <= |Payload(m)| && ParseChannelCreate(Payload(m)[..k]) == Ok(m)
    ensures Writable(m)
  {
    var p, n := Payload(m), TruncU16(|Utf16Le(m.serverName)|);
    assert p == [m.numResources, m.numAltResources] + PutU16(m.port) + PutU16(m.protocol) + PutU16(n)
                + Utf16Le(m.serverName);
    assert p[..k][6..][0..2] == p[6..8] == PutU16(n);
    U16Field(p[..k][6..], 0, n);
    NameExact(m.serverName, p[..k][6..]);
  }

  /** Only a writable message can come back from its own payload, whole or cut off. */
  lemma {:induction false} PayloadExact(m: TsgMessage, k: nat)
    requires k <= |Payload(m)| && k <= U32_MAX - 8
    requires ParsePayload(TypeCode(m), Payload(m)[..k]) == Ok(m)
    ensures Writable(m)
  {
    match m
    case TunnelAuth(_, _) => TunnelAuthExact(m, k);
    case ChannelCreate(_, _, _, _, _) => ChannelCreateExact(m, k);
    case TunnelResponse(_, _, _, _, _, _) => TunnelResponseExact(m, Payload(m)[..k]);
    case ChannelResponse(_, _, _, _, _, _) => ChannelResponseExact(m, Payload(m)[..k]);
    case _ =>
  }

  lemma ShortEnvelope(t: u16, length: u32, body: seq<u8>)
    requires length < 8
    ensures ParseMessage(Header(t, length) + body) == Err(InvalidLength(length))
  {
    HeaderFields(t, length, body);
  }

  /** A payload that fits is opened whole, and everything about the frame says so. */
  lemma FrameReads(t: u16, p: seq<u8>, tail: seq<u8>)
    requires |p| <= U32_MAX - 8
    ensures var f := Frame(t, |p|, p);
            && |f| == 8 + |p|
            && ParseMessage(f) == ParsePayload(t, p)
            && MessageLength(f + tail) == Ok(|f|) && IsCompleteMessage(f + tail)
            && ParseMessage(f + tail) == ParsePayload(t, p)
            && forall k :: 0 <= k < |f| ==> !IsCompleteMessage(f[..k])
  {
    var f, length := Frame(t, |p|, p), 8 + |p|;
    assert TruncU32(length) == length;
    HeaderFields(t, length, p);
    HeaderFields(t, length, p + tail);
    assert f + tail == Header(t, length) + (p + tail);
    EnvelopeOpens(t, length, p);
    assert p[..|p|] == p;
    TailIgnored(f, tail);
    forall k | 0 <= k < |f| ensures !IsCompleteMessage(f[..k]) {
      if k >= 8 {
        assert f[..k][4..8] == f[4..8];
      }
    }
  }

  lemma OpenedAt(t: u16, length: u32, p: seq<u8>, m: TsgMessage)
    requires length <= 8 + |p| && ParseMessage(Header(t, length) + p) == Ok(m)
    ensures 8 <= length && ParsePayload(t, p[..length - 8]) == Ok(m)
  {
    if length < 8 {
      ShortEnvelope(t, length, p);
    } else {
      EnvelopeOpens(t, length, p);
    }
  }

  /** What a frame opens to is a stretch of the payload it was written around. */
  lemma OpenedFrom(t: u16, p: seq<u8>, m: TsgMessage) returns (k: nat)
    requires ParseMessage(Frame(t, |p|, p)) == Ok(m)
    ensures k <= |p| && k <= U32_MAX - 8 && ParsePayload(t, p[..k]) == Ok(m)
  {
    var length := TruncU32(8 + |p|);
    TruncShrinks(8 + |p|);
    OpenedAt(t, length, p, m);
    k := length - 8;
  }

  lemma TruncShrinks(n: nat)
    ensures TruncU32(n) <= n
  {
  }

  lemma OnlyWritableComesBack(m: TsgMessage)
    requires ParseMessage(Write(m)) == Ok(m)
    ensures Writable(m)
  {
    SizeIsPayload(m);
    var k := OpenedFrom(TypeCode(m), Payload(m), m);
    PayloadExact(m, k);
  }

  /** A complete message is parsed alike whatever bytes follow it. */
  lemma {:induction false} TailIgnored(buf: seq<u8>, tail: seq<u8>)
    requires IsCompleteMessage(buf)
    ensures ParseMessage(buf + tail) == ParseMessage(buf)
  {
    var length := U32At(buf, 4);
    assert (buf + tail)[4..8] == buf[4..8] && (buf + tail)[0..2] == buf[0..2];
    if length >= 8 {
      assert (buf + tail)[8..length] == buf[8..length];
    }
  }

  /** What is promised of the bytes `w` of a written message. */
  ghost predicate FramesAs(w: seq<u8>, m: TsgMessage) {
    && |w| >= 8
    && ParseMessage(w) == Ok(m)
    && (forall tail: seq<u8> ::
          ParseMessage(w + tail) == Ok(m) && MessageLength(w + tail) == Ok(|w|) && IsCompleteMessage(w + tail))
    && (forall k :: 0 <= k < |w| ==> !IsCompleteMessage(w[..k]))
  }

  lemma FrameOf(t: u16, p: seq<u8>, m: TsgMessage)
    requires |p| <= U32_MAX - 8 && ParsePayload(t, p) == Ok(m)
    ensures FramesAs(Frame(t, |p|, p), m)
  {
    FrameReads(t, p, []);
    var w := Frame(t, |p|, p);
    forall tail: seq<u8>
      ensures ParseMessage(w + tail) == Ok(m) && MessageLength(w + tail) == Ok(|w|) && IsCompleteMessage(w + tail)
    {
      FrameReads(t, p, tail);
    }
  }

  /** A written message is complete, its header says so, and no proper prefix of it is complete. */
  lemma {:induction false} WrittenIsFramed(m: TsgMessage)
    requires Writable(m)
    ensures FramesAs(Write(m), m)
  {
    SizeIsPayload(m);
    WritableFits(m);
    PayloadReads(m);
    FrameOf(TypeCode(m), Payload(m), m);
  }

  lemma WritableFits(m: TsgMessage)
    requires Writable(m)
    ensures 8 + |Payload(m)| <= U32_MAX
  {
    SizeIsPayload(m);
    match m
    case TunnelAuth(_, name) => ReadBackUntilNul(name);
    case ChannelCreate(_, _, _, _, name) => ReadBackUntilNul(name);
    case _ =>
  }

  /**
   Exactly the writable messages survive being written and parsed: for every message, of every
   type and size, the parser gives it back if and only if it is writable.
   */
  lemma {:induction false} RoundTripExactly(m: TsgMessage)
    ensures ParseMessage(Write(m)) == Ok(m) <==> Writable(m)
  {
    if Writable(m) {
      WrittenIsFramed(m);
    }
    if ParseMessage(Write(m)) == Ok(m) {
      OnlyWritableComesBack(m);
    }
  }

  /** Written messages one after the other. */
  ghost function WriteAll(ms: seq<TsgMessage>): seq<u8> {
    if ms == [] then [] else Write(ms[0]) + WriteAll(ms[1..])
  }

  lemma HeadsAgree(w1: seq<u8>, t1: seq<u8>, m1: TsgMessage, w2: seq<u8>, t2: seq<u8>, m2: TsgMessage)
    requires FramesAs(w1, m1) && FramesAs(w2, m2) && w1 + t1 == w2 + t2
    ensures m1 == m2 && t1 == t2
  {
    assert MessageLength(w1 + t1) == Ok(|w1|) && MessageLength(w2 + t2) == Ok(|w2|);
    assert (w1 + t1)[|w1|..] == t1 && (w2 + t2)[|w2|..] == t2;
  }

  predicate AllWritable(ms: seq<TsgMessage>) {
    forall m :: m in ms ==> Writable(m)
  }

  lemma RestWritable(ms: seq<TsgMessage>)
    requires AllWritable(ms) && ms != []
    ensures Writable(ms[0]) && AllWritable(ms[1..]) && ms == [ms[0]] + ms[1..]
  {
  }

  lemma FramesAreSome(w: seq<u8>, m: TsgMessage, t: seq<u8>)
    requires FramesAs(w, m)
    ensures w + t != []
  {
  }

  lemma FirstOfWritten(ms: seq<TsgMessage>)
    requires AllWritable(ms) && ms != []
    ensures AllWritable(ms[1..]) && ms == [ms[0]] + ms[1..]
    ensures FramesAs(Write(ms[0]), ms[0]) && WriteAll(ms) == Write(ms[0]) + WriteAll(ms[1..]) != []
  {
    RestWritable(ms);
    WrittenIsFramed(ms[0]);
    FramesAreSome(Write(ms[0]), ms[0], WriteAll(ms[1..]));
  }

  /** A stream of written messages splits in one way only. */
  lemma {:induction false} StreamSplitsUniquely(ms: seq<TsgMessage>, ns: seq<TsgMessage>)
    requires AllWritable(ms) && AllWritable(ns) && WriteAll(ms) == WriteAll(ns)
    ensures ms == ns
    decreases |ms|
  {
    if ms != [] {
      FirstOfWritten(ms);
    }
    if ns != [] {
      FirstOfWritten(ns);
    }
    if ms != [] && ns != [] {
      HeadsAgree(Write(ms[0]), WriteAll(ms[1..]), ms[0], Write(ns[0]), WriteAll(ns[1..]), ns[0]);
      StreamSplitsUniquely(ms[1..], ns[1..]);
    }
  }

  lemma DataReads(p: seq<u8>)
    requires |p| <= U32_MAX - 8
    ensures ParseMessage(Write(Data(p))) == Ok(Data(p))
  {
    FrameReads(TYPE_DATA, p, []);
  }

  /** A Data frame for the client parses to the data behind its two-byte count. */
  lemma {:induction false} DataFrameReads(data: seq<u8>)
    requires |data| <= U16_MAX
    ensures ParseMessage(EncodeDataMessage(data)) == Ok(Data(PutU16(|data|) + data))
  {
    assert TruncU16(|data|) == |data|;
    DataReads(PutU16(|data|) + data);
  }
}
