/** Where the fields of TSG messages lie, by number: type codes, offsets, flag bits and lengths. */
module MessageLayout {
  import opened Bytes
  import opened Wrappers
  import opened Utf16
  import opened Messages
  import opened MessageProofs

  /** A name at `i`, behind its byte length. */
  predicate NameAt(p: seq<u8>, i: nat, s: Str) {
    i + 2 <= |p| && i + 2 + U16At(p, i) <= |p| && NameStands(p[i + 2..i + 2 + U16At(p, i)], s)
  }

  /** An optional field at `i`: there, if it is announced. */
  predicate U32There(p: seq<u8>, i: nat, announced: bool, v: Option<u32>) {
    if announced then i + 4 <= |p| && v == Some(U32At(p, i)) else v == None
  }

  predicate U16There(p: seq<u8>, i: nat, announced: bool, v: Option<u16>) {
    if announced then i + 2 <= |p| && v == Some(U16At(p, i)) else v == None
  }

  /** Bytes at `i`, behind their u16 count. */
  predicate BytesThere(p: seq<u8>, i: nat, announced: bool, v: Option<seq<u8>>) {
    if announced then i + 2 <= |p| && i + 2 + U16At(p, i) <= |p| && v == Some(p[i + 2..i + 2 + U16At(p, i)])
    else v == None
  }

  /** A payload of type code `t` stands for `m`. */
  predicate Stands(t: u16, p: seq<u8>, m: TsgMessage) {
    match m
    case HandshakeRequest(major, minor, client, ext) =>
      t == 1 && |p| >= 6 && p[0] == major && p[1] == minor && U16At(p, 2) == client && U16At(p, 4) == ext
    case HandshakeResponse(err, major, minor, server, ext) =>
      && t == 2 && |p| >= 10 && U32At(p, 0) == err && p[4] == major && p[5] == minor
      && U16At(p, 6) == server && U16At(p, 8) == ext
    case TunnelCreate(caps, fields, res, cookie) =>
      && t == 4 && |p| >= 8 && U32At(p, 0) == caps && U16At(p, 4) == fields && U16At(p, 6) == res
      && CookieThere(p, fields % 2 == 1, cookie)
    case TunnelResponse(server, err, fields, res, tunnel, caps) =>
      var a := fields % 2 == 1;
      && t == 5 && |p| >= 10 && U16At(p, 0) == server && U32At(p, 2) == err && U16At(p, 6) == fields && U16At(p, 8) == res
      && U32There(p, 10, a, tunnel) && U32There(p, if a then 14 else 10, fields / 2 % 2 == 1, caps)
    case TunnelAuth(fields, name) => t == 6 && |p| >= 4 && U16At(p, 0) == fields && NameAt(p, 2, name)
    case TunnelAuthResponse(err, flags, res, idle, soh) =>
      && t == 7 && |p| >= 12 && U32At(p, 0) == err && U16At(p, 4) == flags && U16At(p, 6) == res && U32At(p, 8) == idle
      && soh == None
    case ChannelCreate(n, alt, port, protocol, name) =>
      && t == 8 && |p| >= 8 && p[0] == n && p[1] == alt && U16At(p, 2) == port && U16At(p, 4) == protocol
      && NameAt(p, 6, name)
    case ChannelResponse(err, fields, res, channel, udp, cookie) =>
      var a, b := fields % 2 == 1, fields / 2 % 2 == 1;
      var i := if a then 12 else 8;
      && t == 9 && |p| >= 8 && U32At(p, 0) == err && U16At(p, 4) == fields && U16At(p, 6) == res
      && U32There(p, 8, a, channel) && U16There(p, i, b, udp)
      && BytesThere(p, if b then i + 2 else i, fields / 4 % 2 == 1, cookie)
    case Data(d) => t == 10 && d == p
    case Keepalive => t == 13
    case CloseChannel(d) => t == 14 && d == p
    case CloseChannelResponse(d) => t == 15 && d == p
    case Unknown(k, d) => k == t && t !in {1, 2, 4, 5, 6, 7, 8, 9, 10, 13, 14, 15} && d == p
  }

  /** The PAA cookie of a TunnelCreate: read if it is announced and all there, else none. */
  predicate CookieThere(p: seq<u8>, announced: bool, cookie: Option<Str>) {
    if announced && |p| >= 10 && |p| >= 10 + U16At(p, 8) then cookie.Some? && NameAt(p, 8, cookie.value)
    else cookie == None
  }

  // ---------- Fields behind others ----------

  lemma FieldsBehind(p: seq<u8>, i: nat)
    requires i <= |p|
    ensures i + 2 <= |p| ==> U16At(p[i..], 0) == U16At(p, i)
    ensures i + 4 <= |p| ==> U32At(p[i..], 0) == U32At(p, i)
    ensures forall j, k :: 0 <= j <= k && i + k <= |p| ==> p[i..][j..k] == p[i + j..i + k]
  {
    forall j, k | 0 <= j <= k && i + k <= |p| ensures p[i..][j..k] == p[i + j..i + k] {
      TailSlice(p, i, j, k);
    }
    FieldInTail(p, i, 0);
  }

  lemma NameTaken(p: seq<u8>, i: nat, s: Str)
    requires i + 2 <= |p|
    ensures TakeName(p[i..]) == Ok(s) <==> NameAt(p, i, s)
  {
    FieldsBehind(p, i);
    if i + 2 + U16At(p, i) <= |p| {
      ReadsExactly(p[i + 2..i + 2 + U16At(p, i)], s);
    }
  }

  lemma U32Taken(p: seq<u8>, i: nat, announced: bool)
    requires i <= |p|
    ensures forall v, rest :: TakeU32(p[i..], announced) == Ok((v, rest)) <==>
                                U32There(p, i, announced, v) && rest == p[if announced then i + 4 else i..]
  {
    FieldsBehind(p, i);
    assert announced && i + 4 <= |p| ==> p[i..][4..] == p[i + 4..];
  }

  lemma U16Taken(p: seq<u8>, i: nat, announced: bool)
    requires i <= |p|
    ensures forall v, rest :: TakeU16(p[i..], announced) == Ok((v, rest)) <==>
                                U16There(p, i, announced, v) && rest == p[if announced then i + 2 else i..]
  {
    FieldsBehind(p, i);
    assert announced && i + 2 <= |p| ==> p[i..][2..] == p[i + 2..];
  }

  lemma BytesTaken(p: seq<u8>, i: nat, v: seq<u8>)
    requires i <= |p|
    ensures TakeBytes(p[i..]) == Ok(v) <==> BytesThere(p, i, true, Some(v))
  {
    FieldsBehind(p, i);
  }

  // ---------- Each type ----------

  lemma TunnelCreateStands(p: seq<u8>, m: TsgMessage)
    ensures ParseTunnelCreate(p) == Ok(m) <==> m.TunnelCreate? && Stands(4, p, m)
  {
    if |p| >= 10 && |p| >= 10 + U16At(p, 8) {
      forall s ensures ReadName(p[10..10 + U16At(p, 8)]) == Ok(s) <==> NameAt(p, 8, s) {
        ReadsExactly(p[10..10 + U16At(p, 8)], s);
      }
    }
  }

  lemma TunnelResponseStands(p: seq<u8>, m: TsgMessage)
    ensures ParseTunnelResponse(p) == Ok(m) <==> m.TunnelResponse? && Stands(5, p, m)
  {
    if |p| >= 10 {
      var a, b := U16At(p, 6) % 2 == 1, U16At(p, 6) / 2 % 2 == 1;
      U32Taken(p, 10, a);
      if TakeU32(p[10..], a).Ok? {
        U32Taken(p, if a then 14 else 10, b);
      }
    }
  }

  lemma TunnelAuthStands(p: seq<u8>, m: TsgMessage)
    ensures ParseTunnelAuth(p) == Ok(m) <==> m.TunnelAuth? && Stands(6, p, m)
  {
    if |p| >= 4 {
      forall s ensures TakeName(p[2..]) == Ok(s) <==> NameAt(p, 2, s) {
        NameTaken(p, 2, s);
      }
    }
  }

  lemma ChannelCreateStands(p: seq<u8>, m: TsgMessage)
    ensures ParseChannelCreate(p) == Ok(m) <==> m.ChannelCreate? && Stands(8, p, m)
  {
    if |p| >= 8 {
      forall s ensures TakeName(p[6..]) == Ok(s) <==> NameAt(p, 6, s) {
        NameTaken(p, 6, s);
      }
    }
  }

  lemma ChannelResponseStands(p: seq<u8>, m: TsgMessage)
    ensures ParseChannelResponse(p) == Ok(m) <==> m.ChannelResponse? && Stands(9, p, m)
  {
    if |p| >= 8 {
      var fields := U16At(p, 4);
      var a, b, c := fields % 2 == 1, fields / 2 % 2 == 1, fields / 4 % 2 == 1;
      U32Taken(p, 8, a);
      if TakeU32(p[8..], a).Ok? {
        var i := if a then 12 else 8;
        U16Taken(p, i, b);
        if TakeU16(p[i..], b).Ok? {
          var j := if b then i + 2 else i;
          forall v ensures TakeBytes(p[j..]) == Ok(v) <==> BytesThere(p, j, true, Some(v)) {
            BytesTaken(p, j, v);
          }
        }
      }
    }
  }

  /** A payload parses to a message exactly if it stands for it. */
  lemma {:induction false} PayloadExactly(t: u16, p: seq<u8>, m: TsgMessage)
    ensures ParsePayload(t, p) == Ok(m) <==> Stands(t, p, m)
  {
    if t == 4 {
      TunnelCreateStands(p, m);
    } else if t == 5 {
      TunnelResponseStands(p, m);
    } else if t == 6 {
      TunnelAuthStands(p, m);
    } else if t == 8 {
      ChannelCreateStands(p, m);
    } else if t == 9 {
      ChannelResponseStands(p, m);
    }
  }

  /** The buffer holds a whole message: its type code, its length, and a payload that stands for `m`. */
  predicate Holds(buf: seq<u8>, m: TsgMessage) {
    |buf| >= 8 && 8 <= U32At(buf, 4) <= |buf| && Stands(U16At(buf, 0), buf[8..U32At(buf, 4)], m)
  }

  /** For every buffer and every message: the one is parsed as the other exactly if it holds it. */
  lemma {:induction false} ParsesExactly(buf: seq<u8>, m: TsgMessage)
    ensures ParseMessage(buf) == Ok(m) <==> Holds(buf, m)
  {
    if |buf| >= 8 && 8 <= U32At(buf, 4) <= |buf| {
      PayloadExactly(U16At(buf, 0), buf[8..U32At(buf, 4)], m);
    }
  }

  // ---------- What is written ----------

  /** How long the payload is that is written for a message, its optional fields and names included. */
  function Extent(m: TsgMessage): nat {
    match m
    case HandshakeRequest(_, _, _, _) => 6
    case HandshakeResponse(_, _, _, _, _) => 10
    case TunnelCreate(_, _, _, _) => 8
    case TunnelResponse(_, _, fields, _, _, _) => 10 + 4 * (fields % 2) + 4 * (fields / 2 % 2)
    case TunnelAuth(_, name) => 4 + 2 * |Encode(name)| + 2
    case TunnelAuthResponse(_, _, _, _, _) => 16
    case ChannelCreate(_, _, _, _, name) => 8 + 2 * |Encode(name)| + 2
    case ChannelResponse(_, fields, _, _, _, cookie) =>
      8 + 4 * (fields % 2) + 2 * (fields / 2 % 2) + (match cookie case Some(c) => 2 + |c| case None => 0)
    case Data(d) => |d|
    case Keepalive => 0
    case CloseChannel(d) => |d|
    case CloseChannelResponse(d) => |d|
    case Unknown(_, d) => |d|
  }

  lemma ExtentIsSize(m: TsgMessage)
    requires Writable(m)
    ensures DeclaredSize(m) == Extent(m)
  {
    match m
    case TunnelAuth(_, name) => ReadBackUntilNul(name);
    case ChannelCreate(_, _, _, _, name) => ReadBackUntilNul(name);
    case _ =>
  }

  lemma FrameHeader(t: u16, p: seq<u8>)
    requires 8 + |p| <= U32_MAX
    ensures var w := Frame(t, |p|, p); |w| == U32At(w, 4) == 8 + |p| && U16At(w, 2) == 0 && w[8..] == p
  {
    var length := 8 + |p|;
    var w := Header(t, length) + p;
    assert TruncU32(length) == length;
    HeaderFields(t, length, p);
    assert w[2..4] == PutU16(0);
    U16Field(w, 2, 0);
  }

  lemma LastWordZero(err: u32, flags: u16, res: u16, idle: u32)
    ensures U32At(PutU32(err) + PutU16(flags) + PutU16(res) + PutU32(idle) + PutU32(0), 12) == 0
  {
    Beside5(PutU32(err), PutU16(flags), PutU16(res), PutU32(idle), PutU32(0), 4, 6, 8, 12, 16);
    U32Field(PutU32(err) + PutU16(flags) + PutU16(res) + PutU32(idle) + PutU32(0), 12, 0);
  }

  /**
   A writable message is written as a header with a zero reserved field and its own length, and a
   payload of just that extent which stands for it; the four bytes a TunnelAuthResponse ends in are zero.
   */
  lemma {:induction false} WrittenExactly(m: TsgMessage)
    requires Writable(m)
    ensures var w := Write(m);
            && Holds(w, m) && U16At(w, 2) == 0 && |w| == U32At(w, 4) == 8 + Extent(m)
            && (m.TunnelAuthResponse? ==> U32At(w, 20) == 0)
  {
    var w := Write(m);
    WrittenIsFramed(m);
    ParsesExactly(w, m);
    SizeIsPayload(m);
    WritableFits(m);
    ExtentIsSize(m);
    FrameHeader(TypeCode(m), Payload(m));
    if m.TunnelAuthResponse? {
      LastWordZero(m.errorCode, m.flags, m.reserved, m.idleTimeout);
      FieldsBehind(w, 8);
      assert U32At(w, 20) == U32At(Payload(m), 12);
    }
  }

  /** What a writer drops makes no difference to what it writes. */
  lemma WritersDrop(m: TsgMessage)
    ensures m.TunnelCreate? ==> Write(m) == Write(m.(paaCookie := None))
    ensures m.TunnelAuthResponse? ==> Write(m) == Write(m.(sohResponse := None))
    ensures m.CloseChannelResponse? ==> Write(m) == Write(CloseChannelResponse([]))
  {
  }
}
