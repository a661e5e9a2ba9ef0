/** Where the fields of RTS PDUs and their commands lie, and which commands make the connection sequences. */
module RtsLayout {
  import opened Bytes
  import opened Wrappers
  import opened Uuids
  import opened Rts

  /** The bytes of a command with one u32. */
  predicate NumberLies(b: seq<u8>, kind: u16, v: u32) {
    |b| == 6 && U16At(b, 0) == kind && U32At(b, 2) == v
  }

  /** The bytes of a command with one UUID. */
  predicate UuidLies(b: seq<u8>, kind: u16, u: Uuid) {
    |b| == 18 && U16At(b, 0) == kind && OnWire(b[2..], u)
  }

  /** These bytes are the command. */
  predicate CommandLies(b: seq<u8>, c: RtsCommand) {
    match c
    case ReceiveWindowSize(v) => NumberLies(b, 0, v)
    case FlowControlAck(r, w, u) =>
      |b| == 26 && U16At(b, 0) == 1 && U32At(b, 2) == r && U32At(b, 6) == w && OnWire(b[10..], u)
    case ConnectionTimeout(v) => NumberLies(b, 2, v)
    case Cookie(u) => UuidLies(b, 3, u)
    case ChannelLifetime(v) => NumberLies(b, 4, v)
    case ClientKeepalive(v) => NumberLies(b, 5, v)
    case Version(v) => NumberLies(b, 6, v)
    case AssociationGroupId(u) => UuidLies(b, 13, u)
  }

  lemma NumberLiesExactly(b: seq<u8>, kind: u16, v: u32)
    ensures NumberLies(b, kind, v) <==> b == PutU16(kind) + PutU32(v)
  {
    if |b| == 6 {
      U16Field(b, 0, kind);
      U32Field(b, 2, v);
      assert b == b[0..2] + b[2..6];
      Beside2(PutU16(kind), PutU32(v), 2, 6);
    }
  }

  lemma UuidLiesExactly(b: seq<u8>, kind: u16, u: Uuid)
    ensures UuidLies(b, kind, u) <==> b == PutU16(kind) + UuidLe(u)
  {
    if |b| == 18 {
      U16Field(b, 0, kind);
      UuidOnWire(b[2..], u);
      assert b == b[0..2] + b[2..];
      Beside2(PutU16(kind), UuidLe(u), 2, 18);
    }
  }

  lemma AckLiesExactly(b: seq<u8>, r: u32, w: u32, u: Uuid)
    ensures CommandLies(b, FlowControlAck(r, w, u)) <==> b == PutU16(1) + (PutU32(r) + PutU32(w) + UuidLe(u))
  {
    if |b| == 26 {
      U16Field(b, 0, 1);
      U32Field(b, 2, r);
      U32Field(b, 6, w);
      UuidOnWire(b[10..], u);
      AckPieces(b, PutU16(1), PutU32(r), PutU32(w), UuidLe(u));
    }
  }

  lemma AckPieces(b: seq<u8>, k: seq<u8>, r: seq<u8>, w: seq<u8>, u: seq<u8>)
    requires |b| == 26 && |k| == 2 && |r| == 4 && |w| == 4 && |u| == 16
    ensures b == k + (r + w + u) <==> b[0..2] == k && b[2..6] == r && b[6..10] == w && b[10..] == u
  {
    assert b == b[0..2] + (b[2..6] + b[6..10] + b[10..]);
    Beside4(k, r, w, u, 2, 6, 10, 26);
    assert k + r + w + u == k + (r + w + u);
  }

  /** A command is written as exactly these bytes, and by both directions of the codec parsed from them alone. */
  lemma {:induction false} CommandExactly(b: seq<u8>, c: RtsCommand)
    ensures CommandLies(b, c) <==> b == c.Encode()
    ensures CommandLies(b, c) <==> ParseCommand(b) == Ok((c, []))
  {
    ParsedAlone(b, c);
    match c
    case FlowControlAck(r, w, u) => AckLiesExactly(b, r, w, u);
    case Cookie(u) => UuidLiesExactly(b, 3, u);
    case AssociationGroupId(u) => UuidLiesExactly(b, 13, u);
    case ReceiveWindowSize(v) => NumberLiesExactly(b, 0, v);
    case ConnectionTimeout(v) => NumberLiesExactly(b, 2, v);
    case ChannelLifetime(v) => NumberLiesExactly(b, 4, v);
    case ClientKeepalive(v) => NumberLiesExactly(b, 5, v);
    case Version(v) => NumberLiesExactly(b, 6, v);
  }

  lemma ParsedAlone(b: seq<u8>, c: RtsCommand)
    ensures b == c.Encode() <==> ParseCommand(b) == Ok((c, []))
  {
    CommandReadsBack(c, []);
    CommandWritesBack(b);
    assert c.Encode() + [] == c.Encode();
  }

  /** These bytes are the PDU: its constants, its own length, its fields, and its commands behind their number. */
  predicate PduLies(d: seq<u8>, p: RtsPdu) {
    && |d| >= 20 && d[0] == 5 == p.rpcVersion && d[1] == 0 == p.rpcVersionMinor && d[2] == 20 == p.ptype
    && d[3] == p.pfcFlags && d[4..8] == [16, 0, 0, 0] == p.packedDrep && U16At(d, 8) == |d|
    && U16At(d, 10) == p.authLength && U32At(d, 12) == p.callId && U16At(d, 16) == p.flags
    && U16At(d, 18) == |p.commands| && d[20..] == EncodeAll(p.commands)
  }

  lemma LiesAsWritten(d: seq<u8>, p: RtsPdu)
    requires PduLies(d, p)
    ensures ParsePdu(d) == Ok(p)
  {
    HeaderWritesBack(d, p);
    PduIs(d, p, U16At(d, 8), U16At(d, 18));
    PduRoundTripExactly(p);
  }

  lemma WrittenLies(d: seq<u8>, p: RtsPdu)
    requires ParsePdu(d) == Ok(p)
    ensures PduLies(d, p)
  {
    PduWritesBack(d, p);
    CommandsSize(p.commands);
    HeaderReads(p, TruncU16(p.TotalLen()), TruncU16(|p.commands|), EncodeAll(p.commands));
    TruncExact(p.TotalLen());
    TruncExact(|p.commands|);
  }

  /** For all bytes and PDUs: the ones parse as the other exactly if they are it. */
  lemma {:induction false} PduParsesExactly(d: seq<u8>, p: RtsPdu)
    ensures ParsePdu(d) == Ok(p) <==> PduLies(d, p)
  {
    if PduLies(d, p) {
      LiesAsWritten(d, p);
    }
    if ParsePdu(d) == Ok(p) {
      WrittenLies(d, p);
    }
  }

  /** CONN/A1: version, the connection's cookie, the OUT channel's, and the receive window, and nothing else. */
  lemma {:induction false} A1Exactly(p: RtsPdu, a: ConnA1)
    ensures AsConnA1(p) == Ok(a) <==>
            p.flags == 0 && p.callId == a.callId
            && p.commands == [Version(a.version), Cookie(a.vcCookie), Cookie(a.outCookie), ReceiveWindowSize(a.window)]
  {
    var cs := p.commands;
    assert |cs| == 4 ==> cs == [cs[0], cs[1], cs[2], cs[3]];
  }

  /** CONN/B1: version, the connection's cookie, the IN channel's, lifetime, keepalive and association group. */
  lemma {:induction false} B1Exactly(p: RtsPdu, b: ConnB1)
    ensures AsConnB1(p) == Ok(b) <==>
            p.flags == 0 && p.callId == b.callId
            && p.commands == [Version(b.version), Cookie(b.vcCookie), Cookie(b.inCookie), ChannelLifetime(b.lifetime),
                              ClientKeepalive(b.keepalive), AssociationGroupId(b.group)]
  {
    var cs := p.commands;
    assert |cs| == 6 ==> cs == [cs[0], cs[1], cs[2], cs[3], cs[4], cs[5]];
  }

  /** CONN/C2 as the client reads it: version 1, a window of 262144 bytes and a timeout of 120000 ms. */
  lemma {:induction false} C2Exactly(callId: u32)
    ensures ParsePdu(PduBytes(ConnC2(callId))) ==
            Ok(RtsPdu(5, 0, 20, 0, [16, 0, 0, 0], 0, callId, 0,
                      [Version(1), ReceiveWindowSize(262144), ConnectionTimeout(120000)]))
  {
    PduRoundTripExactly(ConnC2(callId));
    SmallSums(ConnC2(callId).commands);
  }
}
