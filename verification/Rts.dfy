/**
 RTS PDUs of RPC over HTTP v2 (MS-RPCH, section 2.2.3.6): a 20-byte header and a list of
 commands. The layout is that of the code, which writes command types in two bytes.
 */
module Rts {
  import opened Bytes
  import opened Wrappers
  import opened Uuids

  const RPC_VERSION: u8 := 5
  const RPC_VERSION_MINOR: u8 := 0
  const PTYPE_RTS: u8 := 20
  const RPCH_PROTOCOL_VERSION: u32 := 1
  const DEFAULT_RECEIVE_WINDOW_SIZE: u32 := 262_144
  const DEFAULT_CONNECTION_TIMEOUT: u32 := 120_000
  const RTS_HEADER_LEN: nat := 20

  datatype RpchError =
    | BufferTooShort(needed: nat, have: nat)
    | InvalidRpcVersion(major: u8, minor: u8)
    | InvalidPtype(ptype: u8)
    | InvalidPackedDrep(drep: Drep)
    | InvalidFragLength(declared: nat, actual: nat)
    | UnknownCommand(command: u16)
    | InvalidConnA1
    | InvalidConnB1
    | UnexpectedState(expectedState: VcState, actualState: VcState)
    | VirtualConnectionCookieMismatch(expectedCookie: Uuid, actualCookie: Uuid)

  datatype VcState = WaitingOutChannel | WaitingInChannel | ConnectionEstablished | DataTransfer

  datatype RtsCommand =
    | ReceiveWindowSize(size: u32)
    | FlowControlAck(bytesReceived: u32, availableWindow: u32, channelCookie: Uuid)
    | ConnectionTimeout(timeout: u32)
    | Cookie(cookie: Uuid)
    | ChannelLifetime(lifetime: u32)
    | ClientKeepalive(interval: u32)
    | Version(version: u32)
    | AssociationGroupId(group: Uuid)
  {
    function EncodedLen(): nat {
      match this
      case FlowControlAck(_, _, _) => 2 + 4 + 4 + 16
      case Cookie(_) => 2 + 16
      case AssociationGroupId(_) => 2 + 16
      case _ => 2 + 4
    }

    /** The command type `write_to` puts first. */
    function Kind(): u16 {
      match this
      case ReceiveWindowSize(_) => 0x0000
      case FlowControlAck(_, _, _) => 0x0001
      case ConnectionTimeout(_) => 0x0002
      case Cookie(_) => 0x0003
      case ChannelLifetime(_) => 0x0004
      case ClientKeepalive(_) => 0x0005
      case Version(_) => 0x0006
      case AssociationGroupId(_) => 0x000D
    }

    function Body(): seq<u8> {
      match this
      case ReceiveWindowSize(v) => PutU32(v)
      case FlowControlAck(r, w, c) => PutU32(r) + PutU32(w) + UuidLe(c)
      case ConnectionTimeout(v) => PutU32(v)
      case Cookie(c) => UuidLe(c)
      case ChannelLifetime(v) => PutU32(v)
      case ClientKeepalive(v) => PutU32(v)
      case Version(v) => PutU32(v)
      case AssociationGroupId(c) => UuidLe(c)
    }

    /** What `write_to` appends. */
    function Encode(): seq<u8> {
      PutU16(Kind()) + Body()
    }
  }

  // ---------- Commands ----------

  type Parsed<T> = Result<(T, seq<u8>), RpchError>

  function TakeU16(buf: seq<u8>): Parsed<u16> {
    if |buf| < 2 then Err(BufferTooShort(2, |buf|)) else Ok((U16At(buf, 0), buf[2..]))
  }

  function TakeU32(buf: seq<u8>): Parsed<u32> {
    if |buf| < 4 then Err(BufferTooShort(4, |buf|)) else Ok((U32At(buf, 0), buf[4..]))
  }

  function TakeUuid(buf: seq<u8>): Parsed<Uuid> {
    if |buf| < 16 then Err(BufferTooShort(16, |buf|)) else Ok((UuidLe(buf[..16]), buf[16..]))
  }

  function ParseAck(buf: seq<u8>): Parsed<RtsCommand> {
    if |buf| < 24 then Err(BufferTooShort(24, |buf|))
    else Ok((FlowControlAck(U32At(buf, 0), U32At(buf, 4), UuidLe(buf[8..24])), buf[24..]))
  }

  function ParseBody(kind: u16, buf: seq<u8>): Parsed<RtsCommand> {
    if kind == 0x0000 then var v :- TakeU32(buf); Ok((ReceiveWindowSize(v.0), v.1))
    else if kind == 0x0001 then ParseAck(buf)
    else if kind == 0x0002 then var v :- TakeU32(buf); Ok((ConnectionTimeout(v.0), v.1))
    else if kind == 0x0003 then var c :- TakeUuid(buf); Ok((Cookie(c.0), c.1))
    else if kind == 0x0004 then var v :- TakeU32(buf); Ok((ChannelLifetime(v.0), v.1))
    else if kind == 0x0005 then var v :- TakeU32(buf); Ok((ClientKeepalive(v.0), v.1))
    else if kind == 0x0006 then var v :- TakeU32(buf); Ok((Version(v.0), v.1))
    else if kind == 0x000D then var c :- TakeUuid(buf); Ok((AssociationGroupId(c.0), c.1))
    else Err(UnknownCommand(kind))
  }

  /** `RtsCommand::parse`: the command at the head of the buffer, and what follows it. */
  function ParseCommand(buf: seq<u8>): (r: Parsed<RtsCommand>)
    ensures r.Ok? ==> |r.value.1| <= |buf|
  {
    var kind :- TakeU16(buf);
    ParseBody(kind.0, kind.1)
  }

  lemma U32Heads(v: u32, rest: seq<u8>)
    ensures TakeU32(PutU32(v) + rest) == Ok((v, rest))
  {
    assert (PutU32(v) + rest)[0..4] == PutU32(v);
    U32Field(PutU32(v) + rest, 0, v);
  }

  lemma UuidHeads(u: Uuid, rest: seq<u8>)
    ensures TakeUuid(UuidLe(u) + rest) == Ok((u, rest))
  {
    assert (UuidLe(u) + rest)[..16] == UuidLe(u);
    UuidLeTwice(u);
  }

  lemma AckHeads(r: u32, w: u32, c: Uuid, rest: seq<u8>)
    ensures ParseAck(PutU32(r) + PutU32(w) + UuidLe(c) + rest) == Ok((FlowControlAck(r, w, c), rest))
  {
    var b := PutU32(r) + PutU32(w) + UuidLe(c) + rest;
    Beside4(PutU32(r), PutU32(w), UuidLe(c), rest, 4, 8, 24, 24 + |rest|);
    U32Field(b, 0, r);
    U32Field(b, 4, w);
    UuidLeTwice(c);
  }

  lemma KindHeads(kind: u16, rest: seq<u8>)
    ensures TakeU16(PutU16(kind) + rest) == Ok((kind, rest))
  {
    assert (PutU16(kind) + rest)[0..2] == PutU16(kind);
    U16Field(PutU16(kind) + rest, 0, kind);
  }

  lemma BodyReads(c: RtsCommand, rest: seq<u8>)
    ensures ParseBody(c.Kind(), c.Body() + rest) == Ok((c, rest))
  {
    match c
    case FlowControlAck(r, w, u) => AckHeads(r, w, u, rest);
    case Cookie(u) => UuidHeads(u, rest);
    case AssociationGroupId(u) => UuidHeads(u, rest);
    case ReceiveWindowSize(v) => U32Heads(v, rest);
    case ConnectionTimeout(v) => U32Heads(v, rest);
    case ChannelLifetime(v) => U32Heads(v, rest);
    case ClientKeepalive(v) => U32Heads(v, rest);
    case Version(v) => U32Heads(v, rest);
  }

  lemma {:induction false} CommandReadsBack(c: RtsCommand, rest: seq<u8>)
    ensures |c.Encode()| == c.EncodedLen()
    ensures ParseCommand(c.Encode() + rest) == Ok((c, rest))
  {
    KindHeads(c.Kind(), c.Body() + rest);
    assert c.Encode() + rest == PutU16(c.Kind()) + (c.Body() + rest);
    BodyReads(c, rest);
  }

  /** A value read off the head of a buffer is what stood there. */
  lemma TakenStoodThere(buf: seq<u8>)
    ensures TakeU32(buf).Ok? ==> buf == PutU32(TakeU32(buf).value.0) + TakeU32(buf).value.1
    ensures TakeUuid(buf).Ok? ==> buf == UuidLe(TakeUuid(buf).value.0) + TakeUuid(buf).value.1
    ensures TakeU16(buf).Ok? ==> buf == PutU16(TakeU16(buf).value.0) + TakeU16(buf).value.1
  {
    if |buf| >= 4 {
      U32Field(buf, 0, U32At(buf, 0));
      assert buf == buf[..4] + buf[4..];
    }
    if |buf| >= 2 {
      U16Field(buf, 0, U16At(buf, 0));
      assert buf == buf[..2] + buf[2..];
    }
    if |buf| >= 16 {
      UuidLeTwice(buf[..16]);
      assert buf == buf[..16] + buf[16..];
    }
  }

  lemma AckStoodThere(buf: seq<u8>)
    ensures ParseAck(buf).Ok? ==>
              var (c, rest) := ParseAck(buf).value;
              buf == PutU32(c.bytesReceived) + PutU32(c.availableWindow) + UuidLe(c.channelCookie) + rest
  {
    if |buf| >= 24 {
      U32Field(buf, 0, U32At(buf, 0));
      U32Field(buf, 4, U32At(buf, 4));
      UuidLeTwice(buf[8..24]);
      assert buf == buf[0..4] + buf[4..8] + buf[8..24] + buf[24..];
    }
  }

  lemma BodyStoodThere(kind: u16, buf: seq<u8>)
    ensures ParseBody(kind, buf).Ok? ==>
              var (c, rest) := ParseBody(kind, buf).value; c.Kind() == kind && buf == c.Body() + rest
  {
    TakenStoodThere(buf);
    AckStoodThere(buf);
  }

  lemma {:induction false} CommandWritesBack(buf: seq<u8>)
    ensures ParseCommand(buf).Ok? ==>
              buf == ParseCommand(buf).value.0.Encode() + ParseCommand(buf).value.1
  {
    if ParseCommand(buf).Ok? {
      TakenStoodThere(buf);
      var (kind, body) := TakeU16(buf).value;
      BodyStoodThere(kind, body);
      var (c, rest) := ParseCommand(buf).value;
      Associate(PutU16(kind), c.Body(), rest);
    }
  }

  function EncodeAll(cs: seq<RtsCommand>): seq<u8> {
    if cs == [] then [] else cs[0].Encode() + EncodeAll(cs[1..])
  }

  function SumLen(cs: seq<RtsCommand>): nat {
    if cs == [] then 0 else cs[0].EncodedLen() + SumLen(cs[1..])
  }

  /** The first `n` commands of a buffer, and what follows them. */
  function ParseCommands(n: nat, buf: seq<u8>): (r: Parsed<seq<RtsCommand>>)
    ensures r.Ok? ==> |r.value.1| <= |buf| && |r.value.0| == n
  {
    if n == 0 then Ok(([], buf))
    else
      var head :- ParseCommand(buf);
      var tail :- ParseCommands(n - 1, head.1);
      Ok(([head.0] + tail.0, tail.1))
  }

  lemma ConsParses(n: nat, buf: seq<u8>, c: RtsCommand, after: seq<u8>, cs: seq<RtsCommand>, rest: seq<u8>)
    requires ParseCommand(buf) == Ok((c, after)) && ParseCommands(n, after) == Ok((cs, rest))
    ensures ParseCommands(n + 1, buf) == Ok(([c] + cs, rest))
  {
  }

  lemma CommandSize(c: RtsCommand)
    ensures |c.Encode()| == c.EncodedLen() >= 6
  {
  }

  lemma {:induction false} CommandsSize(cs: seq<RtsCommand>)
    ensures |EncodeAll(cs)| == SumLen(cs) >= 6 * |cs|
  {
    if cs != [] {
      CommandSize(cs[0]);
      CommandsSize(cs[1..]);
    }
  }

  lemma {:induction false} ConsSplits(cs: seq<RtsCommand>, rest: seq<u8>)
    requires cs != []
    ensures EncodeAll(cs) + rest == cs[0].Encode() + (EncodeAll(cs[1..]) + rest)
    ensures cs == [cs[0]] + cs[1..]
  {
  }

  lemma {:induction false} CommandsReadBack(cs: seq<RtsCommand>, rest: seq<u8>)
    ensures ParseCommands(|cs|, EncodeAll(cs) + rest) == Ok((cs, rest))
  {
    if cs == [] {
      assert EncodeAll(cs) + rest == rest;
    } else {
      var c, more := cs[0], EncodeAll(cs[1..]) + rest;
      CommandReadsBack(c, more);
      CommandsReadBack(cs[1..], rest);
      ConsSplits(cs, rest);
      ConsParses(|cs| - 1, c.Encode() + more, c, more, cs[1..], rest);
    }
  }

  lemma ConsFrom(n: nat, buf: seq<u8>, cs: seq<RtsCommand>, rest: seq<u8>) returns (after: seq<u8>)
    requires n > 0 && ParseCommands(n, buf) == Ok((cs, rest))
    ensures cs != [] && ParseCommand(buf) == Ok((cs[0], after)) && ParseCommands(n - 1, after) == Ok((cs[1..], rest))
  {
    after := ParseCommand(buf).value.1;
  }

  lemma {:induction false} CommandsWriteBack(n: nat, buf: seq<u8>, cs: seq<RtsCommand>, rest: seq<u8>)
    requires ParseCommands(n, buf) == Ok((cs, rest))
    ensures buf == EncodeAll(cs) + rest
  {
    if n == 0 {
      assert EncodeAll([]) + buf == buf;
    } else {
      var after := ConsFrom(n, buf, cs, rest);
      CommandWritesBack(buf);
      CommandsWriteBack(n - 1, after, cs[1..], rest);
      ConsSplits(cs, rest);
    }
  }

  // ---------- PDUs ----------

  datatype RtsPdu = RtsPdu(
    rpcVersion: u8,
    rpcVersionMinor: u8,
    ptype: u8,
    pfcFlags: u8,
    packedDrep: Drep,
    authLength: u16,
    callId: u32,
    flags: u16,
    commands: seq<RtsCommand>)
  {
    /** The constants `parse` insists on. */
    predicate HeaderValid() {
      rpcVersion == 5 && rpcVersionMinor == 0 && ptype == 20 && packedDrep == [0x10, 0, 0, 0]
    }

    function TotalLen(): nat {
      RTS_HEADER_LEN + SumLen(commands)
    }
  }

  function NewPdu(callId: u32, flags: u16, commands: seq<RtsCommand>): RtsPdu {
    RtsPdu(RPC_VERSION, RPC_VERSION_MINOR, PTYPE_RTS, 0, LITTLE_ENDIAN_DREP, 0, callId, flags, commands)
  }

  /** The fixed header around a frag length and a command count. */
  function PduHeader(p: RtsPdu, fragLength: u16, count: u16): seq<u8> {
    [p.rpcVersion, p.rpcVersionMinor, p.ptype, p.pfcFlags] + p.packedDrep
    + PutU16(fragLength) + PutU16(p.authLength) + PutU32(p.callId) + PutU16(p.flags) + PutU16(count)
  }

  /** What `to_bytes` returns; both counts are cast to u16. */
  function PduBytes(p: RtsPdu): seq<u8> {
    PduHeader(p, TruncU16(p.TotalLen()), TruncU16(|p.commands|)) + EncodeAll(p.commands)
  }

  method ToBytes(p: RtsPdu) returns (out: seq<u8>)
    ensures out == PduBytes(p)
  {
    out := PduHeader(p, TruncU16(p.TotalLen()), TruncU16(|p.commands|));
    for i := 0 to |p.commands|
      invariant out + EncodeAll(p.commands[i..]) == PduBytes(p)
    {
      assert p.commands[i..][1..] == p.commands[i + 1..];
      out := out + p.commands[i].Encode();
    }
  }

  /** The checks of `parse` on the fixed header, in its order; the commands are yet to be read. */
  function CheckHeader(d: seq<u8>): Result<RtsPdu, RpchError> {
    if |d| < RTS_HEADER_LEN then Err(BufferTooShort(RTS_HEADER_LEN, |d|))
    else if d[0] != RPC_VERSION || d[1] != RPC_VERSION_MINOR then Err(InvalidRpcVersion(d[0], d[1]))
    else if d[2] != PTYPE_RTS then Err(InvalidPtype(d[2]))
    else if d[4..8] != LITTLE_ENDIAN_DREP then Err(InvalidPackedDrep(d[4..8]))
    else if U16At(d, 8) != |d| then Err(InvalidFragLength(U16At(d, 8), |d|))
    else Ok(RtsPdu(d[0], d[1], d[2], d[3], d[4..8], U16At(d, 10), U32At(d, 12), U16At(d, 16), []))
  }

  function ParsePdu(d: seq<u8>): Result<RtsPdu, RpchError> {
    var p :- CheckHeader(d);
    var cs :- ParseCommands(U16At(d, 18), d[20..]);
    if cs.1 != [] then Err(InvalidFragLength(|d|, |d| - |cs.1|))
    else Ok(p.(commands := cs.0))
  }

  /** What reading `n` commands comes to, with `done` read before and `buf` still to be read. */
  ghost function Resumed(done: seq<RtsCommand>, n: nat, buf: seq<u8>): Parsed<seq<RtsCommand>> {
    match ParseCommands(n, buf)
    case Ok((cs, rest)) => Ok((done + cs, rest))
    case Err(e) => Err(e)
  }

  lemma ResumeNext(done: seq<RtsCommand>, n: nat, buf: seq<u8>)
    requires n > 0
    ensures match ParseCommand(buf)
            case Ok((c, after)) => Resumed(done, n, buf) == Resumed(done + [c], n - 1, after)
            case Err(e) => Resumed(done, n, buf) == Err(e)
  {
    if ParseCommand(buf).Ok? && ParseCommands(n, buf).Ok? {
      var (c, after) := ParseCommand(buf).value;
      var cs := ParseCommands(n - 1, after).value.0;
      assert done + ([c] + cs) == done + [c] + cs;
    }
  }

  /** `RtsPdu::parse`, reading one command after the other off a moving cursor. */
  method Parse(d: seq<u8>) returns (r: Result<RtsPdu, RpchError>)
    ensures r == ParsePdu(d)
  {
    var header := CheckHeader(d);
    if header.Err? {
      return Err(header.error);
    }
    var n := U16At(d, 18);
    var buf, commands := d[20..], [];
    ghost var all := ParseCommands(n, d[20..]);
    for i := 0 to n
      invariant Resumed(commands, n - i, buf) == Resumed([], n, d[20..])
      invariant |buf| <= |d|
    {
      ResumeNext(commands, n - i, buf);
      var step := ParseCommand(buf);
      if step.Err? {
        return Err(step.error);
      }
      commands, buf := commands + [step.value.0], step.value.1;
    }
    assert commands + [] == commands;
    assert all.Ok? ==> [] + all.value.0 == all.value.0;
    if buf != [] {
      return Err(InvalidFragLength(U16At(d, 8), |d| - |buf|));
    }
    r := Ok(header.value.(commands := commands));
  }

  lemma FrontFields(d: seq<u8>, front: seq<u8>)
    requires |front| == 16 && |d| >= 16 && d[0..16] == front
    ensures forall i :: 0 <= i < 4 ==> d[i] == front[i]
    ensures d[4..8] == front[4..8] && d[8..10] == front[8..10] && d[10..12] == front[10..12] && d[12..16] == front[12..16]
  {
    assert forall i :: 0 <= i < 16 ==> d[i] == d[0..16][i];
  }

  lemma HeaderReads(p: RtsPdu, fragLength: u16, count: u16, body: seq<u8>)
    ensures var d := PduHeader(p, fragLength, count) + body;
            && |d| == 20 + |body| && d[20..] == body
            && d[0] == p.rpcVersion && d[1] == p.rpcVersionMinor && d[2] == p.ptype && d[3] == p.pfcFlags
            && d[4..8] == p.packedDrep && U16At(d, 8) == fragLength && U16At(d, 10) == p.authLength
            && U32At(d, 12) == p.callId && U16At(d, 16) == p.flags && U16At(d, 18) == count
  {
    var d := PduHeader(p, fragLength, count) + body;
    var first := [p.rpcVersion, p.rpcVersionMinor, p.ptype, p.pfcFlags];
    var front := first + p.packedDrep + PutU16(fragLength) + PutU16(p.authLength) + PutU32(p.callId);
    Beside5(first, p.packedDrep, PutU16(fragLength), PutU16(p.authLength), PutU32(p.callId), 4, 8, 10, 12, 16);
    Beside4(front, PutU16(p.flags), PutU16(count), body, 16, 18, 20, |d|);
    FrontFields(d, front);
    U16Field(d, 8, fragLength);
    U16Field(d, 10, p.authLength);
    U32Field(d, 12, p.callId);
    U16Field(d, 16, p.flags);
    U16Field(d, 18, count);
  }

  lemma HeaderChecks(p: RtsPdu, fragLength: u16, count: u16, body: seq<u8>)
    ensures var d := PduHeader(p, fragLength, count) + body;
            CheckHeader(d).Ok? <==> p.HeaderValid() && fragLength == |d|
    ensures var d := PduHeader(p, fragLength, count) + body;
            p.HeaderValid() && fragLength == |d| ==> CheckHeader(d) == Ok(p.(commands := []))
  {
    HeaderReads(p, fragLength, count, body);
    var d := PduHeader(p, fragLength, count) + body;
    assert p.HeaderValid() <==> d[0] == RPC_VERSION && d[1] == RPC_VERSION_MINOR && d[2] == PTYPE_RTS
                                && d[4..8] == LITTLE_ENDIAN_DREP;
    if p.HeaderValid() && fragLength == |d| {
      assert CheckHeader(d).value.packedDrep == p.packedDrep;
    }
  }

  lemma ParsesTo(d: seq<u8>, p: RtsPdu, cs: seq<RtsCommand>)
    requires |d| >= 20 && CheckHeader(d) == Ok(p) && ParseCommands(U16At(d, 18), d[20..]) == Ok((cs, []))
    ensures ParsePdu(d) == Ok(p.(commands := cs))
  {
  }

  /**
   A PDU survives `to_bytes` and `parse` exactly when its constants are the ones parsed for and
   its length fits the u16 field, whatever its commands are.
   */
  lemma {:induction false} PduRoundTripExactly(p: RtsPdu)
    ensures ParsePdu(PduBytes(p)) == Ok(p) <==> p.HeaderValid() && p.TotalLen() <= U16_MAX
  {
    var body, frag, count := EncodeAll(p.commands), TruncU16(p.TotalLen()), TruncU16(|p.commands|);
    CommandsReadBack(p.commands, []);
    CommandsSize(p.commands);
    assert body + [] == body;
    HeaderReads(p, frag, count, body);
    HeaderChecks(p, frag, count, body);
    TruncExact(p.TotalLen());
    if p.HeaderValid() && p.TotalLen() <= U16_MAX {
      TruncExact(|p.commands|);
      ParsesTo(PduBytes(p), p.(commands := []), p.commands);
    } else {
      assert CheckHeader(PduBytes(p)).Err?;
    }
  }

  lemma TruncExact(n: nat)
    ensures TruncU16(n) == n <==> n <= U16_MAX
  {
  }

  lemma ParsedFrom(d: seq<u8>, p: RtsPdu)
    requires ParsePdu(d) == Ok(p)
    ensures |d| >= 20 && CheckHeader(d) == Ok(p.(commands := []))
    ensures ParseCommands(U16At(d, 18), d[20..]) == Ok((p.commands, []))
  {
  }

  lemma PduIs(d: seq<u8>, p: RtsPdu, fragLength: u16, count: u16)
    requires d == PduHeader(p, fragLength, count) + EncodeAll(p.commands)
    requires fragLength == |d| && count == |p.commands|
    ensures PduBytes(p) == d && p.TotalLen() == |d|
  {
    CommandsSize(p.commands);
    HeaderSize(p, fragLength, count);
    TruncExact(|d|);
    TruncExact(|p.commands|);
  }

  lemma HeaderSize(p: RtsPdu, fragLength: u16, count: u16)
    ensures |PduHeader(p, fragLength, count)| == 20
  {
  }

  lemma HeaderOf(d: seq<u8>, p: RtsPdu)
    requires CheckHeader(d) == Ok(p)
    ensures |d| >= 20 && p.HeaderValid() && U16At(d, 8) == |d|
    ensures d == PduHeader(p, U16At(d, 8), U16At(d, 18)) + d[20..]
  {
    HeaderWritesBack(d, p);
  }

  /** Every byte string that parses is what its PDU is written as. */
  lemma {:induction false} PduWritesBack(d: seq<u8>, p: RtsPdu)
    requires ParsePdu(d) == Ok(p)
    ensures PduBytes(p) == d && p.HeaderValid() && p.TotalLen() == |d| <= U16_MAX
  {
    ParsedFrom(d, p);
    HeaderOf(d, p.(commands := []));
    CommandsWriteBack(U16At(d, 18), d[20..], p.commands, []);
    assert EncodeAll(p.commands) + [] == EncodeAll(p.commands);
    SameHeader(p, U16At(d, 8), U16At(d, 18));
    PduIs(d, p, U16At(d, 8), U16At(d, 18));
  }

  lemma SameHeader(p: RtsPdu, fragLength: u16, count: u16)
    ensures PduHeader(p.(commands := []), fragLength, count) == PduHeader(p, fragLength, count)
  {
  }

  lemma HeaderWritesBack(d: seq<u8>, p: RtsPdu)
    requires |d| >= 20
    requires d[0] == p.rpcVersion && d[1] == p.rpcVersionMinor && d[2] == p.ptype && d[3] == p.pfcFlags
    requires d[4..8] == p.packedDrep && U16At(d, 10) == p.authLength
    requires U32At(d, 12) == p.callId && U16At(d, 16) == p.flags
    ensures d == PduHeader(p, U16At(d, 8), U16At(d, 18)) + d[20..]
  {
    U16Field(d, 8, U16At(d, 8));
    U16Field(d, 10, U16At(d, 10));
    U32Field(d, 12, U32At(d, 12));
    U16Field(d, 16, U16At(d, 16));
    U16Field(d, 18, U16At(d, 18));
    assert d == d[0..4] + d[4..8] + d[8..10] + d[10..12] + d[12..16] + d[16..18] + d[18..20] + d[20..];
    assert d[0..4] == [d[0], d[1], d[2], d[3]];
  }

  // ---------- The connection sequences ----------

  datatype ConnA1 = ConnA1(callId: u32, version: u32, vcCookie: Uuid, outCookie: Uuid, window: u32)

  datatype ConnB1 = ConnB1(callId: u32, version: u32, vcCookie: Uuid, inCookie: Uuid,
                           lifetime: u32, keepalive: u32, group: Uuid)

  function AsConnA1(p: RtsPdu): Result<ConnA1, RpchError> {
    if p.flags != 0 || |p.commands| != 4 then Err(InvalidConnA1)
    else
      match (p.commands[0], p.commands[1], p.commands[2], p.commands[3])
      case (Version(v), Cookie(vc), Cookie(out), ReceiveWindowSize(w)) => Ok(ConnA1(p.callId, v, vc, out, w))
      case _ => Err(InvalidConnA1)
  }

  function AsConnB1(p: RtsPdu): Result<ConnB1, RpchError> {
    if p.flags != 0 || |p.commands| != 6 then Err(InvalidConnB1)
    else
      match (p.commands[0], p.commands[1], p.commands[2], p.commands[3], p.commands[4], p.commands[5])
      case (Version(v), Cookie(vc), Cookie(inn), ChannelLifetime(l), ClientKeepalive(k), AssociationGroupId(g)) =>
        Ok(ConnB1(p.callId, v, vc, inn, l, k, g))
      case _ => Err(InvalidConnB1)
  }

  function MakeConnA1(callId: u32, vc: Uuid, out: Uuid): RtsPdu {
    NewPdu(callId, 0, [Version(RPCH_PROTOCOL_VERSION), Cookie(vc), Cookie(out),
                       ReceiveWindowSize(DEFAULT_RECEIVE_WINDOW_SIZE)])
  }

  function MakeConnB1(callId: u32, vc: Uuid, inn: Uuid, group: Uuid): RtsPdu {
    NewPdu(callId, 0, [Version(RPCH_PROTOCOL_VERSION), Cookie(vc), Cookie(inn),
                       ChannelLifetime(1_073_741_824), ClientKeepalive(300_000), AssociationGroupId(group)])
  }

  function ConnC2(callId: u32): RtsPdu {
    NewPdu(callId, 0, [Version(RPCH_PROTOCOL_VERSION), ReceiveWindowSize(DEFAULT_RECEIVE_WINDOW_SIZE),
                       ConnectionTimeout(DEFAULT_CONNECTION_TIMEOUT)])
  }

  /** The three sequences are recognized from the bytes they are sent as. */
  lemma {:induction false} SequencesReadBack(callId: u32, vc: Uuid, channel: Uuid, group: Uuid)
    ensures var a1 := ParsePdu(PduBytes(MakeConnA1(callId, vc, channel)));
            a1.Ok? && AsConnA1(a1.value) == Ok(ConnA1(callId, 1, vc, channel, 262_144)) && AsConnB1(a1.value).Err?
    ensures var b1 := ParsePdu(PduBytes(MakeConnB1(callId, vc, channel, group)));
            b1.Ok? && AsConnA1(b1.value).Err?
            && AsConnB1(b1.value) == Ok(ConnB1(callId, 1, vc, channel, 1_073_741_824, 300_000, group))
    ensures ParsePdu(PduBytes(ConnC2(callId))) == Ok(ConnC2(callId))
  {
    PduRoundTripExactly(MakeConnA1(callId, vc, channel));
    PduRoundTripExactly(MakeConnB1(callId, vc, channel, group));
    PduRoundTripExactly(ConnC2(callId));
    SmallSums(MakeConnA1(callId, vc, channel).commands);
    SmallSums(MakeConnB1(callId, vc, channel, group).commands);
    SmallSums(ConnC2(callId).commands);
  }

  lemma SmallSums(cs: seq<RtsCommand>)
    ensures SumLen(cs) <= 26 * |cs|
  {
  }
}
