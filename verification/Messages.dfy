/**
 TSG messages: an 8-byte header (type, reserved, total length) and a payload. Names are UTF-16,
 option fields are announced by flag bits.
 */
module Messages {
  import opened Bytes
  import opened Wrappers
  import opened Utf16

  const HEADER_SIZE: nat := 8

  const TYPE_HANDSHAKE_REQUEST: u16 := 0x0001
  const TYPE_HANDSHAKE_RESPONSE: u16 := 0x0002
  const TYPE_TUNNEL_CREATE: u16 := 0x0004
  const TYPE_TUNNEL_RESPONSE: u16 := 0x0005
  const TYPE_TUNNEL_AUTH: u16 := 0x0006
  const TYPE_TUNNEL_AUTH_RESPONSE: u16 := 0x0007
  const TYPE_CHANNEL_CREATE: u16 := 0x0008
  const TYPE_CHANNEL_RESPONSE: u16 := 0x0009
  const TYPE_DATA: u16 := 0x000A
  const TYPE_KEEPALIVE: u16 := 0x000D
  const TYPE_CLOSE_CHANNEL: u16 := 0x000E
  const TYPE_CLOSE_CHANNEL_RESPONSE: u16 := 0x000F

  const TUNNEL_FIELD_PAA_COOKIE: nat := 1
  const TUNNEL_RESPONSE_FIELD_TUNNEL_ID: nat := 1
  const TUNNEL_RESPONSE_FIELD_CAPS: nat := 2
  const CHANNEL_RESPONSE_FIELD_CHANNELID: nat := 1
  const CHANNEL_RESPONSE_FIELD_UDPPORT: nat := 2
  const CHANNEL_RESPONSE_FIELD_AUTHNCOOKIE: nat := 4

  datatype MessageError =
    | BufferTooShort(needed: nat, have: nat)
    | InvalidLength(length: u32)
    | InvalidUtf16

  datatype TsgMessage =
    | HandshakeRequest(majorVersion: u8, minorVersion: u8, clientVersion: u16, extAuth: u16)
    | HandshakeResponse(errorCode: u32, majorVersion: u8, minorVersion: u8, serverVersion: u16, extAuth: u16)
    | TunnelCreate(capsFlags: u32, fieldsPresent: u16, reserved: u16, paaCookie: Option<Str>)
    | TunnelResponse(serverVersion: u16, errorCode: u32, fieldsPresent: u16, reserved: u16,
                     tunnelId: Option<u32>, caps: Option<u32>)
    | TunnelAuth(fieldsPresent: u16, clientName: Str)
    | TunnelAuthResponse(errorCode: u32, flags: u16, reserved: u16, idleTimeout: u32, sohResponse: Option<seq<u8>>)
    | ChannelCreate(numResources: u8, numAltResources: u8, port: u16, protocol: u16, serverName: Str)
    | ChannelResponse(errorCode: u32, fieldsPresent: u16, reserved: u16,
                      channelId: Option<u32>, udpPort: Option<u16>, authCookie: Option<seq<u8>>)
    | Data(data: seq<u8>)
    | Keepalive
    | CloseChannel(payload: seq<u8>)
    | CloseChannelResponse(payload: seq<u8>)
    | Unknown(msgType: u16, payload: seq<u8>)

  type MessageResult = Result<TsgMessage, MessageError>

  /** Whether the one-bit mask `bit` is set in `flags`. */
  predicate HasFlag(flags: u16, bit: nat)
    requires bit > 0
  {
    flags / bit % 2 == 1
  }

  // ---------- Writing ----------

  function Header(msgType: u16, length: u32): seq<u8> {
    PutU16(msgType) + PutU16(0) + PutU32(length)
  }

  function TypeCode(m: TsgMessage): u16 {
    match m
    case HandshakeRequest(_, _, _, _) => TYPE_HANDSHAKE_REQUEST
    case HandshakeResponse(_, _, _, _, _) => TYPE_HANDSHAKE_RESPONSE
    case TunnelCreate(_, _, _, _) => TYPE_TUNNEL_CREATE
    case TunnelResponse(_, _, _, _, _, _) => TYPE_TUNNEL_RESPONSE
    case TunnelAuth(_, _) => TYPE_TUNNEL_AUTH
    case TunnelAuthResponse(_, _, _, _, _) => TYPE_TUNNEL_AUTH_RESPONSE
    case ChannelCreate(_, _, _, _, _) => TYPE_CHANNEL_CREATE
    case ChannelResponse(_, _, _, _, _, _) => TYPE_CHANNEL_RESPONSE
    case Data(_) => TYPE_DATA
    case Keepalive => TYPE_KEEPALIVE
    case CloseChannel(_) => TYPE_CLOSE_CHANNEL
    case CloseChannelResponse(_) => TYPE_CLOSE_CHANNEL_RESPONSE
    case Unknown(t, _) => t
  }

  function PutOptU16(v: Option<u16>): seq<u8> {
    match v case Some(x) => PutU16(x) case None => []
  }

  function PutOptU32(v: Option<u32>): seq<u8> {
    match v case Some(x) => PutU32(x) case None => []
  }

  function PutOptBytes(v: Option<seq<u8>>): seq<u8> {
    match v case Some(x) => PutU16(TruncU16(|x|)) + x case None => []
  }

  /** A name, preceded by its truncated byte length. */
  function PutName(s: Str): seq<u8> {
    PutU16(TruncU16(|Utf16Le(s)|)) + Utf16Le(s)
  }

  /** The payload each `write` appends; what a writer drops is not there. */
  function Payload(m: TsgMessage): seq<u8> {
    match m
    case HandshakeRequest(major, minor, client, ext) => [major, minor] + PutU16(client) + PutU16(ext)
    case HandshakeResponse(err, major, minor, server, ext) =>
      PutU32(err) + [major, minor] + PutU16(server) + PutU16(ext)
    case TunnelCreate(caps, fields, res, _) => PutU32(caps) + PutU16(fields) + PutU16(res)
    case TunnelResponse(server, err, fields, res, tunnel, caps) =>
      PutU16(server) + PutU32(err) + PutU16(fields) + PutU16(res) + PutOptU32(tunnel) + PutOptU32(caps)
    case TunnelAuth(fields, name) => PutU16(fields) + PutName(name)
    case TunnelAuthResponse(err, flags, res, idle, _) =>
      PutU32(err) + PutU16(flags) + PutU16(res) + PutU32(idle) + PutU32(0)
    case ChannelCreate(nres, nalt, port, protocol, name) =>
      [nres, nalt] + PutU16(port) + PutU16(protocol) + PutName(name)
    case ChannelResponse(err, fields, res, channel, udp, cookie) =>
      PutU32(err) + PutU16(fields) + PutU16(res) + PutOptU32(channel) + PutOptU16(udp) + PutOptBytes(cookie)
    case Data(data) => data
    case Keepalive => []
    case CloseChannel(payload) => payload
    case CloseChannelResponse(_) => []
    case Unknown(_, payload) => payload
  }

  /** The payload size each `write` computes for the header, apart from what it then appends. */
  function DeclaredSize(m: TsgMessage): nat {
    match m
    case HandshakeRequest(_, _, _, _) => 6
    case HandshakeResponse(_, _, _, _, _) => 10
    case TunnelCreate(_, _, _, _) => 8
    case TunnelResponse(_, _, _, _, tunnel, caps) =>
      10 + (if tunnel.Some? then 4 else 0) + (if caps.Some? then 4 else 0)
    case TunnelAuth(_, name) => 4 + |Utf16Le(name)|
    case TunnelAuthResponse(_, _, _, _, _) => 16
    case ChannelCreate(_, _, _, _, name) => 8 + |Utf16Le(name)|
    case ChannelResponse(_, _, _, channel, udp, cookie) =>
      8 + (if channel.Some? then 4 else 0) + (if udp.Some? then 2 else 0)
        + (if cookie.Some? then 2 + |cookie.value| else 0)
    case Data(data) => |data|
    case Keepalive => 0
    case CloseChannel(payload) => |payload|
    case CloseChannelResponse(_) => 0
    case Unknown(_, payload) => |payload|
  }

  /** A header that declares a payload of `size` bytes, its length cast to u32, and the payload. */
  function Frame(msgType: u16, size: nat, payload: seq<u8>): seq<u8> {
    Header(msgType, TruncU32(HEADER_SIZE + size)) + payload
  }

  /** The `write` function of each message. */
  function Write(m: TsgMessage): seq<u8> {
    Frame(TypeCode(m), DeclaredSize(m), Payload(m))
  }

  // ---------- Parsing ----------

  function ParseHandshakeRequest(p: seq<u8>): MessageResult {
    if |p| < 6 then Err(BufferTooShort(6, |p|))
    else Ok(HandshakeRequest(p[0], p[1], U16At(p, 2), U16At(p, 4)))
  }

  function ParseHandshakeResponse(p: seq<u8>): MessageResult {
    if |p| < 10 then Err(BufferTooShort(10, |p|))
    else Ok(HandshakeResponse(U32At(p, 0), p[4], p[5], U16At(p, 6), U16At(p, 8)))
  }

  function ReadName(p: seq<u8>): Result<Str, MessageError> {
    match ReadUtf16Le(p) case Some(s) => Ok(s) case None => Err(InvalidUtf16)
  }

  function ParseTunnelCreate(p: seq<u8>): MessageResult {
    if |p| < 8 then Err(BufferTooShort(8, |p|))
    else
      var fields := U16At(p, 4);
      var cookie :-
        if HasFlag(fields, TUNNEL_FIELD_PAA_COOKIE) && |p| >= 10 && |p| - 10 >= U16At(p, 8) then
          var s :- ReadName(p[10..10 + U16At(p, 8)]); Ok(Some(s))
        else Ok(None);
      Ok(TunnelCreate(U32At(p, 0), fields, U16At(p, 6), cookie))
  }

  /** An optional u32 at the head of `p`, present when announced. */
  function TakeU32(p: seq<u8>, present: bool): Result<(Option<u32>, seq<u8>), MessageError> {
    if !present then Ok((None, p))
    else if |p| < 4 then Err(BufferTooShort(4, |p|))
    else Ok((Some(U32At(p, 0)), p[4..]))
  }

  function TakeU16(p: seq<u8>, present: bool): Result<(Option<u16>, seq<u8>), MessageError> {
    if !present then Ok((None, p))
    else if |p| < 2 then Err(BufferTooShort(2, |p|))
    else Ok((Some(U16At(p, 0)), p[2..]))
  }

  /** A byte string at the head of `p`, preceded by its u16 length. */
  function TakeBytes(p: seq<u8>): Result<seq<u8>, MessageError> {
    if |p| < 2 then Err(BufferTooShort(2, |p|))
    else if |p| - 2 < U16At(p, 0) then Err(BufferTooShort(U16At(p, 0), |p| - 2))
    else Ok(p[2..2 + U16At(p, 0)])
  }

  function ParseTunnelResponse(p: seq<u8>): MessageResult {
    if |p| < 10 then Err(BufferTooShort(10, |p|))
    else
      var fields := U16At(p, 6);
      var tunnel :- TakeU32(p[10..], HasFlag(fields, TUNNEL_RESPONSE_FIELD_TUNNEL_ID));
      var caps :- TakeU32(tunnel.1, HasFlag(fields, TUNNEL_RESPONSE_FIELD_CAPS));
      Ok(TunnelResponse(U16At(p, 0), U32At(p, 2), fields, U16At(p, 8), tunnel.0, caps.0))
  }

  /** A name at the head of `p`, preceded by its u16 byte length. */
  function TakeName(p: seq<u8>): Result<Str, MessageError>
    requires |p| >= 2
  {
    if |p| - 2 < U16At(p, 0) then Err(BufferTooShort(U16At(p, 0), |p| - 2))
    else ReadName(p[2..2 + U16At(p, 0)])
  }

  function ParseTunnelAuth(p: seq<u8>): MessageResult {
    if |p| < 4 then Err(BufferTooShort(4, |p|))
    else
      var name :- TakeName(p[2..]);
      Ok(TunnelAuth(U16At(p, 0), name))
  }

  function ParseTunnelAuthResponse(p: seq<u8>): MessageResult {
    if |p| < 12 then Err(BufferTooShort(12, |p|))
    else Ok(TunnelAuthResponse(U32At(p, 0), U16At(p, 4), U16At(p, 6), U32At(p, 8), None))
  }

  function ParseChannelCreate(p: seq<u8>): MessageResult {
    if |p| < 8 then Err(BufferTooShort(8, |p|))
    else
      var name :- TakeName(p[6..]);
      Ok(ChannelCreate(p[0], p[1], U16At(p, 2), U16At(p, 4), name))
  }

  function ParseChannelResponse(p: seq<u8>): MessageResult {
    if |p| < 8 then Err(BufferTooShort(8, |p|))
    else
      var fields := U16At(p, 4);
      var channel :- TakeU32(p[8..], HasFlag(fields, CHANNEL_RESPONSE_FIELD_CHANNELID));
      var udp :- TakeU16(channel.1, HasFlag(fields, CHANNEL_RESPONSE_FIELD_UDPPORT));
      var cookie :-
        if HasFlag(fields, CHANNEL_RESPONSE_FIELD_AUTHNCOOKIE) then
          var c :- TakeBytes(udp.1); Ok(Some(c))
        else Ok(None);
      Ok(ChannelResponse(U32At(p, 0), fields, U16At(p, 6), channel.0, udp.0, cookie))
  }

  function ParsePayload(msgType: u16, p: seq<u8>): MessageResult {
    if msgType == TYPE_HANDSHAKE_REQUEST then ParseHandshakeRequest(p)
    else if msgType == TYPE_HANDSHAKE_RESPONSE then ParseHandshakeResponse(p)
    else if msgType == TYPE_TUNNEL_CREATE then ParseTunnelCreate(p)
    else if msgType == TYPE_TUNNEL_RESPONSE then ParseTunnelResponse(p)
    else if msgType == TYPE_TUNNEL_AUTH then ParseTunnelAuth(p)
    else if msgType == TYPE_TUNNEL_AUTH_RESPONSE then ParseTunnelAuthResponse(p)
    else if msgType == TYPE_CHANNEL_CREATE then ParseChannelCreate(p)
    else if msgType == TYPE_CHANNEL_RESPONSE then ParseChannelResponse(p)
    else if msgType == TYPE_DATA then Ok(Data(p))
    else if msgType == TYPE_KEEPALIVE then Ok(Keepalive)
    else if msgType == TYPE_CLOSE_CHANNEL then Ok(CloseChannel(p))
    else if msgType == TYPE_CLOSE_CHANNEL_RESPONSE then Ok(CloseChannelResponse(p))
    else Ok(Unknown(msgType, p))
  }

  function ParseMessage(buf: seq<u8>): MessageResult {
    if |buf| < HEADER_SIZE then Err(BufferTooShort(HEADER_SIZE, |buf|))
    else
      var length := U32At(buf, 4);
      if length < HEADER_SIZE then Err(InvalidLength(length))
      else if |buf| < length then Err(BufferTooShort(length, |buf|))
      else ParsePayload(U16At(buf, 0), buf[HEADER_SIZE..length])
  }

  // ---------- Framing ----------

  function MessageLength(buf: seq<u8>): Result<nat, MessageError> {
    if |buf| < HEADER_SIZE then Err(BufferTooShort(HEADER_SIZE, |buf|)) else Ok(U32At(buf, 4))
  }

  predicate IsCompleteMessage(buf: seq<u8>) {
    |buf| >= HEADER_SIZE && |buf| >= U32At(buf, 4)
  }

  /** A TSG Data message around the u16 byte count and the data, as sent on the WebSocket. */
  function EncodeDataMessage(data: seq<u8>): seq<u8> {
    Write(Data(PutU16(TruncU16(|data|)) + data))
  }
}
