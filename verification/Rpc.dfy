/** DCE/RPC PDUs (C706, section 12.6.4): the common header, bind, bind_ack, request and response. */
module Rpc {
  import opened Bytes
  import opened Wrappers
  import opened Uuids

  const RPC_VERSION: u8 := 5
  const RPC_VERSION_MINOR: u8 := 0
  const RPC_HEADER_SIZE: nat := 16
  const BIND_FIXED_FIELDS_SIZE: nat := 12
  const REQUEST_FIXED_FIELDS_SIZE: nat := 8
  const RESPONSE_FIXED_FIELDS_SIZE: nat := 8
  const SYNTAX_ID_SIZE: nat := 20
  const PFC_FIRST_AND_LAST_FRAG: u8 := 3
  const DEFAULT_MAX_XMIT_FRAG: u16 := 5840
  const DEFAULT_MAX_RECV_FRAG: u16 := 5840

  datatype RpcPduType = Request | Response | Bind | BindAck | BindNak | AlterContext | AlterContextResp {
    function Code(): u8 {
      match this
      case Request => 0
      case Response => 2
      case Bind => 11
      case BindAck => 12
      case BindNak => 13
      case AlterContext => 14
      case AlterContextResp => 15
    }
  }

  function FromU8(v: u8): Option<RpcPduType> {
    if v == 0 then Some(Request)
    else if v == 2 then Some(Response)
    else if v == 11 then Some(Bind)
    else if v == 12 then Some(BindAck)
    else if v == 13 then Some(BindNak)
    else if v == 14 then Some(AlterContext)
    else if v == 15 then Some(AlterContextResp)
    else None
  }

  datatype RpcError =
    | BufferTooShort(needed: nat, have: nat)
    | UnknownPduType(value: u8)
    | UnexpectedPduType(expected: RpcPduType, actual: RpcPduType)
    | InvalidVersion(major: u8, minor: u8)
    | InvalidFragmentLength(fragLength: u16)
    | InvalidContextCount(count: u8)
    | InvalidTransferSyntaxCount(count: u8)

  // ---------- The common header ----------

  datatype RpcPduHeader = RpcPduHeader(
    rpcVers: u8,
    rpcVersMinor: u8,
    ptype: RpcPduType,
    pfcFlags: u8,
    packedDrep: Drep,
    fragLength: u16,
    authLength: u16,
    callId: u32)

  function NewHeader(ptype: RpcPduType, callId: u32): RpcPduHeader {
    RpcPduHeader(RPC_VERSION, RPC_VERSION_MINOR, ptype, PFC_FIRST_AND_LAST_FRAG, LITTLE_ENDIAN_DREP, 0, 0, callId)
  }

  function WriteHeader(h: RpcPduHeader): (b: seq<u8>)
    ensures |b| == RPC_HEADER_SIZE
  {
    [h.rpcVers, h.rpcVersMinor, h.ptype.Code(), h.pfcFlags] + h.packedDrep
    + PutU16(h.fragLength) + PutU16(h.authLength) + PutU32(h.callId)
  }

  function ParseHeader(buf: seq<u8>): Result<RpcPduHeader, RpcError> {
    if |buf| < RPC_HEADER_SIZE then Err(BufferTooShort(RPC_HEADER_SIZE, |buf|))
    else if buf[0] != RPC_VERSION || buf[1] != RPC_VERSION_MINOR then Err(InvalidVersion(buf[0], buf[1]))
    else if FromU8(buf[2]).None? then Err(UnknownPduType(buf[2]))
    else
      var frag := U16At(buf, 8);
      if frag < RPC_HEADER_SIZE then Err(InvalidFragmentLength(frag))
      else if |buf| < frag then Err(BufferTooShort(frag, |buf|))
      else Ok(RpcPduHeader(buf[0], buf[1], FromU8(buf[2]).value, buf[3], buf[4..8], frag, U16At(buf, 10), U32At(buf, 12)))
  }

  lemma HeaderFields(h: RpcPduHeader, body: seq<u8>)
    ensures var b := WriteHeader(h) + body;
            && |b| == 16 + |body| && b[16..] == body
            && b[0] == h.rpcVers && b[1] == h.rpcVersMinor && b[2] == h.ptype.Code() && b[3] == h.pfcFlags
            && b[4..8] == h.packedDrep && U16At(b, 8) == h.fragLength && U16At(b, 10) == h.authLength
            && U32At(b, 12) == h.callId
  {
    var b := WriteHeader(h) + body;
    var first := [h.rpcVers, h.rpcVersMinor, h.ptype.Code(), h.pfcFlags];
    Beside5(first, h.packedDrep, PutU16(h.fragLength), PutU16(h.authLength), PutU32(h.callId), 4, 8, 10, 12, 16);
    Beside2(WriteHeader(h), body, 16, |b|);
    InFront(WriteHeader(h), body, 4, 8);
    InFront(WriteHeader(h), body, 8, 10);
    InFront(WriteHeader(h), body, 10, 12);
    InFront(WriteHeader(h), body, 12, 16);
    U16Field(b, 8, h.fragLength);
    U16Field(b, 10, h.authLength);
    U32Field(b, 12, h.callId);
  }

  /** A written header reads back exactly when its version is the one spoken and its fragment is all there. */
  lemma {:induction false} HeaderRoundTripExactly(h: RpcPduHeader, body: seq<u8>)
    ensures ParseHeader(WriteHeader(h) + body) == Ok(h) <==>
            h.rpcVers == 5 && h.rpcVersMinor == 0 && 16 <= h.fragLength <= 16 + |body|
  {
    HeaderFields(h, body);
    assert FromU8(h.ptype.Code()) == Some(h.ptype);
  }

  lemma TypeBack(v: u8)
    ensures FromU8(v).Some? ==> FromU8(v).value.Code() == v
  {
  }

  lemma Joined(b: seq<u8>, i: nat, j: nat)
    requires i <= j <= |b|
    ensures b[..i] + b[i..j] == b[..j]
  {
  }

  /** A header that parses is written back as it stood. */
  lemma {:induction false} HeaderWritesBack(buf: seq<u8>)
    requires ParseHeader(buf).Ok?
    ensures WriteHeader(ParseHeader(buf).value) == buf[..16]
  {
    TypeBack(buf[2]);
    U16Field(buf, 8, U16At(buf, 8));
    U16Field(buf, 10, U16At(buf, 10));
    U32Field(buf, 12, U32At(buf, 12));
    assert buf[..4] == [buf[0], buf[1], buf[2], buf[3]];
    Joined(buf, 4, 8);
    Joined(buf, 8, 10);
    Joined(buf, 10, 12);
    Joined(buf, 12, 16);
  }

  /** The header says the same of any longer buffer, and of the fragment alone. */
  lemma {:induction false} HeaderOfFragment(buf: seq<u8>, more: seq<u8>)
    requires ParseHeader(buf).Ok?
    ensures var frag := ParseHeader(buf).value.fragLength;
            16 <= frag <= |buf| && ParseHeader(buf[..frag]) == ParseHeader(buf) == ParseHeader(buf + more)
  {
    var frag := ParseHeader(buf).value.fragLength;
    var a, b := buf[..frag], buf + more;
    assert a[4..8] == buf[4..8] == b[4..8] && a[8..10] == buf[8..10] == b[8..10];
    assert a[10..12] == buf[10..12] == b[10..12] && a[12..16] == buf[12..16] == b[12..16];
  }

  // ---------- Syntax identifiers ----------

  datatype SyntaxId = SyntaxId(uuid: Uuid, version: u32)

  const TSG_SYNTAX := SyntaxId(
    [0x44, 0xe2, 0x65, 0xdd, 0x7d, 0xaf, 0x42, 0xcd, 0x85, 0x60, 0x3c, 0xdb, 0x6e, 0x7a, 0x27, 0x29], 0x3_0001)
  const NDR_SYNTAX := SyntaxId(
    [0x8a, 0x88, 0x5d, 0x04, 0x1c, 0xeb, 0x11, 0xc9, 0x9f, 0xe8, 0x08, 0x00, 0x2b, 0x10, 0x48, 0x60], 2)

  type Parsed<T> = Result<(T, seq<u8>), RpcError>

  function WriteSyntax(s: SyntaxId): seq<u8> {
    UuidLe(s.uuid) + PutU32(s.version)
  }

  function ParseSyntax(r: seq<u8>): Parsed<SyntaxId> {
    if |r| < SYNTAX_ID_SIZE then Err(BufferTooShort(SYNTAX_ID_SIZE, |r|))
    else Ok((SyntaxId(UuidLe(r[..16]), U32At(r, 16)), r[20..]))
  }

  lemma {:induction false} SyntaxReads(s: SyntaxId, rest: seq<u8>)
    ensures ParseSyntax(WriteSyntax(s) + rest) == Ok((s, rest))
  {
    var r := WriteSyntax(s) + rest;
    assert r[..16] == UuidLe(s.uuid) && r[16..20] == PutU32(s.version) && r[20..] == rest;
    UuidLeTwice(s.uuid);
    U32Field(r, 16, s.version);
  }

  lemma {:induction false} SyntaxStoodThere(r: seq<u8>, s: SyntaxId, rest: seq<u8>)
    requires ParseSyntax(r) == Ok((s, rest))
    ensures r == WriteSyntax(s) + rest
  {
    UuidLeTwice(r[..16]);
    U32Field(r, 16, s.version);
    assert r == r[..16] + r[16..20] + r[20..];
  }

  // ---------- Presentation contexts ----------

  /** A presentation context as it lies in a bind body; `reserved` is read over. */
  datatype Context = Context(id: u16, reserved: u8, syntax: SyntaxId, transfers: seq<SyntaxId>) {
    predicate WellFormed() { 1 <= |transfers| <= 255 }
  }

  function WriteSyntaxes(ss: seq<SyntaxId>): seq<u8> {
    if ss == [] then [] else WriteSyntax(ss[0]) + WriteSyntaxes(ss[1..])
  }

  function WriteContext(c: Context): seq<u8>
    requires c.WellFormed()
  {
    PutU16(c.id) + [|c.transfers|, c.reserved] + WriteSyntax(c.syntax) + WriteSyntaxes(c.transfers)
  }

  predicate AllWellFormed(cs: seq<Context>) {
    forall c :: c in cs ==> c.WellFormed()
  }

  function WriteContexts(cs: seq<Context>): seq<u8>
    requires AllWellFormed(cs)
  {
    if cs == [] then [] else WriteContext(cs[0]) + WriteContexts(cs[1..])
  }

  function ParseSyntaxes(n: nat, r: seq<u8>): Parsed<seq<SyntaxId>> {
    if n == 0 then Ok(([], r))
    else
      var head :- ParseSyntax(r);
      var tail :- ParseSyntaxes(n - 1, head.1);
      Ok(([head.0] + tail.0, tail.1))
  }

  function ParseContext(r: seq<u8>): Parsed<Context> {
    if |r| < 4 then Err(BufferTooShort(4, |r|))
    else if r[2] == 0 then Err(InvalidTransferSyntaxCount(r[2]))
    else
      var syntax :- ParseSyntax(r[4..]);
      var transfers :- ParseSyntaxes(r[2], syntax.1);
      Ok((Context(U16At(r, 0), r[3], syntax.0, transfers.0), transfers.1))
  }

  function ParseContexts(n: nat, r: seq<u8>): Parsed<seq<Context>> {
    if n == 0 then Ok(([], r))
    else
      var head :- ParseContext(r);
      var tail :- ParseContexts(n - 1, head.1);
      Ok(([head.0] + tail.0, tail.1))
  }

  lemma SyntaxesCons(n: nat, r: seq<u8>, s: SyntaxId, after: seq<u8>, ss: seq<SyntaxId>, rest: seq<u8>)
    requires ParseSyntax(r) == Ok((s, after)) && ParseSyntaxes(n, after) == Ok((ss, rest))
    ensures ParseSyntaxes(n + 1, r) == Ok(([s] + ss, rest))
  {
  }

  lemma {:induction false} SyntaxesSplit(ss: seq<SyntaxId>, rest: seq<u8>)
    requires ss != []
    ensures WriteSyntaxes(ss) + rest == WriteSyntax(ss[0]) + (WriteSyntaxes(ss[1..]) + rest)
    ensures ss == [ss[0]] + ss[1..]
  {
    Associate(WriteSyntax(ss[0]), WriteSyntaxes(ss[1..]), rest);
  }

  lemma SyntaxesUncons(n: nat, r: seq<u8>, ss: seq<SyntaxId>, rest: seq<u8>) returns (after: seq<u8>)
    requires n > 0 && ParseSyntaxes(n, r) == Ok((ss, rest))
    ensures ss != [] && ParseSyntax(r) == Ok((ss[0], after)) && ParseSyntaxes(n - 1, after) == Ok((ss[1..], rest))
  {
    after := ParseSyntax(r).value.1;
  }

  lemma {:induction false} SyntaxesRead(ss: seq<SyntaxId>, rest: seq<u8>)
    ensures ParseSyntaxes(|ss|, WriteSyntaxes(ss) + rest) == Ok((ss, rest))
  {
    if ss == [] {
      assert WriteSyntaxes(ss) + rest == rest;
    } else {
      var more := WriteSyntaxes(ss[1..]) + rest;
      SyntaxReads(ss[0], more);
      SyntaxesRead(ss[1..], rest);
      SyntaxesSplit(ss, rest);
      SyntaxesCons(|ss| - 1, WriteSyntax(ss[0]) + more, ss[0], more, ss[1..], rest);
    }
  }

  lemma {:induction false} SyntaxesStoodThere(n: nat, r: seq<u8>, ss: seq<SyntaxId>, rest: seq<u8>)
    requires ParseSyntaxes(n, r) == Ok((ss, rest))
    ensures |ss| == n && r == WriteSyntaxes(ss) + rest
  {
    if n == 0 {
      assert WriteSyntaxes(ss) + rest == rest;
    } else {
      var after := SyntaxesUncons(n, r, ss, rest);
      SyntaxStoodThere(r, ss[0], after);
      SyntaxesStoodThere(n - 1, after, ss[1..], rest);
      SyntaxesSplit(ss, rest);
    }
  }

  lemma ContextFrom(r: seq<u8>, c: Context, t: seq<u8>, rest: seq<u8>)
    requires |r| >= 4 && U16At(r, 0) == c.id && r[2] == |c.transfers| > 0 && r[3] == c.reserved
    requires ParseSyntax(r[4..]) == Ok((c.syntax, t)) && ParseSyntaxes(r[2], t) == Ok((c.transfers, rest))
    ensures ParseContext(r) == Ok((c, rest))
  {
  }

  lemma ContextHead(id: seq<u8>, two: seq<u8>, syntax: seq<u8>, syntaxes: seq<u8>, rest: seq<u8>)
    requires |id| == 2 && |two| == 2
    ensures var r := id + two + syntax + syntaxes + rest;
            r[0..2] == id && r[2] == two[0] && r[3] == two[1] && r[4..] == syntax + (syntaxes + rest)
  {
    var t := syntax + (syntaxes + rest);
    assert id + two + syntax + syntaxes + rest == id + two + t;
  }

  lemma {:induction false} ContextReads(c: Context, rest: seq<u8>)
    requires c.WellFormed()
    ensures ParseContext(WriteContext(c) + rest) == Ok((c, rest))
  {
    var r, t := WriteContext(c) + rest, WriteSyntaxes(c.transfers) + rest;
    ContextHead(PutU16(c.id), [|c.transfers|, c.reserved], WriteSyntax(c.syntax), WriteSyntaxes(c.transfers), rest);
    U16Field(r, 0, c.id);
    SyntaxReads(c.syntax, t);
    SyntaxesRead(c.transfers, rest);
    ContextFrom(r, c, t, rest);
  }

  lemma ContextParts(r: seq<u8>, c: Context, rest: seq<u8>) returns (t: seq<u8>)
    requires ParseContext(r) == Ok((c, rest))
    ensures |r| >= 4 && U16At(r, 0) == c.id && r[2] > 0 && r[3] == c.reserved
    ensures ParseSyntax(r[4..]) == Ok((c.syntax, t)) && ParseSyntaxes(r[2], t) == Ok((c.transfers, rest))
  {
    t := ParseSyntax(r[4..]).value.1;
  }

  lemma ContextSplit(r: seq<u8>, c: Context, rest: seq<u8>)
    requires c.WellFormed() && |r| >= 4 && r[0..2] == PutU16(c.id) && r[2] == |c.transfers| && r[3] == c.reserved
    requires r[4..] == WriteSyntax(c.syntax) + (WriteSyntaxes(c.transfers) + rest)
    ensures r == WriteContext(c) + rest
  {
    assert r == r[0..2] + [r[2], r[3]] + r[4..];
  }

  lemma {:induction false} ContextStoodThere(r: seq<u8>, c: Context, rest: seq<u8>)
    requires ParseContext(r) == Ok((c, rest))
    ensures c.WellFormed() && r == WriteContext(c) + rest
  {
    var t := ContextParts(r, c, rest);
    SyntaxStoodThere(r[4..], c.syntax, t);
    SyntaxesStoodThere(r[2], t, c.transfers, rest);
    U16Field(r, 0, c.id);
    assert r[0..2] == PutU16(c.id);
    ContextSplit(r, c, rest);
  }

  lemma ContextsCons(n: nat, r: seq<u8>, c: Context, after: seq<u8>, cs: seq<Context>, rest: seq<u8>)
    requires ParseContext(r) == Ok((c, after)) && ParseContexts(n, after) == Ok((cs, rest))
    ensures ParseContexts(n + 1, r) == Ok(([c] + cs, rest))
  {
  }

  lemma {:induction false} ContextsSplit(cs: seq<Context>, rest: seq<u8>)
    requires cs != [] && AllWellFormed(cs)
    ensures AllWellFormed(cs[1..]) && cs[0].WellFormed()
    ensures WriteContexts(cs) + rest == WriteContext(cs[0]) + (WriteContexts(cs[1..]) + rest)
    ensures cs == [cs[0]] + cs[1..]
  {
    Associate(WriteContext(cs[0]), WriteContexts(cs[1..]), rest);
  }

  lemma {:induction false} ContextsRead(cs: seq<Context>, rest: seq<u8>)
    requires AllWellFormed(cs)
    ensures ParseContexts(|cs|, WriteContexts(cs) + rest) == Ok((cs, rest))
  {
    if cs == [] {
      assert WriteContexts(cs) + rest == rest;
    } else {
      ContextsSplit(cs, rest);
      var more := WriteContexts(cs[1..]) + rest;
      ContextReads(cs[0], more);
      ContextsRead(cs[1..], rest);
      ContextsCons(|cs| - 1, WriteContext(cs[0]) + more, cs[0], more, cs[1..], rest);
    }
  }

  lemma ContextsUncons(n: nat, r: seq<u8>, cs: seq<Context>, rest: seq<u8>) returns (after: seq<u8>)
    requires n > 0 && ParseContexts(n, r) == Ok((cs, rest))
    ensures cs != [] && ParseContext(r) == Ok((cs[0], after)) && ParseContexts(n - 1, after) == Ok((cs[1..], rest))
  {
    after := ParseContext(r).value.1;
  }

  lemma NoContexts(r: seq<u8>, cs: seq<Context>, rest: seq<u8>)
    requires ParseContexts(0, r) == Ok((cs, rest))
    ensures cs == [] && r == WriteContexts(cs) + rest
  {
    assert WriteContexts([]) + rest == rest;
  }

  lemma {:induction false} ContextsJoin(r: seq<u8>, cs: seq<Context>, after: seq<u8>, rest: seq<u8>)
    requires cs != [] && cs[0].WellFormed() && AllWellFormed(cs[1..])
    requires r == WriteContext(cs[0]) + after && after == WriteContexts(cs[1..]) + rest
    ensures AllWellFormed(cs) && r == WriteContexts(cs) + rest
  {
    assert cs == [cs[0]] + cs[1..];
    ContextsSplit(cs, rest);
  }

  lemma {:induction false} ContextsStoodThere(n: nat, r: seq<u8>, cs: seq<Context>, rest: seq<u8>)
    requires ParseContexts(n, r) == Ok((cs, rest))
    ensures |cs| == n && AllWellFormed(cs) && r == WriteContexts(cs) + rest
  {
    if n == 0 {
      NoContexts(r, cs, rest);
    } else {
      var after := ContextsUncons(n, r, cs, rest);
      ContextsStoodThere(n - 1, after, cs[1..], rest);
      FirstStoodThere(r, cs, after, rest);
    }
  }

  lemma {:induction false} FirstStoodThere(r: seq<u8>, cs: seq<Context>, after: seq<u8>, rest: seq<u8>)
    requires cs != [] && ParseContext(r) == Ok((cs[0], after))
    requires AllWellFormed(cs[1..]) && after == WriteContexts(cs[1..]) + rest
    ensures AllWellFormed(cs) && r == WriteContexts(cs) + rest
  {
    ContextStoodThere(r, cs[0], after);
    ContextsJoin(r, cs, after, rest);
  }

  // ---------- Bind ----------

  datatype BindPdu = BindPdu(
    header: RpcPduHeader,
    maxXmitFrag: u16,
    maxRecvFrag: u16,
    assocGroupId: u32,
    numContexts: u8,
    contextId: u16,
    numTransferSyntaxes: u8,
    abstractSyntax: SyntaxId,
    transferSyntax: SyntaxId)

  /** Where the body of a PDU of this type ends, once the fixed fields are known to be there. */
  function BodyEnd(buf: seq<u8>, ptype: RpcPduType, fixed: nat): (r: Result<(RpcPduHeader, nat), RpcError>)
    ensures r.Ok? ==> ParseHeader(buf) == Ok(r.value.0) && r.value.0.ptype == ptype
                      && RPC_HEADER_SIZE + fixed <= r.value.1 <= r.value.0.fragLength <= |buf|
  {
    var header :- ParseHeader(buf);
    if header.ptype != ptype then Err(UnexpectedPduType(ptype, header.ptype))
    else if header.fragLength < header.authLength then Err(InvalidFragmentLength(header.fragLength))
    else
      var end: nat := header.fragLength - header.authLength;
      if end < RPC_HEADER_SIZE + fixed then Err(BufferTooShort(RPC_HEADER_SIZE + fixed, end)) else Ok((header, end))
  }

  /** All announced contexts of a body. */
  function AllContexts(n: nat, r: seq<u8>): (res: Result<seq<Context>, RpcError>)
    ensures res.Ok? ==> |res.value| == n && AllWellFormed(res.value) && (n > 0 ==> res.value[0].WellFormed())
  {
    match ParseContexts(n, r)
    case Ok((cs, rest)) =>
      ContextsStoodThere(n, r, cs, rest);
      Ok(cs)
    case Err(e) => Err(e)
  }

  /** `BindPdu::parse`: all announced contexts must be there, the first is the one returned. */
  function ParseBind(buf: seq<u8>): Result<BindPdu, RpcError> {
    var (header, end) :- BodyEnd(buf, Bind, BIND_FIXED_FIELDS_SIZE);
    var n := buf[24];
    if n == 0 then Err(InvalidContextCount(n))
    else
      var cs :- AllContexts(n, buf[28..end]);
      var c := cs[0];
      Ok(BindPdu(header, U16At(buf, 16), U16At(buf, 18), U32At(buf, 20), n,
                 c.id, |c.transfers|, c.syntax, c.transfers[0]))
  }

  /** What reading `n` more syntaxes comes to when `first` was the first before them, if any. */
  ghost function FirstSyntax(first: Option<SyntaxId>, n: nat, r: seq<u8>): Parsed<Option<SyntaxId>> {
    match ParseSyntaxes(n, r)
    case Ok((ss, rest)) => Ok((if first.Some? || ss == [] then first else Some(ss[0]), rest))
    case Err(e) => Err(e)
  }

  /** The inner loop of `BindPdu::parse`: `n` syntaxes, of which the first is kept. */
  method ReadTransferSyntaxes(n: u8, input: seq<u8>) returns (res: Parsed<Option<SyntaxId>>)
    ensures res == FirstSyntax(None, n, input)
  {
    var r, first := input, None;
    for i := 0 to n
      invariant FirstSyntax(first, n - i, r) == FirstSyntax(None, n, input)
      invariant first.None? <==> i == 0
    {
      var parsed := ParseSyntax(r);
      if parsed.Err? {
        return Err(parsed.error);
      }
      r := parsed.value.1;
      if i == 0 {
        first := Some(parsed.value.0);
      }
    }
    res := Ok((first, r));
  }

  /** What is kept of a context: id, number of transfer syntaxes, abstract and first transfer syntax. */
  datatype Kept = Kept(id: u16, count: u8, syntax: SyntaxId, transfer: SyntaxId)

  function KeptOf(c: Context): Kept
    requires c.WellFormed()
  {
    Kept(c.id, |c.transfers|, c.syntax, c.transfers[0])
  }

  ghost function ParseKept(r: seq<u8>): Parsed<Kept> {
    match ParseContext(r)
    case Ok((c, rest)) =>
      ContextStoodThere(r, c, rest);
      Ok((KeptOf(c), rest))
    case Err(e) => Err(e)
  }

  method ReadContext(r: seq<u8>) returns (res: Parsed<Kept>)
    ensures res == ParseKept(r)
  {
    if |r| < 4 {
      return Err(BufferTooShort(4, |r|));
    }
    var id, count := U16At(r, 0), r[2];
    if count == 0 {
      return Err(InvalidTransferSyntaxCount(count));
    }
    var syntax := ParseSyntax(r[4..]);
    if syntax.Err? {
      return Err(syntax.error);
    }
    var transfers := ReadTransferSyntaxes(count, syntax.value.1);
    if transfers.Err? {
      return Err(transfers.error);
    }
    ghost var all := ParseSyntaxes(count, syntax.value.1).value;
    SyntaxesStoodThere(count, syntax.value.1, all.0, all.1);
    res := Ok((Kept(id, count, syntax.value.0, transfers.value.0.value), transfers.value.1));
  }

  /** What reading `n` more contexts comes to when `first` was kept of those before, if any. */
  ghost function FirstKept(first: Option<Kept>, n: nat, r: seq<u8>): Result<Option<Kept>, RpcError> {
    match ParseContexts(n, r)
    case Ok((cs, rest)) =>
      ContextsStoodThere(n, r, cs, rest);
      Ok(if first.Some? || n == 0 then first else Some(KeptOf(cs[0])))
    case Err(e) => Err(e)
  }

  lemma ContextsStep(n: nat, r: seq<u8>, c: Context, after: seq<u8>)
    requires n > 0 && ParseContext(r) == Ok((c, after))
    ensures match ParseContexts(n - 1, after)
            case Ok((cs, rest)) => ParseContexts(n, r) == Ok(([c] + cs, rest))
            case Err(e) => ParseContexts(n, r) == Err(e)
  {
  }

  lemma KeptNext(first: Option<Kept>, n: nat, r: seq<u8>)
    requires n > 0
    ensures match ParseKept(r)
            case Ok((k, after)) =>
              FirstKept(first, n, r) == FirstKept(if first.Some? then first else Some(k), n - 1, after)
            case Err(e) => FirstKept(first, n, r) == Err(e)
  {
    if ParseContext(r).Ok? {
      ContextsStep(n, r, ParseContext(r).value.0, ParseContext(r).value.1);
    }
  }

  /** The fixed fields of a bind around what is kept of its contexts. */
  function BindWith(buf: seq<u8>, header: RpcPduHeader, k: Kept): BindPdu
    requires |buf| >= 28
  {
    BindPdu(header, U16At(buf, 16), U16At(buf, 18), U32At(buf, 20), buf[24], k.id, k.count, k.syntax, k.transfer)
  }

  lemma BindByKept(buf: seq<u8>, header: RpcPduHeader, end: nat)
    requires BodyEnd(buf, Bind, 12) == Ok((header, end)) && buf[24] > 0
    ensures match FirstKept(None, buf[24], buf[28..end])
            case Ok(k) => k.Some? && ParseBind(buf) == Ok(BindWith(buf, header, k.value))
            case Err(e) => ParseBind(buf) == Err(e)
  {
  }

  /** `BindPdu::parse` as written: a cursor over contexts and, inside each, transfer syntaxes. */
  method BindParse(buf: seq<u8>) returns (res: Result<BindPdu, RpcError>)
    ensures res == ParseBind(buf)
  {
    var fixed := BodyEnd(buf, Bind, BIND_FIXED_FIELDS_SIZE);
    if fixed.Err? {
      return Err(fixed.error);
    }
    var (header, end) := fixed.value;
    var n := buf[24];
    if n == 0 {
      return Err(InvalidContextCount(n));
    }
    var kept := FirstOfContexts(n, buf[28..end]);
    BindByKept(buf, header, end);
    if kept.Err? {
      return Err(kept.error);
    }
    res := Ok(BindWith(buf, header, kept.value.value));
  }

  /** The outer loop: all `n` contexts are read, what the first held is kept. */
  method FirstOfContexts(n: u8, body: seq<u8>) returns (res: Result<Option<Kept>, RpcError>)
    ensures res == FirstKept(None, n, body)
  {
    var r := body;
    var first: Option<Kept> := None;
    for i := 0 to n
      invariant FirstKept(first, n - i, r) == FirstKept(None, n, body)
      invariant first.None? <==> i == 0
    {
      KeptNext(first, n - i, r);
      var k := ReadContext(r);
      if k.Err? {
        return Err(k.error);
      }
      r := k.value.1;
      if i == 0 {
        first := Some(k.value.0);
      }
    }
    res := Ok(first);
  }

  /** The body begins with these contexts, as many as it announces. */
  ghost predicate BeginsWith(buf: seq<u8>, end: nat, cs: seq<Context>)
    requires 28 <= end <= |buf|
  {
    cs != [] && |cs| == buf[24] && AllWellFormed(cs) && WriteContexts(cs) <= buf[28..end]
  }

  /**
   A bind is accepted exactly when its body begins with the announced number of well-formed
   contexts, and what is returned is the first of them with its first transfer syntax,
   whatever the other contexts and the bytes after them are.
   */
  lemma {:induction false} BindAcceptsExactly(buf: seq<u8>)
    ensures ParseBind(buf).Ok? <==>
            BodyEnd(buf, Bind, 12).Ok? && exists cs: seq<Context> :: BeginsWith(buf, BodyEnd(buf, Bind, 12).value.1, cs)
    ensures BodyEnd(buf, Bind, 12).Ok? ==>
              forall cs: seq<Context> :: BeginsWith(buf, BodyEnd(buf, Bind, 12).value.1, cs) ==>
                                           ParseBind(buf) == Ok(BindOf(buf, cs))
  {
    if BodyEnd(buf, Bind, 12).Ok? {
      var end := BodyEnd(buf, Bind, 12).value.1;
      forall cs: seq<Context> | BeginsWith(buf, end, cs) ensures ParseBind(buf) == Ok(BindOf(buf, cs)) {
        BeginningParses(buf, cs);
      }
      if ParseBind(buf).Ok? {
        var (cs, rest) := ParseContexts(buf[24], buf[28..end]).value;
        ContextsStoodThere(buf[24], buf[28..end], cs, rest);
        assert BeginsWith(buf, end, cs);
      }
    }
  }

  /** The PDU a bind with these contexts stands for. */
  function BindOf(buf: seq<u8>, cs: seq<Context>): BindPdu
    requires ParseHeader(buf).Ok? && |buf| >= 28 && cs != [] && |cs| <= 255 && cs[0].WellFormed()
  {
    BindPdu(ParseHeader(buf).value, U16At(buf, 16), U16At(buf, 18), U32At(buf, 20), |cs|,
            cs[0].id, |cs[0].transfers|, cs[0].syntax, cs[0].transfers[0])
  }

  lemma BeginningParses(buf: seq<u8>, cs: seq<Context>)
    requires BodyEnd(buf, Bind, 12).Ok? && BeginsWith(buf, BodyEnd(buf, Bind, 12).value.1, cs)
    ensures ParseBind(buf) == Ok(BindOf(buf, cs))
  {
    var body := buf[28..BodyEnd(buf, Bind, 12).value.1];
    var rest := body[|WriteContexts(cs)|..];
    assert body == WriteContexts(cs) + rest;
    ContextsRead(cs, rest);
  }

  /** A stretch of a stretch. */
  lemma Within(b: seq<u8>, i: nat, j: nat, k: nat, l: nat)
    requires i <= j <= |b| && k <= l <= j - i
    ensures b[i..j][k..l] == b[i + k..i + l]
  {
    var t, u := b[i..j][k..l], b[i + k..i + l];
    assert forall x :: 0 <= x < l - k ==> t[x] == u[x];
  }

  lemma SameStretch(a: seq<u8>, b: seq<u8>, k: nat, i: nat, j: nat)
    requires k <= |a| && k <= |b| && a[..k] == b[..k] && i <= j <= k
    ensures a[i..j] == b[i..j]
  {
    Within(a, 0, k, i, j);
    Within(b, 0, k, i, j);
    assert a[0..k] == a[..k] && b[0..k] == b[..k];
  }

  lemma SameHeader(a: seq<u8>, b: seq<u8>)
    requires ParseHeader(a).Ok? && |b| >= ParseHeader(a).value.fragLength && a[..16] == b[..16]
    ensures ParseHeader(b) == ParseHeader(a)
  {
    assert forall i :: 0 <= i < 4 ==> a[i] == a[..16][i] && b[i] == b[..16][i];
    SameStretch(a, b, 16, 4, 8);
    SameStretch(a, b, 16, 8, 10);
    SameStretch(a, b, 16, 10, 12);
    SameStretch(a, b, 16, 12, 16);
  }

  lemma SameBindBody(a: seq<u8>, b: seq<u8>, end: nat)
    requires 28 <= end <= |a| && end <= |b| && a[..end] == b[..end]
    ensures U16At(a, 16) == U16At(b, 16) && U16At(a, 18) == U16At(b, 18) && U32At(a, 20) == U32At(b, 20)
    ensures a[24] == b[24] && a[28..end] == b[28..end]
  {
    SameStretch(a, b, end, 16, 18);
    SameStretch(a, b, end, 18, 20);
    SameStretch(a, b, end, 20, 24);
    SameStretch(a, b, end, 28, end);
    assert a[24] == a[..end][24] && b[24] == b[..end][24];
  }

  /** Neither the authentication trailer nor anything behind the fragment is looked at. */
  lemma {:induction false} BindStaysInside(a: seq<u8>, b: seq<u8>)
    requires ParseHeader(a).Ok? && |b| >= ParseHeader(a).value.fragLength
    requires var h := ParseHeader(a).value;
             h.authLength <= h.fragLength ==>
               var k := if h.fragLength - h.authLength < 16 then 16 else h.fragLength - h.authLength;
               a[..k] == b[..k]
    requires a[..16] == b[..16]
    ensures ParseBind(a) == ParseBind(b)
  {
    SameHeader(a, b);
    if BodyEnd(a, Bind, 12).Ok? {
      SameBindBody(a, b, BodyEnd(a, Bind, 12).value.1);
    }
  }

  // ---------- Bind acknowledgement ----------

  datatype BindAckPdu = BindAckPdu(
    header: RpcPduHeader,
    maxXmitFrag: u16,
    maxRecvFrag: u16,
    assocGroupId: u32,
    secAddr: seq<u8>,
    result: u16,
    reason: u16,
    transferSyntax: SyntaxId)

  function Accepted(callId: u32, assocGroupId: u32, secAddr: seq<u8>): BindAckPdu {
    BindAckPdu(NewHeader(BindAck, callId), DEFAULT_MAX_XMIT_FRAG, DEFAULT_MAX_RECV_FRAG, assocGroupId, secAddr, 0, 0,
               NDR_SYNTAX)
  }

  function PadTo4(n: nat): nat { (4 - n % 4) % 4 }

  function Zeros(n: nat): seq<u8> { seq(n, _ => 0) }

  /** Where the result list of a bind_ack starts. */
  function ResultsAt(ack: BindAckPdu): nat {
    RPC_HEADER_SIZE + 2 + 2 + 4 + 2 + |ack.secAddr| + PadTo4(2 + |ack.secAddr|)
  }

  function AckLength(ack: BindAckPdu): nat {
    ResultsAt(ack) + 1 + 3 + 2 + 2 + SYNTAX_ID_SIZE
  }

  function AckHeaderOf(ack: BindAckPdu): RpcPduHeader {
    ack.header.(fragLength := TruncU16(AckLength(ack)), authLength := 0)
  }

  function AckRest(ack: BindAckPdu): seq<u8> {
    PutU16(ack.maxXmitFrag) + PutU16(ack.maxRecvFrag) + PutU32(ack.assocGroupId)
    + PutU16(TruncU16(|ack.secAddr|)) + ack.secAddr + Zeros(PadTo4(2 + |ack.secAddr|))
    + [1, 0, 0, 0] + PutU16(ack.result) + PutU16(ack.reason) + WriteSyntax(ack.transferSyntax)
  }

  function EncodeAck(ack: BindAckPdu): (b: seq<u8>)
    ensures |b| == AckLength(ack)
  {
    WriteHeader(AckHeaderOf(ack)) + AckRest(ack)
  }

  lemma PiecesAt(h: seq<u8>, fixed: seq<u8>, addr: seq<u8>, pad: seq<u8>, tail: seq<u8>, b: seq<u8>, at: nat)
    requires |h| == 16 && |fixed| == 10 && at == 26 + |addr| + |pad| && b == h + (fixed + addr + pad + tail)
    ensures |b| == at + |tail| && b[16..26] == fixed && b[26..26 + |addr|] == addr && b[at..] == tail
  {
  }

  /** Four pieces side by side, each found where it lies. */
  lemma FourPieces(w: seq<u8>, x: seq<u8>, y: seq<u8>, z: seq<u8>, f: seq<u8>)
    requires f == w + x + y + z && |w| == 2 && |x| == 2 && |y| == 4
    ensures f[0..2] == w && f[2..4] == x && f[4..8] == y && f[8..] == z
  {
  }

  lemma FixedAt(b: seq<u8>, xmit: u16, recv: u16, group: u32, n: u16)
    requires |b| >= 26 && b[16..26] == PutU16(xmit) + PutU16(recv) + PutU32(group) + PutU16(n)
    ensures U16At(b, 16) == xmit && U16At(b, 18) == recv && U32At(b, 20) == group && U16At(b, 24) == n
  {
    var f := b[16..26];
    FourPieces(PutU16(xmit), PutU16(recv), PutU32(group), PutU16(n), f);
    Within(b, 16, 26, 0, 2);
    Within(b, 16, 26, 2, 4);
    Within(b, 16, 26, 4, 8);
    Within(b, 16, 26, 8, 10);
    assert f[8..10] == f[8..];
    U16Field(b, 16, xmit);
    U16Field(b, 18, recv);
    U32Field(b, 20, group);
    U16Field(b, 24, n);
  }

  lemma ResultAt(b: seq<u8>, at: nat, result: u16, reason: u16, syntax: seq<u8>)
    requires at <= |b| && b[at..] == [1, 0, 0, 0] + PutU16(result) + PutU16(reason) + syntax
    ensures |b| == at + 8 + |syntax| && b[at] == 1 && U16At(b, at + 4) == result && U16At(b, at + 6) == reason
    ensures b[at + 8..] == syntax
  {
    var t := b[at..];
    assert b[at] == t[0];
    assert t[4..6] == PutU16(result) && t[6..8] == PutU16(reason);
    Within(b, at, |b|, 4, 6);
    Within(b, at, |b|, 6, 8);
    assert b[at..|b|] == t;
    assert b[at + 8..] == t[8..] == syntax;
    U16Field(b, at + 4, result);
    U16Field(b, at + 6, reason);
  }

  lemma AckBody(ack: BindAckPdu, b: seq<u8>, at: nat)
    requires b == EncodeAck(ack) && at == ResultsAt(ack)
    ensures |b| == AckLength(ack)
    ensures U16At(b, 16) == ack.maxXmitFrag && U16At(b, 18) == ack.maxRecvFrag && U32At(b, 20) == ack.assocGroupId
    ensures U16At(b, 24) == TruncU16(|ack.secAddr|) && b[26..26 + |ack.secAddr|] == ack.secAddr
    ensures b[at] == 1 && U16At(b, at + 4) == ack.result && U16At(b, at + 6) == ack.reason
    ensures b[at + 8..] == WriteSyntax(ack.transferSyntax)
  {
    var n := TruncU16(|ack.secAddr|);
    var h := WriteHeader(AckHeaderOf(ack));
    var fixed := PutU16(ack.maxXmitFrag) + PutU16(ack.maxRecvFrag) + PutU32(ack.assocGroupId) + PutU16(n);
    var pad := Zeros(PadTo4(2 + |ack.secAddr|));
    var tail := [1, 0, 0, 0] + PutU16(ack.result) + PutU16(ack.reason) + WriteSyntax(ack.transferSyntax);
    AckPieces(ack, fixed, pad, tail);
    PiecesAt(h, fixed, ack.secAddr, pad, tail, b, at);
    FixedAt(b, ack.maxXmitFrag, ack.maxRecvFrag, ack.assocGroupId, n);
    ResultAt(b, at, ack.result, ack.reason, WriteSyntax(ack.transferSyntax));
  }

  lemma AckPieces(ack: BindAckPdu, fixed: seq<u8>, pad: seq<u8>, tail: seq<u8>)
    requires fixed == PutU16(ack.maxXmitFrag) + PutU16(ack.maxRecvFrag) + PutU32(ack.assocGroupId)
                      + PutU16(TruncU16(|ack.secAddr|))
    requires pad == Zeros(PadTo4(2 + |ack.secAddr|))
    requires tail == [1, 0, 0, 0] + PutU16(ack.result) + PutU16(ack.reason) + WriteSyntax(ack.transferSyntax)
    ensures AckRest(ack) == fixed + ack.secAddr + pad + tail
  {
    var front := fixed + ack.secAddr + pad;
    assert front + tail == front + [1, 0, 0, 0] + PutU16(ack.result) + PutU16(ack.reason) + WriteSyntax(ack.transferSyntax);
  }

  /**
   A bind_ack of any secondary address that fits is as long as its header says, aligns the result
   list, and reads back: header up to the recomputed lengths, address, results and syntax.
   */
  lemma {:induction false} AckReadsBack(ack: BindAckPdu)
    requires ack.header.rpcVers == 5 && ack.header.rpcVersMinor == 0 && AckLength(ack) <= U16_MAX
    ensures var b, at := EncodeAck(ack), ResultsAt(ack);
            && ParseHeader(b) == Ok(ack.header.(fragLength := |b|, authLength := 0))
            && at % 4 == 0 && at + 28 == |b|
            && U16At(b, 16) == ack.maxXmitFrag && U16At(b, 18) == ack.maxRecvFrag
            && U32At(b, 20) == ack.assocGroupId
            && U16At(b, 24) == |ack.secAddr| && b[26..26 + |ack.secAddr|] == ack.secAddr
            && b[at] == 1 && U16At(b, at + 4) == ack.result && U16At(b, at + 6) == ack.reason
            && ParseSyntax(b[at + 8..]) == Ok((ack.transferSyntax, []))
  {
    var b, at := EncodeAck(ack), ResultsAt(ack);
    ResultsAligned(ack);
    AckParts(ack, b, at);
  }

  lemma AckParts(ack: BindAckPdu, b: seq<u8>, at: nat)
    requires ack.header.rpcVers == 5 && ack.header.rpcVersMinor == 0 && AckLength(ack) <= U16_MAX
    requires b == EncodeAck(ack) && at == ResultsAt(ack) && |b| == at + 28 && at >= 26 + |ack.secAddr|
    ensures ParseHeader(b) == Ok(ack.header.(fragLength := |b|, authLength := 0))
    ensures U16At(b, 16) == ack.maxXmitFrag && U16At(b, 18) == ack.maxRecvFrag && U32At(b, 20) == ack.assocGroupId
    ensures U16At(b, 24) == TruncU16(|ack.secAddr|) && b[26..26 + |ack.secAddr|] == ack.secAddr
    ensures b[at] == 1 && U16At(b, at + 4) == ack.result && U16At(b, at + 6) == ack.reason
    ensures ParseSyntax(b[at + 8..]) == Ok((ack.transferSyntax, []))
  {
    AckBody(ack, b, at);
    AckHeader(ack, b);
    AckSyntax(ack, b[at + 8..]);
  }

  lemma AckSyntax(ack: BindAckPdu, t: seq<u8>)
    requires t == WriteSyntax(ack.transferSyntax)
    ensures ParseSyntax(t) == Ok((ack.transferSyntax, []))
  {
    SyntaxReads(ack.transferSyntax, []);
    assert t + [] == t;
  }

  lemma ResultsAligned(ack: BindAckPdu)
    ensures ResultsAt(ack) % 4 == 0 && AckLength(ack) == ResultsAt(ack) + 28 && ResultsAt(ack) >= 26 + |ack.secAddr|
    ensures AckLength(ack) <= U16_MAX ==> TruncU16(|ack.secAddr|) == |ack.secAddr|
  {
  }

  lemma AckHeader(ack: BindAckPdu, b: seq<u8>)
    requires b == EncodeAck(ack) && |b| == AckLength(ack) <= U16_MAX
    requires ack.header.rpcVers == 5 && ack.header.rpcVersMinor == 0
    ensures ParseHeader(b) == Ok(ack.header.(fragLength := |b|, authLength := 0))
  {
    HeaderRoundTripExactly(AckHeaderOf(ack), AckRest(ack));
  }

  // ---------- Request and response ----------

  datatype RequestPdu = RequestPdu(header: RpcPduHeader, allocHint: u32, contextId: u16, opnum: u16, stub: seq<u8>)

  function ParseRequest(buf: seq<u8>): Result<RequestPdu, RpcError> {
    var (header, end) :- BodyEnd(buf, Request, REQUEST_FIXED_FIELDS_SIZE);
    Ok(RequestPdu(header, U32At(buf, 16), U16At(buf, 20), U16At(buf, 22), buf[24..end]))
  }

  /** The bytes of a request: header, fixed fields, stub and authentication trailer. */
  function RequestBytes(r: RequestPdu, trailer: seq<u8>): seq<u8> {
    WriteHeader(r.header) + (PutU32(r.allocHint) + PutU16(r.contextId) + PutU16(r.opnum) + (r.stub + trailer))
  }

  /** The buffer begins with this request, whose header has its sizes right. */
  predicate BeginsWithRequest(buf: seq<u8>, r: RequestPdu, trailer: seq<u8>) {
    && r.header.rpcVers == 5 && r.header.rpcVersMinor == 0 && r.header.ptype == Request
    && r.header.fragLength == 24 + |r.stub| + |trailer| && r.header.authLength == |trailer|
    && RequestBytes(r, trailer) <= buf
  }

  lemma FieldsStoodThere(buf: seq<u8>)
    requires 24 <= |buf|
    ensures buf[..24] == buf[..16] + (PutU32(U32At(buf, 16)) + PutU16(U16At(buf, 20)) + PutU16(U16At(buf, 22)))
  {
    U32Field(buf, 16, U32At(buf, 16));
    U16Field(buf, 20, U16At(buf, 20));
    U16Field(buf, 22, U16At(buf, 22));
    Joined(buf, 16, 20);
    Joined(buf, 20, 22);
    Joined(buf, 22, 24);
    Associate(buf[..16], buf[16..20], buf[20..22]);
    Associate(buf[..16], buf[16..20] + buf[20..22], buf[22..24]);
  }

  /** A fragment whose fixed part is `h + fixed` and whose rest is stub and trailer. */
  lemma FragmentIs(buf: seq<u8>, h: seq<u8>, fixed: seq<u8>, end: nat, frag: nat)
    requires 24 <= end <= frag <= |buf| && buf[..24] == h + fixed
    ensures h + (fixed + (buf[24..end] + buf[end..frag])) == buf[..frag]
  {
    Joined(buf, 24, end);
    Joined(buf, end, frag);
    Associate(h, fixed, buf[24..end] + buf[end..frag]);
    Associate(h + fixed, buf[24..end], buf[end..frag]);
  }

  lemma RequestStoodThere(buf: seq<u8>, r: RequestPdu)
    requires ParseRequest(buf) == Ok(r)
    ensures exists trailer: seq<u8> :: BeginsWithRequest(buf, r, trailer)
  {
    var frag, end := r.header.fragLength, BodyEnd(buf, Request, REQUEST_FIXED_FIELDS_SIZE).value.1;
    HeaderWritesBack(buf);
    FieldsStoodThere(buf);
    var fixed := PutU32(r.allocHint) + PutU16(r.contextId) + PutU16(r.opnum);
    FragmentIs(buf, WriteHeader(r.header), fixed, end, frag);
    assert RequestBytes(r, buf[end..frag]) == buf[..frag];
    assert BeginsWithRequest(buf, r, buf[end..frag]);
  }

  lemma FieldBehind(h: seq<u8>, t: seq<u8>)
    requires |h| == 16 && |t| >= 8
    ensures var b := h + t;
            b[16..20] == t[0..4] && b[20..22] == t[4..6] && b[22..24] == t[6..8] && b[24..] == t[8..]
  {
  }

  lemma FieldsRead(h: seq<u8>, hint: u32, context: u16, opnum: u16, t: seq<u8>)
    requires |h| == 16
    ensures var b := h + (PutU32(hint) + PutU16(context) + PutU16(opnum) + t);
            U32At(b, 16) == hint && U16At(b, 20) == context && U16At(b, 22) == opnum && b[24..] == t
  {
    var b := h + (PutU32(hint) + PutU16(context) + PutU16(opnum) + t);
    Beside4(PutU32(hint), PutU16(context), PutU16(opnum), t, 4, 6, 8, 8 + |t|);
    FieldBehind(h, PutU32(hint) + PutU16(context) + PutU16(opnum) + t);
    U32Field(b, 16, hint);
    U16Field(b, 20, context);
    U16Field(b, 22, opnum);
  }

  lemma RequestReads(buf: seq<u8>, r: RequestPdu, trailer: seq<u8>)
    requires BeginsWithRequest(buf, r, trailer)
    ensures ParseRequest(buf) == Ok(r)
  {
    var more := buf[|RequestBytes(r, trailer)|..];
    var t := r.stub + trailer + more;
    var h := WriteHeader(r.header);
    var fixed := PutU32(r.allocHint) + PutU16(r.contextId) + PutU16(r.opnum);
    assert buf == RequestBytes(r, trailer) + more;
    Associate(h, fixed + (r.stub + trailer), more);
    Associate(fixed, r.stub + trailer, more);
    HeaderRoundTripExactly(r.header, fixed + t);
    FieldsRead(h, r.allocHint, r.contextId, r.opnum, t);
    Within(buf, 24, |buf|, 0, |r.stub|);
    assert buf[24..|buf|] == t && t[0..|r.stub|] == r.stub;
  }

  /** A request is accepted, as `r`, exactly if the buffer begins with the bytes of `r` and some trailer. */
  lemma {:induction false} RequestAcceptsExactly(buf: seq<u8>, r: RequestPdu)
    ensures ParseRequest(buf) == Ok(r) <==> exists trailer: seq<u8> :: BeginsWithRequest(buf, r, trailer)
  {
    forall trailer: seq<u8> | BeginsWithRequest(buf, r, trailer) ensures ParseRequest(buf) == Ok(r) {
      RequestReads(buf, r, trailer);
    }
    if ParseRequest(buf) == Ok(r) {
      RequestStoodThere(buf, r);
    }
  }

  datatype ResponsePdu = ResponsePdu(
    header: RpcPduHeader, allocHint: u32, contextId: u16, cancelCount: u8, reserved: u8, stub: seq<u8>)

  function NewResponse(callId: u32, contextId: u16, stub: seq<u8>): ResponsePdu {
    ResponsePdu(NewHeader(Response, callId), TruncU32(|stub|), contextId, 0, 0, stub)
  }

  function EncodeResponse(r: ResponsePdu): (b: seq<u8>)
    ensures |b| == 24 + |r.stub|
  {
    WriteHeader(r.header.(fragLength := TruncU16(RPC_HEADER_SIZE + RESPONSE_FIXED_FIELDS_SIZE + |r.stub|), authLength := 0))
    + (PutU32(r.allocHint) + PutU16(r.contextId) + [r.cancelCount, r.reserved] + r.stub)
  }

  lemma ResponsePieces(h: seq<u8>, hint: u32, context: u16, two: seq<u8>, stub: seq<u8>)
    requires |h| == 16 && |two| == 2
    ensures var b := h + (PutU32(hint) + PutU16(context) + two + stub);
            |b| == 24 + |stub| && U32At(b, 16) == hint && U16At(b, 20) == context && b[24..] == stub
  {
    var b := h + (PutU32(hint) + PutU16(context) + two + stub);
    Beside4(PutU32(hint), PutU16(context), two, stub, 4, 6, 8, 8 + |stub|);
    FieldBehind(h, PutU32(hint) + PutU16(context) + two + stub);
    U32Field(b, 16, hint);
    U16Field(b, 20, context);
  }

  lemma {:induction false} ResponseReadsBack(r: ResponsePdu)
    requires r.header.rpcVers == 5 && r.header.rpcVersMinor == 0 && 24 + |r.stub| <= U16_MAX
    ensures var b := EncodeResponse(r);
            && ParseHeader(b) == Ok(r.header.(fragLength := |b|, authLength := 0))
            && |b| == 24 + |r.stub| && U32At(b, 16) == r.allocHint && U16At(b, 20) == r.contextId
            && b[24..] == r.stub
  {
    var h := r.header.(fragLength := TruncU16(24 + |r.stub|), authLength := 0);
    HeaderRoundTripExactly(h, PutU32(r.allocHint) + PutU16(r.contextId) + [r.cancelCount, r.reserved] + r.stub);
    ResponsePieces(WriteHeader(h), r.allocHint, r.contextId, [r.cancelCount, r.reserved], r.stub);
  }
}
