/** Where the fields of DCE/RPC PDUs lie, by number, and which bytes a Bind for this gateway carries. */
module RpcLayout {
  import opened Bytes
  import opened Wrappers
  import opened Uuids
  import opened Rpc
  import RpcStream

  predicate TypeIs(b: u8, ptype: RpcPduType) {
    match ptype
    case Request => b == 0
    case Response => b == 2
    case Bind => b == 11
    case BindAck => b == 12
    case BindNak => b == 13
    case AlterContext => b == 14
    case AlterContextResp => b == 15
  }

  /** The buffer begins with this header, and the fragment it speaks of is all there. */
  predicate HeaderLies(b: seq<u8>, h: RpcPduHeader) {
    && |b| >= 16 && b[0] == 5 == h.rpcVers && b[1] == 0 == h.rpcVersMinor && TypeIs(b[2], h.ptype)
    && b[3] == h.pfcFlags && b[4..8] == h.packedDrep && 16 <= U16At(b, 8) == h.fragLength <= |b|
    && U16At(b, 10) == h.authLength && U32At(b, 12) == h.callId
  }

  lemma {:induction false} HeaderParsesExactly(b: seq<u8>, h: RpcPduHeader)
    ensures ParseHeader(b) == Ok(h) <==> HeaderLies(b, h)
  {
  }

  /** Twenty bytes are the syntax identifier. */
  predicate SyntaxLies(b: seq<u8>, s: SyntaxId) {
    |b| == 20 && OnWire(b[..16], s.uuid) && U32At(b, 16) == s.version
  }

  lemma {:induction false} SyntaxExactly(b: seq<u8>, s: SyntaxId)
    ensures SyntaxLies(b, s) <==> b == WriteSyntax(s)
    ensures SyntaxLies(b, s) <==> ParseSyntax(b) == Ok((s, []))
  {
    if |b| == 20 {
      UuidOnWire(b[..16], s.uuid);
      U32Field(b, 16, s.version);
      assert b == b[..16] + b[16..20];
      Beside2(UuidLe(s.uuid), PutU32(s.version), 16, 20);
    }
    SyntaxReads(s, []);
    assert WriteSyntax(s) + [] == WriteSyntax(s);
    if ParseSyntax(b) == Ok((s, [])) {
      SyntaxStoodThere(b, s, []);
    }
  }

  /** The first context and its first transfer syntax lie in a Bind at these offsets. */
  lemma {:induction false} BindFields(b: seq<u8>)
    requires ParseBind(b).Ok?
    ensures var p := ParseBind(b).value;
            && |b| >= 72 && HeaderLies(b, p.header) && b[2] == 11
            && U16At(b, 16) == p.maxXmitFrag && U16At(b, 18) == p.maxRecvFrag && U32At(b, 20) == p.assocGroupId
            && b[24] == p.numContexts > 0 && U16At(b, 28) == p.contextId && b[30] == p.numTransferSyntaxes > 0
            && SyntaxLies(b[32..52], p.abstractSyntax) && SyntaxLies(b[52..72], p.transferSyntax)
  {
    var (header, end) := BodyEnd(b, Bind, 12).value;
    HeaderParsesExactly(b, header);
    var r := b[28..end];
    var first := ParseContext(r).value.0;
    FirstContext(r, b[24]);
    FirstFields(r);
    Within(b, 28, end, 0, 2);
    Within(b, 28, end, 4, 24);
    Within(b, 28, end, 24, 44);
  }

  lemma FirstContext(r: seq<u8>, n: nat)
    requires n > 0 && ParseContexts(n, r).Ok?
    ensures ParseContext(r).Ok? && ParseContexts(n, r).value.0[0] == ParseContext(r).value.0
  {
  }

  lemma FirstFields(r: seq<u8>)
    requires ParseContext(r).Ok?
    ensures var c := ParseContext(r).value.0;
            && |r| >= 44 && U16At(r, 0) == c.id && r[2] == |c.transfers| > 0
            && SyntaxLies(r[4..24], c.syntax) && SyntaxLies(r[24..44], c.transfers[0])
  {
    var (syntax, t) := ParseSyntax(r[4..]).value;
    var (transfers, rest) := ParseSyntaxes(r[2], t).value;
    FirstSyntaxOf(r[2], t);
    SyntaxAtHead(r[4..]);
    SyntaxAtHead(t);
    assert r[4..][..20] == r[4..24] && t == r[24..] && t[..20] == r[24..44];
  }

  lemma FirstSyntaxOf(n: nat, t: seq<u8>)
    requires n > 0 && ParseSyntaxes(n, t).Ok?
    ensures ParseSyntax(t).Ok? && |ParseSyntaxes(n, t).value.0| == n
    ensures ParseSyntaxes(n, t).value.0[0] == ParseSyntax(t).value.0
  {
    var (ss, rest) := ParseSyntaxes(n, t).value;
    SyntaxesStoodThere(n, t, ss, rest);
  }

  lemma SyntaxAtHead(t: seq<u8>)
    requires ParseSyntax(t).Ok?
    ensures |t| >= 20 && SyntaxLies(t[..20], ParseSyntax(t).value.0) && ParseSyntax(t).value.1 == t[20..]
  {
    assert t[..20][..16] == t[..16] && t[..20][16..20] == t[16..20];
    UuidLeTwice(t[..16]);
    UuidOnWire(t[..16], UuidLe(t[..16]));
  }

  // ---------- Contexts ----------

  /** Twenty bytes for each syntax identifier, one behind the other. */
  predicate SyntaxesLie(b: seq<u8>, ss: seq<SyntaxId>) {
    |b| == 20 * |ss| && forall i {:trigger ss[i]} :: 0 <= i < |ss| ==> SyntaxLies(b[20 * i..20 * i + 20], ss[i])
  }

  lemma SyntaxesTail(b: seq<u8>, ss: seq<SyntaxId>)
    requires ss != [] && |b| == 20 * |ss|
    ensures SyntaxesLie(b, ss) <==> SyntaxLies(b[..20], ss[0]) && SyntaxesLie(b[20..], ss[1..])
  {
    forall i | 0 <= i < |ss| - 1 ensures b[20..][20 * i..20 * i + 20] == b[20 * (i + 1)..20 * (i + 1) + 20] {
    }
    if SyntaxesLie(b, ss) {
      assert SyntaxLies(b[0..20], ss[0]) && b[0..20] == b[..20];
      forall i | 0 <= i < |ss| - 1 ensures SyntaxLies(b[20..][20 * i..20 * i + 20], ss[1..][i]) {
        assert ss[1..][i] == ss[i + 1];
      }
    }
    if SyntaxLies(b[..20], ss[0]) && SyntaxesLie(b[20..], ss[1..]) {
      forall i | 0 <= i < |ss| ensures SyntaxLies(b[20 * i..20 * i + 20], ss[i]) {
        if i == 0 {
          assert b[0..20] == b[..20];
        } else {
          assert ss[1..][i - 1] == ss[i];
        }
      }
    }
  }

  lemma {:induction false} SyntaxesExactly(b: seq<u8>, ss: seq<SyntaxId>)
    ensures |WriteSyntaxes(ss)| == 20 * |ss|
    ensures SyntaxesLie(b, ss) <==> b == WriteSyntaxes(ss)
    decreases |ss|
  {
    if ss != [] {
      SyntaxesExactly(if |b| >= 20 then b[20..] else [], ss[1..]);
      if |b| == 20 * |ss| {
        SyntaxesTail(b, ss);
        SyntaxExactly(b[..20], ss[0]);
        assert b == b[..20] + b[20..];
        Beside2(WriteSyntax(ss[0]), WriteSyntaxes(ss[1..]), 20, 20 * |ss|);
      }
    }
  }

  /** These bytes are the context: id, number of transfer syntaxes, a reserved byte, and the syntaxes. */
  predicate ContextLies(b: seq<u8>, c: Context) {
    && |b| == 24 + 20 * |c.transfers| && U16At(b, 0) == c.id && b[2] == |c.transfers| > 0 && b[3] == c.reserved
    && SyntaxLies(b[4..24], c.syntax) && SyntaxesLie(b[24..], c.transfers)
  }

  lemma {:induction false} ContextExactly(b: seq<u8>, c: Context)
    ensures ContextLies(b, c) <==> c.WellFormed() && b == WriteContext(c)
  {
    SyntaxesExactly(if |b| >= 24 then b[24..] else [], c.transfers);
    if c.WellFormed() && |b| == 24 + 20 * |c.transfers| {
      U16Field(b, 0, c.id);
      SyntaxExactly(b[4..24], c.syntax);
      ContextPieces(b, PutU16(c.id), [|c.transfers|, c.reserved], WriteSyntax(c.syntax), WriteSyntaxes(c.transfers));
    }
  }

  lemma ContextPieces(b: seq<u8>, id: seq<u8>, two: seq<u8>, syntax: seq<u8>, more: seq<u8>)
    requires |id| == 2 && |two| == 2 && |syntax| == 20 && |b| == 24 + |more|
    ensures b == id + two + syntax + more
            <==> b[0..2] == id && b[2] == two[0] && b[3] == two[1] && b[4..24] == syntax && b[24..] == more
  {
    Beside4(id, two, syntax, more, 2, 4, 24, |b|);
    assert b == b[0..2] + [b[2], b[3]] + b[4..24] + b[24..];
    if b == id + two + syntax + more {
      assert b[2] == b[2..4][0] && b[3] == b[2..4][1];
    }
    assert two == [two[0], two[1]];
  }

  // ---------- The Bind this gateway acknowledges ----------

  /** The UUID 44e265dd-7daf-42cd-8560-3cdb6e7a2729 in version 1.3 as a client writes it. */
  predicate TsgLies(b: seq<u8>) {
    && |b| == 20 && U32At(b, 0) == 0x44e265dd && U16At(b, 4) == 0x7daf && U16At(b, 6) == 0x42cd
    && b[8..16] == [0x85, 0x60, 0x3c, 0xdb, 0x6e, 0x7a, 0x27, 0x29] && U16At(b, 16) == 1 && U16At(b, 18) == 3
  }

  /** The UUID 8a885d04-1ceb-11c9-9fe8-08002b104860 in version 2.0. */
  predicate NdrLies(b: seq<u8>) {
    && |b| == 20 && U32At(b, 0) == 0x8a885d04 && U16At(b, 4) == 0x1ceb && U16At(b, 6) == 0x11c9
    && b[8..16] == [0x9f, 0xe8, 0x08, 0x00, 0x2b, 0x10, 0x48, 0x60] && U16At(b, 16) == 2 && U16At(b, 18) == 0
  }

  lemma SyntaxPieces(b: seq<u8>, s: SyntaxId, x: u32, y: u16, z: u16, major: u16, minor: u16)
    requires |b| == 20
    requires Four(s.uuid[3], s.uuid[2], s.uuid[1], s.uuid[0]) == x
    requires Four(s.uuid[5], s.uuid[4], 0, 0) == y && Four(s.uuid[7], s.uuid[6], 0, 0) == z
    requires s.version == major + 0x1_0000 * minor
    ensures SyntaxLies(b, s) <==>
            && U32At(b, 0) == x && U16At(b, 4) == y && U16At(b, 6) == z && b[8..16] == s.uuid[8..]
            && U16At(b, 16) == major && U16At(b, 18) == minor
  {
    var w := b[..16];
    assert w[0..4] == b[0..4] && w[4..6] == b[4..6] && w[6..8] == b[6..8] && w[8..] == b[8..16];
    FieldValues(b, 16);
    FieldValues(b, 18);
    Halves(U16At(b, 16), U16At(b, 18), major, minor);
  }

  lemma Halves(a: u16, b: u16, c: u16, d: u16)
    ensures a + 0x1_0000 * b == c + 0x1_0000 * d <==> a == c && b == d
  {
  }

  lemma {:induction false} TsgAndNdr(b: seq<u8>)
    ensures SyntaxLies(b, TSG_SYNTAX) <==> TsgLies(b)
    ensures SyntaxLies(b, NDR_SYNTAX) <==> NdrLies(b)
  {
    if |b| == 20 {
      SyntaxPieces(b, TSG_SYNTAX, 0x44e265dd, 0x7daf, 0x42cd, 1, 3);
      SyntaxPieces(b, NDR_SYNTAX, 0x8a885d04, 0x1ceb, 0x11c9, 2, 0);
    }
  }

  lemma SyntaxUnique(b: seq<u8>, s: SyntaxId, s': SyntaxId)
    requires SyntaxLies(b, s)
    ensures SyntaxLies(b, s') <==> s == s'
  {
    SyntaxExactly(b, s);
    SyntaxExactly(b, s');
  }

  /** The first context offers this gateway's interface with NDR. */
  predicate OffersTsg(b: seq<u8>) {
    |b| >= 72 && TsgLies(b[32..52]) && NdrLies(b[52..72])
  }

  /** A Bind is one for this gateway exactly if its first context carries these bytes. */
  lemma {:induction false} TsgBindOnTheWire(b: seq<u8>)
    requires ParseBind(b).Ok?
    ensures RpcStream.IsTsgBind(ParseBind(b).value) <==> OffersTsg(b)
  {
    var p := ParseBind(b).value;
    BindFields(b);
    SyntaxUnique(b[32..52], p.abstractSyntax, TSG_SYNTAX);
    SyntaxUnique(b[52..72], p.transferSyntax, NDR_SYNTAX);
    TsgAndNdr(b[32..52]);
    TsgAndNdr(b[52..72]);
  }

  // ---------- What is read of a Request and written to the client ----------

  /** A Request parses exactly to the fields at these offsets and the stub before its trailer. */
  lemma {:induction false} RequestExactly(b: seq<u8>, r: RequestPdu)
    ensures ParseRequest(b) == Ok(r) <==>
            && HeaderLies(b, r.header) && b[2] == 0
            && 24 + r.header.authLength <= r.header.fragLength
            && U32At(b, 16) == r.allocHint && U16At(b, 20) == r.contextId && U16At(b, 22) == r.opnum
            && r.stub == b[24..r.header.fragLength - r.header.authLength]
  {
    HeaderParsesExactly(b, r.header);
  }

  /** A whole PDU of one fragment with no authentication trailer. */
  predicate WholePdu(b: seq<u8>, ptype: u8, callId: u32) {
    && 16 <= |b| <= U16_MAX && b[..4] == [5, 0, ptype, 3] && b[4..8] == [16, 0, 0, 0]
    && U16At(b, 8) == |b| && U16At(b, 10) == 0 && U32At(b, 12) == callId
  }

  lemma WrittenWhole(b: seq<u8>, ptype: RpcPduType, callId: u32)
    requires |b| <= U16_MAX && ParseHeader(b) == Ok(NewHeader(ptype, callId).(fragLength := |b|, authLength := 0))
    ensures TypeIs(b[2], ptype) && WholePdu(b, b[2], callId)
  {
    HeaderParsesExactly(b, NewHeader(ptype, callId).(fragLength := |b|, authLength := 0));
    assert b[..4] == [b[0], b[1], b[2], b[3]];
  }

  /**
   The bind_ack a Bind is answered with: the Bind's call id and association group, fragments of up
   to 5840 bytes, an empty secondary address with its NUL, and one result, acceptance of NDR.
   */
  lemma {:induction false} AckOnTheWire(bind: BindPdu)
    ensures var b := RpcStream.AckFor(bind);
            && |b| == 56 && WholePdu(b, 12, bind.header.callId)
            && U16At(b, 16) == 5840 && U16At(b, 18) == 5840 && U32At(b, 20) == bind.assocGroupId
            && U16At(b, 24) == 1 && b[26..28] == [0, 0] && b[28..32] == [1, 0, 0, 0]
            && U16At(b, 32) == 0 && U16At(b, 34) == 0 && NdrLies(b[36..56])
  {
    var ack := Accepted(bind.header.callId, bind.assocGroupId, RpcStream.SEC_ADDR);
    var b := RpcStream.AckFor(bind);
    AckReadsBack(ack);
    WrittenWhole(b, BindAck, bind.header.callId);
    AckFillers(ack, b);
    assert b[36..56] == b[36..];
    SyntaxExactly(b[36..56], NDR_SYNTAX);
    TsgAndNdr(b[36..56]);
  }

  lemma AckFillers(ack: BindAckPdu, b: seq<u8>)
    requires ack.secAddr == [0] && b == EncodeAck(ack)
    ensures |b| == 56 && b[26..28] == [0, 0] && b[28..32] == [1, 0, 0, 0]
    ensures ParseSyntax(b[36..]) == Ok((ack.transferSyntax, [])) ==> b[36..] == WriteSyntax(ack.transferSyntax)
  {
    var fixed := PutU16(ack.maxXmitFrag) + PutU16(ack.maxRecvFrag) + PutU32(ack.assocGroupId) + PutU16(1);
    var tail := [1, 0, 0, 0] + PutU16(ack.result) + PutU16(ack.reason) + WriteSyntax(ack.transferSyntax);
    AckPieces(ack, fixed, Zeros(1), tail);
    PiecesAt(WriteHeader(AckHeaderOf(ack)), fixed, [0], Zeros(1), tail, b, 28);
    Filler(WriteHeader(AckHeaderOf(ack)), fixed, tail, b);
    SyntaxExactly(b[36..], ack.transferSyntax);
  }

  lemma Filler(h: seq<u8>, fixed: seq<u8>, tail: seq<u8>, b: seq<u8>)
    requires |h| == 16 && |fixed| == 10 && |tail| >= 4 && tail[..4] == [1, 0, 0, 0]
    requires b == h + (fixed + [0] + Zeros(1) + tail)
    ensures b[26..28] == [0, 0] && b[28..32] == [1, 0, 0, 0]
  {
    assert b == h + fixed + [0, 0] + tail;
    Beside4(h, fixed, [0, 0], tail, 16, 26, 28, |b|);
    Within(b, 28, |b|, 0, 4);
    assert b[28..|b|] == tail;
  }

  /** A response: the Request's call id and context id, the stub's length as a hint, no cancels, and the stub. */
  lemma {:induction false} ResponseOnTheWire(r: RequestPdu, stub: seq<u8>)
    requires 24 + |stub| <= U16_MAX
    ensures var b := RpcStream.ResponseFor(r, stub);
            && WholePdu(b, 2, r.header.callId)
            && U32At(b, 16) == |stub| && U16At(b, 20) == r.contextId && b[22..24] == [0, 0] && b[24..] == stub
  {
    var p := NewResponse(r.header.callId, r.contextId, stub);
    var b := RpcStream.ResponseFor(r, stub);
    ResponseReadsBack(p);
    WrittenWhole(b, Response, r.header.callId);
    var h := WriteHeader(p.header.(fragLength := TruncU16(24 + |stub|), authLength := 0));
    NoCancels(h, PutU32(p.allocHint) + PutU16(p.contextId), stub, b);
  }

  lemma NoCancels(h: seq<u8>, fixed: seq<u8>, stub: seq<u8>, b: seq<u8>)
    requires |h| == 16 && |fixed| == 6 && b == h + (fixed + [0, 0] + stub)
    ensures b[22..24] == [0, 0]
  {
    assert b == h + fixed + [0, 0] + stub;
    Beside4(h, fixed, [0, 0], stub, 16, 22, 24, |b|);
  }
}
