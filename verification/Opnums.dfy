/** The RPC path to the session: TSG operations mapped onto session messages. */
module Opnums {
  import opened Bytes
  import opened Wrappers
  import opened Messages
  import opened Session

  const HANDSHAKE: TsgMessage := HandshakeRequest(1, 0, 0, 0)
  const TUNNEL_CREATE: TsgMessage := TunnelCreate(0, 0, 0, None)
  /** For the client name "MSTSC-CLIENT". */
  const TUNNEL_AUTH: TsgMessage := TunnelAuth(0, [77, 83, 84, 83, 67, 45, 67, 76, 73, 69, 78, 84])
  /** For port 3389 of "localhost". */
  const CHANNEL_CREATE: TsgMessage := ChannelCreate(1, 0, 3389, 0, [108, 111, 99, 97, 108, 104, 111, 115, 116])

  /** A message through the session, its reply being dropped. */
  function Deliver(v: View, m: TsgMessage): Result<View, SessionError> {
    if Takes(v.state, m) then Ok(Step(v, m)) else Err(UnexpectedMessage(TypeCode(m), v.state))
  }

  /** `process_tsg_opnum`: the session afterwards and the response stub. */
  function ServeOpnum(opnum: u16, v: View): Result<(View, seq<u8>), SessionError> {
    if opnum == 1 then
      var v1 :- Deliver(v, HANDSHAKE);
      var v2 :- Deliver(v1, TUNNEL_CREATE);
      Ok((v2, PutU32(v2.tunnelId) + PutU32(0)))
    else if opnum == 2 then
      var v1 :- Deliver(v, TUNNEL_AUTH);
      Ok((v1, PutU32(0) + PutU32(0x0003) + PutU32(0)))
    else if opnum == 4 then
      var v1 :- Deliver(v, CHANNEL_CREATE);
      Ok((v1, PutU32(v1.channelId) + PutU32(0)))
    else Ok((v, PutU32(0)))
  }

  method ProcessTsgOpnum(opnum: u16, session: GatewaySession) returns (r: Result<seq<u8>, SessionError>)
    modifies session
    ensures match ServeOpnum(opnum, old(session.Now()))
            case Ok((v, stub)) => r == Ok(stub) && session.Now() == v
            case Err(e) => r == Err(e) && session.Now() == old(session.Now())
  {
    if opnum == 1 {
      var handshake := session.ProcessMessage(HANDSHAKE);
      if handshake.Err? {
        return Err(handshake.error);
      }
      var create := session.ProcessMessage(TUNNEL_CREATE);
      if create.Err? {
        return Err(create.error);
      }
      r := Ok(PutU32(session.tunnelId) + PutU32(0));
    } else if opnum == 2 {
      var auth := session.ProcessMessage(TUNNEL_AUTH);
      if auth.Err? {
        return Err(auth.error);
      }
      r := Ok(PutU32(0) + PutU32(0x0003) + PutU32(0));
    } else if opnum == 4 {
      var create := session.ProcessMessage(CHANNEL_CREATE);
      if create.Err? {
        return Err(create.error);
      }
      r := Ok(PutU32(session.channelId) + PutU32(0));
    } else {
      r := Ok(PutU32(0));
    }
  }

  // ---------- Whole runs ----------

  function ServeAll(v: View, opnums: seq<u16>): Result<View, SessionError> {
    if opnums == [] then Ok(v)
    else
      var before :- ServeAll(v, opnums[..|opnums| - 1]);
      var after :- ServeOpnum(opnums[|opnums| - 1], before);
      Ok(after.0)
  }

  /** The operations among 1, 2 and 4, in order. */
  function TunnelOps(opnums: seq<u16>): seq<u16> {
    if opnums == [] then []
    else
      var last := opnums[|opnums| - 1];
      TunnelOps(opnums[..|opnums| - 1]) + (if last == 1 || last == 2 || last == 4 then [last] else [])
  }

  const FULL_ORDER: seq<u16> := [1, 2, 4]

  /** The session messages that the first `k` of operations 1, 2 and 4 stand for. */
  function MessagesFor(k: nat): seq<TsgMessage>
    requires k <= 3
  {
    [HANDSHAKE, TUNNEL_CREATE, TUNNEL_AUTH, CHANNEL_CREATE][..if k == 0 then 0 else k + 1]
  }

  lemma RestingViews(k: nat)
    requires k <= 3
    ensures ErrorFree(MessagesFor(k)) && After(NEW_VIEW, MessagesFor(k)) == Expected(MessagesFor(k))
  {
    ErrorFreeRuns(MessagesFor(k));
  }

  /** One more operation is served exactly when it is no tunnel operation or the next one due. */
  lemma NextOperation(k: nat, opnum: u16)
    requires k <= 3
    ensures var r := ServeOpnum(opnum, Expected(MessagesFor(k)));
            if opnum == 1 || opnum == 2 || opnum == 4 then
              && (r.Ok? <==> k < 3 && FULL_ORDER[k] == opnum)
              && (r.Ok? ==> r.value.0 == Expected(MessagesFor(k + 1)))
            else r.Ok? && r.value.0 == Expected(MessagesFor(k))
  {
  }

  /**
   A sequence of operations succeeds exactly when those among 1, 2 and 4 come in that order,
   each at most once; the session is then where the messages they stand for bring it, and never
   rests between the handshake and the tunnel.
   */
  lemma {:induction false} OperationsFollowHandshake(opnums: seq<u16>)
    ensures ServeAll(NEW_VIEW, opnums).Ok? <==> TunnelOps(opnums) <= [1, 2, 4]
    ensures TunnelOps(opnums) <= [1, 2, 4] ==>
              var v := ServeAll(NEW_VIEW, opnums).value;
              v == After(NEW_VIEW, MessagesFor(|TunnelOps(opnums)|)) && v.state != AwaitingTunnelCreate
  {
    RestingViews(0);
    if opnums != [] {
      var front, last := opnums[..|opnums| - 1], opnums[|opnums| - 1];
      OperationsFollowHandshake(front);
      var before, ops := TunnelOps(front), TunnelOps(opnums);
      if before <= FULL_ORDER {
        RestingViews(|before|);
        NextOperation(|before|, last);
        if ops <= FULL_ORDER {
          RestingViews(|ops|);
        }
        if ops != before {
          assert ops[|before|] == last;
          assert ops <= FULL_ORDER <==> |before| < 3 && FULL_ORDER[|before|] == last;
        } else {
          assert before + [] == before;
        }
      } else {
        assert before <= ops;
      }
    }
  }

  /**
   The session after none, one, two or all of operations 1, 2 and 4: tunnel 1 from the first on,
   the client "MSTSC-CLIENT" from the second on, and then channel 1 to port 3389 of "localhost".
   */
  lemma {:induction false} SessionAfterOperations(opnums: seq<u16>)
    requires ServeAll(NEW_VIEW, opnums).Ok?
    ensures var v, k := ServeAll(NEW_VIEW, opnums).value, |TunnelOps(opnums)|;
            k <= 3 && v == View(
              if k == 0 then AwaitingHandshake else if k == 1 then AwaitingTunnelAuth
              else if k == 2 then AwaitingChannelCreate else DataTransfer,
              if k >= 1 then 1 else 0,
              if k == 3 then 1 else 0,
              if k >= 2 then Some([77, 83, 84, 83, 67, 45, 67, 76, 73, 69, 78, 84]) else None,
              if k == 3 then Some([108, 111, 99, 97, 108, 104, 111, 115, 116]) else None,
              if k == 3 then Some(3389) else None,
              if k >= 1 then 2 else 1,
              if k == 3 then 2 else 1)
  {
    OperationsFollowHandshake(opnums);
    RestingViews(|TunnelOps(opnums)|);
  }

  /** A served operation answers with the id the session then has, and with success. */
  lemma {:induction false} StubsRead(opnum: u16, v: View)
    requires ServeOpnum(opnum, v).Ok?
    ensures var (after, stub) := ServeOpnum(opnum, v).value;
            && (opnum == 1 ==> |stub| == 8 && U32At(stub, 0) == after.tunnelId && U32At(stub, 4) == 0)
            && (opnum == 2 ==> |stub| == 12 && U32At(stub, 0) == 0 && U32At(stub, 4) == 3 && U32At(stub, 8) == 0)
            && (opnum == 4 ==> |stub| == 8 && U32At(stub, 0) == after.channelId && U32At(stub, 4) == 0)
            && (opnum != 1 && opnum != 2 && opnum != 4 ==> |stub| == 4 && U32At(stub, 0) == 0 && after == v)
  {
    var (after, stub) := ServeOpnum(opnum, v).value;
    if opnum == 2 {
      ThreeWords(0, 3, 0);
    } else if opnum == 1 {
      TwoWords(after.tunnelId, 0);
    } else if opnum == 4 {
      TwoWords(after.channelId, 0);
    } else {
      assert stub[0..4] == PutU32(0);
      U32Field(stub, 0, 0);
    }
  }

  lemma TwoWords(a: u32, b: u32)
    ensures var s := PutU32(a) + PutU32(b); U32At(s, 0) == a && U32At(s, 4) == b
  {
    var s := PutU32(a) + PutU32(b);
    Beside2(PutU32(a), PutU32(b), 4, 8);
    U32Field(s, 0, a);
    U32Field(s, 4, b);
  }

  lemma ThreeWords(a: u32, b: u32, c: u32)
    ensures var s := PutU32(a) + PutU32(b) + PutU32(c); U32At(s, 0) == a && U32At(s, 4) == b && U32At(s, 8) == c
  {
    var s := PutU32(a) + PutU32(b) + PutU32(c);
    Beside3(PutU32(a), PutU32(b), PutU32(c), 4, 8, 12);
    U32Field(s, 0, a);
    U32Field(s, 4, b);
    U32Field(s, 8, c);
  }
}
