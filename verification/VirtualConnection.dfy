/** A virtual connection: the state both channels of one RPC-over-HTTP client build up. */
module VirtualConnections {
  import opened Bytes
  import opened Wrappers
  import opened Rts
  import opened Uuids

  datatype VcView = VcView(
    state: VcState,
    version: Option<u32>,
    vcCookie: Option<Uuid>,
    outCookie: Option<Uuid>,
    inCookie: Option<Uuid>,
    group: Option<Uuid>,
    window: Option<u32>,
    lifetime: Option<u32>,
    keepalive: Option<u32>,
    outCallId: Option<u32>,
    inCallId: Option<u32>)

  const NEW_CONNECTION := VcView(WaitingOutChannel, None, None, None, None, None, None, None, None, None, None)

  function AcceptOut(v: VcView, conn: ConnA1): Result<VcView, RpchError> {
    if v.state != WaitingOutChannel then Err(UnexpectedState(WaitingOutChannel, v.state))
    else Ok(v.(state := WaitingInChannel, version := Some(conn.version), vcCookie := Some(conn.vcCookie),
               outCookie := Some(conn.outCookie), window := Some(conn.window), outCallId := Some(conn.callId)))
  }

  /** The connection after CONN/B1, and the CONN/C2 to send on the OUT channel. */
  function AcceptIn(v: VcView, conn: ConnB1): Result<(VcView, RtsPdu), RpchError> {
    if v.state != WaitingInChannel then Err(UnexpectedState(WaitingInChannel, v.state))
    else if v.vcCookie.None? then Err(UnexpectedState(WaitingInChannel, WaitingOutChannel))
    else if conn.vcCookie != v.vcCookie.value then
      Err(VirtualConnectionCookieMismatch(v.vcCookie.value, conn.vcCookie))
    else
      Ok((v.(state := ConnectionEstablished, version := Some(conn.version), inCookie := Some(conn.inCookie),
             group := Some(conn.group), lifetime := Some(conn.lifetime), keepalive := Some(conn.keepalive),
             inCallId := Some(conn.callId)),
          ConnC2(v.outCallId.GetOr(conn.callId))))
  }

  function EnterDataTransfer(v: VcView): Result<VcView, RpchError> {
    if v.state != ConnectionEstablished then Err(UnexpectedState(ConnectionEstablished, v.state))
    else Ok(v.(state := VcState.DataTransfer))
  }

  datatype ChannelType = In | Out

  /** `process_rts`: a CONN PDU arriving on one of the channels. */
  function ProcessRts(v: VcView, channel: ChannelType, data: seq<u8>): Result<(VcView, Option<RtsPdu>), RpchError> {
    var pdu :- ParsePdu(data);
    match channel
    case Out =>
      var conn :- AsConnA1(pdu);
      var next :- AcceptOut(v, conn);
      Ok((next, None))
    case In =>
      var conn :- AsConnB1(pdu);
      var next :- AcceptIn(v, conn);
      Ok((next.0, Some(next.1)))
  }

  class VirtualConnection {
    var state: VcState
    var version: Option<u32>
    var vcCookie: Option<Uuid>
    var outCookie: Option<Uuid>
    var inCookie: Option<Uuid>
    var group: Option<Uuid>
    var window: Option<u32>
    var lifetime: Option<u32>
    var keepalive: Option<u32>
    var outCallId: Option<u32>
    var inCallId: Option<u32>

    function Now(): VcView
      reads this
    {
      VcView(state, version, vcCookie, outCookie, inCookie, group, window, lifetime, keepalive, outCallId, inCallId)
    }

    constructor ()
      ensures Now() == NEW_CONNECTION
    {
      state := WaitingOutChannel;
      version, vcCookie, outCookie, inCookie, group := None, None, None, None, None;
      window, lifetime, keepalive, outCallId, inCallId := None, None, None, None, None;
    }

    /** The connection whose fields another owner handed over. */
    constructor Moved(v: VcView)
      ensures Now() == v
    {
      state, version, vcCookie, outCookie, inCookie, group :=
        v.state, v.version, v.vcCookie, v.outCookie, v.inCookie, v.group;
      window, lifetime, keepalive, outCallId, inCallId :=
        v.window, v.lifetime, v.keepalive, v.outCallId, v.inCallId;
    }

    method AcceptOutChannel(conn: ConnA1) returns (r: Result<(), RpchError>)
      modifies this
      ensures match AcceptOut(old(Now()), conn)
              case Ok(v) => r == Ok(()) && Now() == v
              case Err(e) => r == Err(e) && Now() == old(Now())
    {
      if state != WaitingOutChannel {
        return Err(UnexpectedState(WaitingOutChannel, state));
      }
      version := Some(conn.version);
      vcCookie := Some(conn.vcCookie);
      outCookie := Some(conn.outCookie);
      window := Some(conn.window);
      outCallId := Some(conn.callId);
      state := WaitingInChannel;
      r := Ok(());
    }

    method AcceptInChannel(conn: ConnB1) returns (r: Result<RtsPdu, RpchError>)
      modifies this
      ensures match AcceptIn(old(Now()), conn)
              case Ok((v, c2)) => r == Ok(c2) && Now() == v
              case Err(e) => r == Err(e) && Now() == old(Now())
    {
      if state != WaitingInChannel {
        return Err(UnexpectedState(WaitingInChannel, state));
      }
      if vcCookie.None? {
        return Err(UnexpectedState(WaitingInChannel, WaitingOutChannel));
      }
      if conn.vcCookie != vcCookie.value {
        return Err(VirtualConnectionCookieMismatch(vcCookie.value, conn.vcCookie));
      }
      version := Some(conn.version);
      inCookie := Some(conn.inCookie);
      group := Some(conn.group);
      lifetime := Some(conn.lifetime);
      keepalive := Some(conn.keepalive);
      inCallId := Some(conn.callId);
      state := ConnectionEstablished;
      r := Ok(ConnC2(outCallId.GetOr(conn.callId)));
    }

    method EnterDataTransferState() returns (r: Result<(), RpchError>)
      modifies this
      ensures match EnterDataTransfer(old(Now()))
              case Ok(v) => r == Ok(()) && Now() == v
              case Err(e) => r == Err(e) && Now() == old(Now())
    {
      if state != ConnectionEstablished {
        return Err(UnexpectedState(ConnectionEstablished, state));
      }
      state := VcState.DataTransfer;
      r := Ok(());
    }
  }

  // ---------- Connecting ----------

  /** How far a connection has come. */
  function Rank(state: VcState): nat {
    match state
    case WaitingOutChannel => 0
    case WaitingInChannel => 1
    case ConnectionEstablished => 2
    case DataTransfer => 3
  }

  /** What a connection holds at each rank, in every state it can reach. */
  predicate Reachable(v: VcView) {
    && (v.state == WaitingOutChannel <==> v.vcCookie.None?)
    && (v.vcCookie.Some? <==> v.outCallId.Some?) && (v.vcCookie.Some? <==> v.outCookie.Some?)
    && (Rank(v.state) >= 2 <==> v.inCookie.Some?) && (v.inCookie.Some? <==> v.inCallId.Some?)
  }

  /** One successful step goes up by exactly one rank and keeps the cookie once it is set. */
  lemma {:induction false} StepsClimb(v: VcView, channel: ChannelType, data: seq<u8>)
    requires Reachable(v)
    ensures Reachable(NEW_CONNECTION)
    ensures match ProcessRts(v, channel, data)
            case Ok((w, reply)) =>
              && Reachable(w) && Rank(w.state) == Rank(v.state) + 1
              && (reply.Some? <==> channel == In) && (v.vcCookie.Some? ==> w.vcCookie == v.vcCookie)
            case Err(_) => true
    ensures EnterDataTransfer(v).Ok? ==>
              Reachable(EnterDataTransfer(v).value) && EnterDataTransfer(v).value == v.(state := VcState.DataTransfer)
  {
  }

  lemma OutMeans(callId: u32, vc: Uuid, out: Uuid)
    ensures ProcessRts(NEW_CONNECTION, Out, PduBytes(MakeConnA1(callId, vc, out))) ==
            Ok((NEW_CONNECTION.(state := WaitingInChannel, version := Some(1), vcCookie := Some(vc), outCookie := Some(out),
                                window := Some(262_144), outCallId := Some(callId)), None))
  {
    SequencesReadBack(callId, vc, out, vc);
  }

  lemma InMeans(v: VcView, callId: u32, vc: Uuid, inn: Uuid, group: Uuid)
    requires v.state == WaitingInChannel && v.vcCookie.Some? && v.outCallId.Some?
    ensures var b := ProcessRts(v, In, PduBytes(MakeConnB1(callId, vc, inn, group)));
            if Some(vc) == v.vcCookie then
              b == Ok((v.(state := ConnectionEstablished, version := Some(1), inCookie := Some(inn), group := Some(group),
                          lifetime := Some(1073741824), keepalive := Some(300000), inCallId := Some(callId)),
                       Some(ConnC2(v.outCallId.value))))
            else b == Err(VirtualConnectionCookieMismatch(v.vcCookie.value, vc))
  {
    SequencesReadBack(callId, vc, inn, group);
  }

  /**
   The two channels of a client meet: after its CONN/A1 a CONN/B1 is accepted exactly when it
   names the same connection, and is answered by CONN/C2 under the call id of CONN/A1.
   */
  lemma {:induction false} ChannelsMeet(callId: u32, vc: Uuid, out: Uuid, callId': u32, vc': Uuid, inn: Uuid, group: Uuid)
    ensures var a := ProcessRts(NEW_CONNECTION, Out, PduBytes(MakeConnA1(callId, vc, out)));
            && a.Ok? && a.value.0.state == WaitingInChannel && a.value.1.None?
            && var b := ProcessRts(a.value.0, In, PduBytes(MakeConnB1(callId', vc', inn, group)));
               && (b.Ok? <==> vc' == vc)
               && (b.Err? ==> b == Err(VirtualConnectionCookieMismatch(vc, vc')))
               && (b.Ok? ==> b.value == (
                     VcView(ConnectionEstablished, Some(1), Some(vc), Some(out), Some(inn), Some(group), Some(262144),
                            Some(1073741824), Some(300000), Some(callId), Some(callId')),
                     Some(ConnC2(callId))))
  {
    OutMeans(callId, vc, out);
    var v := ProcessRts(NEW_CONNECTION, Out, PduBytes(MakeConnA1(callId, vc, out))).value.0;
    InMeans(v, callId', vc', inn, group);
  }
}
