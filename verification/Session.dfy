/** The server-side TSG session: the handshake both transports drive. */
module Session {
  import opened Bytes
  import opened Wrappers
  import opened Utf16
  import opened Messages
  import opened MessageProofs

  datatype SessionState =
    | AwaitingHandshake
    | AwaitingTunnelCreate
    | AwaitingTunnelAuth
    | AwaitingChannelCreate
    | DataTransfer
    | Closed

  datatype SessionError = UnexpectedMessage(msgType: u16, state: SessionState)

  /** The fields of a session at one moment. */
  datatype View = View(
    state: SessionState,
    tunnelId: u32,
    channelId: u32,
    clientName: Option<Str>,
    targetHost: Option<Str>,
    targetPort: Option<u16>,
    nextTunnelId: u32,
    nextChannelId: u32)

  const NEW_VIEW := View(AwaitingHandshake, 0, 0, None, None, None, 1, 1)

  type Reply = Result<Option<seq<u8>>, SessionError>

  /** Whether a session in `state` takes a message of this kind. */
  predicate Takes(state: SessionState, m: TsgMessage) {
    match state
    case AwaitingHandshake => m.HandshakeRequest?
    case AwaitingTunnelCreate => m.TunnelCreate?
    case AwaitingTunnelAuth => m.TunnelAuth?
    case AwaitingChannelCreate => m.ChannelCreate?
    case DataTransfer => m.Data?
    case Closed => false
  }

  function Step(v: View, m: TsgMessage): View {
    if !Takes(v.state, m) then v
    else
      match v.state
      case AwaitingHandshake => v.(state := AwaitingTunnelCreate)
      case AwaitingTunnelCreate =>
        v.(state := AwaitingTunnelAuth, tunnelId := v.nextTunnelId, nextTunnelId := TruncU32(v.nextTunnelId + 1))
      case AwaitingTunnelAuth => v.(state := AwaitingChannelCreate, clientName := Some(m.clientName))
      case AwaitingChannelCreate =>
        v.(state := DataTransfer, targetHost := Some(m.serverName), targetPort := Some(m.port),
           channelId := v.nextChannelId, nextChannelId := TruncU32(v.nextChannelId + 1))
      case _ => v
  }

  /** The message a taken message is answered with; Data has none. */
  function Answer(v: View, m: TsgMessage): Option<TsgMessage>
    requires Takes(v.state, m)
  {
    match m
    case HandshakeRequest(major, minor, _, _) => Some(HandshakeResponse(0, major, minor, 0, 0x0007))
    case TunnelCreate(_, _, _, _) => Some(TunnelResponse(0, 0, 3, 0, Some(v.nextTunnelId), Some(0x0D)))
    case TunnelAuth(_, _) => Some(TunnelAuthResponse(0, 0x0003, 0, 0, None))
    case ChannelCreate(_, _, _, _, _) => Some(ChannelResponse(0, 1, 0, Some(v.nextChannelId), None, None))
    case _ => None
  }

  function ReplyTo(v: View, m: TsgMessage): Reply {
    if !Takes(v.state, m) then Err(UnexpectedMessage(TypeCode(m), v.state))
    else match Answer(v, m)
         case Some(a) => Ok(Some(Write(a)))
         case None => Ok(None)
  }

  class GatewaySession {
    var state: SessionState
    var tunnelId: u32
    var channelId: u32
    var clientName: Option<Str>
    var targetHost: Option<Str>
    var targetPort: Option<u16>
    var nextTunnelId: u32
    var nextChannelId: u32

    ghost function Now(): View
      reads this
    {
      View(state, tunnelId, channelId, clientName, targetHost, targetPort, nextTunnelId, nextChannelId)
    }

    constructor ()
      ensures Now() == NEW_VIEW
    {
      state := AwaitingHandshake;
      tunnelId, channelId := 0, 0;
      clientName, targetHost, targetPort := None, None, None;
      nextTunnelId, nextChannelId := 1, 1;
    }

    method ProcessMessage(m: TsgMessage) returns (r: Reply)
      modifies this
      ensures Now() == Step(old(Now()), m)
      ensures r == ReplyTo(old(Now()), m)
    {
      match (state, m)
      case (AwaitingHandshake, HandshakeRequest(major, minor, _, _)) =>
        var response := HandshakeResponse(0, major, minor, 0, 0x0007);
        state := AwaitingTunnelCreate;
        r := Ok(Some(Write(response)));
      case (AwaitingTunnelCreate, TunnelCreate(_, _, _, _)) =>
        tunnelId := nextTunnelId;
        nextTunnelId := TruncU32(nextTunnelId + 1);
        var response := TunnelResponse(0, 0, 3, 0, Some(tunnelId), Some(0x0D));
        state := AwaitingTunnelAuth;
        r := Ok(Some(Write(response)));
      case (AwaitingTunnelAuth, TunnelAuth(_, name)) =>
        clientName := Some(name);
        state := AwaitingChannelCreate;
        r := Ok(Some(Write(TunnelAuthResponse(0, 0x0003, 0, 0, None))));
      case (AwaitingChannelCreate, ChannelCreate(_, _, port, _, name)) =>
        targetHost, targetPort := Some(name), Some(port);
        channelId := nextChannelId;
        nextChannelId := TruncU32(nextChannelId + 1);
        var response := ChannelResponse(0, 1, 0, Some(channelId), None, None);
        state := DataTransfer;
        r := Ok(Some(Write(response)));
      case (DataTransfer, Data(_)) =>
        r := Ok(None);
      case _ =>
        r := Err(UnexpectedMessage(TypeCode(m), state));
    }
  }

  // ---------- Whole runs ----------

  /** The session after a run; messages it refuses leave it as it was. */
  function After(v: View, ms: seq<TsgMessage>): View {
    if ms == [] then v else Step(After(v, ms[..|ms| - 1]), ms[|ms| - 1])
  }

  /** No message of the run is refused. */
  predicate ErrorFree(ms: seq<TsgMessage>) {
    ms == [] ||
    (ErrorFree(ms[..|ms| - 1]) && Takes(After(NEW_VIEW, ms[..|ms| - 1]).state, ms[|ms| - 1]))
  }

  /** A prefix of handshake, tunnel, authorization, channel, and then any number of data. */
  predicate InOrder(ms: seq<TsgMessage>) {
    && (|ms| > 0 ==> ms[0].HandshakeRequest?)
    && (|ms| > 1 ==> ms[1].TunnelCreate?)
    && (|ms| > 2 ==> ms[2].TunnelAuth?)
    && (|ms| > 3 ==> ms[3].ChannelCreate?)
    && forall i :: 4 <= i < |ms| ==> ms[i].Data?
  }

  function Phase(n: nat): SessionState {
    if n == 0 then AwaitingHandshake
    else if n == 1 then AwaitingTunnelCreate
    else if n == 2 then AwaitingTunnelAuth
    else if n == 3 then AwaitingChannelCreate
    else DataTransfer
  }

  /** What the session holds after `ms`, read off the messages themselves. */
  function Expected(ms: seq<TsgMessage>): View
    requires InOrder(ms)
  {
    View(
      Phase(|ms|),
      if |ms| >= 2 then 1 else 0,
      if |ms| >= 4 then 1 else 0,
      if |ms| >= 3 then Some(ms[2].clientName) else None,
      if |ms| >= 4 then Some(ms[3].serverName) else None,
      if |ms| >= 4 then Some(ms[3].port) else None,
      if |ms| >= 2 then 2 else 1,
      if |ms| >= 4 then 2 else 1)
  }

  lemma OneMore(front: seq<TsgMessage>, m: TsgMessage)
    requires InOrder(front)
    ensures Takes(Phase(|front|), m) <==> InOrder(front + [m])
    ensures InOrder(front + [m]) ==> Step(Expected(front), m) == Expected(front + [m])
  {
    var ms := front + [m];
    assert ms[|front|] == m && forall i :: 0 <= i < |front| ==> ms[i] == front[i];
  }

  lemma OneLess(front: seq<TsgMessage>, m: TsgMessage)
    requires InOrder(front + [m])
    ensures InOrder(front)
  {
    assert forall i :: 0 <= i < |front| ==> (front + [m])[i] == front[i];
  }

  /**
   The error-free runs are exactly those in handshake order, and after one the client name,
   target and ids are those of its own TunnelAuth and ChannelCreate, once those have come.
   */
  lemma {:induction false} ErrorFreeRuns(ms: seq<TsgMessage>)
    ensures ErrorFree(ms) <==> InOrder(ms)
    ensures InOrder(ms) ==> After(NEW_VIEW, ms) == Expected(ms)
  {
    if ms != [] {
      var front, m := ms[..|ms| - 1], ms[|ms| - 1];
      assert ms == front + [m];
      ErrorFreeRuns(front);
      if InOrder(front) {
        OneMore(front, m);
      }
      if InOrder(ms) {
        OneLess(front, m);
      }
    }
  }

  /** The messages of a run that were not refused. */
  function Accepted(ms: seq<TsgMessage>): seq<TsgMessage> {
    if ms == [] then []
    else
      var n := |ms| - 1;
      Accepted(ms[..n]) + (if Takes(After(NEW_VIEW, ms[..n]).state, ms[n]) then [ms[n]] else [])
  }

  /** Refused messages might as well not have been sent, so every run is one in handshake order. */
  lemma {:induction false} RefusalsLeaveNoTrace(ms: seq<TsgMessage>)
    ensures InOrder(Accepted(ms)) && After(NEW_VIEW, ms) == After(NEW_VIEW, Accepted(ms)) == Expected(Accepted(ms))
  {
    if ms != [] {
      var front, m := ms[..|ms| - 1], ms[|ms| - 1];
      RefusalsLeaveNoTrace(front);
      var a := Accepted(front);
      OneMore(a, m);
      if Takes(After(NEW_VIEW, front).state, m) {
        ErrorFreeRuns(a + [m]);
      } else {
        assert Accepted(ms) == a + [] == a;
      }
    }
  }

  /** Over all runs: target and channel are known exactly in data transfer, and they are the channel's. */
  lemma {:induction false} TargetKnownInTransfer(ms: seq<TsgMessage>)
    ensures var v, a := After(NEW_VIEW, ms), Accepted(ms);
            && (v.state == DataTransfer <==> |a| >= 4)
            && (v.state == DataTransfer <==> v.targetHost.Some?)
            && (v.state == DataTransfer <==> v.targetPort.Some?)
            && (v.state == DataTransfer <==> v.channelId != 0)
            && (v.state == DataTransfer ==>
                  a[3].ChannelCreate? && v.targetHost == Some(a[3].serverName) && v.targetPort == Some(a[3].port))
            && v.state != Closed
  {
    RefusalsLeaveNoTrace(ms);
  }

  /** The success response to a request, every field of it: constants, the version asked for, the session's ids. */
  predicate Announces(a: TsgMessage, m: TsgMessage, after: View) {
    match m
    case HandshakeRequest(major, minor, _, _) => a == HandshakeResponse(0, major, minor, 0, 7)
    case TunnelCreate(_, _, _, _) => a == TunnelResponse(0, 0, 3, 0, Some(after.tunnelId), Some(13))
    case TunnelAuth(_, name) => a == TunnelAuthResponse(0, 3, 0, 0, None) && after.clientName == Some(name)
    case ChannelCreate(_, _, port, _, name) =>
      a == ChannelResponse(0, 1, 0, Some(after.channelId), None, None)
      && after.targetHost == Some(name) && after.targetPort == Some(port)
    case _ => false
  }

  lemma AnswerWritable(v: View, m: TsgMessage)
    requires Takes(v.state, m)
    ensures Answer(v, m).None? <==> m.Data?
    ensures Answer(v, m).Some? ==>
              && Writable(Answer(v, m).value) && TypeCode(Answer(v, m).value) == TypeCode(m) + 1
              && Announces(Answer(v, m).value, m, Step(v, m))
  {
  }

  lemma ReplyReads(a: TsgMessage, r: Reply)
    requires Writable(a) && r == Ok(Some(Write(a)))
    ensures ParseMessage(r.value.value) == Ok(a)
  {
    RoundTripExactly(a);
  }

  /**
   A message gets an error, its type code and the state, exactly when the state does not take it,
   no reply exactly when it is Data, and else a reply whose bytes parse to the response given field
   by field above, with the version asked for or the id the session has from then on.
   */
  lemma {:induction false} RepliesParse(v: View, m: TsgMessage, r: Reply)
    requires r == ReplyTo(v, m)
    ensures r.Ok? <==> Takes(v.state, m)
    ensures r.Err? ==> r.error == UnexpectedMessage(TypeCode(m), v.state)
    ensures r == Ok(None) <==> v.state == DataTransfer && m.Data?
    ensures r.Ok? && r.value.Some? ==>
              var a := ParseMessage(r.value.value);
              a.Ok? && TypeCode(a.value) == TypeCode(m) + 1 && Announces(a.value, m, Step(v, m))
  {
    if Takes(v.state, m) {
      AnswerWritable(v, m);
      if !m.Data? {
        ReplyReads(Answer(v, m).value, r);
      }
    }
  }
}
