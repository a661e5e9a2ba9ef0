/**
 The IN channel after CONN/B1: a loop that cuts RPC PDUs out of a streamed body, drives the
 virtual connection and the session with them, and sends its answers on the OUT channel.
 */
module RpcStream {
  import opened Bytes
  import opened OutStreams
  import opened Wrappers
  import Rts
  import Rpc
  import V = VirtualConnections
  import S = Session
  import Opnums

  /** What the body yields: data, frames without data, or an error, which ends it like its end does. */
  datatype Frame = DataFrame(data: seq<u8>) | TrailersFrame | FailedFrame

  function DataOf(f: Frame): seq<u8> {
    match f case DataFrame(d) => d case _ => []
  }

  /** All bytes a body can still deliver. */
  function Received(frames: seq<Frame>): seq<u8> {
    if frames == [] || frames[0].FailedFrame? then [] else DataOf(frames[0]) + Received(frames[1..])
  }

  /** Reading on until `n` bytes are buffered or the body ends. */
  function Fill(buf: seq<u8>, frames: seq<Frame>, n: nat): (seq<u8>, seq<Frame>)
    decreases |frames|
  {
    if |buf| >= n || frames == [] || frames[0].FailedFrame? then (buf, frames)
    else Fill(buf + DataOf(frames[0]), frames[1..], n)
  }

  method FillBuffer(buf: seq<u8>, frames: seq<Frame>, n: nat) returns (b: seq<u8>, f: seq<Frame>)
    ensures (b, f) == Fill(buf, frames, n)
  {
    b, f := buf, frames;
    while |b| < n && f != [] && !f[0].FailedFrame?
      invariant Fill(b, f, n) == Fill(buf, frames, n)
      decreases |f|
    {
      b, f := b + DataOf(f[0]), f[1..];
    }
  }

  lemma FillKeepsBytes(buf: seq<u8>, frames: seq<Frame>, n: nat)
    ensures var (b, f) := Fill(buf, frames, n);
            && b + Received(f) == buf + Received(frames) && buf <= b
            && (|b| < n ==> Received(f) == [])
    decreases |frames|
  {
    if !(|buf| >= n || frames == [] || frames[0].FailedFrame?) {
      FillKeepsBytes(buf + DataOf(frames[0]), frames[1..], n);
      Associate(buf, DataOf(frames[0]), Received(frames[1..]));
    }
  }

  // ---------- One PDU ----------

  datatype RunState = RunState(bound: bool, vconn: V.VcView, session: S.View, sent: seq<seq<u8>>)

  datatype RunError =
    | EndedInHeader
    | EndedInPdu
    | BadHeader(header: Rpc.RpcError)
    | BadBind(bind: Rpc.RpcError)
    | NotTsg
    | BadTransition(transition: Rts.RpchError)
    | BadRequest(request: Rpc.RpcError)
    | SessionFailed(session: S.SessionError)
    | OutClosed

  predicate IsTsgBind(b: Rpc.BindPdu) {
    b.abstractSyntax == Rpc.TSG_SYNTAX && b.transferSyntax == Rpc.NDR_SYNTAX
  }

  const SEC_ADDR: seq<u8> := [0]

  function AckFor(b: Rpc.BindPdu): seq<u8> {
    Rpc.EncodeAck(Rpc.Accepted(b.header.callId, b.assocGroupId, SEC_ADDR))
  }

  function ResponseFor(r: Rpc.RequestPdu, stub: seq<u8>): seq<u8> {
    Rpc.EncodeResponse(Rpc.NewResponse(r.header.callId, r.contextId, stub))
  }

  /** The OUT channel takes `cap` frames in all before its receiver is gone. */
  function Send(st: RunState, bytes: seq<u8>, cap: nat): Result<RunState, RunError> {
    if |st.sent| < cap then Ok(st.(sent := st.sent + [bytes])) else Err(OutClosed)
  }

  function HandleBind(st: RunState, pdu: seq<u8>, cap: nat): Result<RunState, RunError> {
    match Rpc.ParseBind(pdu)
    case Err(e) => Err(BadBind(e))
    case Ok(bind) =>
      if !IsTsgBind(bind) then Err(NotTsg)
      else
        match V.EnterDataTransfer(st.vconn)
        case Err(e) => Err(BadTransition(e))
        case Ok(v) => Send(st.(bound := true, vconn := v), AckFor(bind), cap)
  }

  function HandleRequest(st: RunState, pdu: seq<u8>, cap: nat): Result<RunState, RunError> {
    match Rpc.ParseRequest(pdu)
    case Err(e) => Err(BadRequest(e))
    case Ok(request) =>
      match Opnums.ServeOpnum(request.opnum, st.session)
      case Err(e) => Err(SessionFailed(e))
      case Ok((session, stub)) => Send(st.(session := session), ResponseFor(request, stub), cap)
  }

  /** Other PDU types, and requests before the bind, are passed over. */
  function Handle(st: RunState, ptype: Rpc.RpcPduType, pdu: seq<u8>, cap: nat): Result<RunState, RunError> {
    if ptype == Rpc.Bind then HandleBind(st, pdu, cap)
    else if ptype == Rpc.Request && st.bound then HandleRequest(st, pdu, cap)
    else Ok(st)
  }

  /** How a PDU that could not be handled leaves things: as they were, but for a step that only its reply undid. */
  function Left(st: RunState, ptype: Rpc.RpcPduType, pdu: seq<u8>, cap: nat): RunState
    requires Handle(st, ptype, pdu, cap).Err?
  {
    if Handle(st, ptype, pdu, cap).error != OutClosed then st
    else if ptype == Rpc.Bind then st.(vconn := V.EnterDataTransfer(st.vconn).value)
    else st.(session := Opnums.ServeOpnum(Rpc.ParseRequest(pdu).value.opnum, st.session).value.0)
  }

  // ---------- The loop ----------

  /**
   A run: the state at its last loop head, the PDUs handled up to there, its error if any, and
   the state it leaves, which differs from the former when a reply could not be sent.
   */
  datatype Outcome = Outcome(st: RunState, handled: seq<seq<u8>>, error: Option<RunError>, left: RunState)

  function Run(st: RunState, buf: seq<u8>, frames: seq<Frame>, cap: nat): Outcome
    decreases |buf + Received(frames)|
  {
    FillKeepsBytes(buf, frames, Rpc.RPC_HEADER_SIZE);
    var (b, f) := Fill(buf, frames, Rpc.RPC_HEADER_SIZE);
    if |b| < Rpc.RPC_HEADER_SIZE then Outcome(st, [], if b == [] then None else Some(EndedInHeader), st)
    else
      match Rpc.ParseHeader(b)
      case Err(e) => Outcome(st, [], Some(BadHeader(e)), st)
      case Ok(header) =>
        var frag := header.fragLength;
        var (b2, f2) := Fill(b, f, frag);
        if |b2| < frag then Outcome(st, [], Some(EndedInPdu), st)
        else
          Rpc.HeaderOfFragment(b, []);
          match Handle(st, header.ptype, b2[..frag], cap)
          case Err(e) => Outcome(st, [], Some(e), Left(st, header.ptype, b2[..frag], cap))
          case Ok(next) =>
            var rest := Run(next, b2[frag..], f2, cap);
            rest.(handled := [b2[..frag]] + rest.handled)
  }

  /** What is left of a run, put behind what it has already handled. */
  function Behind(done: seq<seq<u8>>, o: Outcome): Outcome {
    o.(handled := done + o.handled)
  }

  lemma BehindTwice(done: seq<seq<u8>>, pdu: seq<u8>, o: Outcome)
    ensures Behind(done, Behind([pdu], o)) == Behind(done + [pdu], o)
  {
    assert done + ([pdu] + o.handled) == done + [pdu] + o.handled;
  }

  /** One turn of the loop that handles a PDU. */
  lemma RunTurns(st: RunState, buf: seq<u8>, frames: seq<Frame>, cap: nat, b: seq<u8>, f: seq<Frame>,
                 h: Rpc.RpcPduHeader, next: RunState)
    requires Fill(buf, frames, 16) == (b, f) && Rpc.ParseHeader(b) == Ok(h)
    requires h.fragLength <= |b| && Handle(st, h.ptype, b[..h.fragLength], cap) == Ok(next)
    ensures Run(st, buf, frames, cap) == Behind([b[..h.fragLength]], Run(next, b[h.fragLength..], f, cap))
  {
  }

  lemma HeaderHasPdu(b: seq<u8>, f: seq<Frame>, h: Rpc.RpcPduHeader)
    requires Rpc.ParseHeader(b) == Ok(h)
    ensures 16 <= h.fragLength <= |b| && Fill(b, f, h.fragLength) == (b, f)
  {
  }

  /** `process_rpc_pdus_streaming`. */
  method ProcessRpcPdusStreaming(input: seq<u8>, body: seq<Frame>, out: OutStream<seq<u8>>, vconn: V.VirtualConnection)
    returns (r: Result<(), RunError>)
    modifies out, vconn
    ensures var o := Run(RunState(false, old(vconn.Now()), S.NEW_VIEW, old(out.sent)), input, body, out.cap);
            && out.sent == o.left.sent && vconn.Now() == o.left.vconn
            && r == match o.error case None => Ok(()) case Some(e) => Err(e)
  {
    var session := new S.GatewaySession();
    var bound := false;
    var buf, frames := input, body;
    ghost var whole := Run(RunState(false, vconn.Now(), S.NEW_VIEW, out.sent), input, body, out.cap);
    ghost var done: seq<seq<u8>> := [];
    while true
      invariant Behind(done, Run(RunState(bound, vconn.Now(), session.Now(), out.sent), buf, frames, out.cap)) == whole
      decreases |buf + Received(frames)|
    {
      ghost var st := RunState(bound, vconn.Now(), session.Now(), out.sent);
      ghost var b0, f0 := buf, frames;
      FillKeepsBytes(buf, frames, Rpc.RPC_HEADER_SIZE);
      buf, frames := FillBuffer(buf, frames, Rpc.RPC_HEADER_SIZE);
      if |buf| < Rpc.RPC_HEADER_SIZE {
        if buf == [] {
          return Ok(());
        }
        return Err(EndedInHeader);
      }
      var parsed := Rpc.ParseHeader(buf);
      if parsed.Err? {
        return Err(BadHeader(parsed.error));
      }
      var frag := parsed.value.fragLength;
      HeaderHasPdu(buf, frames, parsed.value);
      buf, frames := FillBuffer(buf, frames, frag);
      if |buf| < frag {
        return Err(EndedInPdu);
      }
      ghost var b1 := buf;
      var pdu := buf[..frag];
      buf := buf[frag..];
      var step := HandlePdu(parsed.value.ptype, pdu, bound, session, out, vconn);
      if step.Err? {
        return Err(step.error);
      }
      bound := step.value;
      ghost var next := RunState(bound, vconn.Now(), session.Now(), out.sent);
      RunTurns(st, b0, f0, out.cap, b1, frames, parsed.value, next);
      BehindTwice(done, pdu, Run(next, buf, frames, out.cap));
      done := done + [pdu];
    }
  }

  /** The body of the loop once a PDU is cut out; the result is the new value of `bound`. */
  method HandlePdu(ptype: Rpc.RpcPduType, pdu: seq<u8>, bound: bool, session: S.GatewaySession, out: OutStream<seq<u8>>,
                   vconn: V.VirtualConnection)
    returns (r: Result<bool, RunError>)
    modifies session, out, vconn
    ensures match Handle(RunState(bound, old(vconn.Now()), old(session.Now()), old(out.sent)), ptype, pdu, out.cap)
            case Ok(st) => r == Ok(st.bound) && st == RunState(st.bound, vconn.Now(), session.Now(), out.sent)
            case Err(e) =>
              && r == Err(e)
              && RunState(bound, vconn.Now(), session.Now(), out.sent)
                 == Left(RunState(bound, old(vconn.Now()), old(session.Now()), old(out.sent)), ptype, pdu, out.cap)
  {
    if ptype == Rpc.Bind {
      var bind := Rpc.BindParse(pdu);
      if bind.Err? {
        return Err(BadBind(bind.error));
      }
      if !IsTsgBind(bind.value) {
        return Err(NotTsg);
      }
      var entered := vconn.EnterDataTransferState();
      if entered.Err? {
        return Err(BadTransition(entered.error));
      }
      var ok := out.SendFrame(AckFor(bind.value));
      if !ok {
        return Err(OutClosed);
      }
      return Ok(true);
    } else if ptype == Rpc.Request && bound {
      var request := Rpc.ParseRequest(pdu);
      if request.Err? {
        return Err(BadRequest(request.error));
      }
      var stub := Opnums.ProcessTsgOpnum(request.value.opnum, session);
      if stub.Err? {
        return Err(SessionFailed(stub.error));
      }
      var ok := out.SendFrame(ResponseFor(request.value, stub.value));
      if !ok {
        return Err(OutClosed);
      }
      return Ok(bound);
    }
    r := Ok(bound);
  }
}
