/** The IN handler as a whole: CONN/B1 off the front of the body, CONN/C2, then the PDU loop. */
module InChannel {
  import opened Bytes
  import opened OutStreams
  import opened Wrappers
  import opened Rts
  import opened VirtualConnections
  import opened RpchHandlers
  import opened RpcStream
  import opened RpcStreamProofs
  import S = Session

  /** The first PDU of a body, or nothing if it ends too early, and what is buffered and still to come behind it. */
  function FirstPdu(body: seq<Frame>): (seq<u8>, seq<u8>, seq<Frame>) {
    var (b, f) := Fill([], body, 20);
    if |b| < 20 then ([], b, f)
    else
      var frag := U16At(b, 8);
      FillKeepsBytes(b, f, frag);
      var (b2, f2) := Fill(b, f, frag);
      if |b2| < frag then ([], b2, f2) else (b2[..frag], b2[frag..], f2)
  }

  /** CONN/B1 at the head of a body, and what is buffered and still to come behind it. */
  function Opening(body: seq<Frame>): Result<(ConnB1, seq<u8>, seq<Frame>), Status> {
    var (pdu, buf, frames) := FirstPdu(body);
    var b1 :- InRequest(pdu);
    Ok((b1, buf, frames))
  }

  /** Some of the first bytes received are a CONN/B1. */
  ghost predicate BeginsWithB1(bytes: seq<u8>, n: nat, b1: ConnB1) {
    n <= |bytes| && InRequest(bytes[..n]) == Ok(b1)
  }

  lemma B1Length(pdu: seq<u8>, more: seq<u8>)
    requires InRequest(pdu).Ok?
    ensures |pdu| >= 20 && U16At(pdu + more, 8) == |pdu|
  {
    assert (pdu + more)[8..10] == pdu[8..10];
  }

  lemma CutAt(b: seq<u8>, rest: seq<u8>, all: seq<u8>, n: nat)
    requires b + rest == all && n <= |b|
    ensures all[..n] == b[..n] && all[n..] == b[n..] + rest
  {
    Associate(b[..n], b[n..], rest);
    assert b == b[..n] + b[n..];
  }

  lemma ReadsFirst(body: seq<Frame>)
    ensures var (b, f) := Fill([], body, 20);
            b + Received(f) == Received(body) && (|b| < 20 ==> b == Received(body))
  {
    var (b, f) := Fill([], body, 20);
    FillKeepsBytes([], body, 20);
    assert [] + Received(body) == Received(body);
    assert b + [] == b;
  }

  lemma ReadsMore(b: seq<u8>, f: seq<Frame>, n: nat)
    ensures var (b2, f2) := Fill(b, f, n);
            b2 + Received(f2) == b + Received(f) && (|b2| < n ==> b2 == b + Received(f))
  {
    var (b2, f2) := Fill(b, f, n);
    FillKeepsBytes(b, f, n);
    assert b2 + [] == b2;
  }

  lemma LengthOf(b: seq<u8>, rest: seq<u8>, all: seq<u8>)
    requires |b| >= 20 && b + rest == all
    ensures U16At(b, 8) == U16At(all, 8)
  {
    assert all[8..10] == b[8..10];
  }

  /** The bytes before and behind a first PDU that is there. */
  lemma FirstPduOf(body: seq<Frame>, all: seq<u8>, n: nat)
    requires all == Received(body) && 20 <= n <= |all| && U16At(all, 8) == n
    ensures var (pdu, buf, frames) := FirstPdu(body);
            pdu == all[..n] && buf + Received(frames) == all[n..]
  {
    var (b, f) := Fill([], body, 20);
    ReadsFirst(body);
    LengthOf(b, Received(f), all);
    ReadsMore(b, f, n);
    var (b2, f2) := Fill(b, f, n);
    CutAt(b2, Received(f2), all, n);
  }

  lemma PduFromFront(body: seq<Frame>, all: seq<u8>)
    requires all == Received(body)
    ensures FirstPdu(body).0 <= all
  {
    var (b, f) := Fill([], body, 20);
    ReadsFirst(body);
    if |b| >= 20 {
      var n := U16At(b, 8);
      ReadsMore(b, f, n);
      var (b2, f2) := Fill(b, f, n);
      if |b2| >= n {
        CutAt(b2, Received(f2), all, n);
      }
    }
  }

  lemma OpensAt(body: seq<Frame>, all: seq<u8>, n: nat, b1: ConnB1)
    requires all == Received(body) && BeginsWithB1(all, n, b1)
    ensures Opening(body) == Ok((b1, FirstPdu(body).1, FirstPdu(body).2))
    ensures FirstPdu(body).1 + Received(FirstPdu(body).2) == all[n..]
  {
    B1Length(all[..n], all[n..]);
    assert all == all[..n] + all[n..];
    FirstPduOf(body, all, n);
  }

  lemma OpenedFrom(body: seq<Frame>, all: seq<u8>)
    requires all == Received(body) && Opening(body).Ok?
    ensures exists n: nat :: BeginsWithB1(all, n, Opening(body).value.0)
  {
    var pdu := FirstPdu(body).0;
    PduFromFront(body, all);
    assert all[..|pdu|] == pdu;
    assert BeginsWithB1(all, |pdu|, Opening(body).value.0);
  }

  /**
   However the body is cut into frames: the handler gets a CONN/B1 exactly if some first bytes of
   it are one, it gets that one, and the loop starts with all bytes behind it.
   */
  lemma {:induction false} OpeningExactly(body: seq<Frame>)
    ensures forall n: nat, b1: ConnB1 :: BeginsWithB1(Received(body), n, b1) ==>
              Opening(body) == Ok((b1, FirstPdu(body).1, FirstPdu(body).2))
              && FirstPdu(body).1 + Received(FirstPdu(body).2) == Received(body)[n..]
    ensures Opening(body).Ok? ==> exists n: nat :: BeginsWithB1(Received(body), n, Opening(body).value.0)
    ensures Opening(body).Err? ==> Opening(body).error == Status.BadRequest
  {
    forall n: nat, b1: ConnB1 | BeginsWithB1(Received(body), n, b1)
      ensures Opening(body) == Ok((b1, FirstPdu(body).1, FirstPdu(body).2))
      ensures FirstPdu(body).1 + Received(FirstPdu(body).2) == Received(body)[n..]
    {
      OpensAt(body, Received(body), n, b1);
    }
    RequestsExactly(FirstPdu(body).0);
    if Opening(body).Ok? {
      OpenedFrom(body, Received(body));
    }
  }

  /** Where the PDU loop starts once CONN/C2 is sent. */
  function Connected(v: VcView, c2: RtsPdu, sent: seq<seq<u8>>): RunState {
    RunState(false, v, S.NEW_VIEW, sent + [PduBytes(c2)])
  }

  /** The end of the handler: CONN/C2 and the loop. */
  method ServeChannel(out: OutStream<seq<u8>>, v: VcView, c2: RtsPdu, buf: seq<u8>, frames: seq<Frame>)
    returns (r: Result<(), Status>)
    modifies out
    ensures if |old(out.sent)| >= out.cap then r == Err(InternalServerError) && out.sent == old(out.sent)
            else
              var o := Run(Connected(v, c2, old(out.sent)), buf, frames, out.cap);
              && out.sent == o.st.sent
              && r == if o.error.None? then Ok(()) else Err(InternalServerError)
  {
    var vconn := new VirtualConnection.Moved(v);
    var ok := out.SendFrame(PduBytes(c2));
    if !ok {
      return Err(InternalServerError);
    }
    RunLeaves(Connected(v, c2, old(out.sent)), buf, frames, out.cap);
    var run := ProcessRpcPdusStreaming(buf, frames, out, vconn);
    r := if run.Ok? then Ok(()) else Err(InternalServerError);
  }

  /** `handle_in_channel`. */
  method HandleInChannel(shared: RpchState, body: seq<Frame>, outs: map<Sender, OutStream<seq<u8>>>)
    returns (r: Result<(), Status>)
    requires shared.Valid() && forall k :: k in shared.pending ==> shared.pending[k].sender in outs
    modifies shared, outs.Values
    ensures shared.Valid()
    ensures match Opening(body)
            case Err(e) =>
              r == Err(e) && shared.pending == old(shared.pending)
              && forall o :: o in outs.Values ==> o.sent == old(o.sent)
            case Ok((b1, buf, frames)) =>
              && shared.pending == old(shared.pending) - {b1.vcCookie}
              && if b1.vcCookie !in old(shared.pending) then
                   r == Err(Status.BadRequest) && forall o :: o in outs.Values ==> o.sent == old(o.sent)
                 else
                   var entry := old(shared.pending)[b1.vcCookie];
                   var out := outs[entry.sender];
                   && AcceptIn(entry.vconn, b1).Ok?
                   && (forall o :: o in outs.Values && o != out ==> o.sent == old(o.sent))
                   && if |old(out.sent)| >= out.cap then
                        r == Err(InternalServerError) && out.sent == old(out.sent)
                      else
                        var (v, c2) := AcceptIn(entry.vconn, b1).value;
                        var o := Run(Connected(v, c2, old(out.sent)), buf, frames, out.cap);
                        && out.sent == o.st.sent
                        && r == if o.error.None? then Ok(()) else Err(InternalServerError)
  {
    var buf, frames := FillBuffer([], body, 20);
    if |buf| < 20 {
      return Err(Status.BadRequest);
    }
    var frag := U16At(buf, 8);
    FillKeepsBytes(buf, frames, frag);
    buf, frames := FillBuffer(buf, frames, frag);
    if |buf| < frag || buf[2] != PTYPE_RTS {
      return Err(Status.BadRequest);
    }
    var connected := ConnectInChannel(shared, buf[..frag]);
    if connected.Err? {
      return Err(connected.error);
    }
    var (v, sender, c2) := connected.value;
    assert outs[sender] in outs.Values;
    r := ServeChannel(outs[sender], v, c2, buf[frag..], frames);
  }

  lemma MatchAccepts(a1: ConnA1, b1: ConnB1)
    requires a1.vcCookie == b1.vcCookie
    ensures var r := AcceptIn(OutConnection(a1), b1);
            r.Ok? && r.value.0.state == ConnectionEstablished && r.value.1 == ConnC2(a1.callId)
  {
  }

  lemma C2Reads(callId: u32)
    ensures ParsePdu(PduBytes(ConnC2(callId))) == Ok(ConnC2(callId))
  {
    SequencesReadBack(callId, seq(16, _ => 0), seq(16, _ => 0), seq(16, _ => 0));
  }

  lemma EstablishedOutput(v: VcView, c2: RtsPdu, buf: seq<u8>, frames: seq<Frame>, cap: nat)
    requires v.state == ConnectionEstablished
    ensures var o := Run(Connected(v, c2, []), buf, frames, cap);
            AllPdus(o.handled) && AckThenResponses([PduBytes(c2)], o)
  {
    var st0 := Connected(v, c2, []);
    assert st0.sent == [PduBytes(c2)];
    OutputOfRun(st0, buf, frames, cap);
  }

  /**
   An IN handler and the OUT handler it was matched with: CONN/B1 is accepted, what the OUT
   channel carries first reads back as CONN/C2 under the call id of CONN/A1, and then follow at
   most one bind_ack and the responses.
   */
  lemma {:induction false} OutChannelOfMatch(a1: ConnA1, b1: ConnB1, buf: seq<u8>, frames: seq<Frame>, cap: nat)
    requires a1.vcCookie == b1.vcCookie
    ensures AcceptIn(OutConnection(a1), b1).Ok?
    ensures var (v, c2) := AcceptIn(OutConnection(a1), b1).value;
            var o := Run(Connected(v, c2, []), buf, frames, cap);
            && ParsePdu(PduBytes(c2)) == Ok(ConnC2(a1.callId))
            && AllPdus(o.handled) && AckThenResponses([PduBytes(c2)], o)
  {
    MatchAccepts(a1, b1);
    var (v, c2) := AcceptIn(OutConnection(a1), b1).value;
    C2Reads(a1.callId);
    EstablishedOutput(v, c2, buf, frames, cap);
  }
}
