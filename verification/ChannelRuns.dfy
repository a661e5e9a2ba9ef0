/**
 Every interleaving of OUT and IN handlers, the PDU loops of the IN handlers included: what the
 OUT streams carry, and that each loop comes to what a run of its own body does.
 */
module ChannelRuns {
  import opened Bytes
  import opened Wrappers
  import opened Rts
  import opened VirtualConnections
  import opened RpcStream
  import opened RpcStreamProofs
  import H = RpchHandlers
  import InChannel
  import Rpc
  import S = Session

  /** Whether a loop goes on, or how it has ended: without error or with one. */
  datatype Ending = Running | Ended(error: Option<RunError>)

  /**
   A connected IN handler: the OUT stream would not take its CONN/C2, or it is in its loop, at the
   head of the next turn, or has left it. `done` are the PDUs it has handled.
   */
  datatype Serving =
    | Refused
    | Looping(bound: bool, vconn: VcView, session: S.View, buf: seq<u8>, frames: seq<Frame>,
              done: seq<seq<u8>>, ending: Ending)

  /** `bodies` are the request bodies of the IN handlers. */
  datatype System = System(handlers: H.System, bodies: map<nat, seq<Frame>>, serving: map<nat, Serving>,
                           streams: map<H.Sender, seq<seq<u8>>>)

  const INITIAL := System(H.INITIAL, map[], map[], map[])

  /** What has been sent on an OUT stream. */
  function StreamOf(s: System, sender: H.Sender): seq<seq<u8>> {
    if sender in s.streams then s.streams[sender] else []
  }

  /** The request body of an IN handler. */
  function BodyOf(s: System, id: nat): seq<Frame> {
    if id in s.bodies then s.bodies[id] else []
  }

  /**
   An IN request with its body, another step up to the connection, the sending of CONN/C2, or one
   turn of a loop; sends may fail.
   */
  datatype Action =
    | Arrives(id: nat, body: seq<Frame>)
    | Handles(a: H.Action)
    | SendsC2(id: nat, taken: bool)
    | Turns(id: nat, taken: bool)

  predicate Connected(s: System, id: nat) {
    id in s.handlers.ins && s.handlers.ins[id].InConnected?
  }

  predicate Enabled(s: System, a: Action) {
    match a
    case Arrives(id, _) => id !in s.handlers.ins
    case Handles(h) => !h.InArrives? && H.Enabled(s.handlers, h)
    case SendsC2(id, _) => Connected(s, id) && id !in s.serving
    case Turns(id, _) => Connected(s, id) && id in s.serving && s.serving[id].Looping? && s.serving[id].ending.Running?
  }

  /** The state of a loop at its head, the stream being where its output is. */
  function HeadOf(l: Serving, sent: seq<seq<u8>>): RunState
    requires l.Looping?
  {
    RunState(l.bound, l.vconn, l.session, sent)
  }

  /** One turn of the loop on a stream that takes one frame more, or none. */
  function AfterTurn(l: Serving, sent: seq<seq<u8>>, taken: bool): (Serving, seq<seq<u8>>)
    requires l.Looping?
  {
    var (b, f) := Fill(l.buf, l.frames, Rpc.RPC_HEADER_SIZE);
    if |b| < Rpc.RPC_HEADER_SIZE then (l.(ending := Ended(if b == [] then None else Some(EndedInHeader))), sent)
    else
      match Rpc.ParseHeader(b)
      case Err(e) => (l.(ending := Ended(Some(BadHeader(e)))), sent)
      case Ok(h) =>
        HeaderHasPdu(b, f, h);
        var pdu := b[..h.fragLength];
        match Handle(HeadOf(l, sent), h.ptype, pdu, if taken then |sent| + 1 else |sent|)
        case Err(e) => (l.(ending := Ended(Some(e))), sent)
        case Ok(next) =>
          (Looping(next.bound, next.vconn, next.session, b[h.fragLength..], f, l.done + [pdu], Running), next.sent)
  }

  /** The loop of a handler whose CONN/C2 has been sent. */
  function Started(h: H.InHandler, body: seq<Frame>): Serving
    requires h.InConnected?
  {
    var (_, buf, frames) := InChannel.FirstPdu(body);
    Looping(false, h.vconn, S.NEW_VIEW, buf, frames, [], Running)
  }

  function Apply(s: System, a: Action): System
    requires Enabled(s, a)
  {
    match a
    case Arrives(id, body) =>
      s.(handlers := H.Apply(s.handlers, H.InArrives(id, InChannel.FirstPdu(body).0)), bodies := s.bodies[id := body])
    case Handles(h) => s.(handlers := H.Apply(s.handlers, h))
    case SendsC2(id, taken) =>
      var h := s.handlers.ins[id];
      if !taken then s.(serving := s.serving[id := Refused])
      else
        s.(serving := s.serving[id := Started(h, BodyOf(s, id))],
           streams := s.streams[h.sender := StreamOf(s, h.sender) + [PduBytes(h.c2)]])
    case Turns(id, taken) =>
      var sender := s.handlers.ins[id].sender;
      var (l, sent) := AfterTurn(s.serving[id], StreamOf(s, sender), taken);
      s.(serving := s.serving[id := l], streams := s.streams[sender := sent])
  }

  /** The states a run passes through when its actions are taken in order. */
  ghost predicate IsRun(states: seq<System>, actions: seq<Action>) {
    && |states| == |actions| + 1 && states[0] == INITIAL
    && forall i :: 0 <= i < |actions| ==> Enabled(states[i], actions[i]) && states[i + 1] == Apply(states[i], actions[i])
  }

  // ---------- What every step keeps ----------

  /** Handler `id` is the one that has sent on this stream. */
  predicate Owns(s: System, id: nat, sender: H.Sender) {
    Connected(s, id) && id in s.serving && s.serving[id].Looping? && s.handlers.ins[id].sender == sender
  }

  /** What the loop of this handler comes to, run on its own over a stream that takes `cap` frames. */
  function RunOn(h: H.InHandler, body: seq<Frame>, cap: nat): Outcome
    requires h.InConnected?
  {
    var (_, buf, frames) := InChannel.FirstPdu(body);
    Run(InChannel.Connected(h.vconn, h.c2, []), buf, frames, cap)
  }

  /**
   A loop still running is on the way of every run over a stream that takes at least what was sent.
   An ended one has ended as the run does over the stream that takes just what was sent; if the
   stream was not the reason, as it does over every larger one too.
   */
  ghost predicate OnRun(h: H.InHandler, body: seq<Frame>, l: Serving, sent: seq<seq<u8>>)
    requires h.InConnected? && l.Looping?
  {
    match l.ending
    case Running =>
      forall cap: nat | cap >= |sent| ::
        RunOn(h, body, cap) == Behind(l.done, Run(HeadOf(l, sent), l.buf, l.frames, cap))
    case Ended(error) =>
      forall cap: nat | cap == |sent| || (cap > |sent| && error != Some(OutClosed)) ::
        var o := RunOn(h, body, cap); o.st == HeadOf(l, sent) && o.handled == l.done && o.error == error
  }

  /** What a loop has sent is what its PDUs ask for, behind CONN/C2, and it is where its run would be. */
  ghost predicate LoopOk(h: H.InHandler, body: seq<Frame>, l: Serving, sent: seq<seq<u8>>)
    requires h.InConnected? && l.Looping?
  {
    && AllPdus(l.done) && Shape(InChannel.Connected(h.vconn, h.c2, []), l.done, HeadOf(l, sent))
    && OnRun(h, body, l, sent)
  }

  ghost predicate LoopsOk(s: System) {
    forall id :: id in s.serving ==>
      && Connected(s, id)
      && (s.serving[id].Looping? ==>
            LoopOk(s.handlers.ins[id], BodyOf(s, id), s.serving[id], StreamOf(s, s.handlers.ins[id].sender)))
  }

  /** An IN handler works on the first PDU of its own body. */
  predicate BodyOk(body: seq<Frame>, h: H.InHandler) {
    match h
    case InReceived(pdu) => pdu == InChannel.FirstPdu(body).0
    case InFailed(_) => true
    case _ => H.InRequest(InChannel.FirstPdu(body).0) == Ok(h.b1)
  }

  ghost predicate BodiesOk(s: System) {
    forall id :: id in s.handlers.ins ==> BodyOk(BodyOf(s, id), s.handlers.ins[id])
  }

  ghost predicate StreamsOwned(s: System) {
    forall sender :: StreamOf(s, sender) != [] ==> exists id :: Owns(s, id, sender)
  }

  ghost predicate Invariant(s: System) {
    H.Invariant(s.handlers) && BodiesOk(s) && LoopsOk(s) && StreamsOwned(s)
  }

  lemma SendersApart(s: System, id: nat, jd: nat)
    requires H.Invariant(s.handlers) && Connected(s, id) && Connected(s, jd)
    requires s.handlers.ins[id].sender == s.handlers.ins[jd].sender
    ensures id == jd
  {
    assert H.Held(s.handlers.ins[id]) == H.Held(s.handlers.ins[jd]);
  }

  lemma ConnectedStays(s: H.System, a: H.Action, id: nat)
    requires H.Enabled(s, a) && id in s.ins && s.ins[id].InConnected?
    ensures id in H.Apply(s, a).ins && H.Apply(s, a).ins[id] == s.ins[id]
  {
  }

  /** From `s` to `t` connected handlers, their bodies, loops and streams stay as they are. */
  ghost predicate ServingStays(s: System, t: System) {
    && t.serving == s.serving && t.streams == s.streams
    && forall id :: Connected(s, id) ==>
         Connected(t, id) && t.handlers.ins[id] == s.handlers.ins[id] && BodyOf(t, id) == BodyOf(s, id)
  }

  lemma LoopsStay(s: System, t: System)
    requires LoopsOk(s) && ServingStays(s, t)
    ensures LoopsOk(t)
  {
    forall id | id in t.serving
      ensures Connected(t, id) && StreamOf(t, t.handlers.ins[id].sender) == StreamOf(s, s.handlers.ins[id].sender)
    {
      assert Connected(s, id);
    }
  }

  lemma OwnersStay(s: System, t: System)
    requires StreamsOwned(s) && ServingStays(s, t)
    ensures StreamsOwned(t)
  {
    forall sender | StreamOf(t, sender) != []
      ensures exists id :: Owns(t, id, sender)
    {
      assert StreamOf(s, sender) != [];
      var id :| Owns(s, id, sender);
      assert Owns(t, id, sender);
    }
  }

  lemma BodiesStay(s: System, a: H.Action)
    requires BodiesOk(s) && !a.InArrives? && H.Enabled(s.handlers, a)
    ensures BodiesOk(s.(handlers := H.Apply(s.handlers, a)))
  {
  }

  lemma HandlingStays(s: System, a: H.Action)
    requires !a.InArrives? && H.Enabled(s.handlers, a)
    ensures ServingStays(s, s.(handlers := H.Apply(s.handlers, a)))
  {
    var t := s.(handlers := H.Apply(s.handlers, a));
    forall id | Connected(s, id)
      ensures Connected(t, id) && t.handlers.ins[id] == s.handlers.ins[id]
    {
      ConnectedStays(s.handlers, a, id);
    }
  }

  lemma HandlingKeeps(s: System, a: H.Action)
    requires Invariant(s) && !a.InArrives? && H.Enabled(s.handlers, a)
    ensures Invariant(Apply(s, Handles(a)))
  {
    var t := s.(handlers := H.Apply(s.handlers, a));
    H.StepKeepsInvariant(s.handlers, a);
    BodiesStay(s, a);
    HandlingStays(s, a);
    LoopsStay(s, t);
    OwnersStay(s, t);
  }

  lemma ArrivalStays(s: System, id: nat, body: seq<Frame>, pdu: seq<u8>)
    requires BodiesOk(s) && LoopsOk(s) && StreamsOwned(s) && id !in s.handlers.ins
    requires pdu == InChannel.FirstPdu(body).0
    ensures var t := s.(handlers := H.Apply(s.handlers, H.InArrives(id, pdu)), bodies := s.bodies[id := body]);
            BodiesOk(t) && LoopsOk(t) && StreamsOwned(t)
  {
    var t := s.(handlers := H.Apply(s.handlers, H.InArrives(id, pdu)), bodies := s.bodies[id := body]);
    forall jd | jd in s.handlers.ins
      ensures jd in t.handlers.ins && t.handlers.ins[jd] == s.handlers.ins[jd] && BodyOf(t, jd) == BodyOf(s, jd)
    {
    }
    LoopsStay(s, t);
    OwnersStay(s, t);
  }

  lemma ArrivalKeeps(s: System, id: nat, body: seq<Frame>)
    requires Invariant(s) && id !in s.handlers.ins
    ensures Invariant(Apply(s, Arrives(id, body)))
  {
    var pdu := InChannel.FirstPdu(body).0;
    H.StepKeepsInvariant(s.handlers, H.InArrives(id, pdu));
    ArrivalStays(s, id, body, pdu);
  }

  lemma NoStreamYet(s: System, id: nat)
    requires Invariant(s) && Connected(s, id) && id !in s.serving
    ensures StreamOf(s, s.handlers.ins[id].sender) == []
  {
    var sender := s.handlers.ins[id].sender;
    if StreamOf(s, sender) != [] {
      var jd :| Owns(s, jd, sender);
      SendersApart(s, id, jd);
    }
  }

  lemma FirstLoop(s: System, id: nat)
    requires H.Invariant(s.handlers) && Connected(s, id)
    ensures var h := s.handlers.ins[id];
            LoopOk(h, BodyOf(s, id), Started(h, BodyOf(s, id)), [PduBytes(h.c2)])
  {
    var h, l := s.handlers.ins[id], Started(s.handlers.ins[id], BodyOf(s, id));
    assert H.InOk(s.handlers, h);
    ShapeAtStart(InChannel.Connected(h.vconn, h.c2, []));
    assert [] + [PduBytes(h.c2)] == [PduBytes(h.c2)];
    forall cap: nat | cap >= 1
      ensures RunOn(h, BodyOf(s, id), cap) == Behind([], Run(HeadOf(l, [PduBytes(h.c2)]), l.buf, l.frames, cap))
    {
      BehindNothing(RunOn(h, BodyOf(s, id), cap));
    }
  }

  lemma BehindNothing(o: Outcome)
    ensures Behind([], o) == o
  {
    assert [] + o.handled == o.handled;
  }

  /** From `s` to `t` only handler `id` has changed its loop, and only its stream has changed. */
  ghost predicate OnlyOwn(s: System, t: System, id: nat)
    requires Connected(s, id)
  {
    && t.handlers == s.handlers && t.bodies == s.bodies
    && (forall jd :: jd in t.serving <==> jd in s.serving || jd == id)
    && (forall jd :: jd in s.serving && jd != id ==> t.serving[jd] == s.serving[jd])
    && forall sender :: sender != s.handlers.ins[id].sender ==> StreamOf(t, sender) == StreamOf(s, sender)
  }

  /** A handler's loop and stream are as before unless it is `id`. */
  lemma OtherStays(s: System, t: System, id: nat, jd: nat)
    requires H.Invariant(s.handlers) && LoopsOk(s) && Connected(s, id) && OnlyOwn(s, t, id)
    requires jd in t.serving && jd != id
    ensures jd in s.serving && Connected(s, jd) && t.serving[jd] == s.serving[jd]
    ensures BodyOf(t, jd) == BodyOf(s, jd)
    ensures StreamOf(t, t.handlers.ins[jd].sender) == StreamOf(s, s.handlers.ins[jd].sender)
  {
    if s.handlers.ins[jd].sender == s.handlers.ins[id].sender {
      SendersApart(s, id, jd);
    }
  }

  lemma OthersLoop(s: System, t: System, id: nat)
    requires H.Invariant(s.handlers) && LoopsOk(s) && Connected(s, id) && OnlyOwn(s, t, id)
    requires t.serving[id].Looping? ==>
               LoopOk(s.handlers.ins[id], BodyOf(s, id), t.serving[id], StreamOf(t, s.handlers.ins[id].sender))
    ensures LoopsOk(t)
  {
    forall jd | jd in t.serving
      ensures Connected(t, jd)
      ensures t.serving[jd].Looping? ==>
                LoopOk(t.handlers.ins[jd], BodyOf(t, jd), t.serving[jd], StreamOf(t, t.handlers.ins[jd].sender))
    {
      if jd != id {
        OtherStays(s, t, id, jd);
      }
    }
  }

  lemma OthersOwn(s: System, t: System, id: nat)
    requires H.Invariant(s.handlers) && StreamsOwned(s) && Connected(s, id) && OnlyOwn(s, t, id)
    requires StreamOf(t, s.handlers.ins[id].sender) != [] ==> t.serving[id].Looping?
    ensures StreamsOwned(t)
  {
    forall sender | StreamOf(t, sender) != []
      ensures exists jd :: Owns(t, jd, sender)
    {
      if sender == t.handlers.ins[id].sender {
        assert Owns(t, id, sender);
      } else {
        var jd :| Owns(s, jd, sender);
        assert Owns(t, jd, sender);
      }
    }
  }

  /** A handler that changes its own loop and stream leaves the other handlers' alone. */
  lemma OthersKeep(s: System, t: System, id: nat)
    requires Invariant(s) && Connected(s, id) && OnlyOwn(s, t, id)
    requires t.serving[id].Looping? ==>
               LoopOk(s.handlers.ins[id], BodyOf(s, id), t.serving[id], StreamOf(t, s.handlers.ins[id].sender))
    requires StreamOf(t, s.handlers.ins[id].sender) != [] ==> t.serving[id].Looping?
    ensures Invariant(t)
  {
    OthersLoop(s, t, id);
    OthersOwn(s, t, id);
  }

  lemma RefusalIsOwn(s: System, t: System, id: nat)
    requires Connected(s, id) && t == s.(serving := s.serving[id := Refused])
    ensures OnlyOwn(s, t, id) && StreamOf(t, s.handlers.ins[id].sender) == StreamOf(s, s.handlers.ins[id].sender)
  {
  }

  lemma StartIsOwn(s: System, t: System, id: nat, l: Serving, sent: seq<seq<u8>>)
    requires Connected(s, id) && id !in s.serving
    requires t == s.(serving := s.serving[id := l], streams := s.streams[s.handlers.ins[id].sender := sent])
    ensures OnlyOwn(s, t, id) && t.serving[id] == l && StreamOf(t, s.handlers.ins[id].sender) == sent
  {
  }

  lemma SendingC2Keeps(s: System, id: nat, taken: bool)
    requires Invariant(s) && Enabled(s, SendsC2(id, taken))
    ensures Invariant(Apply(s, SendsC2(id, taken)))
  {
    NoStreamYet(s, id);
    var h, t := s.handlers.ins[id], Apply(s, SendsC2(id, taken));
    if taken {
      FirstLoop(s, id);
      assert [] + [PduBytes(h.c2)] == [PduBytes(h.c2)];
      StartIsOwn(s, t, id, Started(h, BodyOf(s, id)), [PduBytes(h.c2)]);
    } else {
      RefusalIsOwn(s, t, id);
    }
    OthersKeep(s, t, id);
  }

  /** What was handled with room for one answer is handled alike with any room its answer fits in. */
  lemma SameForMoreRoom(st: RunState, ptype: Rpc.RpcPduType, pdu: seq<u8>, cap: nat, cap': nat)
    requires Handle(st, ptype, pdu, cap).Ok? && |Handle(st, ptype, pdu, cap).value.sent| <= cap'
    ensures Handle(st, ptype, pdu, cap') == Handle(st, ptype, pdu, cap)
    ensures |st.sent| <= |Handle(st, ptype, pdu, cap).value.sent|
  {
  }

  /** What was refused is refused alike where the stream was not the reason, or takes no more than before. */
  lemma SameForLessRoom(st: RunState, ptype: Rpc.RpcPduType, pdu: seq<u8>, cap: nat, cap': nat)
    requires cap <= |st.sent| + 1 && Handle(st, ptype, pdu, cap).Err? && cap' >= |st.sent|
    requires Handle(st, ptype, pdu, cap).error != OutClosed || cap' == |st.sent|
    ensures Handle(st, ptype, pdu, cap').Err? && Handle(st, ptype, pdu, cap').error == Handle(st, ptype, pdu, cap).error
  {
  }

  /** A turn that does not come to handle a PDU ends the run over any stream, as it ends the loop. */
  lemma LastTurn(l: Serving, sent: seq<seq<u8>>, taken: bool, cap: nat)
    requires l.Looping? && AfterTurn(l, sent, taken).0.ending.Ended? && cap >= |sent|
    requires AfterTurn(l, sent, taken).0.ending.error != Some(OutClosed) || cap == |sent|
    ensures var o := Run(HeadOf(l, sent), l.buf, l.frames, cap);
            && o.st == HeadOf(l, sent) && o.handled == []
            && AfterTurn(l, sent, taken) == (l.(ending := Ended(o.error)), sent)
  {
    var (b, f) := Fill(l.buf, l.frames, Rpc.RPC_HEADER_SIZE);
    SecondWaitIsIdle(HeadOf(l, sent), l.buf, l.frames, cap);
    if |b| >= 16 && Rpc.ParseHeader(b).Ok? {
      var h := Rpc.ParseHeader(b).value;
      HeaderHasPdu(b, f, h);
      SameForLessRoom(HeadOf(l, sent), h.ptype, b[..h.fragLength], if taken then |sent| + 1 else |sent|, cap);
    }
  }

  /** A turn that handles a PDU is a turn of the run over any stream that takes what is sent now. */
  lemma NextTurn(l: Serving, sent: seq<seq<u8>>, taken: bool, cap: nat)
    requires l.Looping? && AfterTurn(l, sent, taken).0.ending.Running? && cap >= |AfterTurn(l, sent, taken).1|
    ensures var (m, now) := AfterTurn(l, sent, taken);
            && |sent| <= |now|
            && Behind(l.done, Run(HeadOf(l, sent), l.buf, l.frames, cap))
               == Behind(m.done, Run(HeadOf(m, now), m.buf, m.frames, cap))
  {
    var (b, f) := Fill(l.buf, l.frames, Rpc.RPC_HEADER_SIZE);
    var h := Rpc.ParseHeader(b).value;
    var (m, now) := AfterTurn(l, sent, taken);
    HeaderHasPdu(b, f, h);
    var pdu := b[..h.fragLength];
    SameForMoreRoom(HeadOf(l, sent), h.ptype, pdu, if taken then |sent| + 1 else |sent|, cap);
    RunTurns(HeadOf(l, sent), l.buf, l.frames, cap, b, f, h, HeadOf(m, now));
    BehindTwice(l.done, pdu, Run(HeadOf(m, now), m.buf, m.frames, cap));
  }

  lemma TurnKeepsRun(h: H.InHandler, body: seq<Frame>, l: Serving, sent: seq<seq<u8>>, taken: bool)
    requires h.InConnected? && l.Looping? && l.ending.Running? && OnRun(h, body, l, sent)
    ensures var (m, now) := AfterTurn(l, sent, taken);
            m.Looping? && OnRun(h, body, m, now)
  {
    var (m, now) := AfterTurn(l, sent, taken);
    match m.ending
    case Running =>
      forall cap: nat | cap >= |now|
        ensures RunOn(h, body, cap) == Behind(m.done, Run(HeadOf(m, now), m.buf, m.frames, cap))
      {
        NextTurn(l, sent, taken, cap);
      }
    case Ended(error) =>
      forall cap: nat | cap == |now| || (cap > |now| && error != Some(OutClosed))
        ensures var o := RunOn(h, body, cap);
                o.st == HeadOf(m, now) && o.handled == m.done && o.error == error
      {
        LastTurn(l, sent, taken, |sent|);
        LastTurn(l, sent, taken, cap);
        assert l.done + [] == l.done;
      }
  }

  lemma TurnKeepsLoop(h: H.InHandler, body: seq<Frame>, l: Serving, sent: seq<seq<u8>>, taken: bool)
    requires h.InConnected? && l.Looping? && l.ending.Running? && LoopOk(h, body, l, sent)
    ensures var (m, now) := AfterTurn(l, sent, taken);
            m.Looping? && LoopOk(h, body, m, now)
  {
    TurnKeepsRun(h, body, l, sent, taken);
    var (b, f) := Fill(l.buf, l.frames, Rpc.RPC_HEADER_SIZE);
    if Rpc.ParseHeader(b).Ok? {
      var hd := Rpc.ParseHeader(b).value;
      CutPdu(b);
      var pdu := b[..hd.fragLength];
      var cap := if taken then |sent| + 1 else |sent|;
      var step := Handle(HeadOf(l, sent), hd.ptype, pdu, cap);
      if step.Ok? {
        ShapeStep(InChannel.Connected(h.vconn, h.c2, []), l.done, pdu, HeadOf(l, sent), cap, step.value);
      }
    }
  }

  lemma TurnIsOwn(s: System, t: System, id: nat, l: Serving, sent: seq<seq<u8>>)
    requires Connected(s, id) && id in s.serving
    requires t == s.(serving := s.serving[id := l], streams := s.streams[s.handlers.ins[id].sender := sent])
    ensures OnlyOwn(s, t, id) && t.serving[id] == l && StreamOf(t, s.handlers.ins[id].sender) == sent
  {
  }

  lemma TurnKeeps(s: System, id: nat, taken: bool)
    requires Invariant(s) && Enabled(s, Turns(id, taken))
    ensures Invariant(Apply(s, Turns(id, taken)))
  {
    var h := s.handlers.ins[id];
    var (l, sent) := AfterTurn(s.serving[id], StreamOf(s, h.sender), taken);
    var t := s.(serving := s.serving[id := l], streams := s.streams[h.sender := sent]);
    TurnKeepsLoop(h, BodyOf(s, id), s.serving[id], StreamOf(s, h.sender), taken);
    TurnIsOwn(s, t, id, l, sent);
    OthersKeep(s, t, id);
  }

  lemma {:induction false} RunKeepsInvariant(states: seq<System>, actions: seq<Action>, i: nat)
    requires IsRun(states, actions) && i < |states|
    ensures Invariant(states[i])
  {
    if i > 0 {
      RunKeepsInvariant(states, actions, i - 1);
      match actions[i - 1]
      case Arrives(id, body) => ArrivalKeeps(states[i - 1], id, body);
      case Handles(a) => HandlingKeeps(states[i - 1], a);
      case SendsC2(id, taken) => SendingC2Keeps(states[i - 1], id, taken);
      case Turns(id, taken) => TurnKeeps(states[i - 1], id, taken);
    }
  }

  /** CONN/C2 under the call id of the stream's own CONN/A1, then an ack and responses to `id`'s PDUs. */
  ghost predicate CarriesChannel(s: System, id: nat, sender: H.Sender) {
    && Owns(s, id, sender) && sender in s.handlers.outs && s.handlers.outs[sender].OutStored?
    && var a1, h, l := s.handlers.outs[sender].a1, s.handlers.ins[id], s.serving[id];
    && a1.vcCookie == h.b1.vcCookie && AllPdus(l.done)
    && ParsePdu(PduBytes(h.c2)) == Ok(ConnC2(a1.callId))
    && AckThenResponses([PduBytes(h.c2)], Outcome(HeadOf(l, StreamOf(s, sender)), l.done, None, HeadOf(l, StreamOf(s, sender))))
  }

  /**
   In every interleaving of all handlers and their loops, an OUT stream is empty or carries the
   channel of exactly one IN handler, which named the same connection: CONN/C2 under the call id
   of the stream's CONN/A1, at most one bind_ack, and one response to each request the handler
   has handled after its Bind, in order and under its ids.
   */
  lemma {:induction false} StreamsCarryOneChannel(states: seq<System>, actions: seq<Action>, i: nat, sender: H.Sender)
    requires IsRun(states, actions) && i < |states|
    ensures StreamOf(states[i], sender) == [] || exists id :: CarriesChannel(states[i], id, sender)
    ensures forall id, jd :: Owns(states[i], id, sender) && Owns(states[i], jd, sender) ==> id == jd
  {
    var s := states[i];
    RunKeepsInvariant(states, actions, i);
    forall id, jd | Owns(s, id, sender) && Owns(s, jd, sender) ensures id == jd {
      SendersApart(s, id, jd);
    }
    if StreamOf(s, sender) != [] {
      var id :| Owns(s, id, sender);
      OwnerCarries(s, id, sender);
    }
  }

  lemma OwnerCarries(s: System, id: nat, sender: H.Sender)
    requires Invariant(s) && Owns(s, id, sender)
    ensures CarriesChannel(s, id, sender)
  {
    var h, l := s.handlers.ins[id], s.serving[id];
    assert H.InOk(s.handlers, h);
    InChannel.C2Reads(s.handlers.outs[sender].a1.callId);
    assert LoopOk(h, BodyOf(s, id), l, StreamOf(s, sender));
    ShapeSends(InChannel.Connected(h.vconn, h.c2, []), l.done, HeadOf(l, StreamOf(s, sender)));
    assert [] + [PduBytes(h.c2)] == [PduBytes(h.c2)];
  }

  // ---------- Every loop is a run ----------

  predicate Serves(s: System, id: nat) {
    Connected(s, id) && id in s.serving && s.serving[id].Looping?
  }

  /** What a serving handler's loop has sent: its stream, which no other handler sends on. */
  function SentBy(s: System, id: nat): seq<seq<u8>>
    requires Serves(s, id)
  {
    StreamOf(s, s.handlers.ins[id].sender)
  }

  lemma ServingOk(s: System, id: nat)
    requires Invariant(s) && Serves(s, id)
    ensures var h, body := s.handlers.ins[id], BodyOf(s, id);
            && H.InOk(s.handlers, h) && BodyOk(body, h) && LoopOk(h, body, s.serving[id], SentBy(s, id))
  {
  }

  lemma LoopIsRun(h: H.InHandler, body: seq<Frame>, l: Serving, sent: seq<seq<u8>>, cap: nat)
    requires h.InConnected? && l.Looping? && BodyOk(body, h) && LoopOk(h, body, l, sent) && cap >= |sent|
    ensures InChannel.Opening(body) == Ok((h.b1, InChannel.FirstPdu(body).1, InChannel.FirstPdu(body).2))
    ensures var o := RunOn(h, body, cap);
            match l.ending
            case Running => o == Behind(l.done, Run(HeadOf(l, sent), l.buf, l.frames, cap))
            case Ended(error) =>
              cap == |sent| || error != Some(OutClosed) ==>
                o.st == HeadOf(l, sent) && o.handled == l.done && o.error == error
  {
  }

  /**
   In every interleaving, whatever the other handlers do, a loop starts behind the CONN/B1 of its
   own body. While it goes on it is on the way of the run over that body, over any stream that
   takes what it has sent; once it has ended it stands, with the PDUs handled and the frames sent,
   where that run ends over a stream that takes no more, and over any larger one if a failing send
   was not what ended it.
   */
  lemma {:induction false} LoopsAreRuns(states: seq<System>, actions: seq<Action>, i: nat, id: nat, cap: nat)
    requires IsRun(states, actions) && i < |states| && Serves(states[i], id)
    requires cap >= |SentBy(states[i], id)|
    ensures var s := states[i];
            var h, body, l, sent := s.handlers.ins[id], BodyOf(s, id), s.serving[id], SentBy(s, id);
            && InChannel.Opening(body) == Ok((h.b1, InChannel.FirstPdu(body).1, InChannel.FirstPdu(body).2))
            && var o := RunOn(h, body, cap);
            match l.ending
            case Running => o == Behind(l.done, Run(HeadOf(l, sent), l.buf, l.frames, cap))
            case Ended(error) =>
              cap == |sent| || error != Some(OutClosed) ==>
                o.st == HeadOf(l, sent) && o.handled == l.done && o.error == error
  {
    var s := states[i];
    RunKeepsInvariant(states, actions, i);
    ServingOk(s, id);
    LoopIsRun(s.handlers.ins[id], BodyOf(s, id), s.serving[id], SentBy(s, id), cap);
  }

  /** A body holds, behind its first PDU, these PDUs, which a client may send, none of them cut past its header. */
  ghost predicate ConformingBody(body: seq<Frame>, ps: seq<seq<u8>>) {
    var (_, buf, frames) := InChannel.FirstPdu(body);
    Conforms(buf + Received(frames), ps) && AllUncut(|buf|, frames, ps)
  }

  lemma ServedExactly(h: H.InHandler, body: seq<Frame>, cap: nat)
    requires h.InConnected? && h.vconn.state == ConnectionEstablished && cap >= 1
    ensures RunOn(h, body, cap).error.None? <==>
            exists ps: seq<seq<u8>> :: ConformingBody(body, ps) && 1 + Replies(ps) <= cap
  {
    var (_, buf, frames) := InChannel.FirstPdu(body);
    var st0 := InChannel.Connected(h.vconn, h.c2, []);
    ConformingClientsServed(st0, buf, frames, cap);
    assert |st0.sent| == 1;
    forall ps: seq<seq<u8>>
      ensures ConformingBody(body, ps) <==> Conforms(buf + Received(frames), ps) && AllUncut(|buf|, frames, ps)
    {
    }
  }

  lemma HandledAllOfIt(h: H.InHandler, body: seq<Frame>, cap: nat, ps: seq<seq<u8>>)
    requires h.InConnected? && RunOn(h, body, cap).error.None? && ConformingBody(body, ps)
    ensures RunOn(h, body, cap).handled == ps
  {
    var (_, buf, frames) := InChannel.FirstPdu(body);
    NoByteLost(InChannel.Connected(h.vconn, h.c2, []), buf, frames, cap);
    FramingIsUnique(RunOn(h, body, cap).handled, ps);
  }

  lemma LoopSentReplies(h: H.InHandler, body: seq<Frame>, l: Serving, sent: seq<seq<u8>>)
    requires h.InConnected? && l.Looping? && LoopOk(h, body, l, sent)
    ensures |sent| == 1 + Replies(l.done)
  {
  }

  /** An ended loop has ended without error exactly if the PDUs it has handled are all of a conforming body. */
  lemma EndedServed(h: H.InHandler, body: seq<Frame>, l: Serving, sent: seq<seq<u8>>)
    requires h.InConnected? && h.vconn.state == ConnectionEstablished
    requires l.Looping? && l.ending.Ended? && LoopOk(h, body, l, sent)
    ensures l.ending.error.None? <==> ConformingBody(body, l.done)
    ensures forall ps: seq<seq<u8>> :: ConformingBody(body, ps) && l.ending.error != Some(OutClosed) ==>
              l.ending.error.None? && l.done == ps
  {
    LoopSentReplies(h, body, l, sent);
    ServedExactly(h, body, |sent|);
    if l.ending.error.None? {
      var ps: seq<seq<u8>> :| ConformingBody(body, ps) && 1 + Replies(ps) <= |sent|;
      HandledAllOfIt(h, body, |sent|, ps);
    }
    forall ps: seq<seq<u8>> | ConformingBody(body, ps) && l.ending.error != Some(OutClosed)
      ensures l.ending.error.None? && l.done == ps
    {
      var cap := |sent| + 1 + Replies(ps);
      ServedExactly(h, body, cap);
      HandledAllOfIt(h, body, cap, ps);
    }
  }

  /**
   In every interleaving a loop that has ended did so without error exactly if its client conforms
   and all its PDUs are handled, each Bind and request answered on the stream; and a conforming
   client's loop ends in no other way unless a send fails.
   */
  lemma {:induction false} ConformingChannelsServed(states: seq<System>, actions: seq<Action>, i: nat, id: nat)
    requires IsRun(states, actions) && i < |states| && Serves(states[i], id) && states[i].serving[id].ending.Ended?
    ensures var s := states[i];
            var body, l := BodyOf(s, id), s.serving[id];
            && (l.ending.error.None? <==> ConformingBody(body, l.done))
            && AllPdus(l.done) && |SentBy(s, id)| == 1 + Replies(l.done)
            && forall ps: seq<seq<u8>> :: ConformingBody(body, ps) && l.ending.error != Some(OutClosed) ==>
                 l.ending.error.None? && l.done == ps
  {
    var s := states[i];
    RunKeepsInvariant(states, actions, i);
    ServingOk(s, id);
    LoopSentReplies(s.handlers.ins[id], BodyOf(s, id), s.serving[id], SentBy(s, id));
    EndedServed(s.handlers.ins[id], BodyOf(s, id), s.serving[id], SentBy(s, id));
  }
}
