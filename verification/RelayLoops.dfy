/** The loops of the two relay tasks, each on its own. */
module RelayLoops {
  import opened Bytes
  import opened OutStreams
  import opened Wrappers
  import opened Messages
  import opened WsHandshake
  import opened Relay
  import opened RelayProofs

  /** The write half of the backend connection, which breaks after `room` bytes. */
  class Backend {
    var written: seq<u8>
    const room: nat

    ghost predicate Valid()
      reads this
    {
      |written| <= room
    }

    constructor (room: nat)
      ensures Valid() && written == [] && this.room == room
    {
      written := [];
      this.room := room;
    }

    /** `write_all`: everything, or an error with as much as could be written. */
    method WriteAll(b: seq<u8>) returns (ok: bool)
      requires Valid()
      modifies this
      ensures Valid() && (ok <==> |old(written)| + |b| <= room)
      ensures ok ==> written == old(written) + b
      ensures !ok ==> written == (old(written) + b)[..room]
    {
      ok := |written| + |b| <= room;
      written := if ok then written + b else (written + b)[..room];
    }
  }

  /** The first of `ms`, as far as a stream with room for `left` more takes them. */
  function Taken(ms: seq<TsgMessage>, left: nat): seq<TsgMessage> {
    if ms == [] then []
    else
      var front := Taken(ms[..|ms| - 1], left);
      front + (if |front| < left then [ms[|ms| - 1]] else [])
  }

  lemma TakenOneMore(ms: seq<TsgMessage>, m: TsgMessage, left: nat)
    ensures Taken(ms + [m], left) == Taken(ms, left) + (if |Taken(ms, left)| < left then [m] else [])
  {
    assert (ms + [m])[..|ms|] == ms;
  }

  /** What the reader's loop has done after reading `ms`: since when, and what now. */
  ghost predicate DoneFor(ms: seq<TsgMessage>, skip: bool, before: seq<u8>, written: seq<u8>,
                          sent: seq<TsgMessage>, now: seq<TsgMessage>, cap: nat)
  {
    && (skip <==> Skipped(ms, |ms|))
    && written == before + Delivered(ms)
    && |sent| <= cap && now == sent + Taken(Owed(ms), cap - |sent|)
  }

  function SkipAfter(w: Work, skip: bool): bool {
    if w.Skip? then false else skip || (w.Respond? && w.next == SkipData)
  }

  lemma SentFor(ms: seq<TsgMessage>, m: TsgMessage, w: Work, sent: seq<TsgMessage>, now: seq<TsgMessage>, cap: nat)
    requires |sent| <= cap && now == sent + Taken(Owed(ms), cap - |sent|)
    requires Reply(m) == if w.Respond? then [w.reply] else []
    ensures sent + Taken(Owed(ms + [m]), cap - |sent|)
            == now + (if w.Respond? && |now| < cap then [w.reply] else [])
  {
    OwedOneMore(ms, m);
    var last := if w.Respond? && |now| < cap then [w.reply] else [];
    Associate(sent, Taken(Owed(ms), cap - |sent|), last);
    if w.Respond? {
      TakenOneMore(Owed(ms), w.reply, cap - |sent|);
    } else {
      assert Owed(ms) + [] == Owed(ms);
    }
  }

  /** A message whose work is done leaves the loop where it should be. */
  lemma WorkDone(ms: seq<TsgMessage>, m: TsgMessage, skip: bool, w: Work, before: seq<u8>, written: seq<u8>,
                 sent: seq<TsgMessage>, now: seq<TsgMessage>, cap: nat)
    requires DoneFor(ms, skip, before, written, sent, now, cap) && w == WorkFor(m, skip)
    ensures DoneFor(ms + [m], SkipAfter(w, skip), before, written + (if w.Forward? then w.payload else []), sent,
                    now + (if w.Respond? && |now| < cap then [w.reply] else []), cap)
  {
    WorkMeans(m, skip);
    SkipOneMore(ms, m);
    DeliveredOneMore(ms, m);
    SentFor(ms, m, w, sent, now, cap);
    Associate(before, Delivered(ms), if w.Forward? then w.payload else []);
  }

  /** One message: write it on, answer it, or pass it over. */
  method DoWork(w: Work, ctrl: OutStream<TsgMessage>, backend: Backend) returns (ok: bool)
    requires backend.Valid()
    modifies ctrl, backend
    ensures backend.Valid() && (!ok ==> w.Forward?)
    ensures ctrl.sent == old(ctrl.sent) + (if w.Respond? && |old(ctrl.sent)| < ctrl.cap then [w.reply] else [])
    ensures ok ==> backend.written == old(backend.written) + (if w.Forward? then w.payload else [])
    ensures !ok ==> backend.written <= old(backend.written) + w.payload && |backend.written| == backend.room
  {
    ok := true;
    match w
    case Forward(payload) =>
      ok := backend.WriteAll(payload);
    case Respond(reply, _) =>
      var _ := ctrl.SendFrame(reply);
    case _ =>
  }

  lemma MessageMeans(f: WsFrame, m: TsgMessage, skip: bool)
    requires MessageIn(f) == [m]
    ensures !Ends(f) && (Stops(f) <==> WorkFor(m, skip).Respond? && WorkFor(m, skip).next == Stop)
  {
  }

  datatype Turn = GoesOn | Stopped | WriteFailed

  /** What the loop has done when a write failed: all but an end of the bytes due to the backend. */
  ghost predicate BrokenFor(ms: seq<TsgMessage>, before: seq<u8>, written: seq<u8>, room: nat,
                            sent: seq<TsgMessage>, now: seq<TsgMessage>, cap: nat)
  {
    && written <= before + Delivered(ms) && |written| == room
    && |sent| <= cap && now == sent + Taken(Owed(ms), cap - |sent|)
  }

  /** The body of the loop. */
  method ReadFrame(f: WsFrame, skip: bool, ctrl: OutStream<TsgMessage>, backend: Backend,
                   ghost ms: seq<TsgMessage>, ghost before: seq<u8>, ghost sent: seq<TsgMessage>)
    returns (turn: Turn, skip': bool)
    requires backend.Valid() && DoneFor(ms, skip, before, backend.written, sent, ctrl.sent, ctrl.cap)
    modifies ctrl, backend
    ensures backend.Valid() && (turn == Stopped <==> Stops(f))
    ensures if turn == WriteFailed
            then BrokenFor(ms + MessageIn(f), before, backend.written, backend.room, sent, ctrl.sent, ctrl.cap)
            else DoneFor(ms + MessageIn(f), skip', before, backend.written, sent, ctrl.sent, ctrl.cap)
  {
    skip' := skip;
    if MessageIn(f) == [] {
      assert ms + MessageIn(f) == ms;
      turn := if Ends(f) then Stopped else GoesOn;
    } else {
      var m := MessageIn(f)[0];
      var w := WorkFor(m, skip);
      MessageMeans(f, m, skip);
      WorkDone(ms, m, skip, w, before, backend.written, sent, ctrl.sent, ctrl.cap);
      assert MessageIn(f) == [m];
      var ok := DoWork(w, ctrl, backend);
      skip' := SkipAfter(w, skip);
      turn := if !ok then WriteFailed else if w.Respond? && w.next == Stop then Stopped else GoesOn;
    }
  }

  /** The first `n` frames hold these messages, and none of them stops the loop. */
  ghost predicate ReadTo(input: seq<WsFrame>, n: nat, ms: seq<TsgMessage>) {
    n <= |input| && NoneStops(input[..n]) && ms == MessagesOf(input[..n])
  }

  lemma ReadOn(input: seq<WsFrame>, n: nat, ms: seq<TsgMessage>)
    requires n < |input| && ReadTo(input, n, ms)
    ensures MessagesOf(input[..n + 1]) == ms + MessageIn(input[n])
    ensures !Stops(input[n]) ==> ReadTo(input, n + 1, ms + MessageIn(input[n]))
  {
    assert input[..n + 1] == input[..n] + [input[n]];
    OneFrameMore(input[..n], input[n]);
  }

  /** How far the loop read and why no further. */
  ghost predicate EndedAt(input: seq<WsFrame>, n: nat, turn: Turn) {
    match turn
    case GoesOn => n == |input| && NoneStops(input)
    case Stopped => 0 < n <= |input| && NoneStops(input[..n - 1]) && Stops(input[n - 1])
    case WriteFailed => n <= |input| && NoneStops(input[..n])
  }

  lemma EndsHere(input: seq<WsFrame>, n: nat, ms: seq<TsgMessage>, turn: Turn)
    requires n < |input| && ReadTo(input, n, ms) && turn != GoesOn && (turn == Stopped <==> Stops(input[n]))
    ensures EndedAt(input, n + 1, turn)
  {
    ReadOn(input, n, ms);
  }

  lemma EndsThere(input: seq<WsFrame>, ms: seq<TsgMessage>)
    requires ReadTo(input, |input|, ms)
    ensures EndedAt(input, |input|, GoesOn) && ms == MessagesOf(input)
  {
    assert input[..|input|] == input;
  }

  /** What has come of reading `ms`: every reply, and every byte unless a write failed. */
  ghost predicate Handed(ms: seq<TsgMessage>, turn: Turn, before: seq<u8>, written: seq<u8>, room: nat,
                         sent: seq<TsgMessage>, now: seq<TsgMessage>, cap: nat)
  {
    && |sent| <= cap && now == sent + Taken(Owed(ms), cap - |sent|)
    && (if turn == WriteFailed then written <= before + Delivered(ms) && |written| == room
        else written == before + Delivered(ms))
  }

  /** One turn: the loop can go on behind frame `n`, or it has ended there. */
  method Advance(input: seq<WsFrame>, n: nat, skip: bool, ctrl: OutStream<TsgMessage>, backend: Backend,
                 ghost ms: seq<TsgMessage>, ghost before: seq<u8>, ghost sent: seq<TsgMessage>)
    returns (turn: Turn, skip': bool, ghost ms': seq<TsgMessage>)
    requires n < |input| && ReadTo(input, n, ms)
    requires backend.Valid() && DoneFor(ms, skip, before, backend.written, sent, ctrl.sent, ctrl.cap)
    modifies ctrl, backend
    ensures backend.Valid() && ms' == MessagesOf(input[..n + 1])
    ensures turn == GoesOn ==>
              ReadTo(input, n + 1, ms') && DoneFor(ms', skip', before, backend.written, sent, ctrl.sent, ctrl.cap)
    ensures turn != GoesOn ==>
              EndedAt(input, n + 1, turn)
              && Handed(ms', turn, before, backend.written, backend.room, sent, ctrl.sent, ctrl.cap)
  {
    ReadOn(input, n, ms);
    ms' := ms + MessageIn(input[n]);
    turn, skip' := ReadFrame(input[n], skip, ctrl, backend, ms, before, sent);
    if turn != GoesOn {
      EndsHere(input, n, ms, turn);
    }
  }

  lemma NothingDone(written: seq<u8>, sent: seq<TsgMessage>, cap: nat)
    requires |sent| <= cap
    ensures DoneFor([], false, written, written, sent, sent, cap)
  {
  }

  /**
   `ws_to_tcp`: reads `n` frames, up to the first that stops it, the end, or a failed write. The
   queue's receiver may go away; its sends are then ignored.
   */
  method WsToTcp(input: seq<WsFrame>, ctrl: OutStream<TsgMessage>, backend: Backend)
    returns (n: nat, turn: Turn, ghost ms: seq<TsgMessage>)
    requires backend.Valid() && |ctrl.sent| <= ctrl.cap
    modifies ctrl, backend
    ensures backend.Valid() && EndedAt(input, n, turn) && n <= |input| && ms == MessagesOf(input[..n])
    ensures Handed(ms, turn, old(backend.written), backend.written, backend.room, old(ctrl.sent), ctrl.sent, ctrl.cap)
  {
    var skipNextData := false;
    n, turn, ms := 0, GoesOn, [];
    NothingDone(backend.written, ctrl.sent, ctrl.cap);
    while n < |input| && turn == GoesOn
      invariant backend.Valid() && n <= |input| && ms == MessagesOf(input[..n])
      invariant turn == GoesOn ==>
                  ReadTo(input, n, ms)
                  && DoneFor(ms, skipNextData, old(backend.written), backend.written, old(ctrl.sent), ctrl.sent, ctrl.cap)
      invariant turn != GoesOn ==>
                  EndedAt(input, n, turn)
                  && Handed(ms, turn, old(backend.written), backend.written, backend.room, old(ctrl.sent), ctrl.sent, ctrl.cap)
    {
      turn, skipNextData, ms :=
        Advance(input, n, skipNextData, ctrl, backend, ms, old(backend.written), old(ctrl.sent));
      n := n + 1;
    }
    if turn == GoesOn {
      EndsThere(input, ms);
    }
  }

  // ---------- The other task ----------

  /** What the select of the other task yields: a read, whose data is empty at the end, an error, or a reply. */
  datatype Arrival = ReadData(data: seq<u8>) | ReadError | Queued(reply: TsgMessage)

  /** What is sent for an arrival; nothing is for those that end the task. */
  function Onward(a: Arrival): Option<Outgoing> {
    match a
    case ReadData(data) => if data == [] then None else Some(Chunk(data))
    case ReadError => None
    case Queued(m) => Some(Control(m))
  }

  function Forwarded(arrivals: seq<Arrival>): seq<Outgoing> {
    if arrivals == [] then []
    else
      Forwarded(arrivals[..|arrivals| - 1])
      + (match Onward(arrivals[|arrivals| - 1]) case Some(x) => [x] case None => [])
  }

  lemma ForwardedOneMore(arrivals: seq<Arrival>, n: nat, x: Outgoing)
    requires n < |arrivals| && Onward(arrivals[n]) == Some(x)
    ensures Forwarded(arrivals[..n + 1]) == Forwarded(arrivals[..n]) + [x]
  {
    assert arrivals[..n + 1][..n] == arrivals[..n];
  }

  /** `tcp_to_ws`: forwards arrivals in order until the backend ends or the client takes no more. */
  method TcpToWs(arrivals: seq<Arrival>, sink: OutStream<Outgoing>) returns (n: nat)
    requires |sink.sent| <= sink.cap
    modifies sink
    ensures n <= |arrivals| && sink.sent == old(sink.sent) + Forwarded(arrivals[..n])
    ensures n < |arrivals| ==> Onward(arrivals[n]) == None || |sink.sent| == sink.cap
  {
    n := 0;
    while n < |arrivals| && Onward(arrivals[n]).Some?
      invariant n <= |arrivals| && sink.sent == old(sink.sent) + Forwarded(arrivals[..n])
      invariant |sink.sent| <= sink.cap
    {
      ForwardedOneMore(arrivals, n, Onward(arrivals[n]).value);
      var ok := sink.SendFrame(Onward(arrivals[n]).value);
      if !ok {
        return;
      }
      n := n + 1;
    }
  }
}
