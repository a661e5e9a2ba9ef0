/** What the client and the backend see of every run of the relay. */
module RelayProofs {
  import opened Bytes
  import opened Wrappers
  import opened Messages
  import opened MessageLayout
  import opened MessageProofs
  import opened WsHandshake
  import opened Relay

  // ---------- The client's side, read off the bytes ----------

  function OnTheWire(sink: seq<Outgoing>): seq<seq<u8>> {
    if sink == [] then [] else OnTheWire(sink[..|sink| - 1]) + [Wire(sink[|sink| - 1])]
  }

  /** The data a client strips out of a frame, if it is Data. */
  function DataOf(b: seq<u8>): seq<u8> {
    match ParseMessage(b)
    case Ok(Data(data)) => Strip(data)
    case _ => []
  }

  /** The message in a frame, if it is not Data. */
  function ControlOf(b: seq<u8>): seq<TsgMessage> {
    match ParseMessage(b)
    case Ok(m) => if m.Data? then [] else [m]
    case Err(_) => []
  }

  function BackendBytes(wire: seq<seq<u8>>): seq<u8> {
    if wire == [] then [] else BackendBytes(wire[..|wire| - 1]) + DataOf(wire[|wire| - 1])
  }

  function Controls(wire: seq<seq<u8>>): seq<TsgMessage> {
    if wire == [] then [] else Controls(wire[..|wire| - 1]) + ControlOf(wire[|wire| - 1])
  }

  predicate Readable(x: Outgoing) {
    match x
    case Chunk(data) => |data| <= READ_SIZE
    case Control(m) => Writable(m) && !m.Data?
  }

  lemma ChunkReads(data: seq<u8>)
    requires |data| <= READ_SIZE
    ensures DataOf(EncodeDataMessage(data)) == data && ControlOf(EncodeDataMessage(data)) == []
  {
    DataFrameReads(data);
    assert (PutU16(|data|) + data)[2..] == data;
  }

  lemma ControlReads(m: TsgMessage)
    requires Writable(m) && !m.Data?
    ensures DataOf(Write(m)) == [] && ControlOf(Write(m)) == [m]
  {
    RoundTripExactly(m);
  }

  lemma FrameReads(x: Outgoing, b: seq<u8>)
    requires Readable(x) && b == Wire(x)
    ensures DataOf(b) == (if x.Chunk? then x.data else []) && ControlOf(b) == (if x.Control? then [x.m] else [])
  {
    match x
    case Chunk(data) => ChunkReads(data);
    case Control(m) => ControlReads(m);
  }

  lemma WireSnoc(wire: seq<seq<u8>>, b: seq<u8>)
    ensures BackendBytes(wire + [b]) == BackendBytes(wire) + DataOf(b)
    ensures Controls(wire + [b]) == Controls(wire) + ControlOf(b)
  {
    assert (wire + [b])[..|wire|] == wire;
  }

  lemma {:induction false} WireReads(sink: seq<Outgoing>)
    requires forall x :: x in sink ==> Readable(x)
    ensures BackendBytes(OnTheWire(sink)) == DataIn(sink) && Controls(OnTheWire(sink)) == ControlsIn(sink)
  {
    if sink != [] {
      var n := |sink| - 1;
      WireReads(sink[..n]);
      assert sink[n] in sink;
      FrameReads(sink[n], Wire(sink[n]));
      WireSnoc(OnTheWire(sink[..n]), Wire(sink[n]));
    }
  }

  // ---------- Every reply can be read ----------

  lemma ReplyWritable(f: WsFrame, m: TsgMessage)
    requires MessageIn(f) == [m]
    ensures forall r :: r in Reply(m) ==> Writable(r) && !r.Data?
  {
  }

  lemma {:induction false} OwedWritable(consumed: seq<WsFrame>)
    ensures forall r :: r in Owed(MessagesOf(consumed)) ==> Writable(r) && !r.Data?
  {
    if consumed != [] {
      var n := |consumed| - 1;
      var ms, f := MessagesOf(consumed[..n]), consumed[n];
      OwedWritable(consumed[..n]);
      if MessageIn(f) == [] {
        assert ms + [] == ms;
      } else {
        var m := MessageIn(f)[0];
        ReplyWritable(f, m);
        OwedOneMore(ms, m);
      }
    }
  }

  lemma {:induction false} ControlsAreIn(sink: seq<Outgoing>)
    ensures forall x :: x in sink && x.Control? ==> x.m in ControlsIn(sink)
  {
    if sink != [] {
      ControlsAreIn(sink[..|sink| - 1]);
    }
  }

  lemma SinkReadable(s: State, first: seq<u8>)
    requires Invariant(s, first)
    ensures forall x :: x in s.sink ==> Readable(x)
  {
    ControlsAreIn(s.sink);
    OwedWritable(s.consumed);
  }

  /**
   In every state of every interleaving, with whatever read sizes, send and write failures:

   - the Data frames the client got, parsed and stripped, are the backend bytes read so far up to
     the one chunk that is being sent or was lost when a send failed;
   - its other frames are, in order, the first of the control replies owed for the messages
     read, and all of them once nothing is in flight;
   - the backend got the first Data and every later one that no ChannelCreate skips, in order,
     up to the one being written or broken off by a failed write.
   */
  lemma {:induction false} RelayIsFaithful(first: seq<u8>, states: seq<State>, actions: seq<Action>, i: nat)
    requires IsRun(first, states, actions) && i < |states|
    ensures var s := states[i];
            var ms, wire := MessagesOf(s.consumed), OnTheWire(s.sink);
            && BackendBytes(wire) + Unsent(s.writer) == Flatten(s.chunks)
            && Controls(wire) <= Owed(ms)
            && (!s.writer.Finished? ==> Controls(wire) + InFlight(s) == Owed(ms))
            && |s.queue| <= 8 && (forall chunk :: chunk in s.chunks ==> 1 <= |chunk| <= 16384)
            && var due := Strip(first) + Delivered(ms);
               && s.written <= due
               && (s.reader.Writing? ==> s.written + s.reader.payload == due)
               && (s.reader.Reading? || s.reader.Replying? || s.reader == Done(false) ==> s.written == due)
  {
    RunKeepsInvariant(first, states, actions, i);
    SinkReadable(states[i], first);
    WireReads(states[i].sink);
  }

  // ---------- The replies, byte by byte ----------

  lemma KeepaliveBytes()
    ensures Write(Keepalive) == [13, 0, 0, 0, 8, 0, 0, 0]
  {
    WrittenExactly(Keepalive);
    EightBytes(Write(Keepalive), 13);
  }

  lemma ClosedBytes()
    ensures Write(CloseChannelResponse([])) == [15, 0, 0, 0, 8, 0, 0, 0]
  {
    WrittenExactly(CloseChannelResponse([]));
    EightBytes(Write(CloseChannelResponse([])), 15);
  }

  lemma SmallU16(w: seq<u8>, i: nat, v: u8)
    requires i + 2 <= |w| && U16At(w, i) == v
    ensures w[i] == v && w[i + 1] == 0
  {
    FieldValues(w, i);
  }

  lemma SmallU32(w: seq<u8>, i: nat, v: u8)
    requires i + 4 <= |w| && U32At(w, i) == v
    ensures w[i] == v && w[i + 1] == 0 && w[i + 2] == 0 && w[i + 3] == 0
  {
    FieldValues(w, i);
  }

  lemma EightBytes(w: seq<u8>, t: u8)
    requires |w| == 8 && U16At(w, 0) == t && U16At(w, 2) == 0 && U32At(w, 4) == 8
    ensures w == [t, 0, 0, 0, 8, 0, 0, 0]
  {
    SmallU16(w, 0, t);
    SmallU16(w, 2, 0);
    SmallU32(w, 4, 8);
  }

  /** What the frame `b` is answered with, told by type codes, lengths and offsets alone. */
  predicate AnswersFrame(b: seq<u8>, w: seq<u8>)
    requires |b| >= 8 && 8 <= U32At(b, 4) <= |b|
  {
    var t := U16At(b, 0);
    && (t == 13 ==> w == [13, 0, 0, 0, 8, 0, 0, 0])
    && (t == 14 ==> w == [15, 0, 0, 0, 8, 0, 0, 0])
    && (t == 16 ==> |w| == U32At(b, 4) && U16At(w, 0) == 16 && U16At(w, 2) == 0 && U32At(w, 4) == |w|
                    && w[8..] == b[8..|w|])
    && (t == 8 ==> |w| == 20 && U16At(w, 0) == 9 && U16At(w, 2) == 0 && U32At(w, 4) == 20
                   && U32At(w, 8) == 0 && U16At(w, 12) == 1 && U16At(w, 14) == 0 && U32At(w, 16) == 1)
  }

  lemma ChannelPayload(p: seq<u8>)
    requires Stands(9, p, ChannelResponse(0, 1, 0, Some(1), None, None))
    ensures |p| >= 12 && U32At(p, 0) == 0 && U16At(p, 4) == 1 && U16At(p, 6) == 0 && U32At(p, 8) == 1
  {
  }

  lemma ChannelFields(w: seq<u8>)
    requires |w| == 20
    requires U32At(w[8..], 0) == 0 && U16At(w[8..], 4) == 1 && U16At(w[8..], 6) == 0 && U32At(w[8..], 8) == 1
    ensures U32At(w, 8) == 0 && U16At(w, 12) == 1 && U16At(w, 14) == 0 && U32At(w, 16) == 1
  {
    FieldInTail(w, 8, 0);
    FieldInTail(w, 8, 4);
    FieldInTail(w, 8, 6);
    FieldInTail(w, 8, 8);
  }

  lemma ChannelAnswerFits(m: TsgMessage)
    requires m == ChannelResponse(0, 1, 0, Some(1), None, None)
    ensures Writable(m) && Extent(m) == 12
  {
  }

  /** A written message as header fields and payload. */
  lemma WrittenPayload(m: TsgMessage, w: seq<u8>, p: seq<u8>)
    requires Writable(m) && w == Write(m) && |w| >= 8 && p == w[8..]
    ensures Stands(U16At(w, 0), p, m) && U16At(w, 2) == 0 && |w| == U32At(w, 4) == 8 + Extent(m)
  {
    WrittenExactly(m);
    assert w[8..|w|] == p;
  }

  lemma ChannelAnswer(w: seq<u8>, m: TsgMessage)
    requires m == ChannelResponse(0, 1, 0, Some(1), None, None) && w == Write(m)
    ensures |w| == 20 && U16At(w, 0) == 9 && U16At(w, 2) == 0 && U32At(w, 4) == 20
    ensures U32At(w, 8) == 0 && U16At(w, 12) == 1 && U16At(w, 14) == 0 && U32At(w, 16) == 1
  {
    ChannelAnswerFits(m);
    WrittenExactly(m);
    WrittenPayload(m, w, w[8..]);
    ChannelPayload(w[8..]);
    ChannelFields(w);
  }

  lemma SetupAnswer(b: seq<u8>, m: TsgMessage)
    requires ParseMessage(b) == Ok(m) && m.Unknown? && m.msgType == 16
    ensures var w := Write(m);
            && |w| == U32At(b, 4) && U16At(w, 0) == 16 && U16At(w, 2) == 0 && U32At(w, 4) == |w|
            && w[8..] == b[8..|w|]
  {
    ParsesExactly(b, m);
    WrittenExactly(m);
    assert Write(m)[8..|Write(m)|] == Write(m)[8..];
  }

  /**
   In the relay the frames answered are exactly those of types 8, 13, 14 and 16, with these bytes:
   a ChannelResponse for channel 1, a keepalive, a close response without payload, and the frame's
   own type and payload under a zero reserved field.
   */
  lemma {:induction false} ReplyOnTheWire(b: seq<u8>, m: TsgMessage)
    requires ParseMessage(b) == Ok(m)
    ensures |b| >= 8 && 8 <= U32At(b, 4) <= |b|
    ensures if U16At(b, 0) in {8, 13, 14, 16} then |Reply(m)| == 1 && AnswersFrame(b, Write(Reply(m)[0]))
            else Reply(m) == []
  {
    ParsesExactly(b, m);
    match m
    case Keepalive => KeepaliveBytes();
    case CloseChannel(_) => ClosedBytes();
    case Unknown(t, _) =>
      if t == 16 {
        SetupAnswer(b, m);
      }
    case ChannelCreate(_, _, _, _, _) => ChannelAnswer(Write(Reply(m)[0]), Reply(m)[0]);
    case _ =>
  }

  // ---------- When the reader ends ----------

  /** Frames that end the reader: close, error or end, and CloseChannel. */
  predicate Stops(f: WsFrame) {
    Ends(f) || (MessageIn(f) != [] && MessageIn(f)[0].CloseChannel?)
  }

  predicate NoneStops(frames: seq<WsFrame>) {
    frames == [] || (NoneStops(frames[..|frames| - 1]) && !Stops(frames[|frames| - 1]))
  }

  /** The reader is over the first frame that stops it, or has seen none and is on, or its write failed. */
  predicate StopKept(s: State) {
    var c := s.consumed;
    if s.reader == Done(false) || (s.reader.Replying? && s.reader.next == Stop) then
      c != [] && NoneStops(c[..|c| - 1]) && Stops(c[|c| - 1])
    else NoneStops(c)
  }

  lemma StopMeans(s: State, f: WsFrame)
    requires s.reader.Reading?
    ensures var t := AfterFrame(s, f);
            Stops(f) <==> t.reader == Done(false) || (t.reader.Replying? && t.reader.next == Stop)
  {
    FrameMeans(s, f);
  }

  lemma NoneStopsMore(c: seq<WsFrame>, f: WsFrame)
    ensures (c + [f])[..|c + [f]| - 1] == c && (c + [f])[|c + [f]| - 1] == f
    ensures NoneStops(c + [f]) <==> NoneStops(c) && !Stops(f)
  {
    assert (c + [f])[..|c|] == c;
  }

  lemma FrameKeepsStop(s: State, f: WsFrame)
    requires StopKept(s) && s.reader.Reading?
    ensures StopKept(Apply(s, WebSocketYields(f)))
  {
    var s1 := s.(consumed := s.consumed + [f]);
    NoneStopsMore(s.consumed, f);
    StopMeans(s1, f);
    FrameMeans(s1, f);
  }

  lemma StepKeepsStop(s: State, a: Action)
    requires StopKept(s) && Enabled(s, a)
    ensures StopKept(Apply(s, a))
  {
    if a.WebSocketYields? {
      FrameKeepsStop(s, a.frame);
    }
  }

  /** The reader ends with the first frame that stops it, unless a write to the backend failed before. */
  lemma {:induction false} ReaderStopsExactly(first: seq<u8>, states: seq<State>, actions: seq<Action>, i: nat)
    requires IsRun(first, states, actions) && i < |states|
    ensures StopKept(states[i])
  {
    if i > 0 {
      ReaderStopsExactly(first, states, actions, i - 1);
      StepKeepsStop(states[i - 1], actions[i - 1]);
    }
  }

  lemma SenderGetsRoom(s: State)
    requires s.reader.Replying? && |s.queue| <= QUEUE_SIZE
    ensures Enabled(s, QueueTakes) || s.writer.Sending? || Enabled(s, QueueYields)
    ensures Enabled(s, QueueYields) ==> Enabled(Apply(s, QueueYields), QueueTakes)
    ensures s.writer.Sending? ==> Enabled(s, ClientTakes) && Apply(s, ClientTakes) == s.(sink := s.sink + [s.writer.x], writer := Selecting)
  {
  }

  /** A full queue never locks the tasks: the writer can empty it, and then the reader goes on. */
  lemma {:induction false} QueueNeverLocks(first: seq<u8>, states: seq<State>, actions: seq<Action>, i: nat)
    requires IsRun(first, states, actions) && i < |states| && states[i].reader.Replying?
    ensures var s := states[i];
            || Enabled(s, QueueTakes)
            || (Enabled(s, QueueYields) && Enabled(Apply(s, QueueYields), QueueTakes))
            || (Enabled(s, ClientTakes)
                && var t := Apply(s, ClientTakes);
                   Enabled(t, QueueTakes) || (Enabled(t, QueueYields) && Enabled(Apply(t, QueueYields), QueueTakes)))
  {
    RunKeepsInvariant(first, states, actions, i);
    var s := states[i];
    SenderGetsRoom(s);
    if s.writer.Sending? {
      SenderGetsRoom(s.(sink := s.sink + [s.writer.x], writer := Selecting));
    }
  }
}
