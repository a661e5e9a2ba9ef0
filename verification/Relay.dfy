/**
 The WebSocket relay: one task carries client messages to the backend and puts control replies
 on a bounded queue, the other is the only writer to the client and merges what the backend
 sends with what is on the queue. The two interleave arbitrarily.
 */
module Relay {
  import opened Bytes
  import opened Wrappers
  import opened Messages
  import opened WsHandshake

  const QUEUE_SIZE: nat := 8
  const READ_SIZE: nat := 16384
  const PIPE_SETUP: u16 := 0x10

  /** The payload behind the two-byte count; shorter data has none and is taken as it is. */
  function Strip(data: seq<u8>): seq<u8> {
    if |data| >= 2 then data[2..] else data
  }

  /** Data of two bytes or more loses its first two, and shorter data nothing. */
  lemma StripsCount(count: seq<u8>, rest: seq<u8>)
    ensures |count| == 2 ==> Strip(count + rest) == rest
    ensures |count| < 2 ==> Strip(count) == count
  {
    assert |count| == 2 ==> (count + rest)[2..] == rest;
  }

  // ---------- What should come of a run, read off the messages ----------

  /** Data at `i` is skipped when a ChannelCreate came before it with no Data in between. */
  ghost predicate Skipped(ms: seq<TsgMessage>, i: nat)
    requires i <= |ms|
  {
    exists j :: 0 <= j < i && ms[j].ChannelCreate? && forall k :: j < k < i ==> !ms[k].Data?
  }

  /** The bytes the backend should get. */
  ghost function Delivered(ms: seq<TsgMessage>): seq<u8> {
    if ms == [] then []
    else
      var front, last := ms[..|ms| - 1], ms[|ms| - 1];
      Delivered(front) + (if last.Data? && !Skipped(ms, |ms| - 1) then Strip(last.data) else [])
  }

  /** The control reply a message is owed. */
  function Reply(m: TsgMessage): seq<TsgMessage> {
    match m
    case Keepalive => [Keepalive]
    case CloseChannel(_) => [CloseChannelResponse([])]
    case Unknown(t, payload) => if t == PIPE_SETUP then [m] else []
    case ChannelCreate(_, _, _, _, _) => [ChannelResponse(0, 1, 0, Some(1), None, None)]
    case _ => []
  }

  function Owed(ms: seq<TsgMessage>): seq<TsgMessage> {
    if ms == [] then [] else Owed(ms[..|ms| - 1]) + Reply(ms[|ms| - 1])
  }

  lemma OwedOneMore(ms: seq<TsgMessage>, m: TsgMessage)
    ensures Owed(ms + [m]) == Owed(ms) + Reply(m)
  {
    assert (ms + [m])[..|ms|] == ms;
  }

  lemma SkippedInFront(ms: seq<TsgMessage>, m: TsgMessage)
    ensures Skipped(ms + [m], |ms|) <==> Skipped(ms, |ms|)
  {
    assert forall i :: 0 <= i < |ms| ==> (ms + [m])[i] == ms[i];
  }

  lemma DeliveredOneMore(ms: seq<TsgMessage>, m: TsgMessage)
    ensures Delivered(ms + [m]) == Delivered(ms) + (if m.Data? && !Skipped(ms, |ms|) then Strip(m.data) else [])
  {
    SkippedInFront(ms, m);
    assert (ms + [m])[..|ms|] == ms;
  }

  /** Data ends a skip, ChannelCreate starts one, and they do not add up. */
  lemma SkipOneMore(ms: seq<TsgMessage>, m: TsgMessage)
    ensures Skipped(ms + [m], |ms| + 1) <==> m.ChannelCreate? || (!m.Data? && Skipped(ms, |ms|))
  {
    var s := ms + [m];
    assert s[|ms|] == m && forall i :: 0 <= i < |ms| ==> s[i] == ms[i];
    if m.ChannelCreate? {
      assert s[|ms|].ChannelCreate?;
    } else if !m.Data? && Skipped(ms, |ms|) {
      var j :| 0 <= j < |ms| && ms[j].ChannelCreate? && forall k :: j < k < |ms| ==> !ms[k].Data?;
      assert s[j].ChannelCreate? && forall k :: j < k < |s| ==> !s[k].Data?;
    }
  }

  // ---------- What each message asks for ----------

  datatype Next = GoOn | SkipData | Stop

  /** Nothing to do, bytes for the backend, or a reply for the client and how to go on after it. */
  datatype Work = Nothing | Skip | Forward(payload: seq<u8>) | Respond(reply: TsgMessage, next: Next)

  function WorkFor(m: TsgMessage, skip: bool): Work {
    match m
    case Data(data) => if skip then Skip else Forward(Strip(data))
    case Keepalive => Respond(Keepalive, GoOn)
    case CloseChannel(_) => Respond(CloseChannelResponse([]), Stop)
    case Unknown(t, payload) => if t == PIPE_SETUP then Respond(Unknown(t, payload), GoOn) else Nothing
    case ChannelCreate(_, _, _, _, _) => Respond(ChannelResponse(0, 1, 0, Some(1), None, None), SkipData)
    case _ => Nothing
  }

  // ---------- The two tasks ----------

  /** The WebSocket-to-backend task: waiting for a frame, inside a write, inside a queue send, or ended. */
  datatype Reader = Reading | Writing(payload: seq<u8>) | Replying(reply: TsgMessage, next: Next) | Done(failed: bool)

  /** A WebSocket message to the client: bytes the backend sent, or a control reply. */
  datatype Outgoing = Chunk(data: seq<u8>) | Control(m: TsgMessage)

  /** Its bytes. */
  function Wire(x: Outgoing): seq<u8> {
    match x
    case Chunk(data) => EncodeDataMessage(data)
    case Control(m) => Write(m)
  }

  /** The backend-to-WebSocket task: in its select, inside a send, or ended, maybe by a failed send. */
  datatype Writer = Selecting | Sending(x: Outgoing) | Finished(lost: seq<u8>)

  /** Both tasks, the queue between them, and what has passed at either end and onto the queue so far. */
  datatype State = State(
    consumed: seq<WsFrame>,
    reader: Reader,
    skip: bool,
    written: seq<u8>,
    posted: seq<TsgMessage>,
    queue: seq<TsgMessage>,
    writer: Writer,
    chunks: seq<seq<u8>>,
    sink: seq<Outgoing>)

  function Initial(first: seq<u8>): State {
    State([], Reading, false, Strip(first), [], [], Selecting, [], [])
  }

  datatype Action =
    | WebSocketYields(frame: WsFrame)
    | BackendTakes
    | BackendRefuses(n: nat)
    | QueueTakes
    | BackendYields(chunk: seq<u8>)
    | BackendEnds
    | QueueYields
    | ClientTakes
    | ClientRefuses

  predicate Enabled(s: State, a: Action) {
    match a
    case WebSocketYields(_) => s.reader.Reading?
    case BackendTakes => s.reader.Writing?
    case BackendRefuses(n) => s.reader.Writing? && n <= |s.reader.payload|
    case QueueTakes => s.reader.Replying? && (|s.queue| < QUEUE_SIZE || s.writer.Finished?)
    case BackendYields(chunk) => s.writer.Selecting? && 1 <= |chunk| <= READ_SIZE
    case BackendEnds => s.writer.Selecting?
    case QueueYields => s.writer.Selecting? && s.queue != []
    case ClientTakes => s.writer.Sending?
    case ClientRefuses => s.writer.Sending?
  }

  function AfterWork(s: State, w: Work): State {
    match w
    case Nothing => s
    case Skip => s.(skip := false)
    case Forward(payload) => s.(reader := Writing(payload))
    case Respond(reply, next) => s.(reader := Replying(reply, next))
  }

  /** What a frame makes of the reader; a close frame, an error and the end all end it. */
  function AfterFrame(s: State, f: WsFrame): State {
    if Ends(f) then s.(reader := Done(false))
    else if f.Binary? && ParseMessage(f.data).Ok? then AfterWork(s, WorkFor(ParseMessage(f.data).value, s.skip))
    else s
  }

  /** One step of one task. A writer that ends drops the queue; sends to a dropped queue are ignored. */
  function Apply(s: State, a: Action): State
    requires Enabled(s, a)
  {
    match a
    case WebSocketYields(f) => AfterFrame(s.(consumed := s.consumed + [f]), f)
    case BackendTakes => s.(written := s.written + s.reader.payload, reader := Reading)
    case BackendRefuses(n) => s.(written := s.written + s.reader.payload[..n], reader := Done(true))
    case QueueTakes =>
      s.(queue := if s.writer.Finished? then s.queue else s.queue + [s.reader.reply],
         posted := if s.writer.Finished? then s.posted else s.posted + [s.reader.reply],
         reader := if s.reader.next == Stop then Done(false) else Reading,
         skip := s.skip || s.reader.next == SkipData)
    case BackendYields(chunk) => s.(chunks := s.chunks + [chunk], writer := Sending(Chunk(chunk)))
    case BackendEnds => s.(writer := Finished([]), queue := [])
    case QueueYields => s.(writer := Sending(Control(s.queue[0])), queue := s.queue[1..])
    case ClientTakes => s.(sink := s.sink + [s.writer.x], writer := Selecting)
    case ClientRefuses => s.(writer := Finished(if s.writer.x.Chunk? then s.writer.x.data else []), queue := [])
  }

  /** The states a run passes through when its actions are taken in order. */
  ghost predicate IsRun(first: seq<u8>, states: seq<State>, actions: seq<Action>) {
    && |states| == |actions| + 1 && states[0] == Initial(first)
    && forall i :: 0 <= i < |actions| ==> Enabled(states[i], actions[i]) && states[i + 1] == Apply(states[i], actions[i])
  }

  // ---------- What every step keeps ----------

  function DataIn(sink: seq<Outgoing>): seq<u8> {
    if sink == [] then []
    else DataIn(sink[..|sink| - 1]) + (if sink[|sink| - 1].Chunk? then sink[|sink| - 1].data else [])
  }

  function ControlsIn(sink: seq<Outgoing>): seq<TsgMessage> {
    if sink == [] then []
    else ControlsIn(sink[..|sink| - 1]) + (if sink[|sink| - 1].Control? then [sink[|sink| - 1].m] else [])
  }

  /** Backend bytes read but not at the client, nor ever to be once the send has failed. */
  function Unsent(w: Writer): seq<u8> {
    match w
    case Sending(Chunk(data)) => data
    case Finished(lost) => lost
    case _ => []
  }

  /** Replies on their way from one task to the client. */
  function InFlight(s: State): seq<TsgMessage> {
    (if s.writer.Sending? && s.writer.x.Control? then [s.writer.x.m] else []) + s.queue
    + (if s.reader.Replying? then [s.reader.reply] else [])
  }

  predicate SizesKept(s: State) {
    && |s.queue| <= QUEUE_SIZE
    && (forall c :: c in s.chunks ==> 1 <= |c| <= READ_SIZE)
    && (s.writer.Sending? && s.writer.x.Chunk? ==> |s.writer.x.data| <= READ_SIZE)
    && forall x :: x in s.sink && x.Chunk? ==> |x.data| <= READ_SIZE
  }

  predicate DataKept(s: State) {
    DataIn(s.sink) + Unsent(s.writer) == Flatten(s.chunks)
  }

  predicate ControlsKept(s: State, ms: seq<TsgMessage>) {
    if s.writer.Finished? then ControlsIn(s.sink) <= Owed(ms) else ControlsIn(s.sink) + InFlight(s) == Owed(ms)
  }

  ghost predicate BackendKept(s: State, ms: seq<TsgMessage>, first: seq<u8>) {
    var due := Strip(first) + Delivered(ms);
    match s.reader
    case Writing(payload) => s.written + payload == due
    case Done(failed) => if failed then s.written <= due else s.written == due
    case _ => s.written == due
  }

  ghost predicate SkipKept(s: State, ms: seq<TsgMessage>) {
    !s.reader.Done? ==> (s.skip || (s.reader.Replying? && s.reader.next == SkipData) <==> Skipped(ms, |ms|))
  }

  ghost predicate Invariant(s: State, first: seq<u8>) {
    var ms := MessagesOf(s.consumed);
    SizesKept(s) && DataKept(s) && ControlsKept(s, ms) && BackendKept(s, ms, first) && SkipKept(s, ms)
  }

  lemma SinkOneMore(sink: seq<Outgoing>, x: Outgoing)
    ensures DataIn(sink + [x]) == DataIn(sink) + (if x.Chunk? then x.data else [])
    ensures ControlsIn(sink + [x]) == ControlsIn(sink) + (if x.Control? then [x.m] else [])
  {
    assert (sink + [x])[..|sink|] == sink;
  }

  lemma FlattenSnoc(parts: seq<seq<u8>>, last: seq<u8>)
    ensures Flatten(parts + [last]) == Flatten(parts) + last
  {
    FlattenAppend(parts, [last]);
    assert Flatten([last]) == last + Flatten([last][1..]) == last;
  }

  lemma WorkMeans(m: TsgMessage, skip: bool)
    ensures var w := WorkFor(m, skip);
            && Reply(m) == (if w.Respond? then [w.reply] else [])
            && (w.Respond? ==> !m.Data?) && (w.Respond? && w.next == SkipData <==> m.ChannelCreate?)
            && (w.Skip? <==> m.Data? && skip)
            && (w.Forward? <==> m.Data? && !skip) && (w.Forward? ==> w.payload == Strip(m.data))
  {
  }

  lemma WorkInFlight(s: State, w: Work)
    requires s.reader.Reading?
    ensures InFlight(AfterWork(s, w)) == InFlight(s) + (if w.Respond? then [w.reply] else [])
  {
  }

  lemma WorkKeepsControls(s: State, ms: seq<TsgMessage>, m: TsgMessage, w: Work)
    requires ControlsKept(s, ms) && s.reader.Reading? && w == WorkFor(m, s.skip)
    ensures ControlsKept(AfterWork(s, w), ms + [m])
  {
    OwedOneMore(ms, m);
    WorkMeans(m, s.skip);
    WorkInFlight(s, w);
    Associate(ControlsIn(s.sink), InFlight(s), Reply(m));
  }

  lemma WorkKeepsBackend(s: State, ms: seq<TsgMessage>, first: seq<u8>, m: TsgMessage, w: Work)
    requires BackendKept(s, ms, first) && SkipKept(s, ms) && s.reader.Reading? && w == WorkFor(m, s.skip)
    ensures BackendKept(AfterWork(s, w), ms + [m], first) && SkipKept(AfterWork(s, w), ms + [m])
  {
    DeliveredOneMore(ms, m);
    SkipOneMore(ms, m);
    WorkMeans(m, s.skip);
    Associate(Strip(first), Delivered(ms), if w.Forward? then w.payload else []);
  }

  /** A message the reader works on keeps both promises to what the messages ask for. */
  lemma WorkKeeps(s: State, ms: seq<TsgMessage>, first: seq<u8>, m: TsgMessage, w: Work)
    requires ControlsKept(s, ms) && BackendKept(s, ms, first) && SkipKept(s, ms) && s.reader.Reading?
    requires w == WorkFor(m, s.skip)
    ensures var t := AfterWork(s, w);
            ControlsKept(t, ms + [m]) && BackendKept(t, ms + [m], first) && SkipKept(t, ms + [m])
  {
    WorkKeepsControls(s, ms, m, w);
    WorkKeepsBackend(s, ms, first, m, w);
  }

  /** A frame without a message changes nothing but whether the reader goes on. */
  lemma IdleFrameKeeps(s: State, ms: seq<TsgMessage>, first: seq<u8>, t: State)
    requires ControlsKept(s, ms) && BackendKept(s, ms, first) && SkipKept(s, ms) && s.reader.Reading?
    requires t == s || t == s.(reader := Done(false))
    ensures ControlsKept(t, ms) && BackendKept(t, ms, first) && SkipKept(t, ms)
  {
    assert InFlight(t) == InFlight(s);
  }

  lemma FrameMeans(s: State, f: WsFrame)
    ensures |MessageIn(f)| <= 1
    ensures MessageIn(f) == [] ==> AfterFrame(s, f) == s || AfterFrame(s, f) == s.(reader := Done(false))
    ensures MessageIn(f) != [] ==> AfterFrame(s, f) == AfterWork(s, WorkFor(MessageIn(f)[0], s.skip))
  {
  }

  lemma InFlightSame(s: State, t: State)
    requires s.writer == t.writer && s.queue == t.queue && s.reader == t.reader
    ensures InFlight(s) == InFlight(t)
  {
  }

  lemma FrameWorks(s: State, ms: seq<TsgMessage>, first: seq<u8>, now: seq<TsgMessage>, t: State)
    requires ControlsKept(s, ms) && BackendKept(s, ms, first) && SkipKept(s, ms) && s.reader.Reading? && |now| <= 1
    requires now == [] ==> t == s || t == s.(reader := Done(false))
    requires now != [] ==> t == AfterWork(s, WorkFor(now[0], s.skip))
    ensures ControlsKept(t, ms + now) && BackendKept(t, ms + now, first) && SkipKept(t, ms + now)
  {
    if now == [] {
      IdleFrameKeeps(s, ms, first, t);
      assert ms + now == ms;
    } else {
      WorkKeeps(s, ms, first, now[0], WorkFor(now[0], s.skip));
      assert now == [now[0]];
    }
  }

  lemma WorkKeepsData(s: State, w: Work)
    requires SizesKept(s) && DataKept(s)
    ensures SizesKept(AfterWork(s, w)) && DataKept(AfterWork(s, w))
    ensures AfterWork(s, w).consumed == s.consumed
  {
  }

  lemma FrameKeepsData(s: State, f: WsFrame)
    requires SizesKept(s) && DataKept(s) && s.reader.Reading?
    ensures var t := Apply(s, WebSocketYields(f)); SizesKept(t) && DataKept(t) && t.consumed == s.consumed + [f]
  {
    var s1 := s.(consumed := s.consumed + [f]);
    FrameMeans(s1, f);
    if MessageIn(f) != [] {
      WorkKeepsData(s1, WorkFor(MessageIn(f)[0], s.skip));
    }
  }

  lemma FrameKeeps(s: State, first: seq<u8>, f: WsFrame)
    requires Invariant(s, first) && s.reader.Reading?
    ensures Invariant(Apply(s, WebSocketYields(f)), first)
  {
    OneFrameMore(s.consumed, f);
    var s1 := s.(consumed := s.consumed + [f]);
    InFlightSame(s, s1);
    FrameMeans(s1, f);
    FrameKeepsData(s, f);
    FrameWorks(s1, MessagesOf(s.consumed), first, MessageIn(f), AfterFrame(s1, f));
  }

  lemma StepKeepsSizes(s: State, a: Action)
    requires SizesKept(s) && Enabled(s, a) && !a.WebSocketYields?
    ensures SizesKept(Apply(s, a))
  {
  }

  lemma StepKeepsData(s: State, a: Action)
    requires DataKept(s) && Enabled(s, a) && !a.WebSocketYields?
    ensures DataKept(Apply(s, a))
  {
    match a
    case BackendYields(chunk) => FlattenSnoc(s.chunks, chunk);
    case ClientTakes => SinkOneMore(s.sink, s.writer.x);
    case _ =>
  }

  lemma MovesKeepInFlight(s: State, a: Action)
    requires Enabled(s, a) && !a.WebSocketYields? && !a.ClientTakes? && !a.ClientRefuses? && !a.BackendEnds?
    requires a.QueueTakes? ==> !s.writer.Finished?
    ensures InFlight(Apply(s, a)) == InFlight(s)
  {
  }

  lemma FlightTaken(s: State)
    requires s.writer.Sending?
    ensures InFlight(s) == (if s.writer.x.Control? then [s.writer.x.m] else []) + InFlight(Apply(s, ClientTakes))
  {
  }

  lemma TakenLeavesFlight(s: State, ms: seq<TsgMessage>)
    requires ControlsKept(s, ms) && s.writer.Sending?
    ensures ControlsKept(Apply(s, ClientTakes), ms)
  {
    SinkOneMore(s.sink, s.writer.x);
    FlightTaken(s);
    Associate(ControlsIn(s.sink), if s.writer.x.Control? then [s.writer.x.m] else [], InFlight(Apply(s, ClientTakes)));
  }

  lemma StepKeepsControls(s: State, ms: seq<TsgMessage>, a: Action)
    requires ControlsKept(s, ms) && Enabled(s, a) && !a.WebSocketYields?
    ensures ControlsKept(Apply(s, a), ms)
  {
    if a.ClientTakes? {
      TakenLeavesFlight(s, ms);
    } else if !s.writer.Finished? && !a.ClientRefuses? && !a.BackendEnds? {
      MovesKeepInFlight(s, a);
    }
  }

  lemma StepKeepsBackend(s: State, ms: seq<TsgMessage>, first: seq<u8>, a: Action)
    requires BackendKept(s, ms, first) && SkipKept(s, ms) && Enabled(s, a) && !a.WebSocketYields?
    ensures BackendKept(Apply(s, a), ms, first) && SkipKept(Apply(s, a), ms)
  {
  }

  lemma StepKeeps(s: State, first: seq<u8>, a: Action)
    requires Invariant(s, first) && Enabled(s, a) && !a.WebSocketYields?
    ensures Invariant(Apply(s, a), first)
  {
    var ms := MessagesOf(s.consumed);
    StepKeepsSizes(s, a);
    StepKeepsData(s, a);
    StepKeepsControls(s, ms, a);
    StepKeepsBackend(s, ms, first, a);
  }

  lemma {:induction false} RunKeepsInvariant(first: seq<u8>, states: seq<State>, actions: seq<Action>, i: nat)
    requires IsRun(first, states, actions) && i < |states|
    ensures Invariant(states[i], first)
  {
    if i > 0 {
      RunKeepsInvariant(first, states, actions, i - 1);
      var s, a := states[i - 1], actions[i - 1];
      if a.WebSocketYields? {
        FrameKeeps(s, first, a.frame);
      } else {
        StepKeeps(s, first, a);
      }
    }
  }
}
