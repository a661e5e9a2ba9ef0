/** A WebSocket session from its first frame on: handshake and relay put together. */
module WsSession {
  import opened Bytes
  import opened Wrappers
  import opened Messages
  import S = Session
  import opened WsHandshake
  import opened Relay
  import opened RelayProofs
  import opened RelayLoops

  // ---------- The reader of every interleaving is its loop ----------

  /** What has gone onto the queue is owed, and it is all that is owed as long as there is a queue. */
  predicate PostedKept(s: State, ms: seq<TsgMessage>) {
    && s.posted <= Owed(ms)
    && (!s.writer.Finished? ==> s.posted + (if s.reader.Replying? then [s.reader.reply] else []) == Owed(ms))
  }

  lemma WorkKeepsPosted(s: State, ms: seq<TsgMessage>, now: seq<TsgMessage>, t: State)
    requires PostedKept(s, ms) && s.reader.Reading? && |now| <= 1
    requires now == [] ==> t == s || t == s.(reader := Done(false))
    requires now != [] ==> t == AfterWork(s, WorkFor(now[0], s.skip))
    ensures PostedKept(t, ms + now)
  {
    if now == [] {
      assert ms + now == ms;
    } else {
      assert now == [now[0]];
      WorkMeans(now[0], s.skip);
      OwedOneMore(ms, now[0]);
    }
  }

  lemma FrameKeepsPosted(s: State, f: WsFrame)
    requires PostedKept(s, MessagesOf(s.consumed)) && s.reader.Reading?
    ensures var t := Apply(s, WebSocketYields(f)); PostedKept(t, MessagesOf(t.consumed))
  {
    var s1 := s.(consumed := s.consumed + [f]);
    OneFrameMore(s.consumed, f);
    FrameMeans(s1, f);
    WorkKeepsPosted(s1, MessagesOf(s.consumed), MessageIn(f), AfterFrame(s1, f));
    StillConsumed(s1, f);
  }

  lemma StillConsumed(s: State, f: WsFrame)
    ensures AfterFrame(s, f).consumed == s.consumed
  {
  }

  lemma StepKeepsPosted(s: State, ms: seq<TsgMessage>, a: Action)
    requires PostedKept(s, ms) && Enabled(s, a) && !a.WebSocketYields?
    ensures PostedKept(Apply(s, a), ms) && Apply(s, a).consumed == s.consumed
  {
  }

  lemma StepPosts(s: State, a: Action)
    requires PostedKept(s, MessagesOf(s.consumed)) && Enabled(s, a)
    ensures PostedKept(Apply(s, a), MessagesOf(Apply(s, a).consumed))
  {
    if a.WebSocketYields? {
      FrameKeepsPosted(s, a.frame);
    } else {
      StepKeepsPosted(s, MessagesOf(s.consumed), a);
    }
  }

  lemma {:induction false} RunKeepsPosted(first: seq<u8>, states: seq<State>, actions: seq<Action>, i: nat)
    requires IsRun(first, states, actions) && i < |states|
    ensures PostedKept(states[i], MessagesOf(states[i].consumed))
  {
    if i > 0 {
      RunKeepsPosted(first, states, actions, i - 1);
      StepPosts(states[i - 1], actions[i - 1]);
    }
  }

  lemma {:induction false} TakenIsFront(ms: seq<TsgMessage>, left: nat)
    ensures Taken(ms, left) == ms[..if |ms| < left then |ms| else left]
  {
    if ms != [] {
      var front := ms[..|ms| - 1];
      TakenIsFront(front, left);
      assert ms == front + [ms[|ms| - 1]];
    }
  }

  /**
   In every interleaving, a reader that has ended has read, written and put on the queue what its
   loop does alone: on the same frames, with a backend that breaks where this one did, if it did,
   and a queue whose receiver went away when this one's did, if it did.
   */
  lemma {:induction false} ReaderIsItsLoop(first: seq<u8>, states: seq<State>, actions: seq<Action>, i: nat)
    requires IsRun(first, states, actions) && i < |states| && states[i].reader.Done?
    ensures var s := states[i];
            var turn := if s.reader.failed then WriteFailed else Stopped;
            && EndedAt(s.consumed, |s.consumed|, turn)
            && exists cap: nat ::
                 Handed(MessagesOf(s.consumed), turn, Strip(first), s.written, |s.written|, [], s.posted, cap)
  {
    var s := states[i];
    RelayIsFaithful(first, states, actions, i);
    ReaderStopsExactly(first, states, actions, i);
    RunKeepsPosted(first, states, actions, i);
    EndFrom(s);
    var turn := if s.reader.failed then WriteFailed else Stopped;
    HandedFrom(MessagesOf(s.consumed), turn, Strip(first), s.written, s.posted);
  }

  lemma EndFrom(s: State)
    requires StopKept(s) && s.reader.Done?
    ensures EndedAt(s.consumed, |s.consumed|, if s.reader.failed then WriteFailed else Stopped)
  {
    assert s.consumed[..|s.consumed|] == s.consumed;
  }

  lemma HandedFrom(ms: seq<TsgMessage>, turn: Turn, before: seq<u8>, written: seq<u8>, posted: seq<TsgMessage>)
    requires posted <= Owed(ms)
    requires if turn == WriteFailed then written <= before + Delivered(ms) else written == before + Delivered(ms)
    ensures Handed(ms, turn, before, written, |written|, [], posted, |posted|)
  {
    PostedIsTaken(Owed(ms), posted);
  }

  lemma PostedIsTaken(owed: seq<TsgMessage>, posted: seq<TsgMessage>)
    requires posted <= owed
    ensures posted == [] + Taken(owed, |posted|)
  {
    TakenIsFront(owed, |posted|);
    assert [] + Taken(owed, |posted|) == posted;
  }

  // ---------- Handshake and relay ----------

  lemma OwedAppend(ms: seq<TsgMessage>, ns: seq<TsgMessage>)
    ensures Owed(ms + ns) == Owed(ms) + Owed(ns)
    decreases |ns|
  {
    if ns == [] {
      assert ms + ns == ms && Owed(ms) + Owed(ns) == Owed(ms);
    } else {
      var front, m := ns[..|ns| - 1], ns[|ns| - 1];
      assert ns == front + [m];
      Associate(ms, front, [m]);
      OwedAppend(ms, front);
      OwedOneMore(ms + front, m);
      OwedOneMore(front, m);
      Associate(Owed(ms), Owed(front), Reply(m));
    }
  }

  /** `j` opens the skip that reaches `i`. */
  predicate Opens(ms: seq<TsgMessage>, i: nat, j: nat)
    requires i <= |ms|
  {
    j < i && ms[j].ChannelCreate? && forall k :: j < k < i ==> !ms[k].Data?
  }

  lemma OpensShifted(d: TsgMessage, ms: seq<TsgMessage>, i: nat, j: nat)
    requires i <= |ms|
    ensures Opens([d] + ms, i + 1, j + 1) <==> Opens(ms, i, j)
  {
    var all := [d] + ms;
    assert forall k :: 0 <= k < |ms| ==> all[k + 1] == ms[k];
    if Opens(all, i + 1, j + 1) {
      forall k | j < k < i ensures !ms[k].Data? {
        assert !all[k + 1].Data?;
      }
    }
  }

  lemma SkippedMeans(ms: seq<TsgMessage>, i: nat)
    requires i <= |ms|
    ensures Skipped(ms, i) <==> exists j: nat :: Opens(ms, i, j)
  {
    if Skipped(ms, i) {
      var j :| 0 <= j < i && ms[j].ChannelCreate? && forall k :: j < k < i ==> !ms[k].Data?;
      assert Opens(ms, i, j);
    }
  }

  /** A Data in front skips nothing behind it. */
  lemma SkippedBehindData(d: TsgMessage, ms: seq<TsgMessage>, i: nat)
    requires d.Data? && i <= |ms|
    ensures Skipped([d] + ms, i + 1) <==> Skipped(ms, i)
  {
    SkippedMeans(ms, i);
    SkippedMeans([d] + ms, i + 1);
    if Skipped(ms, i) {
      var j: nat :| Opens(ms, i, j);
      OpensShifted(d, ms, i, j);
    }
    if Skipped([d] + ms, i + 1) {
      var j: nat :| Opens([d] + ms, i + 1, j);
      assert j > 0;
      OpensShifted(d, ms, i, j - 1);
    }
  }

  lemma DeliveredFirst(d: TsgMessage)
    requires d.Data?
    ensures Delivered([d]) == Strip(d.data)
  {
    DeliveredOneMore([], d);
    assert [] + [d] == [d] && !Skipped([], 0) && [] + Strip(d.data) == Strip(d.data);
  }

  lemma DeliveredStep(d: TsgMessage, front: seq<TsgMessage>, m: TsgMessage)
    requires d.Data? && Delivered([d] + front) == Strip(d.data) + Delivered(front)
    ensures Delivered([d] + front + [m]) == Strip(d.data) + Delivered(front + [m])
  {
    DeliveredOneMore([d] + front, m);
    DeliveredOneMore(front, m);
    SkippedBehindData(d, front, |front|);
    Associate(Strip(d.data), Delivered(front), if m.Data? && !Skipped(front, |front|) then Strip(m.data) else []);
  }

  lemma {:induction false} DeliveredBehindData(d: TsgMessage, ms: seq<TsgMessage>)
    requires d.Data?
    ensures Delivered([d] + ms) == Strip(d.data) + Delivered(ms)
    decreases |ms|
  {
    if ms == [] {
      DeliveredFirst(d);
      assert [d] + ms == [d] && Strip(d.data) + Delivered(ms) == Strip(d.data);
    } else {
      var front, m := ms[..|ms| - 1], ms[|ms| - 1];
      assert ms == front + [m];
      DeliveredBehindData(d, front);
      DeliveredStep(d, front, m);
      Associate([d], front, [m]);
    }
  }

  lemma {:induction false} ControlsAppend(a: seq<seq<u8>>, b: seq<seq<u8>>)
    ensures Controls(a + b) == Controls(a) + Controls(b) && BackendBytes(a + b) == BackendBytes(a) + BackendBytes(b)
    decreases |b|
  {
    if b == [] {
      assert a + b == a;
      assert Controls(a) + Controls(b) == Controls(a) && BackendBytes(a) + BackendBytes(b) == BackendBytes(a);
    } else {
      var front, x := b[..|b| - 1], b[|b| - 1];
      assert b == front + [x];
      Associate(a, front, [x]);
      ControlsAppend(a, front);
      WireSnoc(a + front, x);
      WireSnoc(front, x);
      Associate(Controls(a), Controls(front), ControlOf(x));
      Associate(BackendBytes(a), BackendBytes(front), DataOf(x));
    }
  }

  /** The handshake's replies are control messages of the types that answer its requests. */
  predicate AnsweredBy(replies: seq<TsgMessage>, ms: seq<TsgMessage>) {
    |replies| <= |ms| && forall k :: 0 <= k < |replies| ==> TypeCode(replies[k]) == TypeCode(ms[k]) + 1
  }

  lemma ReplyIsControl(b: seq<u8>, m: TsgMessage)
    requires RepliesTo(b, m) && (m.HandshakeRequest? || m.TunnelCreate? || m.TunnelAuth? || m.ChannelCreate?)
    ensures |ControlOf(b)| == 1 && TypeCode(ControlOf(b)[0]) == TypeCode(m) + 1 && DataOf(b) == []
  {
  }

  lemma OneAnswerMore(replies: seq<TsgMessage>, c: seq<TsgMessage>, ms: seq<TsgMessage>)
    requires AnsweredBy(replies, ms) && |replies| < |ms| && |c| == 1 && TypeCode(c[0]) == TypeCode(ms[|replies|]) + 1
    ensures AnsweredBy(replies + c, ms)
  {
  }

  lemma WireTo(wire: seq<seq<u8>>, n: nat)
    requires 0 < n <= |wire|
    ensures Controls(wire[..n]) == Controls(wire[..n - 1]) + ControlOf(wire[n - 1])
    ensures BackendBytes(wire[..n]) == BackendBytes(wire[..n - 1]) + DataOf(wire[n - 1])
  {
    assert wire[..n] == wire[..n - 1] + [wire[n - 1]];
    WireSnoc(wire[..n - 1], wire[n - 1]);
  }

  /** The first `n` frames of the greeting read as answers to the first `n` messages. */
  predicate GreetedTo(sent: seq<seq<u8>>, ms: seq<TsgMessage>, n: nat) {
    n <= |sent| && |Controls(sent[..n])| == n && AnsweredBy(Controls(sent[..n]), ms) && BackendBytes(sent[..n]) == []
  }

  lemma GreetedOneMore(sent: seq<seq<u8>>, ms: seq<TsgMessage>, n: nat, c: seq<TsgMessage>, d: seq<u8>)
    requires 0 < n <= |sent| && n <= |ms| && GreetedTo(sent, ms, n - 1)
    requires Controls(sent[..n]) == Controls(sent[..n - 1]) + c && BackendBytes(sent[..n]) == BackendBytes(sent[..n - 1]) + d
    requires |c| == 1 && TypeCode(c[0]) == TypeCode(ms[n - 1]) + 1 && d == []
    ensures GreetedTo(sent, ms, n)
  {
    OneAnswerMore(Controls(sent[..n - 1]), c, ms);
  }

  lemma HandshakeAt(ms: seq<TsgMessage>, k: nat)
    requires k < |ms| && k < 4 && S.InOrder(ms)
    ensures ms[k].HandshakeRequest? || ms[k].TunnelCreate? || ms[k].TunnelAuth? || ms[k].ChannelCreate?
  {
  }

  lemma ReplyMeans(b: seq<u8>, m: TsgMessage) returns (c: seq<TsgMessage>, d: seq<u8>)
    requires RepliesTo(b, m) && (m.HandshakeRequest? || m.TunnelCreate? || m.TunnelAuth? || m.ChannelCreate?)
    ensures c == ControlOf(b) && d == DataOf(b) && |c| == 1 && TypeCode(c[0]) == TypeCode(m) + 1 && d == []
  {
    c, d := ControlOf(b), DataOf(b);
    ReplyIsControl(b, m);
  }

  lemma ReplyAt(sent: seq<seq<u8>>, ms: seq<TsgMessage>, n: nat) returns (c: seq<TsgMessage>, d: seq<u8>)
    requires 0 < n <= |sent| <= 4 && AllReplied(sent, ms) && S.InOrder(ms)
    ensures Controls(sent[..n]) == Controls(sent[..n - 1]) + c && BackendBytes(sent[..n]) == BackendBytes(sent[..n - 1]) + d
    ensures |c| == 1 && TypeCode(c[0]) == TypeCode(ms[n - 1]) + 1 && d == []
  {
    HandshakeAt(ms, n - 1);
    WireTo(sent, n);
    c, d := ReplyMeans(sent[n - 1], ms[n - 1]);
  }

  lemma {:induction false} GreetingControls(sent: seq<seq<u8>>, ms: seq<TsgMessage>, n: nat)
    requires n <= |sent| <= 4 && AllReplied(sent, ms) && S.InOrder(ms)
    ensures GreetedTo(sent, ms, n)
  {
    if n > 0 {
      GreetingControls(sent, ms, n - 1);
      var c, d := ReplyAt(sent, ms, n);
      GreetedOneMore(sent, ms, n, c, d);
    }
  }

  /** The client has got the responses of the handshake and then control replies, in order. */
  predicate ClientReplies(all: seq<TsgMessage>, controls: seq<TsgMessage>, s: State) {
    && |all| >= 5 && |controls| >= 4 && AnsweredBy(controls[..4], all)
    && controls[4..] <= Owed(all[4..])
    && (!s.writer.Finished? ==> controls[4..] + InFlight(s) == Owed(all[4..]))
  }

  /** The backend has got what the messages behind the handshake owe it, up to a write under way or broken off. */
  ghost predicate BackendDue(all: seq<TsgMessage>, s: State) {
    && |all| >= 5 && s.written <= Delivered(all[4..])
    && (s.reader.Reading? || s.reader.Replying? || s.reader == Done(false) ==> s.written == Delivered(all[4..]))
  }

  /** What client and backend have got in a session whose messages so far are `all`. */
  ghost predicate Served(all: seq<TsgMessage>, client: seq<seq<u8>>, s: State) {
    && |all| >= 5 && S.InOrder(all[..5])
    && BackendBytes(client) + Unsent(s.writer) == Flatten(s.chunks)
    && ClientReplies(all, Controls(client), s) && BackendDue(all, s)
  }

  lemma BackendServed(hs: seq<TsgMessage>, ms: seq<TsgMessage>, first: seq<u8>, s: State)
    requires |hs| == 5 && hs[4] == Data(first) && s.written <= Strip(first) + Delivered(ms)
    requires s.reader.Reading? || s.reader.Replying? || s.reader == Done(false) ==>
               s.written == Strip(first) + Delivered(ms)
    ensures BackendDue(hs + ms, s)
  {
    assert (hs + ms)[4..] == [hs[4]] + ms;
    DeliveredBehindData(hs[4], ms);
  }

  lemma RepliesServed(hs: seq<TsgMessage>, ms: seq<TsgMessage>, four: seq<TsgMessage>, more: seq<TsgMessage>, s: State)
    requires |hs| == 5 && hs[4].Data? && |four| == 4 && AnsweredBy(four, hs) && more <= Owed(ms)
    requires !s.writer.Finished? ==> more + InFlight(s) == Owed(ms)
    ensures ClientReplies(hs + ms, four + more, s)
  {
    assert (hs + ms)[4..] == [hs[4]] + ms;
    OwedOfData(hs[4], ms);
    ClientControls(four, more, hs, ms);
  }

  lemma ClientServed(hs: seq<TsgMessage>, sent: seq<seq<u8>>, wire: seq<seq<u8>>)
    requires |sent| == 4 && AllReplied(sent, hs) && S.InOrder(hs)
    ensures |Controls(sent)| == 4 && AnsweredBy(Controls(sent), hs)
    ensures Controls(sent + wire) == Controls(sent) + Controls(wire) && BackendBytes(sent + wire) == BackendBytes(wire)
  {
    GreetingControls(sent, hs, 4);
    assert sent[..4] == sent;
    ControlsAppend(sent, wire);
    assert [] + BackendBytes(wire) == BackendBytes(wire);
  }

  lemma ServedFrom(hs: seq<TsgMessage>, ms: seq<TsgMessage>, sent: seq<seq<u8>>, wire: seq<seq<u8>>, first: seq<u8>, s: State)
    requires |hs| == 5 && S.InOrder(hs) && hs[4] == Data(first) && |sent| == 4 && AllReplied(sent, hs)
    requires BackendBytes(wire) + Unsent(s.writer) == Flatten(s.chunks) && Controls(wire) <= Owed(ms)
    requires !s.writer.Finished? ==> Controls(wire) + InFlight(s) == Owed(ms)
    requires s.written <= Strip(first) + Delivered(ms)
    requires s.reader.Reading? || s.reader.Replying? || s.reader == Done(false) ==>
               s.written == Strip(first) + Delivered(ms)
    ensures Served(hs + ms, sent + wire, s)
  {
    ClientServed(hs, sent, wire);
    BackendServed(hs, ms, first, s);
    RepliesServed(hs, ms, Controls(sent), Controls(wire), s);
    assert (hs + ms)[..5] == hs;
  }

  lemma OwedOfData(d: TsgMessage, ms: seq<TsgMessage>)
    requires d.Data?
    ensures Owed([d] + ms) == Owed(ms)
  {
    OwedAppend([d], ms);
    OwedOneMore([], d);
    assert [] + [d] == [d] && [] + Owed(ms) == Owed(ms);
  }

  lemma ClientControls(four: seq<TsgMessage>, more: seq<TsgMessage>, hs: seq<TsgMessage>, ms: seq<TsgMessage>)
    requires |four| == 4 && |hs| == 5 && AnsweredBy(four, hs)
    ensures (four + more)[..4] == four && (four + more)[4..] == more && AnsweredBy(four, hs + ms)
  {
  }

  /** These have been read of the frames that come; having read the end counts as a failed frame. */
  predicate ReadsFrom(consumed: seq<WsFrame>, rest: seq<WsFrame>) {
    consumed <= rest || consumed == rest + [Failed]
  }

  lemma ReadsOn(front: seq<WsFrame>, consumed: seq<WsFrame>, rest: seq<WsFrame>)
    requires ReadsFrom(consumed, rest)
    ensures ReadsFrom(front + consumed, front + rest)
  {
    Associate(front, rest, [Failed]);
  }

  lemma StartedWith(start: Start, read: seq<WsFrame>, sent: seq<seq<u8>>)
    requires Started(start, read, sent)
    ensures var hs := MessagesOf(read);
            |hs| == 5 && S.InOrder(hs) && hs[4] == Data(start.first) && |sent| == 4 && AllReplied(sent, hs)
  {
  }

  lemma Halves(input: seq<WsFrame>, n: nat)
    requires n <= |input|
    ensures input[..n] + input[n..] == input
  {
  }

  /** The session whose greeting took the first `n` frames. */
  lemma SessionFrom(input: seq<WsFrame>, n: nat, start: Start, sent: seq<seq<u8>>,
                    states: seq<State>, actions: seq<Action>, i: nat)
    requires n <= |input| && Started(start, input[..n], sent) && start.rest == input[n..]
    requires IsRun(start.first, states, actions) && i < |states| && ReadsFrom(states[i].consumed, start.rest)
    ensures ReadsFrom(input[..n] + states[i].consumed, input)
    ensures Served(MessagesOf(input[..n] + states[i].consumed), sent + OnTheWire(states[i].sink), states[i])
  {
    var s, hs := states[i], MessagesOf(input[..n]);
    StartedWith(start, input[..n], sent);
    RelayIsFaithful(start.first, states, actions, i);
    MessagesAppend(input[..n], s.consumed);
    Halves(input, n);
    ReadsOn(input[..n], s.consumed, start.rest);
    ServedFrom(hs, MessagesOf(s.consumed), sent, OnTheWire(s.sink), start.first, s);
  }

  /**
   A whole session, from its first frame on, in every interleaving of the relay. The messages it
   has read are the handshake, the first Data and what the relay read; the client has got the
   four responses and then, merged, the backend's bytes in Data frames and the replies owed; the
   backend has got the stripped Data of every message from the first Data on, but for those
   that a later ChannelCreate skips.
   */
  lemma {:induction false} WholeSession(input: seq<WsFrame>, cap: nat, states: seq<State>, actions: seq<Action>, i: nat)
    requires var g := Greet(S.NEW_VIEW, [], input, cap);
             g.start.Relay? && IsRun(g.start.first, states, actions) && i < |states|
             && ReadsFrom(states[i].consumed, g.start.rest)
    ensures var g, s := Greet(S.NEW_VIEW, [], input, cap), states[i];
            exists n: nat ::
              && n <= |input| && g.start.rest == input[n..] && Started(g.start, input[..n], g.sent)
              && ReadsFrom(input[..n] + s.consumed, input)
              && Served(MessagesOf(input[..n] + s.consumed), g.sent + OnTheWire(s.sink), s)
  {
    var g := Greet(S.NEW_VIEW, [], input, cap);
    RelayStartsExactly(input, cap);
    var n: nat :| n <= |input| && g.start.rest == input[n..] && Started(g.start, input[..n], g.sent);
    SessionFrom(input, n, g.start, g.sent, states, actions, i);
  }
}
