/** The WebSocket session up to the relay: TSG messages are answered until the first Data arrives. */
module WsHandshake {
  import opened Bytes
  import opened OutStreams
  import opened Wrappers
  import opened Utf16
  import opened Messages
  import opened MessageProofs
  import opened Session

  /** What the WebSocket yields; after `Close`, `Failed` or the end of the list nothing more is read. */
  datatype WsFrame = Binary(data: seq<u8>) | Ping | Other | Close | Failed

  predicate Ends(f: WsFrame) { f.Close? || f.Failed? }

  /** The messages in the binary frames, as far as they parse. */
  function MessagesOf(frames: seq<WsFrame>): seq<TsgMessage> {
    if frames == [] then []
    else MessagesOf(frames[..|frames| - 1]) + MessageIn(frames[|frames| - 1])
  }

  function MessageIn(f: WsFrame): seq<TsgMessage> {
    if f.Binary? && ParseMessage(f.data).Ok? then [ParseMessage(f.data).value] else []
  }

  /** How the session loop ends: in the relay, or with the connection dropped. */
  datatype Start = Relay(host: Str, port: u16, first: seq<u8>, rest: seq<WsFrame>) | Dropped

  datatype Greeting = Greeting(session: View, sent: seq<seq<u8>>, start: Start)

  /** The session loop on the frames to come. */
  function Greet(v: View, sent: seq<seq<u8>>, frames: seq<WsFrame>, cap: nat): Greeting
    decreases |frames|
  {
    if frames == [] || Ends(frames[0]) then Greeting(v, sent, Dropped)
    else if !frames[0].Binary? then Greet(v, sent, frames[1..], cap)
    else
      match ParseMessage(frames[0].data)
      case Err(_) => Greeting(v, sent, Dropped)
      case Ok(m) =>
        if v.state == DataTransfer && m.Data? then
          Greeting(v, sent, Relay(v.targetHost.GetOr([]), v.targetPort.GetOr(3389), m.data, frames[1..]))
        else
          match ReplyTo(v, m)
          case Err(_) => Greeting(Step(v, m), sent, Dropped)
          case Ok(None) => Greet(Step(v, m), sent, frames[1..], cap)
          case Ok(Some(reply)) =>
            if |sent| < cap then Greet(Step(v, m), sent + [reply], frames[1..], cap)
            else Greeting(Step(v, m), sent, Dropped)
  }

  /** The loop of `handle_ws_session_tungstenite` before the relay. */
  method ServeHandshake(input: seq<WsFrame>, session: GatewaySession, sink: OutStream<seq<u8>>) returns (start: Start)
    modifies session, sink
    ensures Greeting(session.Now(), sink.sent, start) == Greet(old(session.Now()), old(sink.sent), input, sink.cap)
  {
    var frames := input;
    while frames != []
      invariant Greet(session.Now(), sink.sent, frames, sink.cap) == Greet(old(session.Now()), old(sink.sent), input, sink.cap)
      decreases |frames|
    {
      if Ends(frames[0]) {
        return Dropped;
      }
      if frames[0].Binary? {
        var parsed := ParseMessage(frames[0].data);
        if parsed.Err? {
          return Dropped;
        }
        var m := parsed.value;
        if session.state == DataTransfer && m.Data? {
          return Relay(session.targetHost.GetOr([]), session.targetPort.GetOr(3389), m.data, frames[1..]);
        }
        var reply := session.ProcessMessage(m);
        if reply.Err? {
          return Dropped;
        }
        if reply.value.Some? {
          var ok := sink.SendFrame(reply.value.value);
          if !ok {
            return Dropped;
          }
        }
      }
      frames := frames[1..];
    }
    start := Dropped;
  }

  // ---------- When the relay starts ----------

  /** Nothing in these frames ends the loop by itself: no close, no error, no message that does not parse. */
  predicate Calm(frames: seq<WsFrame>) {
    forall f :: f in frames ==> !Ends(f) && (f.Binary? ==> ParseMessage(f.data).Ok?)
  }

  /** Frames up to and including the first Data of a completed handshake. */
  predicate Completes(frames: seq<WsFrame>) {
    && Calm(frames) && |MessagesOf(frames)| == 5 && InOrder(MessagesOf(frames))
    && frames != [] && MessageIn(frames[|frames| - 1]) != []
  }

  lemma OneFrameMore(done: seq<WsFrame>, f: WsFrame)
    ensures MessagesOf(done + [f]) == MessagesOf(done) + MessageIn(f)
    ensures Calm(done + [f]) <==> Calm(done) && !Ends(f) && (f.Binary? ==> ParseMessage(f.data).Ok?)
  {
    assert (done + [f])[..|done|] == done;
    assert f in done + [f] && forall g :: g in done + [f] <==> g in done || g == f;
  }

  predicate RepliesTo(b: seq<u8>, m: TsgMessage) {
    ParseMessage(b).Ok? && TypeCode(ParseMessage(b).value) == TypeCode(m) + 1
  }

  predicate AllReplied(sent: seq<seq<u8>>, ms: seq<TsgMessage>) {
    |sent| <= |ms| && forall i :: 0 <= i < |sent| ==> RepliesTo(sent[i], ms[i])
  }

  /** Frames behind which the handshake is under way, or complete but for the first Data. */
  predicate UnderWay(done: seq<WsFrame>, sent: seq<seq<u8>>) {
    var ms := MessagesOf(done);
    Calm(done) && InOrder(ms) && |ms| <= 4 && |sent| == |ms| && AllReplied(sent, ms)
  }

  /** What the session does with one message before the first Data. */
  lemma SessionNext(ms: seq<TsgMessage>, m: TsgMessage, r: Reply)
    requires InOrder(ms) && |ms| <= 4 && r == ReplyTo(Expected(ms), m)
    ensures Expected(ms).state == DataTransfer <==> |ms| == 4
    ensures r.Ok? <==> InOrder(ms + [m])
    ensures r.Ok? && !(|ms| == 4 && m.Data?) ==>
              r.value.Some? && RepliesTo(r.value.value, m) && |ms| < 4 && Step(Expected(ms), m) == Expected(ms + [m])
  {
    OneMore(ms, m);
    RepliesParse(Expected(ms), m, r);
  }

  lemma ReplyAdded(done: seq<WsFrame>, sent: seq<seq<u8>>, f: WsFrame, m: TsgMessage, b: seq<u8>)
    requires UnderWay(done, sent) && |MessagesOf(done)| < 4 && InOrder(MessagesOf(done) + [m]) && RepliesTo(b, m)
    requires MessageIn(f) == [m] && f.Binary?
    ensures UnderWay(done + [f], sent + [b]) && MessagesOf(done + [f]) == MessagesOf(done) + [m]
  {
    OneFrameMore(done, f);
  }

  lemma NextFrame(done: seq<WsFrame>, frames: seq<WsFrame>, n: nat)
    requires 0 < n <= |frames|
    ensures done + frames[..n] == done + [frames[0]] + frames[1..][..n - 1]
  {
  }

  lemma SkippedFrame(done: seq<WsFrame>, sent: seq<seq<u8>>, f: WsFrame)
    requires UnderWay(done, sent) && !Ends(f) && !f.Binary?
    ensures UnderWay(done + [f], sent) && MessagesOf(done + [f]) == MessagesOf(done)
  {
    OneFrameMore(done, f);
  }

  /** The relay the loop starts is that of the completed handshake it read. */
  ghost predicate Started(start: Start, read: seq<WsFrame>, sent: seq<seq<u8>>) {
    var ms := MessagesOf(read);
    start.Relay? && Completes(read) && start.host == ms[3].serverName && start.port == ms[3].port
    && start.first == ms[4].data && |sent| == 4 && AllReplied(sent, ms)
  }

  lemma HandshakeCompleted(done: seq<WsFrame>, sent: seq<seq<u8>>, f: WsFrame, m: TsgMessage)
    requires UnderWay(done, sent) && MessageIn(f) == [m] && f.Binary? && m.Data? && |MessagesOf(done)| == 4
    ensures Completes(done + [f]) && MessagesOf(done + [f]) == MessagesOf(done) + [m]
    ensures AllReplied(sent, MessagesOf(done + [f]))
  {
    OneFrameMore(done, f);
    OneMore(MessagesOf(done), m);
    assert (done + [f])[|done|] == f;
  }

  lemma FirstDataStarts(done: seq<WsFrame>, sent: seq<seq<u8>>, f: WsFrame, m: TsgMessage, start: Start)
    requires UnderWay(done, sent) && MessageIn(f) == [m] && f.Binary? && m.Data? && |MessagesOf(done)| == 4
    requires var v := Expected(MessagesOf(done));
             start.Relay? && Some(start.host) == v.targetHost && Some(start.port) == v.targetPort && start.first == m.data
    ensures Started(start, done + [f], sent)
  {
    HandshakeCompleted(done, sent, f, m);
  }

  // One turn of the loop, case by case.

  lemma TurnRelays(v: View, sent: seq<seq<u8>>, frames: seq<WsFrame>, cap: nat, m: TsgMessage)
    requires frames != [] && frames[0].Binary? && MessageIn(frames[0]) == [m]
    requires v.state == DataTransfer && m.Data?
    ensures Greet(v, sent, frames, cap)
            == Greeting(v, sent, Relay(v.targetHost.GetOr([]), v.targetPort.GetOr(3389), m.data, frames[1..]))
  {
  }

  lemma TurnReplies(v: View, sent: seq<seq<u8>>, frames: seq<WsFrame>, cap: nat, m: TsgMessage, r: Reply)
    requires frames != [] && frames[0].Binary? && MessageIn(frames[0]) == [m]
    requires !(v.state == DataTransfer && m.Data?) && r == ReplyTo(v, m)
    ensures r.Err? ==> Greet(v, sent, frames, cap).start == Dropped
    ensures r.Ok? && r.value.Some? && |sent| >= cap ==> Greet(v, sent, frames, cap).start == Dropped
    ensures r.Ok? && r.value.Some? && |sent| < cap ==>
              Greet(v, sent, frames, cap) == Greet(Step(v, m), sent + [r.value.value], frames[1..], cap)
  {
  }

  lemma TurnPasses(v: View, sent: seq<seq<u8>>, frames: seq<WsFrame>, cap: nat)
    requires frames == [] || MessageIn(frames[0]) == []
    ensures if frames != [] && !Ends(frames[0]) && !frames[0].Binary?
            then Greet(v, sent, frames, cap) == Greet(v, sent, frames[1..], cap)
            else Greet(v, sent, frames, cap).start == Dropped
  {
  }

  /** Nothing that comes behind this frame completes the handshake. */
  predicate Hopeless(done: seq<WsFrame>, f: WsFrame) {
    Ends(f) || (f.Binary? && ParseMessage(f.data).Err?) || !InOrder(MessagesOf(done) + MessageIn(f))
  }

  /** One turn while under way: it goes on with the next frame, or starts the relay, or drops. */
  lemma Turn(done: seq<WsFrame>, sent: seq<seq<u8>>, frames: seq<WsFrame>, cap: nat)
    returns (on: bool, sent': seq<seq<u8>>)
    requires UnderWay(done, sent)
    ensures on ==>
              && frames != [] && UnderWay(done + [frames[0]], sent')
              && Greet(Expected(MessagesOf(done)), sent, frames, cap)
                 == Greet(Expected(MessagesOf(done + [frames[0]])), sent', frames[1..], cap)
              && (sent' == sent || |sent'| <= cap)
    ensures !on ==>
              var g := Greet(Expected(MessagesOf(done)), sent, frames, cap);
              if g.start.Relay? then
                && frames != [] && g.start.rest == frames[1..] && g.sent == sent
                && Started(g.start, done + [frames[0]], sent)
              else frames == [] || Hopeless(done, frames[0]) || (|sent| < 4 && cap <= |sent|)
  {
    var v, ms := Expected(MessagesOf(done)), MessagesOf(done);
    on, sent' := false, sent;
    if frames == [] || MessageIn(frames[0]) == [] {
      TurnPasses(v, sent, frames, cap);
      on := frames != [] && !Ends(frames[0]) && !frames[0].Binary?;
      if on {
        SkippedFrame(done, sent, frames[0]);
      }
    } else {
      var m := MessageIn(frames[0])[0];
      var r := ReplyTo(v, m);
      SessionNext(ms, m, r);
      if |ms| == 4 && m.Data? {
        TurnRelays(v, sent, frames, cap, m);
        FirstDataStarts(done, sent, frames[0], m, Greet(v, sent, frames, cap).start);
      } else {
        TurnReplies(v, sent, frames, cap, m, r);
        on := r.Ok? && |sent| < cap;
        if on {
          sent' := sent + [r.value.value];
          ReplyAdded(done, sent, frames[0], m, r.value.value);
        }
      }
    }
  }

  /** The relay of `g` starts with the handshake that the first `n` of these frames complete. */
  ghost predicate GreetedAt(g: Greeting, done: seq<WsFrame>, frames: seq<WsFrame>, n: nat) {
    0 < n <= |frames| && g.start.Relay? && g.start.rest == frames[n..] && Started(g.start, done + frames[..n], g.sent)
  }

  lemma GreetedNow(g: Greeting, done: seq<WsFrame>, frames: seq<WsFrame>)
    requires frames != [] && g.start.Relay? && g.start.rest == frames[1..]
    requires Started(g.start, done + [frames[0]], g.sent)
    ensures GreetedAt(g, done, frames, 1)
  {
    assert frames[..1] == [frames[0]];
  }

  lemma GreetedLater(g: Greeting, done: seq<WsFrame>, frames: seq<WsFrame>, k: nat)
    requires frames != [] && GreetedAt(g, done + [frames[0]], frames[1..], k)
    ensures GreetedAt(g, done, frames, k + 1)
  {
    NextFrame(done, frames, k + 1);
    assert frames[1..][k..] == frames[k + 1..];
  }

  lemma {:induction false} RelayWasGreeted(done: seq<WsFrame>, sent: seq<seq<u8>>, frames: seq<WsFrame>, cap: nat)
    returns (n: nat)
    requires UnderWay(done, sent) && (sent == [] || |sent| <= cap)
    ensures var g := Greet(Expected(MessagesOf(done)), sent, frames, cap);
            g.start.Relay? ==> cap >= 4 && GreetedAt(g, done, frames, n)
    decreases |frames|
  {
    var g := Greet(Expected(MessagesOf(done)), sent, frames, cap);
    var on, sent' := Turn(done, sent, frames, cap);
    n := 1;
    if on {
      var k := RelayWasGreeted(done + [frames[0]], sent', frames[1..], cap);
      n := k + 1;
      if g.start.Relay? {
        GreetedLater(g, done, frames, k);
      }
    } else if g.start.Relay? {
      GreetedNow(g, done, frames);
    }
  }

  lemma LastApart(a: seq<WsFrame>, b: seq<WsFrame>)
    requires b != []
    ensures var n := |b| - 1;
            && MessagesOf(a + b) == MessagesOf(a + b[..n]) + MessageIn(b[n])
            && MessagesOf(b) == MessagesOf(b[..n]) + MessageIn(b[n])
  {
    var n := |b| - 1;
    assert (a + b)[..|a| + n] == a + b[..n];
  }

  lemma {:induction false} MessagesAppend(a: seq<WsFrame>, b: seq<WsFrame>)
    ensures MessagesOf(a + b) == MessagesOf(a) + MessagesOf(b)
  {
    if b == [] {
      assert a + b == a;
    } else {
      var n := |b| - 1;
      LastApart(a, b);
      MessagesAppend(a, b[..n]);
      Associate(MessagesOf(a), MessagesOf(b[..n]), MessageIn(b[n]));
    }
  }

  lemma CompletesNotHopeless(done: seq<WsFrame>, f: WsFrame, more: seq<WsFrame>)
    requires Completes(done + [f] + more)
    ensures !Hopeless(done, f)
  {
    var all := done + [f] + more;
    assert all[|done|] == f && f in all;
    OneFrameMore(done, f);
    MessagesAppend(done + [f], more);
    var ms := MessagesOf(done + [f]);
    assert forall i :: 0 <= i < |ms| ==> ms[i] == MessagesOf(all)[i];
  }

  lemma {:induction false} CompletedRelays(done: seq<WsFrame>, sent: seq<seq<u8>>, frames: seq<WsFrame>, cap: nat, n: nat)
    requires UnderWay(done, sent) && cap >= 4 && n <= |frames| && Completes(done + frames[..n])
    ensures Greet(Expected(MessagesOf(done)), sent, frames, cap).start.Relay?
    decreases |frames|
  {
    assert done + frames[..0] == done;
    NextFrame(done, frames, n);
    CompletesNotHopeless(done, frames[0], frames[1..][..n - 1]);
    var on, sent' := Turn(done, sent, frames, cap);
    if on {
      CompletedRelays(done + [frames[0]], sent', frames[1..], cap, n - 1);
    }
  }

  /**
   The relay starts exactly for a client whose messages are handshake, tunnel, authorization,
   channel, Data, with no frame before that Data that closes, fails or does not parse, while four
   replies can be sent. It gets the channel's host and port and that Data, the frames behind it
   are the relay's, and each of the four replies parses to the response of its request.
   */
  lemma {:induction false} RelayStartsExactly(frames: seq<WsFrame>, cap: nat)
    ensures var g := Greet(NEW_VIEW, [], frames, cap);
            && (g.start.Relay? <==> cap >= 4 && exists n: nat :: n <= |frames| && Completes(frames[..n]))
            && (g.start.Relay? ==>
                  exists n: nat :: n <= |frames| && g.start.rest == frames[n..] && Started(g.start, frames[..n], g.sent))
  {
    var k := RelayWasGreeted([], [], frames, cap);
    if Greet(NEW_VIEW, [], frames, cap).start.Relay? {
      assert [] + frames[..k] == frames[..k];
    }
    forall n: nat | n <= |frames| && Completes(frames[..n]) && cap >= 4
      ensures Greet(NEW_VIEW, [], frames, cap).start.Relay?
    {
      assert [] + frames[..n] == frames[..n];
      CompletedRelays([], [], frames, cap, n);
    }
  }
}
