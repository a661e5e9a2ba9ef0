/** What holds of every run of the PDU loop, however its body is cut into chunks. */
module RpcStreamProofs {
  import opened Bytes
  import opened Wrappers
  import opened RpcStream
  import Rpc
  import RpcLayout
  import Rts
  import V = VirtualConnections
  import S = Session
  import Opnums

  /** A PDU as its own header describes it: as long as its `frag_length`. */
  predicate IsPdu(p: seq<u8>) {
    Rpc.ParseHeader(p).Ok? && Rpc.ParseHeader(p).value.fragLength == |p|
  }

  predicate AllPdus(ps: seq<seq<u8>>) {
    forall p :: p in ps ==> IsPdu(p)
  }

  /** The loop without its second waiting loop, which a parsed header leaves nothing to wait for. */
  function Turn(st: RunState, b: seq<u8>, f: seq<Frame>, cap: nat): Outcome
  {
    if |b| < 16 then Outcome(st, [], if b == [] then None else Some(EndedInHeader), st)
    else
      match Rpc.ParseHeader(b)
      case Err(e) => Outcome(st, [], Some(BadHeader(e)), st)
      case Ok(h) =>
        HeaderHasPdu(b, f, h);
        match Handle(st, h.ptype, b[..h.fragLength], cap)
        case Err(e) => Outcome(st, [], Some(e), Left(st, h.ptype, b[..h.fragLength], cap))
        case Ok(next) => Behind([b[..h.fragLength]], Run(next, b[h.fragLength..], f, cap))
  }

  /** The wait for the rest of a PDU never reads a frame: the header is refused first. */
  lemma {:induction false} SecondWaitIsIdle(st: RunState, buf: seq<u8>, frames: seq<Frame>, cap: nat)
    ensures var (b, f) := Fill(buf, frames, 16);
            b + Received(f) == buf + Received(frames) && Run(st, buf, frames, cap) == Turn(st, b, f, cap)
  {
    FillKeepsBytes(buf, frames, 16);
    var (b, f) := Fill(buf, frames, 16);
    if |b| >= 16 && Rpc.ParseHeader(b).Ok? {
      HeaderHasPdu(b, f, Rpc.ParseHeader(b).value);
    }
  }

  // ---------- No byte is lost ----------

  lemma FlattenCons(p: seq<u8>, ps: seq<seq<u8>>)
    ensures Flatten([p] + ps) == p + Flatten(ps)
  {
    assert ([p] + ps)[1..] == ps;
  }

  lemma CutOff(p: seq<u8>, b: seq<u8>, r: seq<u8>, rest: seq<u8>, whole: bool)
    requires p <= b && rest <= b[|p|..] + r && (whole ==> rest == b[|p|..] + r)
    ensures p + rest <= b + r && (whole ==> p + rest == b + r)
  {
    assert b + r == p + (b[|p|..] + r);
  }

  lemma CutPdu(b: seq<u8>)
    requires Rpc.ParseHeader(b).Ok?
    ensures var p := b[..Rpc.ParseHeader(b).value.fragLength];
            IsPdu(p) && p <= b && Rpc.ParseHeader(p) == Rpc.ParseHeader(b)
  {
    Rpc.HeaderOfFragment(b, []);
  }

  /**
   The PDUs a run handles are, one after the other, the first bytes it received, each as long as
   its own header says; a run without error has handled every byte.
   */
  lemma {:induction false} NoByteLost(st: RunState, buf: seq<u8>, frames: seq<Frame>, cap: nat)
    ensures var o := Run(st, buf, frames, cap);
            && AllPdus(o.handled)
            && Flatten(o.handled) <= buf + Received(frames)
            && (o.error.None? ==> Flatten(o.handled) == buf + Received(frames))
    decreases |buf + Received(frames)|
  {
    SecondWaitIsIdle(st, buf, frames, cap);
    FillKeepsBytes(buf, frames, 16);
    var (b, f) := Fill(buf, frames, 16);
    if |b| >= 16 && Rpc.ParseHeader(b).Ok? {
      var h := Rpc.ParseHeader(b).value;
      CutPdu(b);
      var p := b[..h.fragLength];
      var step := Handle(st, h.ptype, p, cap);
      if step.Ok? {
        var rest := Run(step.value, b[|p|..], f, cap);
        assert |b[|p|..] + Received(f)| < |b + Received(f)|;
        NoByteLost(step.value, b[|p|..], f, cap);
        FlattenCons(p, rest.handled);
        CutOff(p, b, Received(f), Flatten(rest.handled), rest.error.None?);
      }
    }
  }

  lemma SameHead(p: seq<u8>, t: seq<u8>, q: seq<u8>, u: seq<u8>)
    requires IsPdu(p) && IsPdu(q) && p + t == q + u
    ensures p == q && t == u
  {
    Rpc.HeaderOfFragment(p, t);
    Rpc.HeaderOfFragment(q, u);
    assert p == (p + t)[..|p|] && t == (p + t)[|p|..];
    assert q == (q + u)[..|q|] && u == (q + u)[|q|..];
  }

  /** Bytes are cut into PDUs in one way only. */
  lemma {:induction false} FramingIsUnique(ps: seq<seq<u8>>, qs: seq<seq<u8>>)
    requires AllPdus(ps) && AllPdus(qs) && Flatten(ps) == Flatten(qs)
    ensures ps == qs
  {
    if ps != [] && qs != [] {
      SameHead(ps[0], Flatten(ps[1..]), qs[0], Flatten(qs[1..]));
      FramingIsUnique(ps[1..], qs[1..]);
      assert ps == [ps[0]] + ps[1..] && qs == [qs[0]] + qs[1..];
    } else if ps != [] {
      assert ps[0] in ps;
      Rpc.HeaderOfFragment(ps[0], []);
    } else if qs != [] {
      assert qs[0] in qs;
      Rpc.HeaderOfFragment(qs[0], []);
    }
  }

  // ---------- What the PDUs do, apart from how they came ----------

  /** Handling a list of PDUs in order. */
  function HandleAll(st: RunState, ps: seq<seq<u8>>, cap: nat): Result<RunState, RunError>
    requires AllPdus(ps)
  {
    if ps == [] then Ok(st)
    else
      var last := ps[|ps| - 1];
      assert last in ps;
      var before :- HandleAll(st, ps[..|ps| - 1], cap);
      Handle(before, Rpc.ParseHeader(last).value.ptype, last, cap)
  }

  lemma HandleAllSnoc(st: RunState, front: seq<seq<u8>>, last: seq<u8>, cap: nat)
    requires AllPdus(front) && IsPdu(last)
    ensures AllPdus(front + [last])
    ensures HandleAll(st, front + [last], cap) ==
            match HandleAll(st, front, cap)
            case Ok(before) => Handle(before, Rpc.ParseHeader(last).value.ptype, last, cap)
            case Err(e) => Err(e)
  {
    var ps := front + [last];
    assert ps[..|ps| - 1] == front && ps[|ps| - 1] == last;
  }

  lemma HandleOne(st: RunState, p: seq<u8>, cap: nat)
    requires IsPdu(p)
    ensures AllPdus([p]) && HandleAll(st, [p], cap) == Handle(st, Rpc.ParseHeader(p).value.ptype, p, cap)
  {
    HandleAllSnoc(st, [], p, cap);
    assert [] + [p] == [p];
  }

  lemma LastApart(ps: seq<seq<u8>>) returns (front: seq<seq<u8>>, last: seq<u8>)
    requires ps != [] && AllPdus(ps)
    ensures ps == front + [last] && front == ps[..|ps| - 1] && last == ps[|ps| - 1]
    ensures |front| < |ps| && AllPdus(front) && IsPdu(last)
  {
    front, last := ps[..|ps| - 1], ps[|ps| - 1];
    assert last in ps;
  }

  lemma ConsNone(st: RunState, p: seq<u8>, next: RunState, none: seq<seq<u8>>, cap: nat)
    requires IsPdu(p) && none == [] && Handle(st, Rpc.ParseHeader(p).value.ptype, p, cap) == Ok(next)
    ensures AllPdus(none) && AllPdus([p] + none) && HandleAll(st, [p] + none, cap) == HandleAll(next, none, cap)
  {
    assert [p] + none == [p];
    HandleOne(st, p, cap);
  }

  lemma ConsMore(st: RunState, p: seq<u8>, next: RunState, front: seq<seq<u8>>, last: seq<u8>, cap: nat)
    requires AllPdus(front) && AllPdus([p] + front) && IsPdu(last)
    requires HandleAll(st, [p] + front, cap) == HandleAll(next, front, cap)
    ensures AllPdus(front + [last]) && AllPdus([p] + (front + [last]))
    ensures HandleAll(st, [p] + (front + [last]), cap) == HandleAll(next, front + [last], cap)
  {
    Associate([p], front, [last]);
    HandleAllSnoc(st, [p] + front, last, cap);
    HandleAllSnoc(next, front, last, cap);
  }

  lemma {:induction false} HandleAllCons(st: RunState, p: seq<u8>, next: RunState, ps: seq<seq<u8>>, cap: nat)
    requires IsPdu(p) && AllPdus(ps)
    requires Handle(st, Rpc.ParseHeader(p).value.ptype, p, cap) == Ok(next)
    ensures AllPdus([p] + ps) && HandleAll(st, [p] + ps, cap) == HandleAll(next, ps, cap)
    decreases |ps|
  {
    if ps == [] {
      ConsNone(st, p, next, ps, cap);
    } else {
      var front, last := LastApart(ps);
      HandleAllCons(st, p, next, front, cap);
      ConsMore(st, p, next, front, last, cap);
    }
  }

  /** Every run comes to what its handled PDUs come to on their own. */
  lemma {:induction false} RunIsHandled(st: RunState, buf: seq<u8>, frames: seq<Frame>, cap: nat)
    ensures var o := Run(st, buf, frames, cap);
            AllPdus(o.handled) && HandleAll(st, o.handled, cap) == Ok(o.st)
    decreases |buf + Received(frames)|
  {
    NoByteLost(st, buf, frames, cap);
    SecondWaitIsIdle(st, buf, frames, cap);
    var (b, f) := Fill(buf, frames, 16);
    if |b| >= 16 && Rpc.ParseHeader(b).Ok? {
      var h := Rpc.ParseHeader(b).value;
      CutPdu(b);
      var p := b[..h.fragLength];
      var step := Handle(st, h.ptype, p, cap);
      if step.Ok? {
        assert |b[|p|..] + Received(f)| < |b + Received(f)|;
        RunIsHandled(step.value, b[|p|..], f, cap);
        HandleAllCons(st, p, step.value, Run(step.value, b[|p|..], f, cap).handled, cap);
      }
    }
  }

  /** Only the connection or the session can have moved since the last loop head, and only in a run that fails. */
  predicate LeavesOver(o: Outcome) {
    && o.left == o.st.(vconn := o.left.vconn, session := o.left.session)
    && (o.left.vconn == o.st.vconn || V.EnterDataTransfer(o.st.vconn) == Ok(o.left.vconn))
    && (o.left.session == o.st.session
        || exists opnum: u16 :: Opnums.ServeOpnum(opnum, o.st.session).Ok?
                                && Opnums.ServeOpnum(opnum, o.st.session).value.0 == o.left.session)
    && (o.error.None? ==> o.left == o.st)
  }

  lemma FailureLeaves(st: RunState, ptype: Rpc.RpcPduType, pdu: seq<u8>, cap: nat, handled: seq<seq<u8>>)
    requires Handle(st, ptype, pdu, cap).Err?
    ensures LeavesOver(Outcome(st, handled, Some(Handle(st, ptype, pdu, cap).error), Left(st, ptype, pdu, cap)))
  {
    var e := Handle(st, ptype, pdu, cap).error;
    if e == OutClosed && ptype == Rpc.Request {
      assert Opnums.ServeOpnum(Rpc.ParseRequest(pdu).value.opnum, st.session).Ok?;
    }
  }

  lemma {:induction false} RunLeaves(st: RunState, buf: seq<u8>, frames: seq<Frame>, cap: nat)
    ensures LeavesOver(Run(st, buf, frames, cap))
    decreases |buf + Received(frames)|
  {
    SecondWaitIsIdle(st, buf, frames, cap);
    var (b, f) := Fill(buf, frames, 16);
    if |b| >= 16 && Rpc.ParseHeader(b).Ok? {
      var h := Rpc.ParseHeader(b).value;
      CutPdu(b);
      var p := b[..h.fragLength];
      var step := Handle(st, h.ptype, p, cap);
      if step.Ok? {
        assert |b[|p|..] + Received(f)| < |b + Received(f)|;
        RunLeaves(step.value, b[|p|..], f, cap);
      } else {
        FailureLeaves(st, h.ptype, p, cap, []);
      }
    }
  }

  /** Two successful runs over the same bytes, however chunked, handle the same PDUs to the same effect. */
  lemma {:induction false} ChunkingsAgree(st: RunState, buf: seq<u8>, frames: seq<Frame>,
                                          buf': seq<u8>, frames': seq<Frame>, cap: nat)
    requires buf + Received(frames) == buf' + Received(frames')
    requires Run(st, buf, frames, cap).error.None? && Run(st, buf', frames', cap).error.None?
    ensures Run(st, buf, frames, cap) == Run(st, buf', frames', cap)
  {
    NoByteLost(st, buf, frames, cap);
    NoByteLost(st, buf', frames', cap);
    FramingIsUnique(Run(st, buf, frames, cap).handled, Run(st, buf', frames', cap).handled);
    RunIsHandled(st, buf, frames, cap);
    RunIsHandled(st, buf', frames', cap);
    RunLeaves(st, buf, frames, cap);
    RunLeaves(st, buf', frames', cap);
  }

  // ---------- Which chunkings succeed ----------

  /**
   Counted from the start of a PDU of `length` bytes, the chunk being read ends at `end`: neither
   it nor a later one ends inside the PDU, past its header.
   */
  predicate Uncut(end: int, frames: seq<Frame>, length: nat)
    decreases |frames|
  {
    !(16 <= end < length)
    && (frames == [] || frames[0].FailedFrame? || Uncut(end + |DataOf(frames[0])|, frames[1..], length))
  }

  predicate AllUncut(end: int, frames: seq<Frame>, pdus: seq<seq<u8>>)
    decreases |pdus|
  {
    pdus == [] || (Uncut(end, frames, |pdus[0]|) && AllUncut(end - |pdus[0]|, frames, pdus[1..]))
  }

  /** Chunks that end within the header make no difference. */
  lemma {:induction false} EarlyEnds(end: int, frames: seq<Frame>, pdus: seq<seq<u8>>)
    requires end < 16 && frames != [] && !frames[0].FailedFrame?
    ensures AllUncut(end, frames, pdus) <==> AllUncut(end + |DataOf(frames[0])|, frames[1..], pdus)
    decreases |pdus|
  {
    if pdus != [] {
      EarlyEnds(end - |pdus[0]|, frames, pdus[1..]);
    }
  }

  lemma {:induction false} FillKeepsCuts(buf: seq<u8>, frames: seq<Frame>, pdus: seq<seq<u8>>)
    ensures var (b, f) := Fill(buf, frames, 16);
            AllUncut(|buf|, frames, pdus) <==> AllUncut(|b|, f, pdus)
    decreases |frames|
  {
    if !(|buf| >= 16 || frames == [] || frames[0].FailedFrame?) {
      EarlyEnds(|buf|, frames, pdus);
      FillKeepsCuts(buf + DataOf(frames[0]), frames[1..], pdus);
    }
  }

  lemma {:induction false} LateEnds(end: int, frames: seq<Frame>, length: nat)
    requires end >= length
    ensures Uncut(end, frames, length)
    decreases |frames|
  {
    if frames != [] {
      LateEnds(end + |DataOf(frames[0])|, frames[1..], length);
    }
  }

  lemma UncutCons(end: nat, frames: seq<Frame>, p: seq<u8>, ps: seq<seq<u8>>)
    requires end >= |p|
    ensures AllUncut(end, frames, [p] + ps) <==> AllUncut(end - |p|, frames, ps)
  {
    LateEnds(end, frames, |p|);
    assert ([p] + ps)[1..] == ps;
  }

  /** A header refused for any reason but the missing rest of its PDU is refused whatever follows it. */
  lemma RefusedAnyway(b: seq<u8>, more: seq<u8>)
    requires |b| >= 16 && Rpc.ParseHeader(b).Err?
    ensures Rpc.ParseHeader(b + more).Ok? ==> |b| < Rpc.ParseHeader(b + more).value.fragLength
  {
    assert (b + more)[8..10] == b[8..10];
  }

  lemma FillAll(all: seq<u8>)
    ensures Fill(all, [], 16) == (all, [])
  {
  }

  /** The turn of the whole run that starts where a chunked run has parsed the same header. */
  lemma SameTurn(st: RunState, b: seq<u8>, f: seq<Frame>, cap: nat)
    requires |b| >= 16 && Rpc.ParseHeader(b).Ok?
    ensures var h := Rpc.ParseHeader(b).value;
            var p, all := b[..h.fragLength], b + Received(f);
            all[|p|..] == b[|p|..] + Received(f)
            && Turn(st, all, [], cap) ==
               match Handle(st, h.ptype, p, cap)
               case Err(e) => Outcome(st, [], Some(e), Left(st, h.ptype, p, cap))
               case Ok(next) => Behind([p], Run(next, b[|p|..] + Received(f), [], cap))
  {
    var h, all := Rpc.ParseHeader(b).value, b + Received(f);
    Rpc.HeaderOfFragment(b, Received(f));
    assert all[..h.fragLength] == b[..h.fragLength];
    assert all[h.fragLength..] == b[h.fragLength..] + Received(f);
  }

  /** A run over chunks and the run over the same bytes in one. */
  predicate Agree(end: int, frames: seq<Frame>, o: Outcome, whole: Outcome) {
    && (o.error.None? <==> whole.error.None? && AllUncut(end, frames, whole.handled))
    && (o.error.None? ==> o == whole)
  }

  lemma AgreeBehind(end: nat, frames: seq<Frame>, p: seq<u8>, o: Outcome, whole: Outcome)
    requires end >= |p| && Agree(end - |p|, frames, o, whole)
    ensures Agree(end, frames, Behind([p], o), Behind([p], whole))
  {
    UncutCons(end, frames, p, whole.handled);
  }

  lemma RefusalsAgree(st: RunState, b: seq<u8>, f: seq<Frame>, cap: nat)
    requires |b| < 16 ==> Received(f) == []
    requires |b| >= 16 ==> Rpc.ParseHeader(b).Err?
    ensures Agree(|b|, f, Turn(st, b, f, cap), Turn(st, b + Received(f), [], cap))
  {
    if |b| < 16 {
      assert b + Received(f) == b;
    } else {
      RefusedAnyway(b, Received(f));
    }
  }

  lemma {:induction false} TurnsAgree(st: RunState, b: seq<u8>, f: seq<Frame>, cap: nat)
    requires |b| < 16 ==> Received(f) == []
    ensures Agree(|b|, f, Turn(st, b, f, cap), Turn(st, b + Received(f), [], cap))
    decreases |b + Received(f)|, 0
  {
    if |b| < 16 || Rpc.ParseHeader(b).Err? {
      RefusalsAgree(st, b, f, cap);
    } else {
      var h := Rpc.ParseHeader(b).value;
      CutPdu(b);
      var p := b[..h.fragLength];
      SameTurn(st, b, f, cap);
      var step := Handle(st, h.ptype, p, cap);
      if step.Ok? {
        assert |b[|p|..] + Received(f)| < |b + Received(f)|;
        ChunkingSucceedsExactly(step.value, b[|p|..], f, cap);
        AgreeBehind(|b|, f, p, Run(step.value, b[|p|..], f, cap), Run(step.value, b[|p|..] + Received(f), [], cap));
      }
    }
  }

  /**
   A chunked run succeeds exactly when all its bytes in one chunk do and no chunk ends inside a
   PDU past that PDU's 16-byte header; it then comes to the same.
   */
  lemma {:induction false} ChunkingSucceedsExactly(st: RunState, buf: seq<u8>, frames: seq<Frame>, cap: nat)
    ensures var whole, o := Run(st, buf + Received(frames), [], cap), Run(st, buf, frames, cap);
            && (o.error.None? <==> whole.error.None? && AllUncut(|buf|, frames, whole.handled))
            && (o.error.None? ==> o == whole)
    decreases |buf + Received(frames)|, 1
  {
    var all := buf + Received(frames);
    SecondWaitIsIdle(st, buf, frames, cap);
    FillKeepsBytes(buf, frames, 16);
    var (b, f) := Fill(buf, frames, 16);
    SecondWaitIsIdle(st, all, [], cap);
    FillAll(all);
    TurnsAgree(st, b, f, cap);
    FillKeepsCuts(buf, frames, Turn(st, all, [], cap).handled);
  }

  lemma TailOfSnoc(front: seq<seq<u8>>, last: seq<u8>)
    requires front != []
    ensures (front + [last])[0] == front[0] && (front + [last])[1..] == front[1..] + [last]
  {
  }

  lemma UnconsMore(st: RunState, next: RunState, front: seq<seq<u8>>, last: seq<u8>, cap: nat)
    requires front != [] && AllPdus(front) && AllPdus(front[1..]) && IsPdu(last)
    requires HandleAll(next, front[1..], cap) == HandleAll(st, front, cap)
    ensures |front + [last]| > 1 && AllPdus(front + [last]) && AllPdus((front + [last])[1..])
    ensures HandleAll(next, (front + [last])[1..], cap) == HandleAll(st, front + [last], cap)
  {
    TailOfSnoc(front, last);
    HandleAllSnoc(st, front, last, cap);
    HandleAllSnoc(next, front[1..], last, cap);
  }

  lemma UnconsOne(st: RunState, p: seq<u8>, cap: nat, next: RunState)
    requires IsPdu(p) && HandleAll(st, [p], cap) == Ok(next)
    ensures [p][1..] == [] && AllPdus([p][1..]) && HandleAll(next, [p][1..], cap) == Ok(next)
    ensures Handle(st, Rpc.ParseHeader(p).value.ptype, p, cap) == Ok(next)
  {
    HandleOne(st, p, cap);
  }

  lemma {:induction false} HandleAllUncons(st: RunState, ps: seq<seq<u8>>, cap: nat) returns (next: RunState)
    requires AllPdus(ps) && ps != [] && HandleAll(st, ps, cap).Ok?
    ensures IsPdu(ps[0]) && AllPdus(ps[1..])
    ensures Handle(st, Rpc.ParseHeader(ps[0]).value.ptype, ps[0], cap) == Ok(next)
    ensures HandleAll(next, ps[1..], cap) == HandleAll(st, ps, cap)
    decreases |ps|
  {
    var front, last := LastApart(ps);
    if front == [] {
      assert ps == [last];
      next := HandleAll(st, [last], cap).value;
      UnconsOne(st, last, cap, next);
    } else {
      HandleAllSnoc(st, front, last, cap);
      next := HandleAllUncons(st, front, cap);
      UnconsMore(st, next, front, last, cap);
    }
  }

  lemma TurnOnPdu(st: RunState, p: seq<u8>, more: seq<u8>, cap: nat, next: RunState)
    requires IsPdu(p) && Handle(st, Rpc.ParseHeader(p).value.ptype, p, cap) == Ok(next)
    ensures Turn(st, p + more, [], cap) == Behind([p], Run(next, more, [], cap))
  {
    Rpc.HeaderOfFragment(p, more);
    assert (p + more)[..|p|] == p && (p + more)[|p|..] == more;
  }

  lemma RunOfAll(st: RunState, all: seq<u8>, cap: nat)
    ensures Run(st, all, [], cap) == Turn(st, all, [], cap)
  {
    SecondWaitIsIdle(st, all, [], cap);
    FillAll(all);
  }

  /** Bytes that are a list of PDUs, each of which is handled, run through. */
  lemma {:induction false} HandledRuns(st: RunState, ps: seq<seq<u8>>, cap: nat)
    requires AllPdus(ps) && HandleAll(st, ps, cap).Ok?
    ensures var end := HandleAll(st, ps, cap).value;
            Run(st, Flatten(ps), [], cap) == Outcome(end, ps, None, end)
    decreases |ps|
  {
    RunOfAll(st, Flatten(ps), cap);
    if ps != [] {
      var next := HandleAllUncons(st, ps, cap);
      HandledRuns(next, ps[1..], cap);
      TurnOnPdu(st, ps[0], Flatten(ps[1..]), cap, next);
      assert [ps[0]] + ps[1..] == ps;
    }
  }

  /** The bytes are these PDUs, and they can all be handled in order. */
  ghost predicate Serves(st: RunState, bytes: seq<u8>, ps: seq<seq<u8>>, cap: nat) {
    AllPdus(ps) && Flatten(ps) == bytes && HandleAll(st, ps, cap).Ok?
  }

  /**
   A run succeeds exactly when its bytes are some list of PDUs that can be handled and no chunk
   ends inside one of them past its 16-byte header; it then handles just these.
   */
  lemma {:induction false} RunSucceedsExactly(st: RunState, buf: seq<u8>, frames: seq<Frame>, cap: nat)
    ensures Run(st, buf, frames, cap).error.None? <==>
            exists ps: seq<seq<u8>> :: Serves(st, buf + Received(frames), ps, cap) && AllUncut(|buf|, frames, ps)
    ensures forall ps: seq<seq<u8>> :: Serves(st, buf + Received(frames), ps, cap) && AllUncut(|buf|, frames, ps) ==>
              var end := HandleAll(st, ps, cap).value;
              Run(st, buf, frames, cap) == Outcome(end, ps, None, end)
  {
    var bytes := buf + Received(frames);
    ChunkingSucceedsExactly(st, buf, frames, cap);
    forall ps: seq<seq<u8>> | Serves(st, bytes, ps, cap) && AllUncut(|buf|, frames, ps)
      ensures var end := HandleAll(st, ps, cap).value;
              Run(st, buf, frames, cap) == Outcome(end, ps, None, end)
    {
      HandledRuns(st, ps, cap);
    }
    var o := Run(st, buf, frames, cap);
    if o.error.None? {
      NoByteLost(st, buf, frames, cap);
      RunIsHandled(st, buf, frames, cap);
      assert Serves(st, bytes, o.handled, cap);
    }
  }

  lemma CutTooEarly(st: RunState, p: seq<u8>, k: nat, frames: seq<Frame>, cap: nat)
    requires IsPdu(p) && 16 <= k < |p|
    ensures Run(st, p[..k], frames, cap) == Outcome(st, [], Some(BadHeader(Rpc.BufferTooShort(|p|, k))), st)
  {
    Rpc.HeaderOfFragment(p, []);
    assert p[..k][8..10] == p[8..10];
  }

  lemma OnePduHandled(st: RunState, p: seq<u8>, cap: nat)
    requires IsPdu(p) && Run(st, p, [], cap).error.None?
    ensures Run(st, p, [], cap).handled == [p]
  {
    NoByteLost(st, p, [], cap);
    assert p + Received([]) == p;
    FlattenCons(p, []);
    assert [p] + [] == [p] && p + Flatten([]) == p;
    FramingIsUnique(Run(st, p, [], cap).handled, [p]);
  }

  lemma UncutOfTwo(p: seq<u8>, k: nat, more: Frame)
    requires k <= |p| && more == DataFrame(p[k..])
    ensures AllUncut(k, [more], [p]) <==> !(16 <= k < |p|)
  {
    assert [more][1..] == [] && [p][1..] == [];
    assert Uncut(|p|, [], |p|);
  }

  /** A PDU in two chunks: cut within its header or at its end it is handled, cut between the two it is refused. */
  lemma {:induction false} SplitPdu(st: RunState, p: seq<u8>, k: nat, cap: nat)
    requires IsPdu(p) && k <= |p|
    ensures 16 <= k < |p| ==>
              Run(st, p[..k], [DataFrame(p[k..])], cap)
              == Outcome(st, [], Some(BadHeader(Rpc.BufferTooShort(|p|, k))), st)
    ensures Run(st, p, [], cap).error.None? ==>
              (Run(st, p[..k], [DataFrame(p[k..])], cap).error.None? <==> !(16 <= k < |p|))
  {
    var more := DataFrame(p[k..]);
    if 16 <= k < |p| {
      CutTooEarly(st, p, k, [more], cap);
    }
    assert [more][1..] == [] && p[k..] + Received([]) == p[k..];
    assert p[..k] + Received([more]) == p;
    ChunkingSucceedsExactly(st, p[..k], [more], cap);
    if Run(st, p, [], cap).error.None? {
      OnePduHandled(st, p, cap);
      UncutOfTwo(p, k, more);
    }
  }

  // ---------- What is sent ----------

  function TypeOf(p: seq<u8>): Rpc.RpcPduType
    requires IsPdu(p)
  {
    Rpc.ParseHeader(p).value.ptype
  }

  /** The Bind PDUs of a run. */
  function Binds(ps: seq<seq<u8>>): seq<seq<u8>>
    requires AllPdus(ps)
  {
    if ps == [] then []
    else
      var last := ps[|ps| - 1];
      assert last in ps;
      Binds(ps[..|ps| - 1]) + (if TypeOf(last) == Rpc.Bind then [last] else [])
  }

  /** The requests of a run that come after a Bind. */
  function BoundRequests(ps: seq<seq<u8>>): seq<Rpc.RequestPdu>
    requires AllPdus(ps)
  {
    if ps == [] then []
    else
      var front, last := ps[..|ps| - 1], ps[|ps| - 1];
      assert last in ps;
      BoundRequests(front)
      + (if TypeOf(last) == Rpc.Request && Binds(front) != [] && Rpc.ParseRequest(last).Ok?
         then [Rpc.ParseRequest(last).value] else [])
  }

  function OpnumsOf(rs: seq<Rpc.RequestPdu>): seq<u16> {
    if rs == [] then [] else OpnumsOf(rs[..|rs| - 1]) + [rs[|rs| - 1].opnum]
  }

  /** A bind_ack for each Bind. */
  function AcksOf(binds: seq<seq<u8>>): seq<seq<u8>> {
    if binds == [] then []
    else AcksOf(binds[..|binds| - 1])
         + (match Rpc.ParseBind(binds[|binds| - 1]) case Ok(b) => [AckFor(b)] case Err(_) => [])
  }

  /** `out` answers `rs` one by one, each as its operation is served after those before it. */
  ghost predicate Answers(out: seq<seq<u8>>, rs: seq<Rpc.RequestPdu>, v: S.View) {
    && |out| == |rs|
    && (rs != [] ==>
          var n := |rs| - 1;
          && Answers(out[..n], rs[..n], v)
          && Opnums.ServeAll(v, OpnumsOf(rs[..n])).Ok?
          && var served := Opnums.ServeOpnum(rs[n].opnum, Opnums.ServeAll(v, OpnumsOf(rs[..n])).value);
             served.Ok? && out[n] == ResponseFor(rs[n], served.value.1))
  }

  /** Behind what was sent before, the acks, and behind those the answers. */
  ghost predicate Sent(sent0: seq<seq<u8>>, acks: seq<seq<u8>>, rs: seq<Rpc.RequestPdu>, v: S.View, sent: seq<seq<u8>>) {
    sent0 + acks <= sent && Answers(sent[|sent0 + acks|..], rs, v)
  }

  /** The state `st` that the PDUs `ps` lead to from an unbound `st0`. */
  ghost predicate Shape(st0: RunState, ps: seq<seq<u8>>, st: RunState)
    requires AllPdus(ps)
  {
    var binds, requests := Binds(ps), BoundRequests(ps);
    && |binds| <= 1 && (st.bound <==> |binds| == 1) && |AcksOf(binds)| == |binds|
    && (st.vconn.state == Rts.DataTransfer <==> st.bound)
    && (!st.bound ==> st.vconn == st0.vconn)
    && Sent(st0.sent, AcksOf(binds), requests, st0.session, st.sent)
    && Opnums.ServeAll(st0.session, OpnumsOf(requests)) == Ok(st.session)
  }

  lemma ShapeAtStart(st0: RunState)
    requires !st0.bound && st0.vconn.state == Rts.ConnectionEstablished
    ensures Shape(st0, [], st0)
  {
    assert st0.sent[|st0.sent|..] == [];
  }

  /** A PDU that adds neither a Bind nor an answered request. */
  lemma ShapePassed(st0: RunState, front: seq<seq<u8>>, p: seq<u8>, st: RunState)
    requires AllPdus(front) && IsPdu(p) && Shape(st0, front, st)
    requires TypeOf(p) != Rpc.Bind && !(TypeOf(p) == Rpc.Request && st.bound)
    ensures AllPdus(front + [p]) && Shape(st0, front + [p], st)
  {
    var ps := front + [p];
    assert ps[..|ps| - 1] == front;
    assert Binds(ps) == Binds(front) && BoundRequests(ps) == BoundRequests(front);
  }

  lemma {:induction false} NoRequestsBeforeBind(ps: seq<seq<u8>>)
    requires AllPdus(ps) && Binds(ps) == []
    ensures BoundRequests(ps) == []
  {
    if ps != [] {
      NoRequestsBeforeBind(ps[..|ps| - 1]);
    }
  }

  lemma BindHandled(st: RunState, p: seq<u8>, cap: nat, next: RunState)
    requires HandleBind(st, p, cap) == Ok(next)
    ensures Rpc.ParseBind(p).Ok? && st.vconn.state == Rts.ConnectionEstablished
    ensures next.bound && next.vconn.state == Rts.DataTransfer && next.session == st.session
    ensures next.sent == st.sent + [AckFor(Rpc.ParseBind(p).value)]
  {
  }

  lemma OneAck(p: seq<u8>)
    requires Rpc.ParseBind(p).Ok?
    ensures AcksOf([p]) == [AckFor(Rpc.ParseBind(p).value)]
  {
    assert [p][..0] == [];
  }

  lemma FirstAckSent(sent0: seq<seq<u8>>, v: S.View, sent: seq<seq<u8>>, ack: seq<u8>)
    requires Sent(sent0, [], [], v, sent)
    ensures Sent(sent0, [ack], [], v, sent + [ack])
  {
    assert sent0 + [] == sent0 && sent == sent0;
    assert (sent + [ack])[|sent0 + [ack]|..] == [];
  }

  lemma BindCounts(front: seq<seq<u8>>, p: seq<u8>)
    requires AllPdus(front) && IsPdu(p) && TypeOf(p) == Rpc.Bind
    ensures AllPdus(front + [p])
    ensures Binds(front + [p]) == Binds(front) + [p] && BoundRequests(front + [p]) == BoundRequests(front)
  {
    var ps := front + [p];
    assert ps[..|ps| - 1] == front && ps[|ps| - 1] == p;
    assert BoundRequests(ps) == BoundRequests(front) + [];
  }

  lemma ShapeUnbound(st0: RunState, front: seq<seq<u8>>, st: RunState)
    requires AllPdus(front) && Shape(st0, front, st) && st.vconn.state != Rts.DataTransfer
    ensures Binds(front) == [] && BoundRequests(front) == []
    ensures Sent(st0.sent, [], [], st0.session, st.sent)
    ensures Opnums.ServeAll(st0.session, OpnumsOf([])) == Ok(st.session)
  {
    assert Binds(front) == [];
    NoRequestsBeforeBind(front);
  }

  lemma ShapeBound(st0: RunState, front: seq<seq<u8>>, p: seq<u8>, st: RunState, cap: nat, next: RunState)
    requires AllPdus(front) && IsPdu(p) && Shape(st0, front, st)
    requires TypeOf(p) == Rpc.Bind && HandleBind(st, p, cap) == Ok(next)
    ensures AllPdus(front + [p]) && Shape(st0, front + [p], next)
  {
    BindHandled(st, p, cap, next);
    ShapeUnbound(st0, front, st);
    BindCounts(front, p);
    assert Binds(front + [p]) == [p];
    OneAck(p);
    FirstAckSent(st0.sent, st0.session, st.sent, AckFor(Rpc.ParseBind(p).value));
  }

  lemma RequestHandled(st: RunState, p: seq<u8>, cap: nat, next: RunState)
    requires HandleRequest(st, p, cap) == Ok(next)
    ensures Rpc.ParseRequest(p).Ok?
    ensures var r := Rpc.ParseRequest(p).value;
            var served := Opnums.ServeOpnum(r.opnum, st.session);
            && served.Ok? && next.session == served.value.0
            && next.sent == st.sent + [ResponseFor(r, served.value.1)]
            && next.bound == st.bound && next.vconn == st.vconn
  {
  }

  lemma OpnumsOneMore(rs: seq<Rpc.RequestPdu>, r: Rpc.RequestPdu)
    ensures OpnumsOf(rs + [r]) == OpnumsOf(rs) + [r.opnum]
  {
    assert (rs + [r])[..|rs|] == rs;
  }

  lemma ServeOneMore(v: S.View, ops: seq<u16>, opnum: u16, now: S.View, next: S.View, stub: seq<u8>)
    requires Opnums.ServeAll(v, ops) == Ok(now) && Opnums.ServeOpnum(opnum, now) == Ok((next, stub))
    ensures Opnums.ServeAll(v, ops + [opnum]) == Ok(next)
  {
    assert (ops + [opnum])[..|ops|] == ops;
  }

  lemma AnswersOneMore(out: seq<seq<u8>>, rs: seq<Rpc.RequestPdu>, v: S.View, now: S.View, r: Rpc.RequestPdu,
                       stub: seq<u8>, answer: seq<u8>)
    requires Answers(out, rs, v) && Opnums.ServeAll(v, OpnumsOf(rs)) == Ok(now)
    requires Opnums.ServeOpnum(r.opnum, now).Ok? && Opnums.ServeOpnum(r.opnum, now).value.1 == stub
    requires answer == ResponseFor(r, stub)
    ensures Answers(out + [answer], rs + [r], v)
  {
    assert (rs + [r])[..|rs|] == rs && (rs + [r])[|rs|] == r;
    assert (out + [answer])[..|rs|] == out && (out + [answer])[|rs|] == answer;
  }

  lemma AnswerSent(sent0: seq<seq<u8>>, acks: seq<seq<u8>>, rs: seq<Rpc.RequestPdu>, v: S.View, sent: seq<seq<u8>>,
                   now: S.View, r: Rpc.RequestPdu, next: S.View, stub: seq<u8>)
    requires Sent(sent0, acks, rs, v, sent) && Opnums.ServeAll(v, OpnumsOf(rs)) == Ok(now)
    requires Opnums.ServeOpnum(r.opnum, now) == Ok((next, stub))
    ensures Sent(sent0, acks, rs + [r], v, sent + [ResponseFor(r, stub)])
    ensures Opnums.ServeAll(v, OpnumsOf(rs + [r])) == Ok(next)
  {
    var n, answer := |sent0 + acks|, ResponseFor(r, stub);
    AnswersOneMore(sent[n..], rs, v, now, r, stub, answer);
    assert (sent + [answer])[n..] == sent[n..] + [answer];
    OpnumsOneMore(rs, r);
    ServeOneMore(v, OpnumsOf(rs), r.opnum, now, next, stub);
  }

  lemma ShapeAnswered(st0: RunState, front: seq<seq<u8>>, p: seq<u8>, st: RunState, cap: nat, next: RunState)
    requires AllPdus(front) && IsPdu(p) && Shape(st0, front, st) && st.bound
    requires TypeOf(p) == Rpc.Request && HandleRequest(st, p, cap) == Ok(next)
    ensures AllPdus(front + [p]) && Shape(st0, front + [p], next)
  {
    var ps := front + [p];
    assert ps[..|ps| - 1] == front && ps[|ps| - 1] == p;
    RequestHandled(st, p, cap, next);
    var r := Rpc.ParseRequest(p).value;
    var stub := Opnums.ServeOpnum(r.opnum, st.session).value.1;
    assert Binds(ps) == Binds(front) + [] == Binds(front);
    assert BoundRequests(ps) == BoundRequests(front) + [r];
    AnswerSent(st0.sent, AcksOf(Binds(front)), BoundRequests(front), st0.session, st.sent, st.session, r,
               next.session, stub);
  }

  /** Whatever PDU is handled next, the shape stays. */
  lemma ShapeStep(st0: RunState, front: seq<seq<u8>>, p: seq<u8>, before: RunState, cap: nat, next: RunState)
    requires AllPdus(front) && IsPdu(p) && Shape(st0, front, before) && Handle(before, TypeOf(p), p, cap) == Ok(next)
    ensures AllPdus(front + [p]) && Shape(st0, front + [p], next)
  {
    if TypeOf(p) == Rpc.Bind {
      ShapeBound(st0, front, p, before, cap, next);
    } else if TypeOf(p) == Rpc.Request && before.bound {
      ShapeAnswered(st0, front, p, before, cap, next);
    } else {
      ShapePassed(st0, front, p, before);
    }
  }

  lemma {:induction false} HandledShape(st0: RunState, ps: seq<seq<u8>>, cap: nat, st: RunState)
    requires AllPdus(ps) && HandleAll(st0, ps, cap) == Ok(st)
    requires !st0.bound && st0.vconn.state == Rts.ConnectionEstablished
    ensures Shape(st0, ps, st)
  {
    if ps == [] {
      ShapeAtStart(st0);
    } else {
      var front, p := ps[..|ps| - 1], ps[|ps| - 1];
      assert ps == front + [p] && p in ps;
      var before := HandleAll(st0, front, cap).value;
      HandledShape(st0, front, cap, before);
      ShapeStep(st0, front, p, before, cap, st);
    }
  }

  // ---------- Which PDUs can be handled ----------

  /** Every request after a Bind parses. */
  predicate RequestsParse(ps: seq<seq<u8>>)
    requires AllPdus(ps)
  {
    ps == [] ||
    var front, last := ps[..|ps| - 1], ps[|ps| - 1];
    assert last in ps;
    RequestsParse(front) && (TypeOf(last) == Rpc.Request && Binds(front) != [] ==> Rpc.ParseRequest(last).Ok?)
  }

  /** At most one Bind, which parses and carries the TSG and NDR syntaxes in its first context. */
  predicate BindsFit(binds: seq<seq<u8>>) {
    |binds| <= 1 && forall b :: b in binds ==> Rpc.ParseBind(b).Ok? && RpcLayout.OffersTsg(b)
  }

  /** What a client may send: one fitting Bind, and after it requests whose operations 1, 2, 4 come in order. */
  predicate Acceptable(ps: seq<seq<u8>>)
    requires AllPdus(ps)
  {
    BindsFit(Binds(ps)) && RequestsParse(ps) && Opnums.TunnelOps(OpnumsOf(BoundRequests(ps))) <= Opnums.FULL_ORDER
  }

  /** How many frames the answers to these PDUs take. */
  function Replies(ps: seq<seq<u8>>): nat
    requires AllPdus(ps)
  {
    |Binds(ps)| + |BoundRequests(ps)|
  }

  lemma BindHandledExactly(st: RunState, p: seq<u8>, cap: nat)
    ensures HandleBind(st, p, cap).Ok? <==>
            Rpc.ParseBind(p).Ok? && RpcLayout.OffersTsg(p)
            && st.vconn.state == Rts.ConnectionEstablished && |st.sent| < cap
  {
    if Rpc.ParseBind(p).Ok? {
      RpcLayout.TsgBindOnTheWire(p);
    }
  }

  lemma RequestHandledExactly(st: RunState, p: seq<u8>, cap: nat)
    ensures HandleRequest(st, p, cap).Ok? <==>
            Rpc.ParseRequest(p).Ok? && Opnums.ServeOpnum(Rpc.ParseRequest(p).value.opnum, st.session).Ok?
            && |st.sent| < cap
  {
  }

  /** What one PDU more does to the lists it is read off into. */
  lemma OnePduMore(front: seq<seq<u8>>, p: seq<u8>)
    requires AllPdus(front) && IsPdu(p)
    ensures AllPdus(front + [p])
    ensures Binds(front + [p]) == Binds(front) + (if TypeOf(p) == Rpc.Bind then [p] else [])
    ensures BoundRequests(front + [p]) == BoundRequests(front)
            + (if TypeOf(p) == Rpc.Request && Binds(front) != [] && Rpc.ParseRequest(p).Ok?
               then [Rpc.ParseRequest(p).value] else [])
    ensures RequestsParse(front + [p]) <==>
            RequestsParse(front) && (TypeOf(p) == Rpc.Request && Binds(front) != [] ==> Rpc.ParseRequest(p).Ok?)
  {
    var ps := front + [p];
    assert ps[..|ps| - 1] == front && ps[|ps| - 1] == p;
  }

  lemma {:induction false} OpsOneMore(rs: seq<Rpc.RequestPdu>, r: Rpc.RequestPdu, v: S.View)
    requires Opnums.ServeAll(S.NEW_VIEW, OpnumsOf(rs)) == Ok(v)
    ensures Opnums.TunnelOps(OpnumsOf(rs + [r])) <= Opnums.FULL_ORDER <==> Opnums.ServeOpnum(r.opnum, v).Ok?
  {
    var ops := OpnumsOf(rs);
    OpnumsOneMore(rs, r);
    assert (ops + [r.opnum])[..|ops|] == ops;
    Opnums.OperationsFollowHandshake(ops + [r.opnum]);
  }

  lemma OpsPrefix(rs: seq<Rpc.RequestPdu>, r: Rpc.RequestPdu)
    requires Opnums.TunnelOps(OpnumsOf(rs + [r])) <= Opnums.FULL_ORDER
    ensures Opnums.TunnelOps(OpnumsOf(rs)) <= Opnums.FULL_ORDER
  {
    var ops := OpnumsOf(rs);
    OpnumsOneMore(rs, r);
    assert (ops + [r.opnum])[..|ops|] == ops;
    assert Opnums.TunnelOps(ops) <= Opnums.TunnelOps(ops + [r.opnum]);
  }

  /** An unbound connection just established, with a new session. */
  predicate Starts(st0: RunState, cap: nat) {
    !st0.bound && st0.vconn.state == Rts.ConnectionEstablished && st0.session == S.NEW_VIEW && |st0.sent| <= cap
  }

  /** In the state that `front` leads to, one PDU more is handled exactly when `front + [p]` is acceptable and fits. */
  lemma NextHandledExactly(st0: RunState, front: seq<seq<u8>>, p: seq<u8>, st: RunState, cap: nat)
    requires AllPdus(front) && IsPdu(p) && Starts(st0, cap) && Shape(st0, front, st) && Acceptable(front)
    requires |st0.sent| + Replies(front) <= cap
    ensures AllPdus(front + [p])
    ensures Handle(st, TypeOf(p), p, cap).Ok? <==>
            Acceptable(front + [p]) && |st0.sent| + Replies(front + [p]) <= cap
  {
    OnePduMore(front, p);
    var binds, rs := Binds(front), BoundRequests(front);
    assert |st.sent| == |st0.sent| + Replies(front);
    if TypeOf(p) == Rpc.Bind {
      BindHandledExactly(st, p, cap);
      NextBind(binds, p);
      assert rs + [] == rs;
      assert st.vconn.state == Rts.ConnectionEstablished <==> binds == [];
    } else if TypeOf(p) == Rpc.Request && st.bound {
      RequestHandledExactly(st, p, cap);
      assert binds + [] == binds;
      if Rpc.ParseRequest(p).Ok? {
        OpsOneMore(rs, Rpc.ParseRequest(p).value, st.session);
      }
    } else {
      assert binds + [] == binds && rs + [] == rs;
    }
  }

  lemma NextBind(binds: seq<seq<u8>>, p: seq<u8>)
    requires BindsFit(binds)
    ensures BindsFit(binds + [p]) <==> binds == [] && Rpc.ParseBind(p).Ok? && RpcLayout.OffersTsg(p)
  {
    assert p in binds + [p];
  }

  lemma AcceptablePrefix(front: seq<seq<u8>>, p: seq<u8>)
    requires AllPdus(front) && IsPdu(p) && AllPdus(front + [p]) && Acceptable(front + [p])
    ensures Acceptable(front) && Replies(front) <= Replies(front + [p])
  {
    OnePduMore(front, p);
    assert forall b :: b in Binds(front) ==> b in Binds(front + [p]);
    if TypeOf(p) == Rpc.Request && Binds(front) != [] && Rpc.ParseRequest(p).Ok? {
      OpsPrefix(BoundRequests(front), Rpc.ParseRequest(p).value);
    } else {
      assert BoundRequests(front + [p]) == BoundRequests(front);
    }
  }

  /**
   PDUs are handled to the end exactly when they are acceptable and the OUT channel takes a frame
   for each answer.
   */
  lemma {:induction false} HandledExactly(st0: RunState, ps: seq<seq<u8>>, cap: nat)
    requires AllPdus(ps) && Starts(st0, cap)
    ensures HandleAll(st0, ps, cap).Ok? <==> Acceptable(ps) && |st0.sent| + Replies(ps) <= cap
  {
    if ps != [] {
      var front, p := LastApart(ps);
      HandledExactly(st0, front, cap);
      HandleAllSnoc(st0, front, p, cap);
      if Acceptable(ps) {
        AcceptablePrefix(front, p);
      }
      if HandleAll(st0, front, cap).Ok? {
        var st := HandleAll(st0, front, cap).value;
        HandledShape(st0, front, cap, st);
        NextHandledExactly(st0, front, p, st, cap);
      }
    }
  }

  /** The bytes are these PDUs, and a client may send them. */
  ghost predicate Conforms(bytes: seq<u8>, ps: seq<seq<u8>>) {
    AllPdus(ps) && Flatten(ps) == bytes && Acceptable(ps)
  }

  /**
   From a connection just established, a run succeeds exactly when the bytes received are PDUs
   that a client may send, no chunk ends inside one of them past its header, and the OUT channel
   takes the answers.
   */
  lemma {:induction false} ConformingClientsServed(st0: RunState, buf: seq<u8>, frames: seq<Frame>, cap: nat)
    requires Starts(st0, cap)
    ensures Run(st0, buf, frames, cap).error.None? <==>
            exists ps: seq<seq<u8>> :: Conforms(buf + Received(frames), ps) && AllUncut(|buf|, frames, ps)
                                       && |st0.sent| + Replies(ps) <= cap
  {
    var bytes := buf + Received(frames);
    RunSucceedsExactly(st0, buf, frames, cap);
    if Run(st0, buf, frames, cap).error.None? {
      var ps: seq<seq<u8>> :| Serves(st0, bytes, ps, cap) && AllUncut(|buf|, frames, ps);
      HandledExactly(st0, ps, cap);
      assert Conforms(bytes, ps);
    }
    forall ps: seq<seq<u8>> | Conforms(bytes, ps) && AllUncut(|buf|, frames, ps) && |st0.sent| + Replies(ps) <= cap
      ensures Run(st0, buf, frames, cap).error.None?
    {
      HandledExactly(st0, ps, cap);
      assert Serves(st0, bytes, ps, cap);
    }
  }

  /** A bind_ack or response under the ids of the PDU it answers. */
  predicate Carries(b: seq<u8>, ptype: Rpc.RpcPduType, callId: u32) {
    IsPdu(b) && TypeOf(b) == ptype && Rpc.ParseHeader(b).value.callId == callId
  }

  lemma AckCarries(bind: Rpc.BindPdu)
    ensures Carries(AckFor(bind), Rpc.BindAck, bind.header.callId)
  {
    Rpc.AckReadsBack(Rpc.Accepted(bind.header.callId, bind.assocGroupId, SEC_ADDR));
  }

  lemma StubsAreShort(opnum: u16, v: S.View)
    ensures Opnums.ServeOpnum(opnum, v).Ok? ==> |Opnums.ServeOpnum(opnum, v).value.1| <= 12
  {
  }

  lemma ResponseCarries(r: Rpc.RequestPdu, v: S.View)
    requires Opnums.ServeOpnum(r.opnum, v).Ok?
    ensures var b := ResponseFor(r, Opnums.ServeOpnum(r.opnum, v).value.1);
            && Carries(b, Rpc.Response, r.header.callId)
            && |b| >= 24 && U16At(b, 20) == r.contextId && b[24..] == Opnums.ServeOpnum(r.opnum, v).value.1
  {
    StubsAreShort(r.opnum, v);
    var stub := Opnums.ServeOpnum(r.opnum, v).value.1;
    Rpc.ResponseReadsBack(Rpc.NewResponse(r.header.callId, r.contextId, stub));
  }

  lemma {:induction false} AnswersCarry(out: seq<seq<u8>>, rs: seq<Rpc.RequestPdu>, v: S.View, k: nat)
    requires Answers(out, rs, v) && k < |rs|
    ensures Carries(out[k], Rpc.Response, rs[k].header.callId)
    ensures |out[k]| >= 24 && U16At(out[k], 20) == rs[k].contextId
  {
    var n := |rs| - 1;
    if k == n {
      ResponseCarries(rs[n], Opnums.ServeAll(v, OpnumsOf(rs[..n])).value);
    } else {
      AnswersCarry(out[..n], rs[..n], v, k);
    }
  }

  lemma AckOfOne(binds: seq<seq<u8>>)
    requires |binds| == 1 && |AcksOf(binds)| == 1
    ensures Rpc.ParseBind(binds[0]).Ok? && AcksOf(binds) == [AckFor(Rpc.ParseBind(binds[0]).value)]
    ensures Rpc.ParseHeader(binds[0]) == Ok(Rpc.ParseBind(binds[0]).value.header)
  {
    assert AcksOf(binds[..0]) == [];
  }

  /** One response to each request, in order, under its call id and context id. */
  predicate RespondTo(out: seq<seq<u8>>, requests: seq<Rpc.RequestPdu>) {
    |out| == |requests| && forall k :: 0 <= k < |out| ==>
      && Carries(out[k], Rpc.Response, requests[k].header.callId)
      && |out[k]| >= 24 && U16At(out[k], 20) == requests[k].contextId
  }

  /** One bind_ack for the one Bind, under its call id, or none for none. */
  predicate Acknowledges(ack: seq<seq<u8>>, binds: seq<seq<u8>>) {
    |ack| == |binds| <= 1
    && (|binds| == 1 ==> Rpc.ParseHeader(binds[0]).Ok?
                         && Carries(ack[0], Rpc.BindAck, Rpc.ParseHeader(binds[0]).value.callId))
  }

  /** Behind `sent0` at most one bind_ack, then responses, each under the ids of the PDU it answers. */
  ghost predicate AckThenResponses(sent0: seq<seq<u8>>, o: Outcome)
    requires AllPdus(o.handled)
  {
    exists ack: seq<seq<u8>>, out: seq<seq<u8>> {:trigger ack + out} ::
      && o.st.sent == sent0 + (ack + out)
      && Acknowledges(ack, Binds(o.handled)) && RespondTo(out, BoundRequests(o.handled))
  }

  lemma AcksAcknowledge(binds: seq<seq<u8>>)
    requires |AcksOf(binds)| == |binds| <= 1
    ensures Acknowledges(AcksOf(binds), binds)
  {
    if |binds| == 1 {
      AckOfOne(binds);
      AckCarries(Rpc.ParseBind(binds[0]).value);
    }
  }

  lemma AnswersAll(out: seq<seq<u8>>, rs: seq<Rpc.RequestPdu>, v: S.View)
    requires Answers(out, rs, v)
    ensures RespondTo(out, rs)
  {
    forall k | 0 <= k < |out|
      ensures Carries(out[k], Rpc.Response, rs[k].header.callId)
      ensures |out[k]| >= 24 && U16At(out[k], 20) == rs[k].contextId
    {
      AnswersCarry(out, rs, v, k);
    }
  }

  lemma AnswersRespond(sent0: seq<seq<u8>>, acks: seq<seq<u8>>, rs: seq<Rpc.RequestPdu>, v: S.View, sent: seq<seq<u8>>)
    requires Sent(sent0, acks, rs, v, sent)
    ensures exists out: seq<seq<u8>> {:trigger acks + out} :: sent == sent0 + (acks + out) && RespondTo(out, rs)
  {
    var out := sent[|sent0 + acks|..];
    AnswersAll(out, rs, v);
    Associate(sent0, acks, out);
    assert sent == sent0 + (acks + out);
  }

  /**
   The OUT channel of every run, failed or not, from a connection just established: what was sent
   before (CONN/C2), at most one bind_ack, then one response per request after the Bind, the k-th
   with the k-th request's call id and context id. The loop is bound exactly when the connection
   is in data transfer, exactly when a Bind was handled.
   */
  lemma {:induction false} OutputOfRun(st0: RunState, buf: seq<u8>, frames: seq<Frame>, cap: nat)
    requires !st0.bound && st0.vconn.state == Rts.ConnectionEstablished
    ensures var o := Run(st0, buf, frames, cap);
            AllPdus(o.handled)
            && (o.st.bound <==> |Binds(o.handled)| == 1)
            && (o.st.vconn.state == Rts.DataTransfer <==> |Binds(o.handled)| == 1)
            && AckThenResponses(st0.sent, o)
  {
    var o := Run(st0, buf, frames, cap);
    RunIsHandled(st0, buf, frames, cap);
    HandledShape(st0, o.handled, cap, o.st);
    ShapeSends(st0, o.handled, o.st);
  }

  lemma ShapeSends(st0: RunState, ps: seq<seq<u8>>, st: RunState)
    requires AllPdus(ps) && Shape(st0, ps, st)
    ensures (st.bound <==> |Binds(ps)| == 1) && (st.vconn.state == Rts.DataTransfer <==> |Binds(ps)| == 1)
    ensures AckThenResponses(st0.sent, Outcome(st, ps, None, st))
  {
    AcksAcknowledge(Binds(ps));
    AnswersRespond(st0.sent, AcksOf(Binds(ps)), BoundRequests(ps), st0.session, st.sent);
  }

  lemma ServedFromRest(k: nat, opnum: u16, next: S.View)
    requires k <= 3 && Opnums.ServeOpnum(opnum, S.After(S.NEW_VIEW, Opnums.MessagesFor(k))).Ok?
    requires Opnums.ServeOpnum(opnum, S.After(S.NEW_VIEW, Opnums.MessagesFor(k))).value.0 == next
    ensures exists j: nat :: k <= j <= 3 && next == S.After(S.NEW_VIEW, Opnums.MessagesFor(j))
  {
    Opnums.RestingViews(k);
    Opnums.NextOperation(k, opnum);
    if k < 3 {
      Opnums.RestingViews(k + 1);
    }
  }

  lemma NeverBetween(k: nat)
    requires k <= 3
    ensures S.After(S.NEW_VIEW, Opnums.MessagesFor(k)).state != S.AwaitingTunnelCreate
  {
    Opnums.RestingViews(k);
  }

  /**
   At the last loop head of every run the session stands where its operations bring it: those
   among 1, 2 and 4 of the requests after the Bind are a prefix of [1, 2, 4], and the state is
   that of the session after the messages they stand for. What a failing run leaves is such a
   state too, the same or a later one, and never between handshake and tunnel.
   */
  lemma {:induction false} SessionOfRun(st0: RunState, buf: seq<u8>, frames: seq<Frame>, cap: nat)
    requires !st0.bound && st0.vconn.state == Rts.ConnectionEstablished && st0.session == S.NEW_VIEW
    ensures var o := Run(st0, buf, frames, cap);
            AllPdus(o.handled)
            && var ops := Opnums.TunnelOps(OpnumsOf(BoundRequests(o.handled)));
            && ops <= Opnums.FULL_ORDER
            && o.st.session == S.After(S.NEW_VIEW, Opnums.MessagesFor(|ops|))
            && (exists j: nat :: |ops| <= j <= 3 && o.left.session == S.After(S.NEW_VIEW, Opnums.MessagesFor(j)))
            && o.left.session.state != S.AwaitingTunnelCreate
  {
    var o := Run(st0, buf, frames, cap);
    RunIsHandled(st0, buf, frames, cap);
    HandledShape(st0, o.handled, cap, o.st);
    var ops := Opnums.TunnelOps(OpnumsOf(BoundRequests(o.handled)));
    Opnums.OperationsFollowHandshake(OpnumsOf(BoundRequests(o.handled)));
    RunLeaves(st0, buf, frames, cap);
    if o.left.session != o.st.session {
      var opnum: u16 :| Opnums.ServeOpnum(opnum, o.st.session).Ok?
                        && Opnums.ServeOpnum(opnum, o.st.session).value.0 == o.left.session;
      ServedFromRest(|ops|, opnum, o.left.session);
    }
    var j: nat :| |ops| <= j <= 3 && o.left.session == S.After(S.NEW_VIEW, Opnums.MessagesFor(j));
    NeverBetween(j);
  }
}
