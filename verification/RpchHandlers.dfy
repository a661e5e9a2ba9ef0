/**
 The two HTTP handlers of RPC over HTTP and the locked map in which the OUT handler leaves its
 connection for the IN handler. Everything between two uses of the lock is local to a handler,
 so a run is an arbitrary interleaving of the handlers' local steps and critical sections.
 */
module RpchHandlers {
  import opened Bytes
  import opened Wrappers
  import opened Rts
  import opened Uuids
  import opened VirtualConnections

  datatype Status = BadRequest | InternalServerError

  /** The OUT handler's response stream, named by the handler that made it. */
  type Sender = nat

  datatype PendingConnection = PendingConnection(vconn: VcView, sender: Sender)

  /** An entry that a CONN/B1 found under `cookie` will be accepted by. */
  predicate EntryReady(cookie: Uuid, entry: PendingConnection) {
    entry.vconn.state == WaitingInChannel && entry.vconn.vcCookie == Some(cookie)
  }

  class RpchState {
    var pending: map<Uuid, PendingConnection>

    ghost predicate Valid()
      reads this
    {
      forall k :: k in pending ==> EntryReady(k, pending[k])
    }

    constructor ()
      ensures Valid() && pending == map[]
    {
      pending := map[];
    }

    method Store(cookie: Uuid, entry: PendingConnection)
      requires Valid() && EntryReady(cookie, entry)
      modifies this
      ensures Valid() && pending == old(pending)[cookie := entry]
    {
      pending := pending[cookie := entry];
    }

    method Take(cookie: Uuid) returns (entry: Option<PendingConnection>)
      requires Valid()
      modifies this
      ensures Valid() && pending == old(pending) - {cookie}
      ensures entry == if cookie in old(pending) then Some(old(pending)[cookie]) else None
    {
      entry := if cookie in pending then Some(pending[cookie]) else None;
      pending := pending - {cookie};
    }
  }

  /** What the OUT handler makes of its request body. */
  function OutRequest(body: seq<u8>): Result<ConnA1, Status> {
    if |body| < 20 then Err(BadRequest)
    else
      match ParsePdu(body)
      case Err(_) => Err(BadRequest)
      case Ok(pdu) => match AsConnA1(pdu) case Ok(a1) => Ok(a1) case Err(_) => Err(BadRequest)
  }

  /** What the IN handler makes of its first PDU. */
  function InRequest(pdu: seq<u8>): Result<ConnB1, Status> {
    if |pdu| < 3 || pdu[2] != PTYPE_RTS then Err(BadRequest)
    else
      match ParsePdu(pdu)
      case Err(_) => Err(BadRequest)
      case Ok(p) => match AsConnB1(p) case Ok(b1) => Ok(b1) case Err(_) => Err(BadRequest)
  }

  /** A request is taken exactly if it is a CONN/A1 or CONN/B1, and is a bad one otherwise. */
  lemma {:induction false} RequestsExactly(body: seq<u8>)
    ensures match OutRequest(body)
            case Ok(a1) => exists p :: ParsePdu(body) == Ok(p) && AsConnA1(p) == Ok(a1)
            case Err(e) => e == BadRequest && forall p :: ParsePdu(body) == Ok(p) ==> AsConnA1(p).Err?
    ensures match InRequest(body)
            case Ok(b1) => exists p :: ParsePdu(body) == Ok(p) && AsConnB1(p) == Ok(b1)
            case Err(e) => e == BadRequest && forall p :: ParsePdu(body) == Ok(p) ==> AsConnB1(p).Err?
  {
  }

  /** `handle_out_channel`: a CONN/A1 replaces whatever was pending under its cookie. */
  method HandleOutChannel(shared: RpchState, body: seq<u8>, sender: Sender) returns (r: Result<(), Status>)
    requires shared.Valid()
    modifies shared
    ensures shared.Valid()
    ensures match OutRequest(body)
            case Err(e) => r == Err(e) && shared.pending == old(shared.pending)
            case Ok(a1) => r == Ok(()) && AcceptOut(NEW_CONNECTION, a1).Ok?
                           && shared.pending == old(shared.pending)[a1.vcCookie :=
                                PendingConnection(AcceptOut(NEW_CONNECTION, a1).value, sender)]
  {
    var request := OutRequest(body);
    if request.Err? {
      return Err(request.error);
    }
    var vconn := new VirtualConnection();
    var accepted := vconn.AcceptOutChannel(request.value);
    if accepted.Err? {
      return Err(InternalServerError);
    }
    shared.Store(request.value.vcCookie, PendingConnection(vconn.Now(), sender));
    r := Ok(());
  }

  /**
   `handle_in_channel` up to CONN/C2: it fails only for a request that is no CONN/B1 or names no
   pending connection, and never because the entry it removed refuses the channel.
   */
  method ConnectInChannel(shared: RpchState, pdu: seq<u8>) returns (r: Result<(VcView, Sender, RtsPdu), Status>)
    requires shared.Valid()
    modifies shared
    ensures shared.Valid()
    ensures match InRequest(pdu)
            case Err(e) => r == Err(e) && shared.pending == old(shared.pending)
            case Ok(b1) =>
              && shared.pending == old(shared.pending) - {b1.vcCookie}
              && (b1.vcCookie !in old(shared.pending) ==> r == Err(BadRequest))
              && (b1.vcCookie in old(shared.pending) ==>
                    var entry := old(shared.pending)[b1.vcCookie];
                    AcceptIn(entry.vconn, b1).Ok?
                    && r == Ok((AcceptIn(entry.vconn, b1).value.0, entry.sender, AcceptIn(entry.vconn, b1).value.1)))
  {
    var request := InRequest(pdu);
    if request.Err? {
      return Err(request.error);
    }
    var entry := shared.Take(request.value.vcCookie);
    if entry.None? {
      return Err(BadRequest);
    }
    var vconn := new VirtualConnection.Moved(entry.value.vconn);
    var c2 := vconn.AcceptInChannel(request.value);
    if c2.Err? {
      return Err(InternalServerError);
    }
    r := Ok((vconn.Now(), entry.value.sender, c2.value));
  }

  // ---------- Every interleaving ----------

  datatype OutHandler =
    | OutReceived(body: seq<u8>)
    | OutAccepted(a1: ConnA1, vconn: VcView)
    | OutStored(a1: ConnA1)
    | OutFailed(status: Status)

  datatype InHandler =
    | InReceived(pdu: seq<u8>)
    | InLookingUp(b1: ConnB1)
    | InHolding(b1: ConnB1, entry: PendingConnection)
    | InConnected(b1: ConnB1, vconn: VcView, sender: Sender, c2: RtsPdu)
    | InFailed(status: Status)

  datatype System = System(
    pending: map<Uuid, PendingConnection>,
    outs: map<nat, OutHandler>,
    ins: map<nat, InHandler>)

  const INITIAL := System(map[], map[], map[])

  datatype Action =
    | OutArrives(id: nat, body: seq<u8>)
    | InArrives(id: nat, pdu: seq<u8>)
    | OutAccepts(id: nat)
    | OutStores(id: nat)
    | InParses(id: nat)
    | InTakes(id: nat)
    | InAccepts(id: nat)

  predicate Enabled(s: System, a: Action) {
    match a
    case OutArrives(id, _) => id !in s.outs
    case InArrives(id, _) => id !in s.ins
    case OutAccepts(id) => id in s.outs && s.outs[id].OutReceived?
    case OutStores(id) => id in s.outs && s.outs[id].OutAccepted?
    case InParses(id) => id in s.ins && s.ins[id].InReceived?
    case InTakes(id) => id in s.ins && s.ins[id].InLookingUp?
    case InAccepts(id) => id in s.ins && s.ins[id].InHolding?
  }

  /** An OUT handler parses and accepts on its own. */
  function AfterAccept(body: seq<u8>): OutHandler {
    match OutRequest(body)
    case Err(e) => OutFailed(e)
    case Ok(a1) =>
      match AcceptOut(NEW_CONNECTION, a1)
      case Ok(v) => OutAccepted(a1, v)
      case Err(_) => OutFailed(InternalServerError)
  }

  function AfterInAccept(b1: ConnB1, entry: PendingConnection): InHandler {
    match AcceptIn(entry.vconn, b1)
    case Ok((v, c2)) => InConnected(b1, v, entry.sender, c2)
    case Err(_) => InFailed(InternalServerError)
  }

  /** One step of one handler; only `OutStores` and `InTakes` touch the map, under the lock. */
  function Apply(s: System, a: Action): System
    requires Enabled(s, a)
  {
    match a
    case OutArrives(id, body) => s.(outs := s.outs[id := OutReceived(body)])
    case InArrives(id, pdu) => s.(ins := s.ins[id := InReceived(pdu)])
    case OutAccepts(id) => s.(outs := s.outs[id := AfterAccept(s.outs[id].body)])
    case OutStores(id) =>
      var h := s.outs[id];
      s.(outs := s.outs[id := OutStored(h.a1)],
         pending := s.pending[h.a1.vcCookie := PendingConnection(h.vconn, id)])
    case InParses(id) =>
      s.(ins := s.ins[id := match InRequest(s.ins[id].pdu) case Ok(b1) => InLookingUp(b1) case Err(e) => InFailed(e)])
    case InTakes(id) =>
      var b1 := s.ins[id].b1;
      if b1.vcCookie in s.pending then
        s.(ins := s.ins[id := InHolding(b1, s.pending[b1.vcCookie])], pending := s.pending - {b1.vcCookie})
      else s.(ins := s.ins[id := InFailed(BadRequest)])
    case InAccepts(id) =>
      s.(ins := s.ins[id := AfterInAccept(s.ins[id].b1, s.ins[id].entry)])
  }

  /** The states a run passes through when its actions are taken in order. */
  ghost predicate IsRun(states: seq<System>, actions: seq<Action>) {
    && |states| == |actions| + 1 && states[0] == INITIAL
    && forall i :: 0 <= i < |actions| ==> Enabled(states[i], actions[i]) && states[i + 1] == Apply(states[i], actions[i])
  }

  /** The connection an OUT handler with this CONN/A1 leaves behind. */
  function OutConnection(a1: ConnA1): VcView {
    NEW_CONNECTION.(state := WaitingInChannel, version := Some(a1.version), vcCookie := Some(a1.vcCookie),
                    outCookie := Some(a1.outCookie), window := Some(a1.window), outCallId := Some(a1.callId))
  }

  /** An entry, pending or taken, is what the OUT handler it came from stored under this cookie. */
  ghost predicate CameFrom(s: System, cookie: Uuid, entry: PendingConnection) {
    && entry.sender in s.outs && s.outs[entry.sender].OutStored?
    && s.outs[entry.sender].a1.vcCookie == cookie
    && entry.vconn == OutConnection(s.outs[entry.sender].a1)
  }

  /** The sender an IN handler has got hold of, if any. */
  function Held(h: InHandler): Option<Sender> {
    match h
    case InHolding(_, entry) => Some(entry.sender)
    case InConnected(_, _, sender, _) => Some(sender)
    case _ => None
  }

  ghost predicate OutOk(h: OutHandler) {
    match h
    case OutAccepted(a1, v) => v == OutConnection(a1)
    case OutFailed(status) => status == BadRequest
    case _ => true
  }

  ghost predicate InOk(s: System, h: InHandler) {
    match h
    case InHolding(b1, entry) => CameFrom(s, b1.vcCookie, entry)
    case InConnected(b1, v, sender, c2) =>
      && sender in s.outs && s.outs[sender].OutStored?
      && s.outs[sender].a1.vcCookie == b1.vcCookie
      && v.state == ConnectionEstablished
      && c2 == ConnC2(s.outs[sender].a1.callId)
    case InFailed(status) => status == BadRequest
    case _ => true
  }

  ghost predicate Invariant(s: System) {
    && (forall k :: k in s.pending ==> CameFrom(s, k, s.pending[k]))
    && (forall id :: id in s.outs ==> OutOk(s.outs[id]))
    && (forall id :: id in s.ins ==> InOk(s, s.ins[id]))
    && (forall id, k :: id in s.ins && k in s.pending ==> Held(s.ins[id]) != Some(s.pending[k].sender))
    && (forall id, jd :: id in s.ins && jd in s.ins && id != jd && Held(s.ins[id]).Some? ==>
                           Held(s.ins[id]) != Held(s.ins[jd]))
  }

  lemma StepKeepsEntries(s: System, a: Action)
    requires Invariant(s) && Enabled(s, a)
    ensures var t := Apply(s, a);
            && (forall k :: k in t.pending ==> CameFrom(t, k, t.pending[k]))
            && (forall id :: id in t.outs ==> OutOk(t.outs[id]))
  {
    var t := Apply(s, a);
    forall k | k in t.pending ensures CameFrom(t, k, t.pending[k]) {
      if !(a.OutStores? && k == s.outs[a.id].a1.vcCookie) {
        assert CameFrom(s, k, s.pending[k]);
      }
    }
  }

  /** A handler is as good as before wherever the handlers it speaks of stay stored. */
  lemma InStaysOk(s: System, t: System, h: InHandler)
    requires InOk(s, h)
    requires forall k :: k in s.outs && s.outs[k].OutStored? ==> k in t.outs && t.outs[k] == s.outs[k]
    ensures InOk(t, h)
  {
  }

  lemma StoredStay(s: System, a: Action)
    requires Enabled(s, a)
    ensures forall k :: k in s.outs && s.outs[k].OutStored? ==> k in Apply(s, a).outs && Apply(s, a).outs[k] == s.outs[k]
  {
  }

  lemma InMoves(s: System, id: nat)
    requires Invariant(s) && id in s.ins
    ensures s.ins[id].InLookingUp? && s.ins[id].b1.vcCookie in s.pending ==>
              InOk(s, InHolding(s.ins[id].b1, s.pending[s.ins[id].b1.vcCookie]))
    ensures s.ins[id].InHolding? ==> InOk(s, AfterInAccept(s.ins[id].b1, s.ins[id].entry))
  {
    assert InOk(s, s.ins[id]);
  }

  lemma StepKeepsIns(s: System, a: Action)
    requires Invariant(s) && Enabled(s, a)
    ensures var t := Apply(s, a); forall id :: id in t.ins ==> InOk(t, t.ins[id])
  {
    var t := Apply(s, a);
    StoredStay(s, a);
    forall id | id in t.ins ensures InOk(t, t.ins[id]) {
      if id in s.ins {
        InMoves(s, id);
        if t.ins[id] == s.ins[id] {
          InStaysOk(s, t, s.ins[id]);
        }
      }
    }
  }

  lemma HeldIsStored(s: System, id: nat)
    requires Invariant(s) && id in s.ins && Held(s.ins[id]).Some?
    ensures var k := Held(s.ins[id]).value; k in s.outs && s.outs[k].OutStored?
  {
    assert InOk(s, s.ins[id]);
  }

  lemma PendingIsStored(s: System, k: Uuid)
    requires Invariant(s) && k in s.pending
    ensures var o := s.pending[k].sender; o in s.outs && s.outs[o].OutStored? && s.outs[o].a1.vcCookie == k
  {
    assert CameFrom(s, k, s.pending[k]);
  }

  /** What a handler holds after a step it held before, or has just taken from the map. */
  lemma HeldBefore(s: System, a: Action, id: nat)
    requires Enabled(s, a) && id in Apply(s, a).ins && Held(Apply(s, a).ins[id]).Some?
    ensures id in s.ins
    ensures var held := Held(Apply(s, a).ins[id]);
            || held == Held(s.ins[id])
            || (a == InTakes(id) && s.ins[id].b1.vcCookie in s.pending
                && held == Some(s.pending[s.ins[id].b1.vcCookie].sender))
  {
  }

  /** What is pending after a step was so before and is not being taken, or is newly stored. */
  lemma PendingBefore(s: System, a: Action, k: Uuid)
    requires Enabled(s, a) && k in Apply(s, a).pending
    ensures var t := Apply(s, a);
            || (k in s.pending && t.pending[k] == s.pending[k] && (a.InTakes? ==> s.ins[a.id].b1.vcCookie != k))
            || (a.OutStores? && t.pending[k].sender == a.id && s.outs[a.id].OutAccepted?)
  {
  }

  /** Senders stay with one holder: a stored one is new, a taken one leaves the map. */
  lemma StepKeepsPending(s: System, a: Action)
    requires Invariant(s) && Enabled(s, a)
    ensures var t := Apply(s, a);
            forall id, k :: id in t.ins && k in t.pending ==> Held(t.ins[id]) != Some(t.pending[k].sender)
  {
    var t := Apply(s, a);
    forall id, k | id in t.ins && k in t.pending ensures Held(t.ins[id]) != Some(t.pending[k].sender) {
      if Held(t.ins[id]).Some? {
        HeldAndPending(s, a, id, k);
      }
    }
  }

  lemma HeldAndPending(s: System, a: Action, id: nat, k: Uuid)
    requires Invariant(s) && Enabled(s, a)
    requires id in Apply(s, a).ins && k in Apply(s, a).pending && Held(Apply(s, a).ins[id]).Some?
    ensures Held(Apply(s, a).ins[id]) != Some(Apply(s, a).pending[k].sender)
  {
    HeldBefore(s, a, id);
    PendingBefore(s, a, k);
    if Held(s.ins[id]).Some? {
      HeldIsStored(s, id);
    }
    if k in s.pending {
      PendingIsStored(s, k);
    }
    if a == InTakes(id) && s.ins[id].b1.vcCookie in s.pending {
      PendingIsStored(s, s.ins[id].b1.vcCookie);
    }
  }

  lemma StepKeepsHolders(s: System, a: Action)
    requires Invariant(s) && Enabled(s, a)
    ensures var t := Apply(s, a);
            forall id, jd :: id in t.ins && jd in t.ins && id != jd && Held(t.ins[id]).Some? ==>
                               Held(t.ins[id]) != Held(t.ins[jd])
  {
    var t := Apply(s, a);
    forall id, jd | id in t.ins && jd in t.ins && id != jd && Held(t.ins[id]).Some?
      ensures Held(t.ins[id]) != Held(t.ins[jd])
    {
      HeldBefore(s, a, id);
      if Held(t.ins[jd]).Some? {
        HeldBefore(s, a, jd);
      }
    }
  }

  lemma StepKeepsInvariant(s: System, a: Action)
    requires Invariant(s) && Enabled(s, a)
    ensures Invariant(Apply(s, a))
  {
    StepKeepsEntries(s, a);
    StepKeepsIns(s, a);
    StepKeepsPending(s, a);
    StepKeepsHolders(s, a);
  }

  lemma {:induction false} RunKeepsInvariant(states: seq<System>, actions: seq<Action>, i: nat)
    requires IsRun(states, actions) && i < |states|
    ensures Invariant(states[i])
  {
    if i > 0 {
      RunKeepsInvariant(states, actions, i - 1);
      StepKeepsInvariant(states[i - 1], actions[i - 1]);
    }
  }

  /**
   In every state of every interleaving: each pending entry waits for the IN channel under its
   own key; a CONN/C2 carries the call id of the CONN/A1 of the very OUT handler it is sent to,
   which has the same connection cookie; no sender is held twice; and no handler has failed for
   a reason of its own state rather than of its request.
   */
  lemma {:induction false} ChannelsAreCorrelated(states: seq<System>, actions: seq<Action>, i: nat)
    requires IsRun(states, actions) && i < |states|
    ensures var s := states[i];
            && (forall k :: k in s.pending ==> EntryReady(k, s.pending[k]))
            && (forall id :: id in s.ins && s.ins[id].InConnected? ==>
                  var h := s.ins[id];
                  && h.sender in s.outs && s.outs[h.sender].OutStored?
                  && s.outs[h.sender].a1.vcCookie == h.b1.vcCookie
                  && h.c2.callId == s.outs[h.sender].a1.callId)
            && (forall id, jd :: id in s.ins && jd in s.ins && Held(s.ins[id]).Some? && Held(s.ins[id]) == Held(s.ins[jd])
                                 ==> id == jd)
            && (forall id :: id in s.ins ==> s.ins[id] != InFailed(InternalServerError))
            && (forall id :: id in s.outs ==> s.outs[id] != OutFailed(InternalServerError))
  {
    RunKeepsInvariant(states, actions, i);
    var s := states[i];
    forall k | k in s.pending ensures EntryReady(k, s.pending[k]) {
      assert CameFrom(s, k, s.pending[k]);
    }
    forall id | id in s.ins ensures InOk(s, s.ins[id]) {
    }
    forall id | id in s.outs ensures OutOk(s.outs[id]) {
    }
  }

  /** Step `j` stores an entry under this cookie. */
  predicate Stores(s: System, a: Action, cookie: Uuid) {
    Enabled(s, a) && a.OutStores? && s.outs[a.id].a1.vcCookie == cookie
  }

  /** A step takes the entry under this cookie, if there is one. */
  predicate Takes(s: System, a: Action, cookie: Uuid) {
    Enabled(s, a) && a.InTakes? && s.ins[a.id].b1.vcCookie == cookie
  }

  /** Before state `i`, step `j` was the last to store under this cookie, and nobody has taken it since. */
  ghost predicate LastStore(states: seq<System>, actions: seq<Action>, i: nat, cookie: Uuid, j: nat)
    requires IsRun(states, actions) && i < |states|
  {
    && j < i && Stores(states[j], actions[j], cookie)
    && forall m :: j < m < i ==> !Stores(states[m], actions[m], cookie) && !Takes(states[m], actions[m], cookie)
  }

  /** What an OUT handler's step puts under its cookie. */
  function Stored(s: System, a: Action): PendingConnection
    requires Enabled(s, a) && a.OutStores?
  {
    PendingConnection(s.outs[a.id].vconn, a.id)
  }

  lemma PendingAfter(s: System, a: Action, cookie: Uuid)
    requires Enabled(s, a)
    ensures var t := Apply(s, a);
            if Stores(s, a, cookie) then cookie in t.pending && t.pending[cookie] == Stored(s, a)
            else if Takes(s, a, cookie) then cookie !in t.pending
            else cookie in t.pending <==> cookie in s.pending
    ensures !Stores(s, a, cookie) && cookie in Apply(s, a).pending ==>
              cookie in s.pending && Apply(s, a).pending[cookie] == s.pending[cookie]
  {
  }

  /** An entry is pending exactly if some step stored it and none has touched its cookie since. */
  lemma {:induction false} PendingIsLastStored(states: seq<System>, actions: seq<Action>, i: nat, cookie: Uuid)
    requires IsRun(states, actions) && i < |states|
    ensures cookie in states[i].pending <==> exists j: nat :: LastStore(states, actions, i, cookie, j)
    ensures forall j: nat :: LastStore(states, actions, i, cookie, j) ==>
                        cookie in states[i].pending && states[i].pending[cookie] == Stored(states[j], actions[j])
  {
    if i > 0 {
      var h := i - 1;
      PendingIsLastStored(states, actions, h, cookie);
      PendingAfter(states[h], actions[h], cookie);
      if Stores(states[h], actions[h], cookie) {
        assert LastStore(states, actions, i, cookie, h);
        forall j: nat | LastStore(states, actions, i, cookie, j) ensures j == h {
        }
      } else {
        forall j: nat
          ensures LastStore(states, actions, i, cookie, j) <==>
                  LastStore(states, actions, h, cookie, j) && !Takes(states[h], actions[h], cookie)
        {
        }
      }
    }
  }

  /**
   A CONN/B1 gets hold of an entry exactly if some OUT handler stored one under its cookie and
   nobody has taken it since, and it gets what the last of them stored.
   */
  lemma {:induction false} TakesLastStored(states: seq<System>, actions: seq<Action>, i: nat)
    requires IsRun(states, actions) && i < |actions| && actions[i].InTakes?
    ensures var b1, after := states[i].ins[actions[i].id].b1, states[i + 1].ins[actions[i].id];
            && (after.InHolding? <==> exists j: nat :: LastStore(states, actions, i, b1.vcCookie, j))
            && (!after.InHolding? ==> after == InFailed(BadRequest))
            && forall j: nat :: LastStore(states, actions, i, b1.vcCookie, j) ==>
                 after == InHolding(b1, Stored(states[j], actions[j]))
  {
    PendingIsLastStored(states, actions, i, states[i].ins[actions[i].id].b1.vcCookie);
  }

  /** Whoever holds an entry connects to its sender, whatever the other handlers have done in between. */
  lemma {:induction false} HolderConnects(states: seq<System>, actions: seq<Action>, i: nat, id: nat)
    requires IsRun(states, actions) && i < |states| && id in states[i].ins && states[i].ins[id].InHolding?
    ensures var h, c := states[i].ins[id], Apply(states[i], InAccepts(id)).ins[id];
            c.InConnected? && c.b1 == h.b1 && c.sender == h.entry.sender
  {
    RunKeepsInvariant(states, actions, i);
    assert InOk(states[i], states[i].ins[id]);
  }
}
