/**
 The sessions of transceivers and the HELLO / HELLO_ACK handshake between them, over a network that may lose,
 duplicate and reorder datagrams. Shifts of a session's state are atomic.
 */
module Handshake {
  import opened BufferUtils
  import Crc
  import opened MessageBuffer

  datatype PeerAddress = PeerAddress(address: string, port: nat)

  const MAX_SESSIONS: nat := 1_024
  const RETRIES: nat := 10
  const FINS: nat := 5

  datatype State = Idle | Connecting | Connected | Closing | Closed | Error

  /** The transition graph of a session. */
  predicate CanShift(from: State, to: State)
  {
    match from
    case Idle => to in {Connecting, Closing, Error}
    case Connecting => to in {Connected, Closing, Error}
    case Connected => to in {Closing, Error}
    case Closing => to in {State.Closed, Error}
    case Closed => false
    case Error => false
  }

  /** A session: its state, the HELLOs it may still send, the FINs it has sent. */
  datatype Snapshot = Snapshot(state: State, retries: int, fins: nat)

  const NEW_SESSION := Snapshot(Idle, 0, 0)

  type Sessions = map<PeerAddress, Snapshot>

  /** What became of a session, and the types of the datagrams it sent to its peer. */
  datatype Reply = Reply(session: Snapshot, sent: seq<Byte>)

  datatype Turn = Turn(sessions: Sessions, sent: seq<Byte>)

  /** A shift the graph does not have is refused; entering `connecting` and `closing` starts their countdowns. */
  function Shift(v: Snapshot, to: State): Snapshot
  {
    if !CanShift(v.state, to) then v
    else Snapshot(to, if to.Connecting? then RETRIES else v.retries, if to.Closing? then 0 else v.fins)
  }

  function Handle(v: Snapshot, kind: Byte): Reply
  {
    match v.state
    case Connecting =>
      if kind == HELLO then Reply(v, [HELLO_ACK])
      else if kind == HELLO_ACK then Reply(Shift(v, Connected), [HELLO_ACK])
      else Reply(v, [])
    case Connected => Reply(if kind == FIN then Shift(v, Closing) else v, [])
    case _ => Reply(v, [])
  }

  function Retry(v: Snapshot): Reply
  {
    if !v.state.Connecting? then Reply(v, [])
    else
      var less := v.(retries := v.retries - 1);
      Reply(if less.retries <= 0 then Shift(less, Closing) else less, [HELLO])
  }

  function ClosingTurn(v: Snapshot): Reply
  {
    if !v.state.Closing? then Reply(v, [])
    else if v.fins < FINS then Reply(v.(fins := v.fins + 1), [FIN])
    else Reply(Shift(v, State.Closed), [])
  }

  function Put(sessions: Sessions, peer: PeerAddress, r: Reply): Turn { Turn(sessions[peer := r.session], r.sent) }

  /** A session that is closed leaves the map. */
  function PutOrRemove(sessions: Sessions, peer: PeerAddress, r: Reply): Turn
  {
    if r.session.state.Closed? then Turn(sessions - {peer}, r.sent) else Put(sessions, peer, r)
  }

  predicate Known(kind: Byte) { kind in {HELLO, HELLO_ACK, DATA, DATA_ACK, KEEP_ALIVE, FIN} }

  /** `entered` says whether the new session is in `connecting` by the time it gets to handle its first message. */
  function Welcome(kind: Byte, entered: bool): Reply
  {
    var v := Shift(NEW_SESSION, Connecting);
    if entered then Handle(v, kind) else Reply(v, Handle(NEW_SESSION, kind).sent)
  }

  function Receive(sessions: Sessions, from: PeerAddress, kind: Byte, entered: bool): Turn
  {
    if !Known(kind) then Turn(sessions, [])
    else if from in sessions then Put(sessions, from, Handle(sessions[from], kind))
    else if kind != HELLO || |sessions| >= MAX_SESSIONS then Turn(sessions, [])
    else Put(sessions, from, Welcome(kind, entered))
  }

  /** A datagram comes in: what does not decode is dropped. */
  function ReceiveRaw(sessions: Sessions, from: PeerAddress, datagram: seq<Byte>, entered: bool): Turn
  {
    match Decode(datagram)
    case None => Turn(sessions, [])
    case Some(message) => Receive(sessions, from, message.kind, entered)
  }

  function Dial(sessions: Sessions, peer: PeerAddress): Turn
  {
    if peer in sessions || |sessions| >= MAX_SESSIONS then Turn(sessions, [])
    else Put(sessions, peer, Reply(Shift(NEW_SESSION, Connecting), []))
  }

  // ---------- sessions and transceivers ----------

  class Session {
    const address: PeerAddress
    var state: State
    var retries: int
    var fins: nat

    constructor (address: PeerAddress)
      ensures View() == NEW_SESSION && this.address == address
    {
      this.address := address;
      state, retries, fins := Idle, 0, 0;
    }

    ghost function View(): Snapshot
      reads this
    {
      Snapshot(state, retries, fins)
    }

    method ShiftTo(to: State)
      modifies this
      ensures View() == Shift(old(View()), to)
    {
      if CanShift(state, to) {
        state := to;
        if to.Connecting? { retries := RETRIES; }
        if to.Closing? { fins := 0; }
      }
    }

    method HandleMessage(kind: Byte) returns (sent: seq<Byte>)
      modifies this
      ensures Reply(View(), sent) == Handle(old(View()), kind)
    {
      sent := [];
      if state.Connecting? {
        if kind == HELLO {
          sent := [HELLO_ACK];
        } else if kind == HELLO_ACK {
          sent := [HELLO_ACK];
          ShiftTo(Connected);
        }
      } else if state.Connected? {
        if kind == FIN { ShiftTo(Closing); }
      }
    }

    method OnRetryInterval() returns (sent: seq<Byte>)
      modifies this
      ensures Reply(View(), sent) == Retry(old(View()))
    {
      if !state.Connecting? { return []; }
      sent := [HELLO];
      retries := retries - 1;
      if retries <= 0 { ShiftTo(Closing); }
    }

    /** One turn of the loop that sends FINs, up to its sleep. */
    method OnClosingTurn() returns (sent: seq<Byte>)
      modifies this
      ensures Reply(View(), sent) == ClosingTurn(old(View()))
    {
      sent := [];
      if state.Closing? {
        if fins < FINS {
          sent := [FIN];
          fins := fins + 1;
        } else {
          ShiftTo(State.Closed);
        }
      }
    }
  }

  class TransceiverIPv4 {
    var sessionMap: map<PeerAddress, Session>

    /** Each session is that of its own peer. */
    ghost predicate Valid()
      reads this
    {
      forall a :: a in sessionMap ==> sessionMap[a].address == a
    }

    ghost function Sessions(): Sessions
      reads this, sessionMap.Values
    {
      map a | a in sessionMap :: sessionMap[a].View()
    }

    constructor ()
      ensures Valid() && Sessions() == map[]
    {
      sessionMap := map[];
    }

    lemma SameSize()
      ensures Sessions().Keys == sessionMap.Keys && |Sessions()| == |sessionMap|
    {
      assert Sessions().Keys == sessionMap.Keys;
      assert |Sessions()| == |Sessions().Keys| && |sessionMap| == |sessionMap.Keys|;
    }

    /** None if the session exists already or there are too many. */
    method CreateSession(peer: PeerAddress) returns (session: Session?)
      requires Valid()
      modifies this
      ensures Valid()
      ensures session == null <==> peer in old(Sessions()) || |old(Sessions())| >= MAX_SESSIONS
      ensures session == null ==> sessionMap == old(sessionMap)
      ensures session != null ==>
                fresh(session) && session.View() == NEW_SESSION && sessionMap == old(sessionMap)[peer := session]
    {
      SameSize();
      if peer in sessionMap || |sessionMap| >= MAX_SESSIONS { return null; }
      session := new Session(peer);
      sessionMap := sessionMap[peer := session];
    }

    method OnRawMessage(table: seq<bv32>, from: PeerAddress, buffer: array<Byte>, entered: bool)
      returns (sent: seq<Byte>)
      requires Valid() && Crc.IsCrcTable(table)
      modifies this, sessionMap.Values, buffer
      ensures Valid() && fresh(sessionMap.Values - old(sessionMap.Values))
      ensures Turn(Sessions(), sent) == ReceiveRaw(old(Sessions()), from, old(buffer[..]), entered)
    {
      hide Crc.IsCrcTable, Decode, Receive;
      ghost var before := Sessions();
      var message := DecodeBuffer(table, buffer);
      assert Sessions() == before;
      if message.None? { return []; }
      sent := Dispatch(from, message.value.kind, entered);
    }

    /** Hands a message of the given type to the session of its sender, which is created if need be. */
    method Dispatch(from: PeerAddress, kind: Byte, entered: bool) returns (sent: seq<Byte>)
      requires Valid()
      modifies this, sessionMap.Values
      ensures Valid() && fresh(sessionMap.Values - old(sessionMap.Values))
      ensures Turn(Sessions(), sent) == Receive(old(Sessions()), from, kind, entered)
    {
      hide Welcome, Handle, Shift, Valid;
      SameSize();
      if !Known(kind) { return []; }
      if from in sessionMap {
        sent := HandleMessage(from, kind);
      } else {
        if kind != HELLO || |sessionMap| >= MAX_SESSIONS { return []; }
        sent := WelcomePeer(from, kind, entered);
      }
    }

    method HandleMessage(peer: PeerAddress, kind: Byte) returns (sent: seq<Byte>)
      requires Valid() && peer in sessionMap
      modifies sessionMap[peer]
      ensures Valid() && Sessions() == old(Sessions())[peer := Handle(old(Sessions())[peer], kind).session]
      ensures sent == Handle(old(Sessions())[peer], kind).sent
    {
      hide Handle;
      assert Sessions()[peer] == sessionMap[peer].View();
      sent := sessionMap[peer].HandleMessage(kind);
      Changed(peer);
    }

    method WelcomePeer(from: PeerAddress, kind: Byte, entered: bool) returns (sent: seq<Byte>)
      requires Valid() && from !in Sessions() && |Sessions()| < MAX_SESSIONS
      modifies this
      ensures Valid() && fresh(sessionMap.Values - old(sessionMap.Values))
      ensures var r := Welcome(kind, entered); Sessions() == old(Sessions())[from := r.session] && sent == r.sent
    {
      hide Handle, Shift;
      IdleIgnores(kind);
      var session := CreateSession(from);
      if entered {
        session.ShiftTo(Connecting);
        sent := session.HandleMessage(kind);
      } else {
        sent := session.HandleMessage(kind);
        session.ShiftTo(Connecting);
      }
      Changed(from);
    }

    lemma IdleIgnores(kind: Byte)
      ensures Handle(NEW_SESSION, kind).session == NEW_SESSION
    {}

    method Connect(peer: PeerAddress) returns (ok: bool)
      requires Valid()
      modifies this
      ensures Valid() && fresh(sessionMap.Values - old(sessionMap.Values))
      ensures Turn(Sessions(), []) == Dial(old(Sessions()), peer)
      ensures ok <==> peer !in old(Sessions()) && |old(Sessions())| < MAX_SESSIONS
    {
      hide Shift;
      ghost var before := Sessions();
      var session := CreateSession(peer);
      ok := session != null;
      if session != null {
        session.ShiftTo(Connecting);
        Changed(peer);
      }
    }

    method OnRetryInterval(peer: PeerAddress) returns (sent: seq<Byte>)
      requires Valid() && peer in sessionMap
      modifies sessionMap.Values
      ensures Valid() && Turn(Sessions(), sent) == Put(old(Sessions()), peer, Retry(old(Sessions())[peer]))
    {
      assert Sessions()[peer] == sessionMap[peer].View();
      sent := sessionMap[peer].OnRetryInterval();
      Changed(peer);
    }

    method OnClosingTurn(peer: PeerAddress) returns (sent: seq<Byte>)
      requires Valid() && peer in sessionMap
      modifies this, sessionMap.Values
      ensures Valid()
      ensures Turn(Sessions(), sent) == PutOrRemove(old(Sessions()), peer, ClosingTurn(old(Sessions())[peer]))
    {
      assert Sessions()[peer] == sessionMap[peer].View();
      sent := sessionMap[peer].OnClosingTurn();
      Changed(peer);
      if sessionMap[peer].state.Closed? {
        ghost var closed := Sessions();
        sessionMap := sessionMap - {peer};
        assert Sessions() == closed - {peer};
      }
    }

    method CloseSession(peer: PeerAddress)
      requires Valid() && peer in sessionMap
      modifies sessionMap.Values
      ensures Valid()
      ensures Sessions() == Put(old(Sessions()), peer, Reply(Shift(old(Sessions())[peer], Closing), [])).sessions
    {
      assert Sessions()[peer] == sessionMap[peer].View();
      sessionMap[peer].ShiftTo(Closing);
      Changed(peer);
    }

    twostate lemma Changed(peer: PeerAddress)
      requires Valid() && peer in sessionMap && sessionMap.Keys == old(sessionMap.Keys) + {peer}
      requires forall a :: a in old(sessionMap) && a != peer ==>
                 sessionMap[a] == old(sessionMap[a]) && unchanged(old(sessionMap[a]))
      ensures Sessions() == old(Sessions())[peer := sessionMap[peer].View()]
    {}
  }

  // ---------- runs of any number of transceivers ----------

  /** What a session sends for a type is received as that type, so it is enough for the network to carry types. */
  lemma SentIsReceived(sessions: Sessions, from: PeerAddress, kind: Byte, randomUid: UInt32, entered: bool)
    ensures var buffers := Construct(Outgoing(kind, None, None, None, None), randomUid).buffers;
            |buffers| == 1 && ReceiveRaw(sessions, from, buffers[0], entered) == Receive(sessions, from, kind, entered)
  {
    hide Decode, Datagram, Receive;
    ConstructRoundTrip(Outgoing(kind, None, None, None, None), randomUid, 0);
  }

  datatype Wire = Wire(from: PeerAddress, to: PeerAddress, kind: Byte)

  /** `flying` is what the network may still deliver, `received` is what has been. */
  datatype Net = Net(nodes: map<PeerAddress, Sessions>, flying: set<Wire>, received: set<Wire>)

  const SILENCE := Net(map[], {}, {})

  datatype Step =
    | Delivers(wire: Wire, entered: bool)
    | Loses(wire: Wire)
    | Dials(node: PeerAddress, peer: PeerAddress)
    | RetryFires(node: PeerAddress, peer: PeerAddress)
    | Closes(node: PeerAddress, peer: PeerAddress)
    | ClosingTurns(node: PeerAddress, peer: PeerAddress)
    | Talks(node: PeerAddress, peer: PeerAddress, kind: Byte)    // data, acks and keep-alives of a connected session

  predicate IsTalk(kind: Byte) { kind in {DATA, DATA_ACK, KEEP_ALIVE} }

  function At(s: Net, node: PeerAddress): Sessions { if node in s.nodes then s.nodes[node] else map[] }

  predicate InState(s: Net, node: PeerAddress, peer: PeerAddress, state: State)
  {
    peer in At(s, node) && At(s, node)[peer].state == state
  }

  function Apply(s: Net, node: PeerAddress, peer: PeerAddress, turn: Turn): Net
  {
    s.(nodes := s.nodes[node := turn.sessions], flying := s.flying + set k | k in turn.sent :: Wire(node, peer, k))
  }

  function Do(s: Net, step: Step): Net
  {
    match step
    case Delivers(w, entered) =>
      if w !in s.flying then s
      else Apply(s.(received := s.received + {w}), w.to, w.from, Receive(At(s, w.to), w.from, w.kind, entered))
    case Loses(w) => s.(flying := s.flying - {w})
    case Dials(node, peer) => Apply(s, node, peer, Dial(At(s, node), peer))
    case RetryFires(node, peer) =>
      if peer in At(s, node) then Apply(s, node, peer, Put(At(s, node), peer, Retry(At(s, node)[peer]))) else s
    case Closes(node, peer) =>
      if peer in At(s, node) then
        Apply(s, node, peer, Put(At(s, node), peer, Reply(Shift(At(s, node)[peer], Closing), [])))
      else s
    case ClosingTurns(node, peer) =>
      if peer in At(s, node) then
        Apply(s, node, peer, PutOrRemove(At(s, node), peer, ClosingTurn(At(s, node)[peer])))
      else s
    case Talks(node, peer, kind) =>
      if InState(s, node, peer, Connected) && IsTalk(kind) then Apply(s, node, peer, Turn(At(s, node), [kind])) else s
  }

  // ---------- the invariant ----------

  /** `a` has had an answer from `b`. */
  predicate Linked(received: set<Wire>, a: PeerAddress, b: PeerAddress) { Wire(b, a, HELLO_ACK) in received }

  /** `a` has had a datagram of the handshake from `b`. */
  predicate Heard(received: set<Wire>, a: PeerAddress, b: PeerAddress)
  {
    Wire(b, a, HELLO) in received || Linked(received, a, b)
  }

  predicate Greeted(received: set<Wire>, a: PeerAddress, b: PeerAddress)
  {
    Wire(a, b, HELLO) in received || Wire(b, a, HELLO) in received
  }

  /** Why a datagram was sent: an answer follows a datagram, and talk follows an answer. */
  predicate WireOk(received: set<Wire>, w: Wire)
  {
    && (w.kind == HELLO_ACK ==> Heard(received, w.from, w.to) && Greeted(received, w.from, w.to))
    && (IsTalk(w.kind) ==> Linked(received, w.from, w.to))
  }

  predicate SessionOk(received: set<Wire>, node: PeerAddress, peer: PeerAddress, v: Snapshot)
  {
    match v.state
    case Connecting => 1 <= v.retries <= RETRIES
    case Connected => Linked(received, node, peer)
    case Closing => v.fins <= FINS
    case _ => false
  }

  ghost predicate NodeOk(received: set<Wire>, node: PeerAddress, sessions: Sessions)
  {
    |sessions| <= MAX_SESSIONS && forall p :: p in sessions ==> SessionOk(received, node, p, sessions[p])
  }

  ghost predicate WiresOk(wires: set<Wire>, received: set<Wire>) { forall w :: w in wires ==> WireOk(received, w) }

  ghost predicate NodesOk(s: Net) { forall n :: n in s.nodes ==> NodeOk(s.received, n, s.nodes[n]) }

  ghost predicate Inv(s: Net) { NodesOk(s) && WiresOk(s.flying, s.received) && WiresOk(s.received, s.received) }

  /** What a turn of `node` for `peer` may do, given all it has received. */
  ghost predicate TurnOk(received: set<Wire>, node: PeerAddress, peer: PeerAddress, turn: Turn)
  {
    NodeOk(received, node, turn.sessions) && forall k :: k in turn.sent ==> WireOk(received, Wire(node, peer, k))
  }

  lemma PutSize(sessions: Sessions, peer: PeerAddress, v: Snapshot)
    ensures |sessions[peer := v]| == |sessions| + if peer in sessions then 0 else 1
    ensures |sessions - {peer}| <= |sessions|
  {
    InsertSize(sessions, peer, v);
    RemoveSize(sessions, peer);
  }

  /** More received: nothing breaks. */
  lemma Monotone(wires: set<Wire>, received: set<Wire>, more: set<Wire>)
    requires received <= more
    ensures WiresOk(wires, received) ==> WiresOk(wires, more)
    ensures forall n, ss :: NodeOk(received, n, ss) ==> NodeOk(more, n, ss)
  {}

  lemma ApplyKeepsInv(s: Net, node: PeerAddress, peer: PeerAddress, turn: Turn)
    requires Inv(s) && TurnOk(s.received, node, peer, turn)
    ensures Inv(Apply(s, node, peer, turn))
  {
    hide NodeOk, WireOk;
  }

  lemma AtOk(s: Net, node: PeerAddress)
    requires NodesOk(s)
    ensures NodeOk(s.received, node, At(s, node))
  {}

  lemma HandleOk(received: set<Wire>, node: PeerAddress, peer: PeerAddress, v: Snapshot, kind: Byte)
    requires v == NEW_SESSION || SessionOk(received, node, peer, v)
    requires Wire(peer, node, kind) in received && WiresOk(received, received)
    ensures var r := Handle(v, kind);
            && (forall k :: k in r.sent ==> WireOk(received, Wire(node, peer, k)))
            && (if v == NEW_SESSION then r.session == v else SessionOk(received, node, peer, r.session))
  {
    assert WireOk(received, Wire(peer, node, kind));
  }

  lemma NewSessionOk(received: set<Wire>, node: PeerAddress, peer: PeerAddress)
    ensures SessionOk(received, node, peer, Shift(NEW_SESSION, Connecting))
  {}

  lemma PutOk(received: set<Wire>, node: PeerAddress, peer: PeerAddress, sessions: Sessions, r: Reply)
    requires NodeOk(received, node, sessions) && (peer in sessions || |sessions| < MAX_SESSIONS)
    requires r.session.state.Closed? || SessionOk(received, node, peer, r.session)
    requires forall k :: k in r.sent ==> WireOk(received, Wire(node, peer, k))
    ensures TurnOk(received, node, peer, PutOrRemove(sessions, peer, r))
  {
    hide SessionOk, WireOk;
    PutSize(sessions, peer, r.session);
    assert SessionOk(received, node, peer, r.session) ==> NodeOk(received, node, sessions[peer := r.session]);
    assert NodeOk(received, node, sessions - {peer});
  }

  lemma ClosedIsNotOk(received: set<Wire>, node: PeerAddress, peer: PeerAddress, v: Snapshot)
    requires SessionOk(received, node, peer, v)
    ensures !v.state.Closed?
  {}

  lemma ReceiveOk(received: set<Wire>, node: PeerAddress, peer: PeerAddress, sessions: Sessions, kind: Byte,
                  entered: bool)
    requires NodeOk(received, node, sessions) && Wire(peer, node, kind) in received && WiresOk(received, received)
    ensures TurnOk(received, node, peer, Receive(sessions, peer, kind, entered))
  {
    hide SessionOk, WireOk, WiresOk, Handle, Shift;
    NewSessionOk(received, node, peer);
    if !Known(kind) {
    } else if peer in sessions {
      var r := Handle(sessions[peer], kind);
      assert SessionOk(received, node, peer, sessions[peer]);
      if sessions[peer] == NEW_SESSION { NewIsNotOk(received, node, peer); }
      HandleOk(received, node, peer, sessions[peer], kind);
      ClosedIsNotOk(received, node, peer, r.session);
      PutOk(received, node, peer, sessions, r);
    } else if kind == HELLO && |sessions| < MAX_SESSIONS {
      var r := Welcome(kind, entered);
      var v := Shift(NEW_SESSION, Connecting);
      if v == NEW_SESSION { NewIsNotOk(received, node, peer); }
      HandleOk(received, node, peer, if entered then v else NEW_SESSION, kind);
      ClosedIsNotOk(received, node, peer, r.session);
      PutOk(received, node, peer, sessions, r);
    }
  }

  lemma NewIsNotOk(received: set<Wire>, node: PeerAddress, peer: PeerAddress)
    ensures !SessionOk(received, node, peer, NEW_SESSION)
  {}

  lemma TimersOk(received: set<Wire>, node: PeerAddress, peer: PeerAddress, v: Snapshot)
    requires SessionOk(received, node, peer, v)
    ensures SessionOk(received, node, peer, Retry(v).session) && SessionOk(received, node, peer, Shift(v, Closing))
    ensures var c := ClosingTurn(v).session; c.state.Closed? || SessionOk(received, node, peer, c)
    ensures forall k :: k in Retry(v).sent + ClosingTurn(v).sent ==> WireOk(received, Wire(node, peer, k))
  {}

  lemma DeliverKeepsInv(s: Net, w: Wire, entered: bool)
    requires Inv(s) && w in s.flying
    ensures Inv(Do(s, Delivers(w, entered)))
  {
    hide NodeOk, WireOk, Receive, Apply, TurnOk;
    var more := s.received + {w};
    Monotone(s.flying, s.received, more);
    Monotone(more, s.received, more);
    var t := s.(received := more);
    assert Inv(t);
    AtOk(t, w.to);
    assert At(t, w.to) == At(s, w.to);
    ReceiveOk(more, w.to, w.from, At(s, w.to), w.kind, entered);
    ApplyKeepsInv(t, w.to, w.from, Receive(At(s, w.to), w.from, w.kind, entered));
  }

  /** The steps a node takes by itself. */
  lemma OwnStepKeepsInv(s: Net, step: Step)
    requires Inv(s) && !step.Delivers? && !step.Loses?
    ensures Inv(Do(s, step))
  {
    hide WireOk, WiresOk, Apply, TurnOk, Shift, Retry, ClosingTurn, SessionOk, NodesOk;
    var node, peer := step.node, step.peer;
    var sessions := At(s, node);
    AtOk(s, node);
    if step.Dials? {
      if peer !in sessions && |sessions| < MAX_SESSIONS {
        NewSessionOk(s.received, node, peer);
        ClosedIsNotOk(s.received, node, peer, Shift(NEW_SESSION, Connecting));
        PutOk(s.received, node, peer, sessions, Reply(Shift(NEW_SESSION, Connecting), []));
      } else {
        SameTurnOk(s.received, node, peer, sessions, []);
      }
      ApplyKeepsInv(s, node, peer, Dial(sessions, peer));
    } else if peer in sessions {
      var v := sessions[peer];
      TimersOk(s.received, node, peer, v);
      match step
      case RetryFires(_, _) =>
        ClosedIsNotOk(s.received, node, peer, Retry(v).session);
        PutOk(s.received, node, peer, sessions, Retry(v));
        ApplyKeepsInv(s, node, peer, Put(sessions, peer, Retry(v)));
      case Closes(_, _) =>
        ClosedIsNotOk(s.received, node, peer, Shift(v, Closing));
        PutOk(s.received, node, peer, sessions, Reply(Shift(v, Closing), []));
        ApplyKeepsInv(s, node, peer, Put(sessions, peer, Reply(Shift(v, Closing), [])));
      case ClosingTurns(_, _) =>
        PutOk(s.received, node, peer, sessions, ClosingTurn(v));
        ApplyKeepsInv(s, node, peer, PutOrRemove(sessions, peer, ClosingTurn(v)));
      case Talks(_, _, kind) =>
        if v.state == Connected && IsTalk(kind) {
          TalkOk(s.received, node, peer, v, kind);
          SameTurnOk(s.received, node, peer, sessions, [kind]);
          ApplyKeepsInv(s, node, peer, Turn(sessions, [kind]));
        }
    }
  }

  lemma TalkOk(received: set<Wire>, node: PeerAddress, peer: PeerAddress, v: Snapshot, kind: Byte)
    requires SessionOk(received, node, peer, v) && v.state == Connected && IsTalk(kind)
    ensures WireOk(received, Wire(node, peer, kind))
  {}

  lemma SameTurnOk(received: set<Wire>, node: PeerAddress, peer: PeerAddress, sessions: Sessions, sent: seq<Byte>)
    requires NodeOk(received, node, sessions) && forall k :: k in sent ==> WireOk(received, Wire(node, peer, k))
    ensures TurnOk(received, node, peer, Turn(sessions, sent))
  {}

  lemma DoKeepsInv(s: Net, step: Step)
    requires Inv(s)
    ensures Inv(Do(s, step))
  {
    hide NodeOk, WireOk;
    if !step.Delivers? && !step.Loses? {
      hide Do;
      OwnStepKeepsInv(s, step);
    } else if step.Delivers? && step.wire in s.flying {
      hide Do;
      DeliverKeepsInv(s, step.wire, step.entered);
    }
  }

  function After(s: Net, steps: seq<Step>): Net
  {
    if steps == [] then s else Do(After(s, steps[..|steps| - 1]), steps[|steps| - 1])
  }

  lemma {:induction false} AfterKeepsInv(s: Net, steps: seq<Step>)
    requires Inv(s)
    ensures Inv(After(s, steps))
  {
    hide Inv, Do;
    if steps != [] {
      AfterKeepsInv(s, steps[..|steps| - 1]);
      DoKeepsInv(After(s, steps[..|steps| - 1]), steps[|steps| - 1]);
    }
  }

  // ---------- what holds in every run ----------

  /**
   Whenever `a` is connected to `b`, both have received datagrams of the other: `a` an answer, `b` what it answered,
   and one of them a HELLO.
   */
  lemma HandshakeSound(steps: seq<Step>, a: PeerAddress, b: PeerAddress)
    requires InState(After(SILENCE, steps), a, b, Connected)
    ensures var received := After(SILENCE, steps).received;
            Linked(received, a, b) && Heard(received, b, a) && Greeted(received, a, b)
  {
    hide After;
    AfterKeepsInv(SILENCE, steps);
    var s := After(SILENCE, steps);
    assert SessionOk(s.received, a, b, At(s, a)[b]);
    assert WireOk(s.received, Wire(b, a, HELLO_ACK));
  }

  /** No data, ack or keep-alive reaches the network before both directions have worked. */
  lemma TalkAfterHandshake(steps: seq<Step>, w: Wire)
    requires var s := After(SILENCE, steps); w in s.flying + s.received && IsTalk(w.kind)
    ensures var received := After(SILENCE, steps).received;
            Linked(received, w.from, w.to) && Heard(received, w.to, w.from) && Greeted(received, w.from, w.to)
  {
    hide After;
    AfterKeepsInv(SILENCE, steps);
    var s := After(SILENCE, steps);
    assert WireOk(s.received, w);
    assert WireOk(s.received, Wire(w.to, w.from, HELLO_ACK));
  }

  /** No transceiver ever has more than 1,024 sessions, and none keeps an idle or closed one. */
  lemma SessionsBounded(steps: seq<Step>, node: PeerAddress)
    ensures var sessions := At(After(SILENCE, steps), node);
            |sessions| <= MAX_SESSIONS && forall p :: p in sessions ==>
              sessions[p].state in {Connecting, Connected, Closing}
  {
    hide After;
    AfterKeepsInv(SILENCE, steps);
  }

  predicate Follows(from: State, to: State) { from == to || CanShift(from, to) }

  lemma RepliesFollowGraph(v: Snapshot, kind: Byte)
    ensures Follows(v.state, Handle(v, kind).session.state) && Follows(v.state, Retry(v).session.state)
    ensures Follows(v.state, ClosingTurn(v).session.state) && Follows(v.state, Shift(v, Closing).state)
    ensures v == NEW_SESSION ==> Follows(Connecting, Handle(Shift(v, Connecting), kind).session.state)
  {}

  lemma AtApply(s: Net, node: PeerAddress, peer: PeerAddress, turn: Turn, other: PeerAddress)
    ensures At(Apply(s, node, peer, turn), other) == if other == node then turn.sessions else At(s, other)
  {}

  /** Sessions move along the transition graph: they appear on their way from `idle`, and disappear when closed. */
  ghost predicate MovesAlong(before: Sessions, after: Sessions)
  {
    forall peer ::
      && (peer in before && peer in after ==> Follows(before[peer].state, after[peer].state))
      && (peer in before && peer !in after ==> CanShift(before[peer].state, State.Closed))
      && (peer !in before && peer in after ==> after[peer].state.Connecting?)
  }

  lemma StepFollowsGraph(s: Net, step: Step, node: PeerAddress)
    requires Inv(s)
    ensures MovesAlong(At(s, node), At(Do(s, step), node))
  {
    hide WiresOk, Handle, Retry, Shift, NodesOk, NodeOk;
    match step
    case Delivers(w, entered) =>
      if w in s.flying {
        if node == w.to { ReceiveFollows(s, w, entered); }
        AtApply(s.(received := s.received + {w}), w.to, w.from, Receive(At(s, w.to), w.from, w.kind, entered), node);
        assert At(s.(received := s.received + {w}), node) == At(s, node);
      }
    case Loses(_) =>
    case Dials(_, _) => assert Shift(NEW_SESSION, Connecting).state == Connecting by { hide *; NewConnects(); }
    case _ =>
      if step.peer in At(s, step.node) {
        NotClosed(s, step.node, step.peer);
        RepliesFollowGraph(At(s, step.node)[step.peer], FIN);
      }
  }

  lemma NotClosed(s: Net, node: PeerAddress, peer: PeerAddress)
    requires Inv(s) && peer in At(s, node)
    ensures !At(s, node)[peer].state.Closed?
  {
    AtOk(s, node);
  }

  lemma NewConnects()
    ensures Shift(NEW_SESSION, Connecting).state == Connecting
    ensures forall entered :: Welcome(HELLO, entered).session.state == Connecting
  {}

  lemma ReceiveFollows(s: Net, w: Wire, entered: bool)
    requires Inv(s)
    ensures MovesAlong(At(s, w.to), Receive(At(s, w.to), w.from, w.kind, entered).sessions)
  {
    hide Handle, Welcome;
    NewConnects();
    var sessions := At(s, w.to);
    if w.from in sessions { RepliesFollowGraph(sessions[w.from], w.kind); }
  }

  // ---------- the retry countdown ----------

  /** `n` ticks of the retry interval with nothing received. */
  function Retries(n: nat): Reply
  {
    if n == 0 then Reply(Shift(NEW_SESSION, Connecting), [])
    else
      var before := Retries(n - 1);
      var r := Retry(before.session);
      Reply(r.session, before.sent + r.sent)
  }

  /** An unanswered session sends 10 HELLOs and is then closing, however long the interval goes on. */
  lemma {:induction false} RetriesRunOut(n: nat)
    ensures var r := Retries(n);
            && r.sent == seq(Min(n, RETRIES), _ => HELLO)
            && r.session == if n < RETRIES then Snapshot(Connecting, RETRIES - n, 0) else Snapshot(Closing, 0, 0)
  {
    if n > 0 { RetriesRunOut(n - 1); }
  }

  // ---------- a lost last answer ----------

  /** `a` is connected, `b` is not, and no answer of `a` is under way. */
  predicate HalfOpen(s: Net, a: PeerAddress, b: PeerAddress)
  {
    InState(s, a, b, Connected) && !InState(s, b, a, Connected) && Wire(a, b, HELLO_ACK) !in s.flying
  }

  ghost predicate StaysConnected(s: Net, steps: seq<Step>, a: PeerAddress, b: PeerAddress)
  {
    forall i :: 0 <= i <= |steps| ==> InState(After(s, steps[..i]), a, b, Connected)
  }

  lemma HalfOpenStep(s: Net, step: Step, a: PeerAddress, b: PeerAddress)
    requires HalfOpen(s, a, b) && InState(Do(s, step), a, b, Connected)
    ensures HalfOpen(Do(s, step), a, b)
  {}

  /** A connected session never answers again: while `a` stays connected, `b` cannot connect any more. */
  lemma {:induction false} HalfOpenStuck(s: Net, steps: seq<Step>, a: PeerAddress, b: PeerAddress)
    requires HalfOpen(s, a, b) && StaysConnected(s, steps, a, b)
    ensures HalfOpen(After(s, steps), a, b)
  {
    hide HalfOpen, InState, Do;
    if steps != [] {
      var n := |steps| - 1;
      assert forall i :: 0 <= i <= n ==> steps[..n][..i] == steps[..i];
      HalfOpenStuck(s, steps[..n], a, b);
      assert steps[..n + 1] == steps;
      HalfOpenStep(After(s, steps[..n]), steps[n], a, b);
    }
  }

  ghost predicate CanConnect(s: Net, a: PeerAddress, b: PeerAddress)
  {
    exists steps :: StaysConnected(s, steps, a, b) && InState(After(s, steps), b, a, Connected)
  }

  /**
   With `a` connected and `b` still connecting, `b` can join `a` if and only if an answer of `a` is still under way.
   */
  lemma ConnectsIffAnswerUnderWay(s: Net, a: PeerAddress, b: PeerAddress)
    requires a != b && InState(s, a, b, Connected) && InState(s, b, a, Connecting)
    ensures CanConnect(s, a, b) <==> Wire(a, b, HELLO_ACK) in s.flying
  {
    hide After;
    if Wire(a, b, HELLO_ACK) in s.flying {
      var steps := [Delivers(Wire(a, b, HELLO_ACK), true)];
      AfterOne(s, steps[0]);
      assert steps[..0] == [] && steps[..1] == steps;
      assert InState(After(s, steps), b, a, Connected);
      assert StaysConnected(s, steps, a, b);
    } else if CanConnect(s, a, b) {
      var steps :| StaysConnected(s, steps, a, b) && InState(After(s, steps), b, a, Connected);
      HalfOpenStuck(s, steps, a, b);
    }
  }

  lemma AfterOne(s: Net, step: Step)
    ensures After(s, [step]) == Do(s, step) && After(s, []) == s
  {
    assert [step][..0] == [];
  }

  lemma AfterMore(s: Net, steps: seq<Step>, step: Step)
    ensures After(s, steps + [step]) == Do(After(s, steps), step)
  {
    assert (steps + [step])[..|steps|] == steps;
  }

  // ---------- what a delivery does ----------

  /** Nothing has changed but the session of `node` with `peer`. */
  ghost predicate OnlySession(s: Net, t: Net, node: PeerAddress, peer: PeerAddress)
  {
    && (forall n :: n != node ==> At(t, n) == At(s, n))
    && (forall p :: p != peer ==> (p in At(t, node) <==> p in At(s, node)))
    && (forall p :: p != peer && p in At(s, node) ==> At(t, node)[p] == At(s, node)[p])
  }

  /**
   A message for a session: one that is connecting answers both messages of the handshake, and an answer connects it;
   one that is connected closes on a FIN; nothing else has an effect, and no one else is affected.
   */
  lemma DeliveryToSession(s: Net, w: Wire, entered: bool)
    requires w in s.flying && w.from in At(s, w.to)
    ensures var t, v := Do(s, Delivers(w, entered)), At(s, w.to)[w.from];
            && OnlySession(s, t, w.to, w.from) && w.from in At(t, w.to) && t.received == s.received + {w}
            && t.flying == s.flying + (if v.state == Connecting && w.kind in {HELLO, HELLO_ACK}
                                       then {Wire(w.to, w.from, HELLO_ACK)} else {})
            && (if v.state == Connecting && w.kind == HELLO_ACK then At(t, w.to)[w.from].state == Connected
                else if v.state == Connected && w.kind == FIN then
                  At(t, w.to)[w.from] == Snapshot(Closing, v.retries, 0)
                else At(t, w.to)[w.from] == v)
  {
    hide Handle;
    var sessions := At(s, w.to);
    HandleExact(sessions[w.from], w.kind);
    if !Known(w.kind) { Unknown(sessions[w.from], w.kind); }
  }

  lemma HandleExact(v: Snapshot, kind: Byte)
    ensures var r := Handle(v, kind);
            && r.sent == (if v.state == Connecting && kind in {HELLO, HELLO_ACK} then [HELLO_ACK] else [])
            && (if v.state == Connecting && kind == HELLO_ACK then r.session.state == Connected
                else if v.state == Connected && kind == FIN then r.session == Snapshot(Closing, v.retries, 0)
                else r.session == v)
  {}

  lemma Unknown(v: Snapshot, kind: Byte)
    requires !Known(kind)
    ensures kind !in {HELLO, HELLO_ACK, FIN}
  {}

  /** A connected session stays connected on every message but a FIN, on which it closes. */
  lemma ConnectedUntilFin(s: Net, w: Wire, entered: bool)
    requires w in s.flying && InState(s, w.to, w.from, Connected)
    ensures var t := Do(s, Delivers(w, entered));
            && (InState(t, w.to, w.from, Connected) <==> w.kind != FIN)
            && (w.kind == FIN ==> InState(t, w.to, w.from, Closing))
  {
    hide Do;
    DeliveryToSession(s, w, entered);
  }

  /**
   A message of a peer without a session: it gets one, connecting, if and only if the message is a HELLO and there are
   fewer than 1,024 sessions; the others are untouched.
   */
  lemma DeliveryToStranger(s: Net, w: Wire, entered: bool)
    requires w in s.flying && w.from !in At(s, w.to)
    ensures var t := Do(s, Delivers(w, entered)); var admitted := w.kind == HELLO && |At(s, w.to)| < 1_024;
            && OnlySession(s, t, w.to, w.from) && t.received == s.received + {w}
            && (w.from in At(t, w.to) <==> admitted)
            && (admitted ==> At(t, w.to)[w.from] == Snapshot(Connecting, 10, 0))
            && t.flying == s.flying + (if admitted && entered then {Wire(w.to, w.from, HELLO_ACK)} else {})
  {
    hide Receive, Do, At;
    DeliverExact(s, w, entered);
    StrangerExact(At(s, w.to), w.from, w.kind, entered);
    assert WiresOf(w.to, w.from, []) == {} && WiresOf(w.to, w.from, [HELLO_ACK]) == {Wire(w.to, w.from, HELLO_ACK)};
  }

  function WiresOf(node: PeerAddress, peer: PeerAddress, sent: seq<Byte>): set<Wire>
  {
    set k | k in sent :: Wire(node, peer, k)
  }

  lemma DeliverExact(s: Net, w: Wire, entered: bool)
    requires w in s.flying
    ensures var t, turn := Do(s, Delivers(w, entered)), Receive(At(s, w.to), w.from, w.kind, entered);
            && (forall n :: At(t, n) == if n == w.to then turn.sessions else At(s, n))
            && t.received == s.received + {w} && t.flying == s.flying + WiresOf(w.to, w.from, turn.sent)
  {
    hide Receive;
  }

  lemma StrangerExact(sessions: Sessions, from: PeerAddress, kind: Byte, entered: bool)
    requires from !in sessions
    ensures var turn := Receive(sessions, from, kind, entered);
            if kind == HELLO && |sessions| < 1_024 then
              turn == Turn(sessions[from := Snapshot(Connecting, 10, 0)], if entered then [HELLO_ACK] else [])
            else turn == Turn(sessions, [])
  {
    hide Welcome;
    WelcomeExact(entered);
  }

  lemma WelcomeExact(entered: bool)
    ensures var r := Welcome(HELLO, entered);
            r.session == Snapshot(Connecting, 10, 0) && r.sent == if entered then [HELLO_ACK] else []
  {}

  // ---------- what can happen ----------

  /** Two transceivers without sessions with each other, with room for one more each, can connect. */
  lemma TwoCanConnect(s: Net, a: PeerAddress, b: PeerAddress) returns (steps: seq<Step>)
    requires a != b && b !in At(s, a) && a !in At(s, b) && |At(s, a)| < MAX_SESSIONS && |At(s, b)| < MAX_SESSIONS
    ensures var t := After(s, steps); InState(t, a, b, Connected) && InState(t, b, a, Connected)
  {
    hide After, Do;
    var hello, yes, again := Wire(a, b, HELLO), Wire(b, a, HELLO_ACK), Wire(a, b, HELLO_ACK);
    AfterOne(s, Dials(a, b));
    AfterMore(s, [Dials(a, b)], RetryFires(a, b));
    steps := [Dials(a, b)] + [RetryFires(a, b)];
    AfterMore(s, steps, Delivers(hello, true));
    steps := steps + [Delivers(hello, true)];
    AfterMore(s, steps, Delivers(yes, true));
    steps := steps + [Delivers(yes, true)];
    AfterMore(s, steps, Delivers(again, true));
    steps := steps + [Delivers(again, true)];
    var s1 := Do(s, Dials(a, b));
    var s2 := Do(s1, RetryFires(a, b));
    DialAndCall(s, a, b);
    var s3 := Do(s2, Delivers(hello, true));
    DeliveryToStranger(s2, hello, true);
    var s4 := Do(s3, Delivers(yes, true));
    DeliveryToSession(s3, yes, true);
    DeliveryToSession(s4, again, true);

  }

  /** The handshake may also end half way: `a` calls `b`, each answers, and the answer of `a` is lost. */
  lemma HalfOpenReachable(a: PeerAddress, b: PeerAddress) returns (steps: seq<Step>)
    requires a != b
    ensures var s := After(SILENCE, steps); HalfOpen(s, a, b) && InState(s, b, a, Connecting)
  {
    hide After, Do;
    var hello, yes, lost := Wire(a, b, HELLO), Wire(b, a, HELLO_ACK), Wire(a, b, HELLO_ACK);
    AfterOne(SILENCE, Dials(a, b));
    AfterMore(SILENCE, [Dials(a, b)], RetryFires(a, b));
    steps := [Dials(a, b)] + [RetryFires(a, b)];
    AfterMore(SILENCE, steps, Delivers(hello, true));
    steps := steps + [Delivers(hello, true)];
    AfterMore(SILENCE, steps, Delivers(yes, true));
    steps := steps + [Delivers(yes, true)];
    AfterMore(SILENCE, steps, Loses(lost));
    steps := steps + [Loses(lost)];
    var s2 := Do(Do(SILENCE, Dials(a, b)), RetryFires(a, b));
    DialAndCall(SILENCE, a, b);
    var s3 := Do(s2, Delivers(hello, true));
    DeliveryToStranger(s2, hello, true);
    DeliveryToSession(s3, yes, true);
    LossExact(Do(s3, Delivers(yes, true)), lost);
  }

  lemma LossExact(s: Net, w: Wire)
    ensures Do(s, Loses(w)) == s.(flying := s.flying - {w})
  {}

  lemma DialAndCall(s: Net, a: PeerAddress, b: PeerAddress)
    requires b !in At(s, a) && |At(s, a)| < MAX_SESSIONS
    ensures var t := Do(Do(s, Dials(a, b)), RetryFires(a, b));
            && OnlySession(s, t, a, b) && InState(t, a, b, Connecting) && Wire(a, b, HELLO) in t.flying
  {
    NewConnects();
    var s1 := Do(s, Dials(a, b));
    assert At(s1, a) == At(s, a)[b := Snapshot(Connecting, RETRIES, 0)];
  }

  // ---------- closing ----------

  /** A session that is told to close, after `n` turns of its closing loop. */
  function Closings(v: Snapshot, n: nat): Reply
  {
    if n == 0 then Reply(Shift(v, Closing), [])
    else
      var before := Closings(v, n - 1);
      var r := ClosingTurn(before.session);
      Reply(r.session, before.sent + r.sent)
  }

  /** A connecting or connected session that closes sends exactly five FINs, one a turn, and is closed with the next. */
  lemma {:induction false} FinsRunOut(v: Snapshot, n: nat)
    requires v.state in {Connecting, Connected}
    ensures var r := Closings(v, n);
            && r.sent == seq(Min(n, 5), _ => FIN)
            && r.session == Snapshot(if n <= 5 then Closing else State.Closed, v.retries, Min(n, 5))
  {
    if n > 0 { FinsRunOut(v, n - 1); }
  }

  function ClosingRun(a: PeerAddress, b: PeerAddress, n: nat): seq<Step>
  {
    if n == 0 then [Closes(a, b)] else ClosingRun(a, b, n - 1) + [ClosingTurns(a, b)]
  }

  /**
   In a run: the session closes, and is out of the map with the sixth turn; its FIN is on the network from the first.
   */
  lemma {:induction false} ClosingEnds(s: Net, a: PeerAddress, b: PeerAddress, n: nat)
    requires b in At(s, a) && At(s, a)[b].state in {Connecting, Connected} && n <= 6
    ensures var t, r := After(s, ClosingRun(a, b, n)), Closings(At(s, a)[b], n);
            && OnlySession(s, t, a, b)
            && (b in At(t, a) <==> n <= 5) && (n <= 5 ==> At(t, a)[b] == r.session)
            && (n >= 1 ==> Wire(a, b, FIN) in t.flying)
  {
    hide Do, Closings, Shift, ClosingTurn;
    FinsRunOut(At(s, a)[b], n);
    if n == 0 {
      AfterOne(s, Closes(a, b));
      CloseExact(s, a, b);
    } else {
      ClosingEnds(s, a, b, n - 1);
      FinsRunOut(At(s, a)[b], n - 1);
      AfterMore(s, ClosingRun(a, b, n - 1), ClosingTurns(a, b));
      hide After;
      TurnExact(After(s, ClosingRun(a, b, n - 1)), a, b);
      NextClosing(At(s, a)[b], n);
    }
  }

  lemma NextClosing(v: Snapshot, n: nat)
    requires n > 0
    ensures Closings(v, n).session == ClosingTurn(Closings(v, n - 1).session).session
  {}

  lemma CloseExact(s: Net, a: PeerAddress, b: PeerAddress)
    requires b in At(s, a)
    ensures var t := Do(s, Closes(a, b));
            OnlySession(s, t, a, b) && b in At(t, a) && At(t, a)[b] == Closings(At(s, a)[b], 0).session
  {}

  lemma TurnExact(s: Net, a: PeerAddress, b: PeerAddress)
    requires b in At(s, a) && At(s, a)[b].state == Closing
    ensures var t, v := Do(s, ClosingTurns(a, b)), At(s, a)[b];
            && OnlySession(s, t, a, b) && s.flying <= t.flying
            && (b in At(t, a) <==> v.fins < FINS)
            && (v.fins < FINS ==> At(t, a)[b] == ClosingTurn(v).session && Wire(a, b, FIN) in t.flying)
  {}
}
