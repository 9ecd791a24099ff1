/**
 The receiving half of a connected session: reassembly of datagrams (src/transport/session/behaviors/connected.ts).
 */
module Receiver {
  import opened BufferUtils
  import opened MessageBuffer

  const MAX_MESSAGE_SIZE_BYTES: nat := 10 * 1024 * 1024
  const MAX_IN_FLIGHT_MESSAGES: nat := 64
  const INBOUND_MESSAGE_TTL_MS: int := 30_000
  const MAX_MESSAGE_PARTS: nat := (MAX_MESSAGE_SIZE_BYTES + MAX_PAYLOAD_SIZE - 1) / MAX_PAYLOAD_SIZE

  // ---------- specification ----------

  type Parts = map<nat, seq<Byte>>

  /** What the collector holds of one message. */
  datatype Entry = Entry(total: nat, parts: Parts, receivedBytes: nat, lastActivityAt: int)

  type Collector = map<UInt32, Entry>

  /** One arrival: the collector after it, whether an ack is sent, and the message handed to the application. */
  datatype Outcome = Outcome(collector: Collector, acked: bool, received: Option<seq<Byte>>)

  predicate IsValidDataMessage(m: Message)
  {
    m.kind == DATA && 0 < m.total <= MAX_MESSAGE_PARTS && m.sequence < m.total && |m.payload| <= MAX_PAYLOAD_SIZE
  }

  predicate HasAll(parts: Parts, total: nat) { forall k :: 0 <= k < total ==> k in parts }

  function InOrder(parts: Parts, total: nat): seq<seq<Byte>>
    requires HasAll(parts, total)
  {
    seq(total, k requires 0 <= k < total => parts[k])
  }

  /** Node's `Buffer.concat(list, length)`: the list end to end, cut or zero-filled to `length`. */
  function ConcatTo(list: seq<seq<Byte>>, length: nat): seq<Byte>
  {
    var all := Concat(list);
    if |all| >= length then all[..length] else all + seq(length - |all|, _ => 0)
  }

  /** The four ways an arrival can go. */
  datatype Fate = Ignored | Duplicate | Overflow | Kept

  function FateOf(c: Collector, m: Message): Fate
  {
    if m.uid !in c then
      if |c| >= MAX_IN_FLIGHT_MESSAGES then Ignored
      else if |m.payload| > MAX_MESSAGE_SIZE_BYTES then Overflow
      else Kept
    else if c[m.uid].total != m.total then Ignored
    else if m.sequence in c[m.uid].parts then Duplicate
    else if c[m.uid].receivedBytes + |m.payload| > MAX_MESSAGE_SIZE_BYTES then Overflow
    else Kept
  }

  /** The entry an arrival is for, found or new, with its time of last activity renewed. */
  function Opened(c: Collector, m: Message, now: int): Entry
  {
    if m.uid in c then c[m.uid].(lastActivityAt := now) else Entry(m.total, map[], 0, now)
  }

  function Stored(e: Entry, m: Message): Entry
  {
    e.(parts := e.parts[m.sequence := m.payload], receivedBytes := e.receivedBytes + |m.payload|)
  }

  /** Puts an entry back, or hands its message over if no part is missing. */
  function Settle(c: Collector, uid: UInt32, e: Entry): Outcome
  {
    if |e.parts| == e.total && HasAll(e.parts, e.total) then
      Outcome(c - {uid}, true, Some(ConcatTo(InOrder(e.parts, e.total), e.receivedBytes)))
    else
      Outcome(c[uid := e], true, None)
  }

  function Collect(c: Collector, m: Message, now: int): Outcome
  {
    match FateOf(c, m)
    case Ignored => Outcome(c, false, None)
    case Duplicate => Outcome(c[m.uid := Opened(c, m, now)], true, None)
    case Overflow => Outcome(c - {m.uid}, false, None)
    case Kept => Settle(c, m.uid, Stored(Opened(c, m, now), m))
  }

  function Handle(c: Collector, m: Message, now: int): Outcome
  {
    if IsValidDataMessage(m) then Collect(c, m, now) else Outcome(c, false, None)
  }

  predicate Expired(e: Entry, now: int) { now - e.lastActivityAt >= INBOUND_MESSAGE_TTL_MS }

  function RemoveExpired(c: Collector, now: int): Collector
  {
    map u | u in c && !Expired(c[u], now) :: c[u]
  }

  // ---------- the program ----------

  lemma SameSize<A, B, C>(a: map<A, B>, b: map<A, C>)
    requires a.Keys == b.Keys
    ensures |a| == |b|
  {
    assert |a.Keys| == |a| && |b.Keys| == |b|;
  }

  lemma SettleAgain(c: Collector, uid: UInt32, e: Entry, f: Entry)
    ensures Settle(c[uid := e], uid, f) == Settle(c, uid, f)
  {
    assert c[uid := e] - {uid} == c - {uid};
    assert c[uid := e][uid := f] == c[uid := f];
  }

  class InboundMessage {
    ghost const uid: UInt32
    const total: nat
    var parts: Parts
    var receivedBytes: nat
    var lastActivityAt: int

    constructor (ghost uid: UInt32, total: nat, now: int)
      ensures this.uid == uid && View() == Entry(total, map[], 0, now)
    {
      this.uid := uid;
      this.total := total;
      parts, receivedBytes, lastActivityAt := map[], 0, now;
    }

    ghost function View(): Entry
      reads this
    {
      Entry(total, parts, receivedBytes, lastActivityAt)
    }

    method Touch(now: int)
      modifies this
      ensures View() == old(View()).(lastActivityAt := now)
    {
      lastActivityAt := now;
    }

    method Store(message: Message)
      modifies this
      ensures View() == Stored(old(View()), message)
    {
      receivedBytes := receivedBytes + |message.payload|;
      parts := parts[message.sequence := message.payload];
    }
  }

  class ConnectedBehavior {
    var messageCollector: map<UInt32, InboundMessage>

    /** Each entry belongs to one uid. */
    ghost predicate Valid()
      reads this
    {
      forall u :: u in messageCollector ==> messageCollector[u].uid == u
    }

    ghost function View(): Collector
      reads this, messageCollector.Values
    {
      map u | u in messageCollector :: messageCollector[u].View()
    }

    constructor ()
      ensures Valid() && View() == map[]
    {
      messageCollector := map[];
    }

    twostate lemma ViewChanged(uid: UInt32)
      requires Valid() && uid in messageCollector && messageCollector.Keys == old(messageCollector.Keys) + {uid}
      requires forall u :: u in old(messageCollector) && u != uid ==>
                 messageCollector[u] == old(messageCollector[u]) && unchanged(old(messageCollector[u]))
      ensures View() == old(View())[uid := messageCollector[uid].View()]
    {}

    method Open(uid: UInt32, total: nat, now: int)
      requires Valid() && uid !in messageCollector
      modifies this
      ensures Valid() && uid in messageCollector && fresh(messageCollector[uid])
      ensures messageCollector == old(messageCollector)[uid := messageCollector[uid]]
      ensures View() == old(View())[uid := Entry(total, map[], 0, now)]
    {
      var entry := new InboundMessage(uid, total, now);
      messageCollector := messageCollector[uid := entry];
      ViewChanged(uid);
    }

    method Touch(uid: UInt32, now: int)
      requires Valid() && uid in messageCollector
      modifies messageCollector[uid]
      ensures Valid() && View() == old(View())[uid := old(View())[uid].(lastActivityAt := now)]
    {
      messageCollector[uid].Touch(now);
      ViewChanged(uid);
    }

    method Store(message: Message)
      requires Valid() && message.uid in messageCollector
      modifies messageCollector[message.uid]
      ensures Valid() && View() == old(View())[message.uid := Stored(old(View())[message.uid], message)]
    {
      messageCollector[message.uid].Store(message);
      ViewChanged(message.uid);
    }

    method Forget(uid: UInt32)
      modifies this
      ensures old(Valid()) ==> Valid()
      ensures messageCollector.Values <= old(messageCollector.Values)
      ensures View() == old(View()) - {uid}
    {
      messageCollector := messageCollector - {uid};
    }

    /** Finds or opens the entry an arrival belongs to and marks it active; null if the arrival is to be ignored. */
    method FindOrOpen(message: Message, now: int) returns (entry: InboundMessage?)
      requires Valid()
      modifies this, messageCollector.Values
      ensures Valid() && fresh(messageCollector.Values - old(messageCollector.Values))
      ensures entry == null <==> FateOf(old(View()), message).Ignored?
      ensures entry == null ==> View() == old(View())
      ensures entry != null ==>
        && message.uid in messageCollector && messageCollector[message.uid] == entry
        && entry.View() == Opened(old(View()), message, now)
        && View() == old(View())[message.uid := entry.View()]
    {
      ghost var before := View();
      var uid := message.uid;
      assert before.Keys == messageCollector.Keys;
      if uid !in messageCollector {
        SameSize(before, messageCollector);
        if |messageCollector| >= MAX_IN_FLIGHT_MESSAGES { return null; }
        Open(uid, message.total, now);
      } else if messageCollector[uid].total != message.total {
        return null;
      }
      Touch(uid, now);
      entry := messageCollector[uid];
      assert entry.View() == View()[uid];
    }

    /** The ack and the `receive` event of the program are the two results. */
    method CollectDataMessagePart(message: Message, now: int) returns (acked: bool, received: Option<seq<Byte>>)
      requires Valid()
      modifies this, messageCollector.Values
      ensures Valid() && fresh(messageCollector.Values - old(messageCollector.Values))
      ensures Outcome(View(), acked, received) == Collect(old(View()), message, now)
    {
      hide Settle, Stored, Valid, View;
      ghost var before := View();
      var uid := message.uid;
      var entry := FindOrOpen(message, now);
      if entry == null { return false, None; }
      ghost var e := Opened(before, message, now);

      if message.sequence in entry.parts {
        assert FateOf(before, message) == Duplicate;
        return true, None;
      }

      if entry.receivedBytes + |message.payload| > MAX_MESSAGE_SIZE_BYTES {
        assert FateOf(before, message) == Overflow;
        Forget(uid);
        assert before[uid := e] - {uid} == before - {uid};
        return false, None;
      }

      assert FateOf(before, message) == Kept;
      acked := true;
      received := StoreAndDeliver(message);
      SettleAgain(before, uid, e, Stored(e, message));
    }

    method StoreAndDeliver(message: Message) returns (received: Option<seq<Byte>>)
      requires Valid() && message.uid in messageCollector
      modifies this, messageCollector[message.uid]
      ensures Valid() && messageCollector.Values <= old(messageCollector.Values)
      ensures Outcome(View(), true, received)
           == Settle(old(View()), message.uid, Stored(old(View())[message.uid], message))
    {
      hide Settle, Stored, Valid;
      ghost var before := View();
      Store(message);
      ghost var stored := View()[message.uid];
      received := DeliverIfComplete(message.uid);
      SettleAgain(before, message.uid, stored, stored);
    }

    /** Hands over the message of an entry that has all its parts, and forgets the entry. */
    method DeliverIfComplete(uid: UInt32) returns (received: Option<seq<Byte>>)
      requires Valid() && uid in messageCollector
      modifies this
      ensures Valid() && messageCollector.Values <= old(messageCollector.Values)
      ensures Outcome(View(), true, received) == Settle(old(View()), uid, old(View())[uid])
    {
      hide ConcatTo;
      ghost var before := View();
      var collectedMessage := messageCollector[uid];
      assert before[uid] == collectedMessage.View() && before[uid := before[uid]] == before;
      if |collectedMessage.parts| != collectedMessage.total { return None; }

      var buffers: seq<seq<Byte>> := [];
      var sequence := 0;
      while sequence < collectedMessage.total
        invariant sequence <= collectedMessage.total && HasAll(collectedMessage.parts, sequence)
        invariant buffers == InOrder(collectedMessage.parts, sequence)
      {
        if sequence !in collectedMessage.parts {
          assert !HasAll(collectedMessage.parts, collectedMessage.total);
          return None;
        }
        buffers := buffers + [collectedMessage.parts[sequence]];
        sequence := sequence + 1;
      }

      Forget(uid);
      received := Some(ConcatTo(buffers, collectedMessage.receivedBytes));
    }

    method RemoveExpiredMessages(now: int)
      requires Valid()
      modifies this
      ensures Valid() && View() == RemoveExpired(old(View()), now)
      ensures messageCollector.Values <= old(messageCollector.Values)
    {
      ghost var before, view := messageCollector, View();
      var pending := messageCollector.Keys;
      while pending != {}
        invariant pending <= messageCollector.Keys <= before.Keys
        invariant forall u :: u in messageCollector ==> messageCollector[u] == before[u]
        invariant forall u :: u in before ==> (u in messageCollector <==> u in pending || !Expired(view[u], now))
        decreases |pending|
      {
        var uid :| uid in pending;
        pending := pending - {uid};
        assert view[uid] == messageCollector[uid].View();
        if now - messageCollector[uid].lastActivityAt >= INBOUND_MESSAGE_TTL_MS {
          messageCollector := messageCollector - {uid};
        }
      }
      assert messageCollector.Values <= before.Values;
    }

    method OnExit()
      modifies this
      ensures Valid() && View() == map[]
    {
      messageCollector := map[];
    }
  }

  // ---------- the collector invariant ----------

  /** The number of bytes held in the parts numbered below `n`. */
  function Bytes(parts: Parts, n: nat): nat
  {
    if n == 0 then 0 else Bytes(parts, n - 1) + if n - 1 in parts then |parts[n - 1]| else 0
  }

  ghost predicate EntryInv(e: Entry)
  {
    && 0 < e.total <= MAX_MESSAGE_PARTS
    && (forall k :: k in e.parts ==> k < e.total && |e.parts[k]| <= MAX_PAYLOAD_SIZE)
    && |e.parts| < e.total
    && e.receivedBytes == Bytes(e.parts, e.total) <= MAX_MESSAGE_SIZE_BYTES
  }

  ghost predicate CollectorInv(c: Collector)
  {
    |c| <= MAX_IN_FLIGHT_MESSAGES && forall u :: u in c ==> EntryInv(c[u])
  }

  lemma {:induction false} BytesInsert(parts: Parts, k: nat, part: seq<Byte>, n: nat)
    requires k !in parts
    ensures Bytes(parts[k := part], n) == Bytes(parts, n) + if k < n then |part| else 0
  {
    if n > 0 { BytesInsert(parts, k, part, n - 1); }
  }

  lemma {:induction false} BytesEmpty(n: nat)
    ensures Bytes(map[], n) == 0
  {
    if n > 0 { BytesEmpty(n - 1); }
  }

  function Below(n: nat): (s: set<nat>)
    ensures |s| == n && forall k: nat :: k in s <==> k < n
  {
    if n == 0 then {} else Below(n - 1) + {n - 1}
  }

  /** As many parts as the total, all numbered below it: then none is missing. */
  lemma Pigeonhole(parts: Parts, total: nat)
    requires forall k :: k in parts ==> k < total
    ensures |parts| <= total && (|parts| == total <==> HasAll(parts, total))
  {
    var below := Below(total);
    assert |parts.Keys| == |parts|;
    SubsetCount(parts.Keys, below);
    if HasAll(parts, total) {
      assert below == parts.Keys;
    }
  }

  lemma {:induction false} ConcatLength(parts: Parts, n: nat)
    requires HasAll(parts, n)
    ensures |Concat(InOrder(parts, n))| == Bytes(parts, n)
  {
    if n > 0 {
      ConcatLength(parts, n - 1);
      assert InOrder(parts, n)[..n - 1] == InOrder(parts, n - 1);
    }
  }

  lemma StoredInv(c: Collector, m: Message, now: int)
    requires CollectorInv(c) && IsValidDataMessage(m) && FateOf(c, m).Kept?
    ensures var e := Stored(Opened(c, m, now), m);
            && e.total == m.total
            && (forall k :: k in e.parts ==> k < e.total && |e.parts[k]| <= MAX_PAYLOAD_SIZE)
            && e.receivedBytes == Bytes(e.parts, e.total) <= MAX_MESSAGE_SIZE_BYTES
            && |e.parts| <= e.total && (|e.parts| == e.total <==> HasAll(e.parts, e.total))
  {
    var e := Opened(c, m, now);
    assert EntryInv(e) || e.parts == map[];
    BytesEmpty(m.total);
    BytesInsert(e.parts, m.sequence, m.payload, m.total);
    Pigeonhole(Stored(e, m).parts, m.total);
  }

  /**
   What an arrival does, under the invariant: the event fires exactly when the part it stores is the last one
   missing, and carries all parts in order; the early return on a missing part is never taken.
   */
  lemma CollectMeaning(c: Collector, m: Message, now: int)
    requires CollectorInv(c) && IsValidDataMessage(m)
    ensures var o := Collect(c, m, now); var e := Stored(Opened(c, m, now), m);
            && (o.received.Some? <==> FateOf(c, m).Kept? && HasAll(e.parts, m.total))
            && (o.received.Some? ==> o.received.value == Concat(InOrder(e.parts, m.total)) && o.collector == c - {m.uid}
                                     && |o.received.value| == e.receivedBytes <= MAX_MESSAGE_SIZE_BYTES)
            && (FateOf(c, m).Kept? && o.received.None? ==> o.collector == c[m.uid := e] && |e.parts| < e.total)
  {
    hide Opened, Stored, Bytes, CollectorInv, InOrder, IsValidDataMessage;
    if FateOf(c, m).Kept? {
      StoredInv(c, m, now);
      var e := Stored(Opened(c, m, now), m);
      if HasAll(e.parts, m.total) { ConcatLength(e.parts, m.total); }
      hide FateOf, HasAll, Concat;
    }
  }

  lemma PutKeepsInv(c: Collector, u: UInt32, e: Entry)
    requires CollectorInv(c) && EntryInv(e) && (u in c || |c| < MAX_IN_FLIGHT_MESSAGES)
    ensures CollectorInv(c[u := e])
  {
    hide EntryInv;
    InsertSize(c, u, e);
  }

  lemma DropKeepsInv(c: Collector, u: UInt32)
    requires CollectorInv(c)
    ensures CollectorInv(c - {u})
  {
    hide EntryInv;
    RemoveSize(c, u);
  }

  /** Every arrival, valid or not, keeps the collector invariant. */
  lemma HandleKeepsInv(c: Collector, m: Message, now: int)
    requires CollectorInv(c)
    ensures CollectorInv(Handle(c, m, now).collector)
  {
    hide Settle, EntryInv;
    if IsValidDataMessage(m) {
      match FateOf(c, m)
      case Ignored =>
      case Overflow => DropKeepsInv(c, m.uid);
      case Duplicate => DuplicateKeepsInv(c, m, now);
      case Kept => KeptKeepsInv(c, m, now);
    }
  }

  lemma DuplicateKeepsInv(c: Collector, m: Message, now: int)
    requires CollectorInv(c) && FateOf(c, m).Duplicate?
    ensures CollectorInv(c[m.uid := Opened(c, m, now)])
  {
    hide Bytes;
    assert EntryInv(c[m.uid]);
    assert EntryInv(Opened(c, m, now));
    PutKeepsInv(c, m.uid, Opened(c, m, now));
  }

  lemma KeptKeepsInv(c: Collector, m: Message, now: int)
    requires CollectorInv(c) && IsValidDataMessage(m) && FateOf(c, m).Kept?
    ensures CollectorInv(Collect(c, m, now).collector)
  {
    var e := Stored(Opened(c, m, now), m);
    StoredInv(c, m, now);
    DropKeepsInv(c, m.uid);
    if !HasAll(e.parts, e.total) {
      assert EntryInv(e);
      PutKeepsInv(c, m.uid, e);
    }
  }

  lemma RemoveExpiredKeepsInv(c: Collector, now: int)
    requires CollectorInv(c)
    ensures CollectorInv(RemoveExpired(c, now))
  {
    var r := RemoveExpired(c, now);
    SubsetCount(r.Keys, c.Keys);
    assert |r.Keys| == |r| && |c.Keys| == |c|;
  }

  // ---------- whole runs of the receiver, whatever arrives ----------

  datatype Event = Arrive(m: Message, now: int) | Cleanup(now: int) | Exit

  function Apply(c: Collector, e: Event): Collector
  {
    match e
    case Arrive(m, now) => Handle(c, m, now).collector
    case Cleanup(now) => RemoveExpired(c, now)
    case Exit => map[]
  }

  function Run(events: seq<Event>): Collector
  {
    if events == [] then map[] else Apply(Run(events[..|events| - 1]), events[|events| - 1])
  }

  /** In every reachable state: at most 64 entries, each short of complete, in range and within the byte cap. */
  lemma {:induction false} RunInv(events: seq<Event>)
    ensures CollectorInv(Run(events))
  {
    if events != [] {
      hide Handle;
      var before, e := Run(events[..|events| - 1]), events[|events| - 1];
      RunInv(events[..|events| - 1]);
      match e
      case Arrive(m, now) => HandleKeepsInv(before, m, now);
      case Cleanup(now) => RemoveExpiredKeepsInv(before, now);
      case Exit =>
    }
  }

  /** How often a part (u, k) was newly stored over a run. */
  function StoredCount(events: seq<Event>, u: UInt32, k: nat): nat
  {
    if events == [] then 0
    else
      var before, e := Run(events[..|events| - 1]), events[|events| - 1];
      StoredCount(events[..|events| - 1], u, k)
      + if e.Arrive? && e.m.uid == u && e.m.sequence == k && IsValidDataMessage(e.m) && FateOf(before, e.m).Kept?
        then 1 else 0
  }

  /** How often a message of uid `u` that has a part `k` was handed to the application over a run. */
  function ReceivedCount(events: seq<Event>, u: UInt32, k: nat): nat
  {
    if events == [] then 0
    else
      var before, e := Run(events[..|events| - 1]), events[|events| - 1];
      ReceivedCount(events[..|events| - 1], u, k)
      + if e.Arrive? && e.m.uid == u && k < e.m.total && Handle(before, e.m, e.now).received.Some? then 1 else 0
  }

  predicate Holds(c: Collector, u: UInt32, k: nat) { u in c && k in c[u].parts }

  lemma ArrivalIsPaidFor(c: Collector, m: Message, now: int, u: UInt32, k: nat)
    requires CollectorInv(c) && IsValidDataMessage(m)
    ensures var o := Collect(c, m, now);
            (if u == m.uid && k < m.total && o.received.Some? then 1 else 0)
            + (if Holds(o.collector, u, k) then 1 else 0)
            <= (if Holds(c, u, k) then 1 else 0)
               + (if u == m.uid && k == m.sequence && FateOf(c, m).Kept? then 1 else 0)
  {
    hide Bytes, ConcatTo, InOrder, CollectorInv;
    if FateOf(c, m).Kept? {
      StoredInv(c, m, now);
      var e := Stored(Opened(c, m, now), m);
      if HasAll(e.parts, e.total) && k < e.total {
        assert k in e.parts;
      }
    }
  }

  /** Deliveries are paid for: each one uses up a stored copy of every part of the message. */
  lemma {:induction false} DeliveriesArePaidFor(events: seq<Event>, u: UInt32, k: nat)
    ensures ReceivedCount(events, u, k) + (if Holds(Run(events), u, k) then 1 else 0) <= StoredCount(events, u, k)
  {
    hide Collect;
    if events != [] {
      var prefix, e := events[..|events| - 1], events[|events| - 1];
      var before := Run(prefix);
      DeliveriesArePaidFor(prefix, u, k);
      RunInv(prefix);
      if e.Arrive? && IsValidDataMessage(e.m) {
        ArrivalIsPaidFor(before, e.m, e.now, u, k);
      }
    }
  }

  /** How often a part (u, k) arrived in a valid message over a run. */
  function ArrivedCount(events: seq<Event>, u: UInt32, k: nat): nat
  {
    if events == [] then 0
    else
      var e := events[|events| - 1];
      ArrivedCount(events[..|events| - 1], u, k)
      + if e.Arrive? && e.m.uid == u && e.m.sequence == k && IsValidDataMessage(e.m) then 1 else 0
  }

  lemma {:induction false} StoredHasArrived(events: seq<Event>, u: UInt32, k: nat)
    ensures StoredCount(events, u, k) <= ArrivedCount(events, u, k)
  {
    hide FateOf, IsValidDataMessage, Run;
    if events != [] { StoredHasArrived(events[..|events| - 1], u, k); }
  }

  /**
   A message is delivered at most as often as any one of its parts arrives: at most once if some part arrives once.
   */
  lemma DeliveredAtMostAsArrived(events: seq<Event>, u: UInt32, k: nat)
    ensures ReceivedCount(events, u, k) <= ArrivedCount(events, u, k)
  {
    hide StoredCount, ReceivedCount, ArrivedCount, Run;
    DeliveriesArePaidFor(events, u, k);
    StoredHasArrived(events, u, k);
  }
}
