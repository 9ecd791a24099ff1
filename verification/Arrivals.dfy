/**
 What an arrival does to the receiver, in terms of the table before it and of the message alone, and what keeps an entry
 in the table, in terms of the arrivals alone.
 */
module Arrivals {
  import opened BufferUtils
  import opened MessageBuffer
  import opened Receiver

  /** The message has a place in the table: it is a valid part of the message the entry is for, or of a new one. */
  predicate HasPlace(c: Collector, m: Message)
  {
    && m.kind == DATA && 1 <= m.total <= MAX_MESSAGE_PARTS && m.sequence < m.total && |m.payload| <= MAX_PAYLOAD_SIZE
    && (if m.uid in c then c[m.uid].total == m.total else |c| < MAX_IN_FLIGHT_MESSAGES)
  }

  /** The bytes that are held of the message so far. */
  function BytesHeld(c: Collector, uid: UInt32): nat { if uid in c then c[uid].receivedBytes else 0 }

  predicate Fits(c: Collector, m: Message)
  {
    Holds(c, m.uid, m.sequence) || BytesHeld(c, m.uid) + |m.payload| <= MAX_MESSAGE_SIZE_BYTES
  }

  /** The arrival is taken in: stored, or a repetition. */
  predicate Accepts(c: Collector, m: Message) { HasPlace(c, m) && Fits(c, m) }

  /** It brings the last part that is missing. */
  predicate Completes(c: Collector, m: Message)
  {
    !Holds(c, m.uid, m.sequence) && forall k :: 0 <= k < m.total ==> k == m.sequence || Holds(c, m.uid, k)
  }

  /** The entry that a part goes into, with the part in it, active at `now`. */
  ghost predicate HoldsAlso(c: Collector, m: Message, now: int, e: Entry)
  {
    && e.total == m.total && e.lastActivityAt == now
    && (forall k: nat :: k in e.parts <==> Holds(c, m.uid, k) || k == m.sequence)
    && (forall k: nat :: k in e.parts ==> e.parts[k] == if Holds(c, m.uid, k) then c[m.uid].parts[k] else m.payload)
    && e.receivedBytes == BytesHeld(c, m.uid) + if Holds(c, m.uid, m.sequence) then 0 else |m.payload|
  }

  ghost predicate Exact(c: Collector, m: Message, now: int, o: Outcome)
  {
    && o.collector - {m.uid} == c - {m.uid}
    && (o.acked <==> Accepts(c, m))
    && (o.received.Some? <==> Accepts(c, m) && Completes(c, m))
    && (!HasPlace(c, m) ==> o.collector == c)
    && (HasPlace(c, m) ==>
          && (m.uid in o.collector <==> Fits(c, m) && !Completes(c, m))
          && (m.uid in o.collector ==> HoldsAlso(c, m, now, o.collector[m.uid])))
  }

  /**
   What an arrival does: nothing without a place; the entry goes if the part breaks the byte cap;
     else the part is acked,
   and the entry is renewed with the part in it, or handed over and gone if nothing is missing any more.
   */
  lemma ArrivalExact(c: Collector, m: Message, now: int)
    requires CollectorInv(c)
    ensures Exact(c, m, now, Handle(c, m, now))
  {
    hide Exact, CollectorInv, HasPlace, Settle, FateOf;
    if IsValidDataMessage(m) {
      FateExact(c, m);
      match FateOf(c, m)
      case Ignored => NotTaken(c, m, now);
      case Duplicate => RepetitionExact(c, m, now);
      case Overflow => NotTaken(c, m, now);
      case Kept => KeptExact(c, m, now);
    } else {
      NoPlace(c, m);
      NotTaken(c, m, now);
    }
  }

  lemma NoPlace(c: Collector, m: Message)
    ensures HasPlace(c, m) ==> IsValidDataMessage(m)
  {}

  lemma NotTaken(c: Collector, m: Message, now: int)
    ensures !HasPlace(c, m) ==> Exact(c, m, now, Outcome(c, false, None))
    ensures HasPlace(c, m) && !Fits(c, m) ==> Exact(c, m, now, Outcome(c - {m.uid}, false, None))
  {
    hide HoldsAlso, Completes;
  }

  lemma RepetitionExact(c: Collector, m: Message, now: int)
    requires HasPlace(c, m) && Holds(c, m.uid, m.sequence)
    ensures Exact(c, m, now, Outcome(c[m.uid := Opened(c, m, now)], true, None))
  {
    hide HoldsAlso, Completes, Opened, HasPlace;
    PutExact(c, m, now);
    NotComplete(c, m);
    PutAside(c, m.uid, Opened(c, m, now));
  }

  lemma PutAside(c: Collector, u: UInt32, e: Entry)
    ensures c[u := e] - {u} == c - {u} && c - {u} - {u} == c - {u}
  {}

  lemma KeptExact(c: Collector, m: Message, now: int)
    requires CollectorInv(c) && IsValidDataMessage(m) && FateOf(c, m).Kept?
    requires HasPlace(c, m) && Fits(c, m) && !Holds(c, m.uid, m.sequence)
    ensures Exact(c, m, now, Settle(c, m.uid, Stored(Opened(c, m, now), m)))
  {
    hide HoldsAlso, Completes, Opened, Stored, HasPlace, CollectorInv, HasAll, InOrder, ConcatTo, Bytes, FateOf, Fits;
    hide IsValidDataMessage;
    StoredInv(c, m, now);
    CompletesIff(c, m, now);
    PutExact(c, m, now);
    PutAside(c, m.uid, Stored(Opened(c, m, now), m));
  }

  lemma FateExact(c: Collector, m: Message)
    requires IsValidDataMessage(m)
    ensures FateOf(c, m).Ignored? <==> !HasPlace(c, m)
    ensures FateOf(c, m).Duplicate? <==> HasPlace(c, m) && Holds(c, m.uid, m.sequence)
    ensures FateOf(c, m).Kept? <==> HasPlace(c, m) && Fits(c, m) && !Holds(c, m.uid, m.sequence)
    ensures FateOf(c, m).Overflow? <==> HasPlace(c, m) && !Fits(c, m)
  {}

  lemma PutExact(c: Collector, m: Message, now: int)
    requires HasPlace(c, m)
    ensures Holds(c, m.uid, m.sequence) ==> HoldsAlso(c, m, now, Opened(c, m, now))
    ensures !Holds(c, m.uid, m.sequence) ==> HoldsAlso(c, m, now, Stored(Opened(c, m, now), m))
  {}

  lemma CompletesIff(c: Collector, m: Message, now: int)
    requires HasPlace(c, m) && !Holds(c, m.uid, m.sequence)
    ensures HasAll(Stored(Opened(c, m, now), m).parts, m.total) <==> Completes(c, m)
  {
    hide Opened, Stored;
    PutExact(c, m, now);
  }

  lemma NotComplete(c: Collector, m: Message)
    requires Holds(c, m.uid, m.sequence)
    ensures !Completes(c, m)
  {}

  // ---------- the last activity of an entry, from the arrivals alone ----------

  /** Event `i` is an arrival for `u` that is taken in. */
  ghost predicate AcceptedAt(events: seq<Event>, u: UInt32, i: nat)
  {
    i < |events| && events[i].Arrive? && events[i].m.uid == u && Accepts(Run(events[..i]), events[i].m)
  }

  /** Event `i` is the latest of them. */
  ghost predicate LatestAccepted(events: seq<Event>, u: UInt32, i: nat)
  {
    AcceptedAt(events, u, i) && forall j :: i < j < |events| ==> !AcceptedAt(events, u, j)
  }

  lemma AcceptedPrefix(events: seq<Event>, u: UInt32, i: nat)
    requires events != [] && i < |events| - 1
    ensures AcceptedAt(events[..|events| - 1], u, i) <==> AcceptedAt(events, u, i)
  {
    hide Accepts, Run;
    assert events[..|events| - 1][..i] == events[..i];
  }

  lemma LatestPrefix(events: seq<Event>, u: UInt32, i: nat)
    requires events != [] && i < |events| - 1 && !AcceptedAt(events, u, |events| - 1)
    ensures LatestAccepted(events[..|events| - 1], u, i) <==> LatestAccepted(events, u, i)
  {
    hide AcceptedAt;
    var n := |events| - 1;
    var prefix := events[..n];
    assert |prefix| == n;
    AcceptedPrefix(events, u, i);
    forall j | i < j < |events| && LatestAccepted(prefix, u, i) ensures !AcceptedAt(events, u, j) {
      if j < n { AcceptedPrefix(events, u, j); }
    }
    forall j | i < j < n && LatestAccepted(events, u, i) ensures !AcceptedAt(prefix, u, j) {
      AcceptedPrefix(events, u, j);
    }
  }

  /** An entry that is there after an event and was not touched by it is as it was. */
  lemma NotTouched(c: Collector, e: Event, u: UInt32)
    requires CollectorInv(c) && u in Apply(c, e)
    requires !(e.Arrive? && e.m.uid == u && Accepts(c, e.m))
    ensures u in c && Apply(c, e)[u] == c[u]
  {
    hide Handle, CollectorInv, HoldsAlso, Completes, HasPlace, Fits;
    if e.Arrive? {
      ArrivalExact(c, e.m, e.now);
      if u != e.m.uid {
        var after: Collector := Handle(c, e.m, e.now).collector;
        assert u in after - {e.m.uid} && (after - {e.m.uid})[u] == after[u];
      }
    }
  }

  lemma Touched(c: Collector, m: Message, now: int)
    requires CollectorInv(c) && Accepts(c, m) && m.uid in Handle(c, m, now).collector
    ensures Handle(c, m, now).collector[m.uid].lastActivityAt == now
  {
    hide Handle, CollectorInv;
    ArrivalExact(c, m, now);
  }

  /** An entry in the table was last active when the latest arrival for it was taken in. */
  lemma {:induction false} LastActivity(events: seq<Event>, u: UInt32) returns (i: nat)
    requires u in Run(events)
    ensures LatestAccepted(events, u, i) && Run(events)[u].lastActivityAt == events[i].now
  {
    hide Handle, Accepts, CollectorInv, RemoveExpired, LatestAccepted;
    var n := |events| - 1;
    var prefix, e := events[..n], events[n];
    RunInv(prefix);
    if AcceptedAt(events, u, n) {
      i := n;
      Touched(Run(prefix), e.m, e.now);
      assert LatestAccepted(events, u, n) by { hide *; LastIsLatest(events, u); }
    } else {
      NotTouched(Run(prefix), e, u);
      i := LastActivity(prefix, u);
      LatestInside(prefix, u, i);
      LatestPrefix(events, u, i);
    }
  }

  lemma LatestInside(events: seq<Event>, u: UInt32, i: nat)
    requires LatestAccepted(events, u, i)
    ensures i < |events| && events[i].Arrive?
  {}

  lemma LastIsLatest(events: seq<Event>, u: UInt32)
    requires events != [] && AcceptedAt(events, u, |events| - 1)
    ensures LatestAccepted(events, u, |events| - 1)
  {}

  lemma OneLatest(events: seq<Event>, u: UInt32, i: nat, j: nat)
    requires LatestAccepted(events, u, i) && LatestAccepted(events, u, j)
    ensures i == j
  {
    hide AcceptedAt;
    assert i < |events| && j < |events| by { hide *; LatestInside(events, u, i); LatestInside(events, u, j); }
  }

  /**
   An entry whose latest arrival was taken in at `t` survives a clean-up at `now`, as it is, if and only if
   `now - t` is less than 30 seconds: any arrival that is taken in renews it, a repetition too, and nothing else does.
   */
  lemma SurvivesCleanupIff(events: seq<Event>, u: UInt32, i: nat, now: int)
    requires u in Run(events) && LatestAccepted(events, u, i)
    ensures i < |events| && events[i].Arrive?
    ensures var after := Run(events + [Cleanup(now)]);
            && (u in after <==> now - events[i].now < INBOUND_MESSAGE_TTL_MS)
            && (u in after ==> after[u] == Run(events)[u])
  {
    hide LatestAccepted;
    LatestInside(events, u, i);
    var j := LastActivity(events, u);
    OneLatest(events, u, i, j);
    assert (events + [Cleanup(now)])[..|events|] == events;
  }
}
