/**
 The relay that introduces two peers to each other: a peer asks for a session with a distant tag, the request waits
 until the distant peer asks for the reverse session, and then both are told how to reach each other.
 */
module Relay {
  import opened BufferUtils
  import opened MessageBuffer
  import Handshake

  const MAX_REQUEST_BYTES: nat := 1_024
  const MAX_TAG_LENGTH: nat := 128
  const MAX_PENDING_REQUESTS: nat := 10_000
  const PENDING_REQUEST_TTL_MS := 30_000

  type PeerAddress = Handshake.PeerAddress

  /** A string of the program: its UTF-16 code units. */
  type CodeUnit = n: nat | n < 0x1_0000

  type Text = seq<CodeUnit>

  datatype SessionRequest = SessionRequest(
    selfTag: Text, distantTag: Text, encrypt: Option<bool>, publicKey: Option<Text>)

  datatype Pending = Pending(peer: PeerAddress, createdAt: int, encrypt: Option<bool>, publicKey: Option<Text>)

  datatype Introduction = Introduction(
    distantTag: Text, distantPeer: PeerAddress, encrypt: Option<bool>, publicKey: Option<Text>,
    salt: Option<Text>, encryptionMismatch: bool)

  /** The tags of a request, the requesting peer's first. */
  datatype Key = Key(self: Text, distant: Text)

  type Requests = map<Key, Pending>

  datatype Outcome = Outcome(requests: Requests, introductions: seq<(PeerAddress, Introduction)>)

  function KeyOf(r: SessionRequest): Key { Key(r.selfTag, r.distantTag) }

  function Reverse(k: Key): Key { Key(k.distant, k.self) }

  function PendingOf(peer: PeerAddress, r: SessionRequest, now: int): Pending
  {
    Pending(peer, now, r.encrypt, r.publicKey)
  }

  /** What later steps rely on. */
  predicate IsValidRequest(r: SessionRequest)
  {
    r.selfTag != r.distantTag && (r.encrypt == Some(true) ==> r.publicKey.Some?)
  }

  predicate IsTrue(o: Option<bool>) { o == Some(true) }

  function Find(requests: Requests, key: Key): Option<Pending> { if key in requests then Some(requests[key]) else None }

  /** The request that `key` is matched with at time `now`. */
  function Partner(requests: Requests, key: Key, ttl: int, now: int): Option<Pending>
  {
    match Find(requests, Reverse(key))
    case Some(distant) => if now - distant.createdAt < ttl then Some(distant) else None
    case None => None
  }

  function SaltFor(r: SessionRequest, distant: Pending, salt: Text): Option<Text>
  {
    if IsTrue(r.encrypt) && IsTrue(distant.encrypt) then Some(salt) else None
  }

  function Introductions(peer: PeerAddress, r: SessionRequest, distant: Pending, salt: Text)
    : seq<(PeerAddress, Introduction)>
  {
    var mismatch := IsTrue(r.encrypt) != IsTrue(distant.encrypt);
    [(distant.peer, Introduction(r.selfTag, peer, r.encrypt, r.publicKey, SaltFor(r, distant, salt), mismatch)),
     (peer, Introduction(r.distantTag, distant.peer, distant.encrypt, distant.publicKey, SaltFor(r, distant, salt),
                         mismatch))]
  }

  /** Whatever becomes of a request, the reverse one is gone afterwards. */
  function Process(requests: Requests, ttl: int, peer: PeerAddress, r: SessionRequest, now: int, salt: Text): Outcome
  {
    var key, rest := KeyOf(r), requests - {Reverse(KeyOf(r))};
    match Partner(requests, key, ttl, now)
    case Some(distant) => Outcome(rest - {key}, Introductions(peer, r, distant, salt))
    case None =>
      var room := key in rest || |rest| < MAX_PENDING_REQUESTS;
      Outcome(if room then rest[key := PendingOf(peer, r, now)] else rest, [])
  }

  function Expire(requests: Requests, key: Key, expiresBefore: int): Requests
  {
    if key in requests && requests[key].createdAt <= expiresBefore then requests - {key} else requests
  }

  function WithoutPeer(requests: Requests, peer: PeerAddress): Requests
  {
    map k | k in requests && requests[k].peer != peer :: requests[k]
  }

  // ---------- requests as they come in ----------

  /** A property of a parsed message, as far as the relay tells values apart. */
  datatype Field = Missing | Str(text: Text) | Flag(flag: bool) | Other

  /** What `JSON.parse` makes of a message: nothing, something other than an object, or an object. */
  datatype Json = NotJson | NotAnObject | Fields(selfTag: Field, distantTag: Field, encrypt: Field, publicKey: Field)

  /** The white space and line terminators that `trim` removes. */
  predicate IsBlank(u: CodeUnit)
  {
    || 0x9 <= u <= 0xd || u in [0x20, 0xa0, 0x1680, 0x2028, 0x2029, 0x202f, 0x205f, 0x3000, 0xfeff]
    || 0x2000 <= u <= 0x200a
  }

  function Trim(t: Text): Text
  {
    if t == [] then []
    else if IsBlank(t[0]) then Trim(t[1..])
    else if IsBlank(t[|t| - 1]) then Trim(t[..|t| - 1])
    else t
  }

  predicate IsControl(u: CodeUnit) { u <= 0x1f || u == 0x7f }

  predicate IsValidTag(f: Field)
  {
    && f.Str? && |Trim(f.text)| > 0 && |f.text| <= MAX_TAG_LENGTH
    && forall i :: 0 <= i < |f.text| ==> !IsControl(f.text[i])
  }

  function ParseSessionRequest(message: seq<Byte>, json: Json): Option<SessionRequest>
  {
    if |message| == 0 || |message| > MAX_REQUEST_BYTES || !json.Fields? then None
    else if
      || !IsValidTag(json.selfTag) || !IsValidTag(json.distantTag) || json.selfTag == json.distantTag
      || (!json.encrypt.Missing? && !json.encrypt.Flag?)
      || (!json.publicKey.Missing? && !json.publicKey.Str?)
      || (json.encrypt == Flag(true) && !json.publicKey.Str?)
    then None
    else
      Some(SessionRequest(json.selfTag.text, json.distantTag.text,
                          if json.encrypt.Flag? then Some(json.encrypt.flag) else None,
                          if json.publicKey.Str? then Some(json.publicKey.text) else None))
  }

  /** The object that says a request. */
  function JsonOf(r: SessionRequest): Json
  {
    Fields(Str(r.selfTag), Str(r.distantTag),
           if r.encrypt.Some? then Flag(r.encrypt.value) else Missing,
           if r.publicKey.Some? then Str(r.publicKey.value) else Missing)
  }

  /** 1 to 128 code units, not all blank, none of them a control character. */
  ghost predicate IsTag(t: Text)
  {
    && |t| <= MAX_TAG_LENGTH && (exists i :: 0 <= i < |t| && !IsBlank(t[i]))
    && forall i :: 0 <= i < |t| ==> !IsControl(t[i])
  }

  lemma {:induction false} TrimKeepsAny(t: Text)
    ensures |Trim(t)| > 0 <==> exists i :: 0 <= i < |t| && !IsBlank(t[i])
    decreases |t|
  {
    hide IsBlank;
    if t != [] && IsBlank(t[0]) {
      TrimKeepsAny(t[1..]);
      forall i | 0 <= i < |t| && !IsBlank(t[i]) ensures !IsBlank(t[1..][i - 1]) {}
      forall i | 0 <= i < |t| - 1 && !IsBlank(t[1..][i]) ensures !IsBlank(t[i + 1]) {}
    } else if t != [] && IsBlank(t[|t| - 1]) {
      assert !IsBlank(t[0]) && t[..|t| - 1][0] == t[0];
      TrimKeepsAny(t[..|t| - 1]);
    }
  }

  /**
   A request is accepted from exactly the messages of admissible length that say it, if its tags and key are in order.
   */
  lemma ParsedIff(message: seq<Byte>, json: Json, r: SessionRequest)
    ensures ParseSessionRequest(message, json) == Some(r)
       <==> && 1 <= |message| <= MAX_REQUEST_BYTES && json == JsonOf(r)
            && IsTag(r.selfTag) && IsTag(r.distantTag) && IsValidRequest(r)
  {
    hide Trim, IsBlank, IsControl;
    TrimKeepsAny(r.selfTag);
    TrimKeepsAny(r.distantTag);
  }

  // ---------- the relay ----------

  class SimpleRelay {
    var requestMap: Requests
    const pendingRequestTTL: int

    constructor (pendingRequestTTL: Option<int>)
      ensures requestMap == map[]
      ensures this.pendingRequestTTL
           == if pendingRequestTTL.Some? then pendingRequestTTL.value else PENDING_REQUEST_TTL_MS
    {
      requestMap := map[];
      this.pendingRequestTTL := if pendingRequestTTL.Some? then pendingRequestTTL.value else PENDING_REQUEST_TTL_MS;
    }

    /** `json` is what `JSON.parse` makes of the message. */
    method OnReceiveFromPeer(peer: PeerAddress, message: seq<Byte>, json: Json, now: int, salt: Text)
      returns (introductions: seq<(PeerAddress, Introduction)>)
      modifies this
      ensures Outcome(requestMap, introductions)
           == match ParseSessionRequest(message, json)
              case None => Outcome(old(requestMap), [])
              case Some(r) => Process(old(requestMap), pendingRequestTTL, peer, r, now, salt)
    {
      hide Process;
      var request := ParseSessionRequest(message, json);
      if request.None? { return []; }
      ParsedIff(message, json, request.value);
      introductions := ProcessSessionRequest(peer, request.value, now, salt);
    }

    method ProcessSessionRequest(peer: PeerAddress, request: SessionRequest, now: int, salt: Text)
      returns (introductions: seq<(PeerAddress, Introduction)>)
      requires IsValidRequest(request)
      modifies this
      ensures Outcome(requestMap, introductions)
           == Process(old(requestMap), pendingRequestTTL, peer, request, now, salt)
    {
      ghost var before := requestMap;
      var key, reverse := Key(request.selfTag, request.distantTag), Key(request.distantTag, request.selfTag);
      var distant := Find(requestMap, reverse);

      if distant.Some? && distant.value.createdAt <= now - pendingRequestTTL {
        requestMap := requestMap - {reverse};
        distant := None;
      }
      assert distant.None? ==> requestMap == before - {reverse};

      if distant.None? {
        if key !in requestMap && |requestMap| >= MAX_PENDING_REQUESTS { return []; }
        requestMap := requestMap[key := Pending(peer, now, request.encrypt, request.publicKey)];
        return [];
      }

      requestMap := requestMap - {reverse};
      requestMap := requestMap - {key};

      var mismatch := IsTrue(request.encrypt) != IsTrue(distant.value.encrypt);
      var agreed: Option<Text> := None;
      if !mismatch && IsTrue(request.encrypt) && IsTrue(distant.value.encrypt) { agreed := Some(salt); }

      introductions :=
        [(distant.value.peer, Introduction(request.selfTag, peer, request.encrypt, request.publicKey, agreed,
          mismatch))];
      introductions := introductions +
        [(peer, Introduction(request.distantTag, distant.value.peer, distant.value.encrypt, distant.value.publicKey,
          agreed,
                             mismatch))];
    }

    /** One turn of the clean-up loop; other events come between the turns, as each deletion is followed by an await. */
    method RemoveExpiredRequest(key: Key, expiresBefore: int) returns (closing: Option<PeerAddress>)
      modifies this
      ensures requestMap == Expire(old(requestMap), key, expiresBefore)
      ensures closing == if requestMap == old(requestMap) then None else Some(old(requestMap)[key].peer)
    {
      closing := None;
      if key in requestMap && requestMap[key].createdAt <= expiresBefore {
        closing := Some(requestMap[key].peer);
        requestMap := requestMap - {key};
      }
    }

    method OnSessionClosed(peer: PeerAddress)
      modifies this
      ensures requestMap == WithoutPeer(old(requestMap), peer)
    {
      ghost var before := requestMap;
      var pending := requestMap.Keys;
      while pending != {}
        invariant pending <= requestMap.Keys <= before.Keys
        invariant forall k :: k in requestMap ==> requestMap[k] == before[k]
        invariant forall k :: k in before ==> (k in requestMap <==> k in pending || before[k].peer != peer)
        decreases |pending|
      {
        var key :| key in pending;
        pending := pending - {key};
        if requestMap[key].peer == peer { requestMap := requestMap - {key}; }
      }
    }
  }

  // ---------- runs ----------

  datatype Event =
    | Opened(peer: PeerAddress)
    | Asked(peer: PeerAddress, request: SessionRequest, now: int, salt: Text)
    | Expired(key: Key, expiresBefore: int)
    | Closed(peer: PeerAddress)

  /** A match: the events that asked for it, the later one and the stored one. */
  datatype Match = Match(at: nat, stored: nat, introductions: seq<(PeerAddress, Introduction)>)

  /** `source` says which event stored each pending request. */
  datatype Run = Run(requests: Requests, open: set<PeerAddress>, source: map<Key, nat>, matches: seq<Match>)

  /** Requests are those of peers with an open session; the rest of an event's preconditions are the relay's own. */
  function Ask(s: Run, ttl: int, at: nat, e: Event): Run
    requires e.Asked?
  {
    var key := KeyOf(e.request);
    var out := Process(s.requests, ttl, e.peer, e.request, e.now, e.salt);
    Run(out.requests, s.open,
        map k | k in out.requests :: if k == key || k !in s.source then at else s.source[k],
        s.matches + if Partner(s.requests, key, ttl, e.now).Some? && Reverse(key) in s.source
                    then [Match(at, s.source[Reverse(key)], out.introductions)] else [])
  }

  function Restrict(source: map<Key, nat>, requests: Requests): map<Key, nat>
  {
    map k | k in source && k in requests :: source[k]
  }

  function Do(s: Run, ttl: int, at: nat, e: Event): Run
  {
    match e
    case Opened(peer) => s.(open := s.open + {peer})
    case Asked(peer, r, now, salt) => if peer in s.open && IsValidRequest(r) then Ask(s, ttl, at, e) else s
    case Expired(key, before) =>
      var kept := Expire(s.requests, key, before);
      s.(requests := kept, source := Restrict(s.source, kept))
    case Closed(peer) =>
      var kept := WithoutPeer(s.requests, peer);
      s.(requests := kept, source := Restrict(s.source, kept), open := s.open - {peer})
  }

  /** Event `source[k]` asked for what is pending under `k`. */
  ghost predicate FromEvents(s: Run, events: seq<Event>)
  {
    forall k :: k in s.source ==>
      && k in s.requests && s.source[k] < |events| && events[s.source[k]].Asked?
      && KeyOf(events[s.source[k]].request) == k
      && var e := events[s.source[k]]; IsValidRequest(e.request) && s.requests[k] == PendingOf(e.peer, e.request, e.now)
  }

  /** How the peer behind a request is presented to the other. */
  function Presenting(e: Event, salt: Option<Text>, mismatch: bool): Introduction
    requires e.Asked?
  {
    Introduction(e.request.selfTag, e.peer, e.request.encrypt, e.request.publicKey, salt, mismatch)
  }

  /** What a match is: two fresh requests for each other, each introduced to the other. */
  ghost predicate MatchOk(m: Match, events: seq<Event>, ttl: int)
  {
    && m.stored < m.at < |events| && events[m.stored].Asked? && events[m.at].Asked?
    && var (a, b) := (events[m.stored], events[m.at]);
    && KeyOf(a.request) == Reverse(KeyOf(b.request)) && IsValidRequest(a.request) && IsValidRequest(b.request)
    && b.now - a.now < ttl
    && |m.introductions| == 2
    && (var (salt, mismatch) := (m.introductions[0].1.salt, m.introductions[0].1.encryptionMismatch);
          && m.introductions[0] == (a.peer, Presenting(b, salt, mismatch))
          && m.introductions[1] == (b.peer, Presenting(a, salt, mismatch))
          && mismatch == (IsTrue(a.request.encrypt) != IsTrue(b.request.encrypt))
          && (salt.Some? <==> IsTrue(a.request.encrypt) && IsTrue(b.request.encrypt))
          && (salt.Some? ==> a.request.publicKey.Some? && b.request.publicKey.Some?))
  }

  predicate Uses(m: Match, i: nat) { m.at == i || m.stored == i }

  /** No event is used in two matches. */
  ghost predicate UsedOnce(matches: seq<Match>)
  {
    forall x, y, i :: 0 <= x < y < |matches| && Uses(matches[x], i) ==> !Uses(matches[y], i)
  }

  ghost predicate NotUsed(matches: seq<Match>, i: nat) { forall x :: 0 <= x < |matches| ==> !Uses(matches[x], i) }

  /** None that is still pending is used in a match. */
  ghost predicate PendingNotUsed(s: Run) { forall k :: k in s.source ==> NotUsed(s.matches, s.source[k]) }

  ghost predicate NoBothWays(requests: Requests) { forall k, l :: k in requests && l in requests ==> l != Reverse(k) }

  ghost predicate SessionsOpen(s: Run) { forall k :: k in s.requests ==> s.requests[k].peer in s.open }

  ghost predicate TableOk(s: Run)
  {
    && s.source.Keys == s.requests.Keys && NoBothWays(s.requests) && |s.requests| <= MAX_PENDING_REQUESTS
    && SessionsOpen(s)
  }

  ghost predicate MatchesOk(s: Run, events: seq<Event>, ttl: int)
  {
    forall x :: 0 <= x < |s.matches| ==> MatchOk(s.matches[x], events, ttl)
  }

  ghost predicate Inv(s: Run, events: seq<Event>, ttl: int)
  {
    TableOk(s) && FromEvents(s, events) && MatchesOk(s, events, ttl) && UsedOnce(s.matches) && PendingNotUsed(s)
  }

  lemma KeepSome(s: Run, kept: Requests)
    requires kept.Keys <= s.requests.Keys && forall k :: k in kept ==> kept[k] == s.requests[k]
    ensures |kept| <= |s.requests|
  {
    SubsetCount(kept.Keys, s.requests.Keys);
    assert |kept.Keys| == |kept| && |s.requests.Keys| == |s.requests|;
  }

  /**
   What a request leaves pending: some of what was, and at most itself besides, which is then not pending the other
   way.
   */
  lemma ProcessKeeps(requests: Requests, ttl: int, peer: PeerAddress, r: SessionRequest, now: int, salt: Text)
    ensures var key, kept := KeyOf(r), Process(requests, ttl, peer, r, now, salt).requests;
            && Reverse(key) !in kept - {key}
            && (key in kept ==> kept[key] == PendingOf(peer, r, now))
            && (forall k :: k in kept && k != key ==> k in requests && kept[k] == requests[k])
            && (key in kept ==> Partner(requests, key, ttl, now).None?)
  {
    hide Introductions, PendingOf;
  }

  lemma ProcessSize(requests: Requests, ttl: int, peer: PeerAddress, r: SessionRequest, now: int, salt: Text)
    requires |requests| <= MAX_PENDING_REQUESTS
    ensures |Process(requests, ttl, peer, r, now, salt).requests| <= MAX_PENDING_REQUESTS
  {
    hide Introductions, PendingOf, Partner;
    var key := KeyOf(r);
    var rest := requests - {Reverse(key)};
    RemoveSize(requests, Reverse(key));
    RemoveSize(rest, key);
    InsertSize(rest, key, PendingOf(peer, r, now));
  }

  lemma ProcessOneWay(requests: Requests, ttl: int, peer: PeerAddress, r: SessionRequest, now: int, salt: Text)
    requires NoBothWays(requests) && IsValidRequest(r)
    ensures NoBothWays(Process(requests, ttl, peer, r, now, salt).requests)
  {
    hide Process, Partner;
    ProcessKeeps(requests, ttl, peer, r, now, salt);
    var kept := Process(requests, ttl, peer, r, now, salt).requests;
    forall k, l | k in kept && l in kept ensures l != Reverse(k) {
    }
  }

  lemma AskKeepsTable(s: Run, ttl: int, at: nat, e: Event)
    requires TableOk(s) && e.Asked? && e.peer in s.open && IsValidRequest(e.request)
    ensures TableOk(Ask(s, ttl, at, e))
  {
    hide Process, Partner, NoBothWays, KeyOf, Reverse, IsValidRequest;
    ProcessKeeps(s.requests, ttl, e.peer, e.request, e.now, e.salt);
    ProcessSize(s.requests, ttl, e.peer, e.request, e.now, e.salt);
    ProcessOneWay(s.requests, ttl, e.peer, e.request, e.now, e.salt);
  }

  /** An event later than all before it is in no match yet. */
  lemma Unused(s: Run, events: seq<Event>, ttl: int)
    requires MatchesOk(s, events, ttl)
    ensures NotUsed(s.matches, |events|)
  {
    hide MatchOk;
    forall x | 0 <= x < |s.matches| ensures !Uses(s.matches[x], |events|) { MatchBounds(s.matches[x], events, ttl); }
  }

  lemma AddMatch(matches: seq<Match>, m: Match)
    requires UsedOnce(matches) && NotUsed(matches, m.at) && NotUsed(matches, m.stored)
    ensures UsedOnce(matches + [m])
    ensures forall i :: NotUsed(matches, i) && i != m.at && i != m.stored ==> NotUsed(matches + [m], i)
  {}

  /** What a request leaves pending, with the events that asked for it. */
  lemma AskFrame(s: Run, ttl: int, at: nat, e: Event)
    requires s.source.Keys == s.requests.Keys && e.Asked? && IsValidRequest(e.request)
    ensures var key, t := KeyOf(e.request), Ask(s, ttl, at, e);
            && t.source.Keys == t.requests.Keys
            && (forall k :: k in t.source && k != key ==>
                  k in s.source && k != Reverse(key) && t.source[k] == s.source[k] && t.requests[k] == s.requests[k])
            && (key in t.source ==> t.source[key] == at && t.requests[key] == PendingOf(e.peer, e.request, e.now))
            && (key in t.source ==> Partner(s.requests, key, ttl, e.now).None?)
  {
    hide Process, Partner, PendingOf, IsValidRequest;
    ProcessKeeps(s.requests, ttl, e.peer, e.request, e.now, e.salt);
  }

  lemma AskMatches(s: Run, ttl: int, at: nat, e: Event)
    requires s.source.Keys == s.requests.Keys && e.Asked? && IsValidRequest(e.request)
    ensures var key, t, p := KeyOf(e.request), Ask(s, ttl, at, e), Partner(s.requests, KeyOf(e.request), ttl, e.now);
            if p.None? then t.matches == s.matches
            else Reverse(key) in s.source
                 && t.matches == s.matches
                    + [Match(at, s.source[Reverse(key)], Introductions(e.peer, e.request, p.value, e.salt))]
  {
    hide PendingOf, IsValidRequest, Introductions;
  }

  lemma AskKeepsUsedOnce(s: Run, ttl: int, events: seq<Event>, e: Event)
    requires Inv(s, events, ttl) && e.Asked? && e.peer in s.open && IsValidRequest(e.request)
    ensures var t := Ask(s, ttl, |events|, e); UsedOnce(t.matches) && PendingNotUsed(t)
  {
    hide Ask, Partner, MatchesOk, FromEvents, UsedOnce, NotUsed, IsValidRequest, SessionsOpen, PendingOf,
      Introductions, KeyOf, Reverse;
    var key := KeyOf(e.request);
    Unused(s, events, ttl);
    AskFrame(s, ttl, |events|, e);
    AskMatches(s, ttl, |events|, e);
    SourceInjective(s, events);
    var t, p := Ask(s, ttl, |events|, e), Partner(s.requests, key, ttl, e.now);
    if p.Some? {
      AddMatch(s.matches, Match(|events|, s.source[Reverse(key)], Introductions(e.peer, e.request, p.value, e.salt)));
    }
  }

  lemma MatchBounds(m: Match, events: seq<Event>, ttl: int)
    requires MatchOk(m, events, ttl)
    ensures m.stored < m.at < |events|
  {}

  lemma SourceInjective(s: Run, events: seq<Event>)
    requires FromEvents(s, events)
    ensures forall k, l :: k in s.source && l in s.source && s.source[k] == s.source[l] ==> k == l
    ensures forall k :: k in s.source ==> s.source[k] < |events|
  {}

  lemma AskKeepsEvents(s: Run, ttl: int, events: seq<Event>, e: Event)
    requires TableOk(s) && FromEvents(s, events) && e.Asked? && IsValidRequest(e.request)
    ensures FromEvents(Ask(s, ttl, |events|, e), events + [e])
  {
    hide Ask, Partner, PendingOf, NoBothWays;
    AskFrame(s, ttl, |events|, e);
    assert (events + [e])[|events|] == e && forall i :: 0 <= i < |events| ==> (events + [e])[i] == events[i];
  }

  lemma NewMatchOk(s: Run, ttl: int, events: seq<Event>, e: Event)
    requires TableOk(s) && FromEvents(s, events) && e.Asked? && IsValidRequest(e.request)
    requires Partner(s.requests, KeyOf(e.request), ttl, e.now).Some?
    ensures var key := KeyOf(e.request);
            MatchOk(Match(|events|, s.source[Reverse(key)],
                          Process(s.requests, ttl, e.peer, e.request, e.now, e.salt).introductions),
                    events + [e], ttl)
  {
    var key := KeyOf(e.request);
    var a := events[s.source[Reverse(key)]];
    assert (events + [e])[s.source[Reverse(key)]] == a;
  }

  lemma MatchStays(m: Match, events: seq<Event>, e: Event, ttl: int)
    requires MatchOk(m, events, ttl)
    ensures MatchOk(m, events + [e], ttl)
  {
    assert (events + [e])[m.at] == events[m.at] && (events + [e])[m.stored] == events[m.stored];
  }

  lemma AskKeepsMatches(s: Run, ttl: int, events: seq<Event>, e: Event)
    requires TableOk(s) && FromEvents(s, events) && MatchesOk(s, events, ttl) && e.Asked? && IsValidRequest(e.request)
    ensures MatchesOk(Ask(s, ttl, |events|, e), events + [e], ttl)
  {
    hide MatchOk, Process, FromEvents, TableOk;
    if Partner(s.requests, KeyOf(e.request), ttl, e.now).Some? { NewMatchOk(s, ttl, events, e); }
    forall x | 0 <= x < |s.matches| ensures MatchOk(s.matches[x], events + [e], ttl) {
      MatchStays(s.matches[x], events, e, ttl);
    }
  }

  lemma FewerKeepInv(s: Run, kept: Requests, open: set<PeerAddress>, events: seq<Event>, e: Event, ttl: int)
    requires Inv(s, events, ttl) && kept.Keys <= s.requests.Keys && (forall k :: k in kept ==> kept[k] == s.requests[k])
    requires forall k :: k in kept ==> kept[k].peer in open
    ensures Inv(s.(requests := kept, source := Restrict(s.source, kept), open := open), events + [e], ttl)
  {
    hide MatchOk, NotUsed, UsedOnce, IsValidRequest, PendingOf, TableOk;
    FewerKeepTable(s, kept, open);
    forall x | 0 <= x < |s.matches| ensures MatchOk(s.matches[x], events + [e], ttl) {
      MatchStays(s.matches[x], events, e, ttl);
    }
    assert forall i :: 0 <= i < |events| ==> (events + [e])[i] == events[i];
  }

  lemma FewerKeepTable(s: Run, kept: Requests, open: set<PeerAddress>)
    requires TableOk(s) && kept.Keys <= s.requests.Keys && (forall k :: k in kept ==> kept[k] == s.requests[k])
    requires forall k :: k in kept ==> kept[k].peer in open
    ensures TableOk(s.(requests := kept, source := Restrict(s.source, kept), open := open))
  {
    KeepSome(s, kept);
  }

  lemma DoKeepsInv(s: Run, ttl: int, events: seq<Event>, e: Event)
    requires Inv(s, events, ttl)
    ensures Inv(Do(s, ttl, |events|, e), events + [e], ttl)
  {
    hide Ask, MatchOk, FromEvents, UsedOnce, NoBothWays;
    assert Restrict(s.source, s.requests) == s.source;
    match e
    case Asked(peer, r, now, salt) =>
      if peer in s.open && IsValidRequest(r) {
        AskKeepsTable(s, ttl, |events|, e);
        AskKeepsEvents(s, ttl, events, e);
        AskKeepsMatches(s, ttl, events, e);
        AskKeepsUsedOnce(s, ttl, events, e);
      } else {
        FewerKeepInv(s, s.requests, s.open, events, e, ttl);
      }
    case Opened(peer) => FewerKeepInv(s, s.requests, s.open + {peer}, events, e, ttl);
    case Expired(key, before) => FewerKeepInv(s, Expire(s.requests, key, before), s.open, events, e, ttl);
    case Closed(peer) => FewerKeepInv(s, WithoutPeer(s.requests, peer), s.open - {peer}, events, e, ttl);
  }

  /** The relay after any events whatever. */
  function After(events: seq<Event>, ttl: int): Run
  {
    if events == [] then Run(map[], {}, map[], [])
    else Do(After(events[..|events| - 1], ttl), ttl, |events| - 1, events[|events| - 1])
  }

  lemma InitialInv(ttl: int)
    ensures Inv(Run(map[], {}, map[], []), [], ttl)
  {}

  lemma {:induction false} RunInv(events: seq<Event>, ttl: int)
    ensures Inv(After(events, ttl), events, ttl)
  {
    hide Do, Inv;
    if events == [] {
      InitialInv(ttl);
    } else {
      var prefix, e := events[..|events| - 1], events[|events| - 1];
      RunInv(prefix, ttl);
      DoKeepsInv(After(prefix, ttl), ttl, prefix, e);
      assert prefix + [e] == events;
    }
  }

  // ---------- when two requests are matched ----------

  ghost predicate Accepted(s: Run, e: Event) { e.Asked? && IsValidRequest(e.request) && e.peer in s.open }

  /** The reverse request is pending and younger than the limit. */
  ghost predicate ReverseIsFresh(requests: Requests, ttl: int, k: Key, now: int)
  {
    Reverse(k) in requests && now - requests[Reverse(k)].createdAt < ttl
  }

  /**
   The event is a request that is stored: it finds no fresh reverse request,
     and its key is pending already or fewer than
   10,000 requests other than the reverse one are.
   */
  ghost predicate Stores(s: Run, ttl: int, e: Event)
  {
    && Accepted(s, e)
    && var k := KeyOf(e.request);
       !ReverseIsFresh(s.requests, ttl, k, e.now)
       && (k in s.requests || |s.requests - {Reverse(k)}| < 10_000)
  }

  /** A request is pending after it was asked if and only if it is stored; then its event is what is pending. */
  lemma StoredIff(s: Run, ttl: int, at: nat, e: Event)
    requires TableOk(s) && Accepted(s, e)
    ensures var k, t := KeyOf(e.request), Do(s, ttl, at, e);
            && (k in t.requests <==> Stores(s, ttl, e))
            && (k in t.requests ==> t.requests[k] == PendingOf(e.peer, e.request, e.now) && t.source[k] == at)
            && Reverse(k) !in t.requests && t.source.Keys == t.requests.Keys
            && (forall l :: l != k && l != Reverse(k) ==>
                  && (l in t.requests <==> l in s.requests)
                  && (l in t.requests ==> t.requests[l] == s.requests[l] && t.source[l] == s.source[l]))
  {
    hide Process, Partner, PendingOf, NoBothWays, SessionsOpen, KeyOf, Reverse, ReverseIsFresh, IsValidRequest;
    ProcessExact(s.requests, ttl, e.peer, e.request, e.now, e.salt);
  }

  lemma ProcessExact(requests: Requests, ttl: int, peer: PeerAddress, r: SessionRequest, now: int, salt: Text)
    requires IsValidRequest(r)
    ensures var k := KeyOf(r); var kept := Process(requests, ttl, peer, r, now, salt).requests;
            && (k in kept <==>
                  !ReverseIsFresh(requests, ttl, k, now) && (k in requests || |requests - {Reverse(k)}| < 10_000))
            && (k in kept ==> kept[k] == PendingOf(peer, r, now))
            && Reverse(k) !in kept && k != Reverse(k)
            && (forall l :: l != k && l != Reverse(k) ==>
                  (l in kept <==> l in requests) && (l in kept ==> kept[l] == requests[l]))
  {
    hide Introductions, PendingOf;
  }

  /**
   The event puts an end to what is pending under `k`: asked again, asked the other way, expired, or its peer gone.
   */
  ghost predicate Ends(s: Run, e: Event, k: Key, p: Pending)
  {
    match e
    case Opened(_) => false
    case Asked(_, r, _, _) => Accepted(s, e) && KeyOf(r) in {k, Reverse(k)}
    case Expired(key, before) => key == k && p.createdAt <= before
    case Closed(peer) => p.peer == peer
  }

  /** What is pending under `k` after event `at`: the event's own request, or what was and has not been ended. */
  ghost predicate PendingThen(s: Run, t: Run, ttl: int, at: nat, e: Event, k: Key)
    requires s.source.Keys <= s.requests.Keys
  {
    var own := Stores(s, ttl, e) && KeyOf(e.request) == k;
    && (k in t.source <==> own || (k in s.source && !Ends(s, e, k, s.requests[k])))
    && (k in t.source ==> t.source[k] == if own then at else s.source[k])
  }

  lemma PendingStep(s: Run, ttl: int, at: nat, e: Event, k: Key)
    requires TableOk(s)
    ensures PendingThen(s, Do(s, ttl, at, e), ttl, at, e, k)
  {
    if Accepted(s, e) { AskPending(s, ttl, at, e, k); }
  }

  /** A request that is asked again while pending is stored anew, since the table never holds both ways. */
  lemma AskPending(s: Run, ttl: int, at: nat, e: Event, k: Key)
    requires TableOk(s) && Accepted(s, e)
    ensures PendingThen(s, Do(s, ttl, at, e), ttl, at, e, k)
  {
    hide Do, PendingOf, SessionsOpen, Stores, NoBothWays;
    StoredIff(s, ttl, at, e);
  }

  /** Event `i` puts an end to the request for `k` that event `j` is. */
  ghost predicate Ended(events: seq<Event>, ttl: int, k: Key, j: nat, i: nat)
    requires i < |events| && j < |events| && events[j].Asked?
  {
    Ends(After(events[..i], ttl), events[i], k, PendingOf(events[j].peer, events[j].request, events[j].now))
  }

  /** Event `j` is a request for `k` that is stored. */
  ghost predicate StoredAt(events: seq<Event>, ttl: int, k: Key, j: nat)
    requires j < |events|
  {
    Stores(After(events[..j], ttl), ttl, events[j]) && KeyOf(events[j].request) == k
  }

  /** Event `j` is a stored request for `k` that nothing has put an end to. */
  ghost predicate StillPending(events: seq<Event>, ttl: int, k: Key, j: nat)
  {
    && j < |events| && events[j].Asked? && StoredAt(events, ttl, k, j)
    && forall i :: j < i < |events| ==> !Ended(events, ttl, k, j, i)
  }

  lemma PrefixEvents(events: seq<Event>, ttl: int, k: Key, j: nat, i: nat)
    requires events != [] && i < |events| - 1 && j < |events| - 1 && events[j].Asked?
    ensures var prefix := events[..|events| - 1];
            prefix[j] == events[j] && StoredAt(prefix, ttl, k, j) == StoredAt(events, ttl, k, j)
            && Ended(prefix, ttl, k, j, i) == Ended(events, ttl, k, j, i)
  {
    hide Stores, Ends, After, PendingOf;
    var prefix := events[..|events| - 1];
    assert prefix[..i] == events[..i] && prefix[..j] == events[..j];
  }

  lemma StillPendingStep(events: seq<Event>, ttl: int, k: Key, j: nat)
    requires events != [] && j < |events| - 1 && events[j].Asked?
    ensures var n := |events| - 1;
            StillPending(events, ttl, k, j) <==> StillPending(events[..n], ttl, k, j) && !Ended(events, ttl, k, j, n)
  {
    hide StoredAt, Ended;
    var n := |events| - 1;
    forall i | j < i < n ensures Ended(events[..n], ttl, k, j, i) == Ended(events, ttl, k, j, i) {
      PrefixEvents(events, ttl, k, j, i);
    }
    PrefixEvents(events, ttl, k, j, j);
  }

  lemma SourceEvent(s: Run, events: seq<Event>, k: Key)
    requires FromEvents(s, events) && k in s.source
    ensures k in s.requests && s.source[k] < |events| && events[s.source[k]].Asked?
    ensures var e := events[s.source[k]]; s.requests[k] == PendingOf(e.peer, e.request, e.now)
  {}

  lemma NeverPending(ttl: int, k: Key, j: nat)
    ensures !StillPending([], ttl, k, j)
  {}

  lemma AfterStep(events: seq<Event>, ttl: int)
    requires events != []
    ensures var n := |events| - 1; var s := After(events[..n], ttl);
            After(events, ttl) == Do(s, ttl, n, events[n])
  {}

  /** One more event, for a request that is not the event's own. */
  lemma OldPending(events: seq<Event>, ttl: int, k: Key, j: nat)
    requires events != [] && j < |events| - 1 && events[j].Asked?
    requires var prefix := events[..|events| - 1]; var s := After(prefix, ttl);
             k in s.source && s.source[k] == j <==> StillPending(prefix, ttl, k, j)
    ensures var s := After(events, ttl); k in s.source && s.source[k] == j <==> StillPending(events, ttl, k, j)
  {
    hide After, Stores, Ends, StillPending, Do, Inv, PendingOf, StoredAt, Accepted, KeyOf;
    var n := |events| - 1;
    var prefix := events[..n];
    var s := After(prefix, ttl);
    AfterStep(events, ttl);
    assert TableOk(s) && FromEvents(s, prefix) by { RunInv(prefix, ttl); InvParts(s, prefix, ttl); }
    hide TableOk, FromEvents;
    PendingStep(s, ttl, n, events[n], k);
    if k in s.source { SourceEvent(s, prefix, k); }
    var p := PendingOf(events[j].peer, events[j].request, events[j].now);
    if Stores(s, ttl, events[n]) { StoresEnds(s, ttl, events[n], p); }
    StillPendingStep(events, ttl, k, j);
  }

  lemma StoresAccepted(s: Run, ttl: int, e: Event)
    requires Stores(s, ttl, e)
    ensures Accepted(s, e)
  {}

  lemma StoresEnds(s: Run, ttl: int, e: Event, p: Pending)
    requires Stores(s, ttl, e)
    ensures e.Asked? && Ends(s, e, KeyOf(e.request), p)
  {}

  lemma InvParts(s: Run, events: seq<Event>, ttl: int)
    requires Inv(s, events, ttl)
    ensures TableOk(s) && FromEvents(s, events)
  {}

  lemma NewPending(events: seq<Event>, ttl: int, k: Key)
    requires events != []
    ensures var n := |events| - 1; var s := After(events, ttl);
            k in s.source && s.source[k] == n <==> StillPending(events, ttl, k, n)
  {
    hide After, Stores, Ends, Do, Inv, PendingOf;
    var n := |events| - 1;
    var prefix := events[..n];
    var s := After(prefix, ttl);
    AfterStep(events, ttl);
    assert TableOk(s) && FromEvents(s, prefix) by { RunInv(prefix, ttl); InvParts(s, prefix, ttl); }
    hide TableOk, FromEvents;
    PendingStep(s, ttl, n, events[n], k);
    if k in s.source { SourceEvent(s, prefix, k); }
    if Stores(s, ttl, events[n]) { StoresAccepted(s, ttl, events[n]); }
  }

  /** The table of pending requests is what the history says. */
  lemma {:induction false} PendingMeaning(events: seq<Event>, ttl: int, k: Key, j: nat)
    ensures var s := After(events, ttl); k in s.source && s.source[k] == j <==> StillPending(events, ttl, k, j)
  {
    hide Stores, Ends, StillPending, Inv, Do;
    if events == [] {
      NeverPending(ttl, k, j);
    } else {
      var n := |events| - 1;
      PendingMeaning(events[..n], ttl, k, j);
      NewPending(events, ttl, k);
      if j < n && events[j].Asked? { OldPending(events, ttl, k, j); } else if j != n { NotAsked(events, ttl, k, j); }
    }
  }

  lemma NotAsked(events: seq<Event>, ttl: int, k: Key, j: nat)
    requires j < |events| ==> !events[j].Asked?
    ensures var s := After(events, ttl); !(k in s.source && s.source[k] == j) && !StillPending(events, ttl, k, j)
  {
    hide After;
    RunInv(events, ttl);
  }

  /** The last event made a match with the request stored at event `j`. */
  ghost predicate LastMatches(events: seq<Event>, ttl: int, j: nat)
    requires events != []
  {
    var before, s := After(events[..|events| - 1], ttl), After(events, ttl);
    |s.matches| == |before.matches| + 1 && s.matches[|before.matches|].stored == j
  }

  /**
   A request is matched with an earlier one exactly when that one asked the reverse, is fresh, and nothing has put an
   end to it.
   */
  lemma MatchedIff(events: seq<Event>, ttl: int, j: nat)
    requires events != []
    ensures var n := |events| - 1; var e := events[n];
            LastMatches(events, ttl, j) <==>
              && Accepted(After(events[..n], ttl), e)
              && StillPending(events[..n], ttl, Reverse(KeyOf(e.request)), j) && e.now - events[j].now < ttl
  {
    hide StillPending, MatchOk, UsedOnce, PendingNotUsed, NoBothWays, Introductions, Process;
    var n := |events| - 1;
    var e, s := events[n], After(events[..n], ttl);
    RunInv(events[..n], ttl);
    if Accepted(s, e) {
      var k := Reverse(KeyOf(e.request));
      PendingMeaning(events[..n], ttl, k, j);
      if k in s.source { PendingMeaning(events[..n], ttl, k, s.source[k]); }
      AskMatches(s, ttl, n, e);
    }
  }

  /** What the two peers of a match are told. */
  function Meeting(first: Event, second: Event): seq<(PeerAddress, Introduction)>
    requires first.Asked? && second.Asked?
  {
    var both := IsTrue(first.request.encrypt) && IsTrue(second.request.encrypt);
    var mismatch := IsTrue(first.request.encrypt) != IsTrue(second.request.encrypt);
    var salt := if both then Some(second.salt) else None;
    [(first.peer, Presenting(second, salt, mismatch)), (second.peer, Presenting(first, salt, mismatch))]
  }

  /**
   Two peers meet: a request that is stored, followed by the reverse one of a peer with a session while it is fresh, is
   matched with it, both are told of each other, and nothing of the two stays pending.
   */
  lemma TwoPeersMeet(before: seq<Event>, ttl: int, first: Event, second: Event)
    requires var s := After(before, ttl); Stores(s, ttl, first) && Accepted(s, second)
    requires KeyOf(second.request) == Reverse(KeyOf(first.request)) && second.now - first.now < ttl
    ensures var s, t := After(before, ttl), After(before + [first, second], ttl);
            && t.matches == s.matches + [Match(|before| + 1, |before|, Meeting(first, second))]
            && KeyOf(first.request) !in t.requests && KeyOf(second.request) !in t.requests
  {
    hide Inv, Process, After;
    var n := |before|;
    var s := After(before, ttl);
    var all := before + [first, second];
    assert all[..n + 1] == before + [first] && (before + [first])[..n] == before;
    AfterStep(before + [first], ttl);
    AfterStep(all, ttl);
    var mid := After(before + [first], ttl);
    RunInv(before, ttl);
    RunInv(before + [first], ttl);
    InvParts(s, before, ttl);
    InvParts(mid, before + [first], ttl);
    FirstIsStored(s, ttl, n, first);
    SecondIsMatched(mid, ttl, n + 1, first, second, n);
  }

  lemma FirstIsStored(s: Run, ttl: int, at: nat, e: Event)
    requires TableOk(s) && Stores(s, ttl, e)
    ensures var k, t := KeyOf(e.request), Do(s, ttl, at, e);
            && k in t.requests && t.requests[k] == PendingOf(e.peer, e.request, e.now) && k in t.source
               && t.source[k] == at
            && t.open == s.open && t.matches == s.matches
  {
    hide Introductions, PendingOf, NoBothWays, SessionsOpen;
    StoredIff(s, ttl, at, e);
  }

  lemma SecondIsMatched(s: Run, ttl: int, at: nat, first: Event, second: Event, stored: nat)
    requires TableOk(s) && first.Asked? && IsValidRequest(first.request) && Accepted(s, second)
    requires KeyOf(second.request) == Reverse(KeyOf(first.request)) && second.now - first.now < ttl
    requires var k := KeyOf(first.request);
             && k in s.requests && s.requests[k] == PendingOf(first.peer, first.request, first.now)
             && k in s.source && s.source[k] == stored
    ensures var t := Do(s, ttl, at, second);
            && t.matches == s.matches + [Match(at, stored, Meeting(first, second))]
            && KeyOf(first.request) !in t.requests && KeyOf(second.request) !in t.requests
  {
    hide NoBothWays, SessionsOpen;
    assert Reverse(KeyOf(second.request)) == KeyOf(first.request);
  }

  lemma BothOpen(ttl: int, first: Event, second: Event)
    requires first.Asked? && second.Asked? && IsValidRequest(first.request) && IsValidRequest(second.request)
    ensures var s := After([Opened(first.peer), Opened(second.peer)], ttl);
            Stores(s, ttl, first) && Accepted(s, second) && s.matches == []
  {
    var sessions := [Opened(first.peer), Opened(second.peer)];
    assert sessions[..1] == [Opened(first.peer)] && sessions[..1][..0] == [];
    AfterStep(sessions, ttl);
    AfterStep(sessions[..1], ttl);
    hide After, Do;
    var none: Requests := map[];
    assert |none - {Reverse(KeyOf(first.request))}| == 0;
  }

  /** So any two peers can meet, from the beginning on. */
  lemma TwoPeersMeetAtOnce(ttl: int, first: Event, second: Event)
    requires first.Asked? && second.Asked? && IsValidRequest(first.request) && IsValidRequest(second.request)
    requires KeyOf(second.request) == Reverse(KeyOf(first.request)) && second.now - first.now < ttl
    ensures var t := After([Opened(first.peer), Opened(second.peer), first, second], ttl);
            |t.matches| == 1 && t.matches[0].introductions == Meeting(first, second)
  {
    hide Meeting, Stores;
    var sessions := [Opened(first.peer), Opened(second.peer)];
    BothOpen(ttl, first, second);
    assert sessions + [first, second] == [Opened(first.peer), Opened(second.peer), first, second];
    TwoPeersMeet(sessions, ttl, first, second);
  }
}
