/**
 What a resend pass sends: every datagram of the window that is not acked when its turn comes, once each, in ascending
 order; and what is sent at once when a transmission begins.
 */
module Passes {
  import opened BufferUtils
  import opened Sender

  /** The numbers from `from` up to but not including `end` that are not acked. */
  function Unacked(from: nat, end: int, acks: set<nat>): seq<nat>
    decreases end - from
  {
    if from >= end then []
    else (if from in acks then [] else [from]) + Unacked(from + 1, end, acks)
  }

  predicate Ascending(s: seq<nat>) { forall i, j :: 0 <= i < j < |s| ==> s[i] < s[j] }

  /** They are listed once each, in ascending order. */
  lemma UnackedMeaning(from: nat, end: int, acks: set<nat>)
    ensures Ascending(Unacked(from, end, acks))
    ensures forall k: nat :: k in Unacked(from, end, acks) <==> from <= k < end && k !in acks
  {
    hide Unacked, Ascending;
    UnackedHas(from, end, acks);
    UnackedAscends(from, end, acks);
  }

  lemma {:induction false} UnackedHas(from: nat, end: int, acks: set<nat>)
    ensures forall k: nat :: k in Unacked(from, end, acks) <==> from <= k < end && k !in acks
    decreases end - from
  {
    if from < end { UnackedHas(from + 1, end, acks); }
  }

  lemma {:induction false} UnackedAscends(from: nat, end: int, acks: set<nat>)
    ensures Ascending(Unacked(from, end, acks))
    decreases end - from
  {
    if from < end {
      var rest := Unacked(from + 1, end, acks);
      UnackedAscends(from + 1, end, acks);
      UnackedHas(from + 1, end, acks);
      hide Unacked;
      assert forall i :: 0 <= i < |rest| ==> from < rest[i] by {
        forall i | 0 <= i < |rest| ensures from < rest[i] { assert rest[i] in rest; }
      }
      PutFirst(from, rest);
      assert Unacked(from, end, acks)
             == (if from in acks then [] else [from]) + rest by { hide *; OneUnacked(from, end, acks); }
    }
  }

  lemma PutFirst(k: nat, rest: seq<nat>)
    requires Ascending(rest) && forall i :: 0 <= i < |rest| ==> k < rest[i]
    ensures Ascending([k] + rest) && [] + rest == rest
  {}

  lemma OneUnacked(from: nat, end: int, acks: set<nat>)
    requires from < end
    ensures Unacked(from, end, acks) == (if from in acks then [] else [from]) + Unacked(from + 1, end, acks)
  {}

  lemma {:induction false} UnackedMore(from: nat, end: nat, acks: set<nat>)
    requires from <= end
    ensures Unacked(from, end + 1, acks) == Unacked(from, end, acks) + (if end in acks then [] else [end])
    decreases end - from
  {
    if from < end { UnackedMore(from + 1, end, acks); }
  }

  // ---------- the first window ----------

  /** A new transmission sends its first 20 datagrams at once, or all of them if there are fewer. */
  lemma FirstWindowIsSent(buffers: seq<seq<Byte>>)
    ensures var out := Transmit(NewTx(buffers));
            out.sent == Unacked(0, Min(20, |buffers|), {}) && out.tx.timer && out.tx.buffers == buffers
  {
    InOrder(Min(20, |buffers|));
  }

  lemma {:induction false} InOrder(n: nat)
    ensures Unacked(0, n, {}) == seq(n, i => i)
  {
    if n > 0 {
      InOrder(n - 1);
      UnackedMore(0, n - 1, {});
    }
  }

  /**
   Every ack arms the timer of a transmission that goes on, a pass running or not, and disarms that of one that ends.
   */
  lemma AckArmsTimer(t: Tx, ack: nat)
    requires !Stopped(t)
    ensures var a := CollectAck(t, ack); a.timer <==> !a.fin
  {
    hide Advance;
  }

  // ---------- a pass with no acks in between ----------

  /** The timer goes off and `n` pauses end: the transmission, and all that was sent. */
  function Pass(t: Tx, n: nat): Sends
  {
    if n == 0 then TimerFires(t)
    else
      var before := Pass(t, n - 1);
      var out := Resume(before.tx);
      Sends(out.tx, before.sent + out.sent)
  }

  /** The end of the window: 20 datagrams beyond the acked prefix, itself included, or the last datagram. */
  function WindowEnd(t: Tx): int { Min(t.greatest + 20, |t.buffers|) }

  /** A live transmission with no pass running, at the beginning of a pass. */
  ghost predicate Rested(t: Tx) { TxInv(t) && InRange(t) && |t.buffers| > 0 && !Stopped(t) && !t.resending }

  ghost predicate SentSoFar(t: Tx, n: nat, out: Sends)
  {
    && (out.tx.resending <==> t.greatest + 1 + n < WindowEnd(t))
    && out.sent == Unacked(t.greatest + 1, Min(t.greatest + 2 + n, WindowEnd(t)), t.acks)
    && (if out.tx.resending then out.tx == t.(timer := false, resending := true, position := t.greatest + 1 + n)
        else out.tx.timer && out.tx.greatest == t.greatest && out.tx.acks == t.acks && !Stopped(out.tx))
  }

  lemma NextTurn(t: Tx, before: Sends, n: nat)
    requires Rested(t) && n > 0 && SentSoFar(t, n - 1, before)
    ensures var out := Resume(before.tx); SentSoFar(t, n, Sends(out.tx, before.sent + out.sent))
  {
    hide TxInv, Unacked, InRange;
    var k := t.greatest + 1 + n;
    if k < WindowEnd(t) { UnackedMore(t.greatest + 1, k, t.acks); }
  }

  lemma FirstTurn(t: Tx)
    requires Rested(t)
    ensures SentSoFar(t, 0, TimerFires(t))
  {
    PrefixInRange(t);
    UnackedMore(t.greatest + 1, t.greatest + 1, t.acks);
  }

  /**
   The pass goes on for as many turns as the window has numbers after the acked prefix, and by then has sent exactly
   those of them that are not acked.
   */
  lemma {:induction false} PassCoversWindow(t: Tx, n: nat)
    requires Rested(t)
    ensures var out := Pass(t, n);
            && (out.tx.resending <==> t.greatest + 1 + n < WindowEnd(t))
            && out.sent == Unacked(t.greatest + 1, Min(t.greatest + 2 + n, WindowEnd(t)), t.acks)
  {
    hide Unacked, TimerFires, Resume;
    PassSoFar(t, n);
  }

  lemma {:induction false} PassSoFar(t: Tx, n: nat)
    requires Rested(t)
    ensures SentSoFar(t, n, Pass(t, n))
  {
    hide SentSoFar, Rested, TimerFires, Resume;
    if n == 0 {
      FirstTurn(t);
    } else {
      PassSoFar(t, n - 1);
      NextTurn(t, Pass(t, n - 1), n);
    }
  }

  // ---------- a pass with anything in between ----------

  /** What an event sends. */
  function SentNow(t: Tx, e: TxEvent): seq<nat>
  {
    match e
    case Acked(_) => []
    case TimerFired => if t.timer then TimerFires(t).sent else []
    case PauseOver => Resume(t).sent
  }

  function SentOver(t: Tx, events: seq<TxEvent>): seq<nat>
  {
    if events == [] then []
    else SentOver(t, events[..|events| - 1]) + SentNow(TxAfter(t, events[..|events| - 1]), events[|events| - 1])
  }

  /** From the state at the beginning of a pass: the pass is still running after each but the last of the events. */
  ghost predicate OnePass(t: Tx, events: seq<TxEvent>)
  {
    forall i :: 0 <= i < |events| ==> TxAfter(t, events[..i]).resending
  }

  /**
   When its turn comes in a running pass, a number in the window is sent if and only if it is not acked; the pass ends
   when the window is left or the transmission has stopped. No other event sends anything meanwhile.
   */
  lemma TurnExact(t: Tx, e: TxEvent)
    requires TxInv(t) && t.resending
    ensures var k := t.position + 1; var window := !Stopped(t) && k < WindowEnd(t);
            if e == PauseOver then
              SentNow(t, e) == (if window && k !in t.acks then [k] else [])
              && (TxStep(t, e).resending <==> window) && TxStep(t, e).position == k
            else SentNow(t, e) == [] && TxStep(t, e).resending && TxStep(t, e).position == t.position
    ensures TxInv(TxStep(t, e)) && TxStep(t, e).buffers == t.buffers && t.acks <= TxStep(t, e).acks
  {
    hide CollectAck;
    match e
    case Acked(ack) =>
      if !Stopped(t) { AckMeaning(t, ack); }
      AckKeepsPass(t, ack);
    case _ => TimerStepsKeepInv(t);
  }

  /** An ack does not disturb a pass. */
  lemma AckKeepsPass(t: Tx, ack: nat)
    ensures var a := CollectAck(t, ack);
            a.resending == t.resending && a.position == t.position && (Stopped(t) ==> a == t)
  {
    hide Advance;
  }

  /** What a pass that began after `g` has sent: in order, within the numbers whose turn has come, all but the acked. */
  ghost predicate Covered(g: int, t: Tx, sent: seq<nat>)
  {
    var end := if t.resending then t.position + 1 else t.position;
    && Ascending(sent)
    && (forall k: nat :: k in sent ==> g < k < end)
    && (forall k: nat :: g < k < end && k !in t.acks ==> k in sent)
    && (!t.resending ==> Stopped(t) || t.position >= WindowEnd(t))
  }

  lemma AppendAscending(s: seq<nat>, k: nat)
    requires Ascending(s) && forall j: nat :: j in s ==> j < k
    ensures Ascending(s + [k]) && s + [] == s
  {
    forall i | 0 <= i < |s| ensures s[i] < k { assert s[i] in s; }
  }

  lemma TurnCovers(g: int, t: Tx, e: TxEvent, sent: seq<nat>)
    requires TxInv(t) && t.resending && Covered(g, t, sent) && g <= t.position
    ensures Covered(g, TxStep(t, e), sent + SentNow(t, e))
  {
    hide TxStep, SentNow, TxInv, Ascending, WindowEnd;
    TurnExact(t, e);
    AppendAscending(sent, t.position + 1);
    if !TxStep(t, e).resending { PassEnds(t, e); }
  }

  lemma PassEnds(t: Tx, e: TxEvent)
    requires TxInv(t) && t.resending && !TxStep(t, e).resending
    ensures var a := TxStep(t, e); Stopped(a) || a.position >= WindowEnd(a)
  {
    hide CollectAck;
    if e.Acked? { AckKeepsPass(t, e.ack); }
  }

  lemma {:induction false} PassCovers(t: Tx, events: seq<TxEvent>)
    requires Rested(t) && OnePass(TimerFires(t).tx, events)
    ensures var s := TimerFires(t).tx; var a := TxAfter(s, events);
            TxInv(a) && t.greatest <= a.position && Covered(t.greatest, a, TimerFires(t).sent + SentOver(s, events))
  {
    hide TxInv, Covered, TimerFires, TxStep, SentNow, Rested;
    var s := TimerFires(t).tx;
    if events == [] {
      PassBegins(t);
      assert TimerFires(t).sent + [] == TimerFires(t).sent;
    } else {
      var n := |events| - 1;
      var before := events[..n];
      assert OnePass(s, before) && TxAfter(s, before).resending by { hide *; PassPrefix(s, events); }
      PassCovers(t, before);
      var b := TxAfter(s, before);
      TurnExact(b, events[n]);
      TurnCovers(t.greatest, b, events[n], TimerFires(t).sent + SentOver(s, before));
      assert TimerFires(t).sent + SentOver(s, before) + SentNow(b, events[n])
             == TimerFires(t).sent + SentOver(s, events);
    }
  }

  lemma PassPrefix(s: Tx, events: seq<TxEvent>)
    requires events != [] && OnePass(s, events)
    ensures var before := events[..|events| - 1]; OnePass(s, before) && TxAfter(s, before).resending
  {
    hide TxAfter;
    var n := |events| - 1;
    assert forall i :: 0 <= i < n ==> events[..n][..i] == events[..i];
  }

  lemma PassBegins(t: Tx)
    requires Rested(t)
    ensures var out := TimerFires(t);
            TxInv(out.tx) && out.tx.position == t.greatest + 1 && Covered(t.greatest, out.tx, out.sent)
  {
    ResendStartsAtGap(t);
    TimerStepsKeepInv(t);
  }

  /**
   A pass misses nothing, whatever acks and timers come in between: when it is over and the transmission has not
   stopped, every number from the gap at its beginning to the end of the window then, that is still not acked, has been
   sent in it, each once and in ascending order, and nothing else but numbers acked since.
   */
  lemma PassMissesNothing(t: Tx, events: seq<TxEvent>)
    requires Rested(t) && OnePass(TimerFires(t).tx, events)
    ensures var s := TimerFires(t).tx; var a, sent := TxAfter(s, events), TimerFires(t).sent + SentOver(s, events);
            && Ascending(sent)
            && (forall k :: k in sent ==> t.greatest < k)
            && (!a.resending && !Stopped(a) ==>
                  forall k: nat :: t.greatest < k < WindowEnd(a) && k !in a.acks ==> k in sent)
  {
    hide TxInv, TimerFires, TxAfter, SentOver, Ascending, WindowEnd, OnePass;
    PassCovers(t, events);
  }
}
