/**
 Typing text: its code units go out in order, in batches, paced on request, and within one
 budget for the whole call that the caller's own pacing does not eat into.
 */
module Typing {
  import opened Wrappers
  import opened KeyNames
  import opened Transport

  const INPUT_SEND_TIMEOUT_NS: nat := 15_000_000_000

  // ---------------------------------------------------------------- events

  /** Press and release of every unit. */
  function Events(units: seq<nat>): seq<Event> {
    seq(2 * |units|, k requires 0 <= k < 2 * |units| => if k % 2 == 0 then UnitDown(units[k / 2]) else UnitUp(units[k / 2]))
  }

  lemma EventsNext(units: seq<nat>, n: nat)
    requires n < |units|
    ensures Events(units[..n + 1]) == Events(units[..n]) + [UnitDown(units[n]), UnitUp(units[n])]
  {
    var all, before := Events(units[..n + 1]), Events(units[..n]);
    assert |before| == 2 * n && |all| == 2 * n + 2;
    forall k | 0 <= k < 2 * n
      ensures all[k] == before[k]
    {
      assert units[..n + 1][k / 2] == units[..n][k / 2];
    }
  }

  method UnicodeKeyEvents(units: seq<nat>) returns (events: seq<Event>)
    ensures events == Events(units)
  {
    events := [];
    for i := 0 to |units|
      invariant events == Events(units[..i])
    {
      EventsNext(units, i);
      events := events + [UnitDown(units[i])];
      events := events + [UnitUp(units[i])];
    }
    assert units[..|units|] == units;
  }

  /** What a remote that types each unit as it is pressed, if it is released at once, receives. */
  function Received(events: seq<Event>): seq<nat> {
    if |events| < 2 then []
    else
      var n := |events| - 2;
      Received(events[..n]) +
      if events[n].UnitDown? && events[n + 1] == UnitUp(events[n].code) then [events[n].code] else []
  }

  lemma ReceivedMore(events: seq<Event>, code: nat)
    ensures Received(events + [UnitDown(code), UnitUp(code)]) == Received(events) + [code]
  {
    var more := events + [UnitDown(code), UnitUp(code)];
    assert more[..|more| - 2] == events;
  }

  lemma {:induction false} PrefixIsReceived(units: seq<nat>, n: nat)
    requires n <= |units|
    ensures Received(Events(units[..n])) == units[..n]
  {
    if n > 0 {
      var m := n - 1;
      assert m + 1 == n;
      PrefixIsReceived(units, m);
      EventsNext(units, m);
      ReceivedMore(Events(units[..m]), units[m]);
      assert units[..n] == units[..m] + [units[m]];
    }
  }

  /** The events type exactly these units. */
  lemma EventsAreReceived(units: seq<nat>)
    ensures Received(Events(units)) == units && |Events(units)| == 2 * |units|
  {
    PrefixIsReceived(units, |units|);
    assert units[..|units|] == units;
  }

  // ---------------------------------------------------------------- batches

  function Batches(total: nat): nat { (total + TYPE_UNITS_PER_BATCH - 1) / TYPE_UNITS_PER_BATCH }

  /** Where batch `n` starts; past the last one, the end. */
  function Start(total: nat, n: nat): nat {
    if n * TYPE_UNITS_PER_BATCH < total then n * TYPE_UNITS_PER_BATCH else total
  }

  function Batch(units: seq<nat>, n: nat): seq<nat> { units[Start(|units|, n)..Start(|units|, n + 1)] }

  lemma BatchCount(total: nat, n: nat)
    ensures n < Batches(total) <==> Start(total, n) < total
    ensures n < Batches(total) ==> Start(total, n) == n * TYPE_UNITS_PER_BATCH
  {
  }

  /** The attempts that send the first `n` batches. */
  function Sent(units: seq<nat>, n: nat): seq<Attempt> {
    seq(n, k requires 0 <= k < n => Attempt(Events(Batch(units, k)), None, true))
  }

  /** What reaches the remote, acknowledged or not. */
  function Delivered(log: seq<Attempt>): seq<nat> {
    if log == [] then []
    else
      var last := log[|log| - 1];
      Delivered(log[..|log| - 1]) + if last.landed then Received(last.events) else []
  }

  lemma DeliveredMore(log: seq<Attempt>, units: seq<nat>, error: Option<Error>, landed: bool)
    ensures Delivered(log + [Attempt(Events(units), error, landed)]) == Delivered(log) + if landed then units else []
  {
    var more := log + [Attempt(Events(units), error, landed)];
    assert more[..|more| - 1] == log;
    EventsAreReceived(units);
  }

  lemma BatchJoins(units: seq<nat>, n: nat)
    ensures Start(|units|, n) <= Start(|units|, n + 1)
    ensures units[..Start(|units|, n + 1)] == units[..Start(|units|, n)] + Batch(units, n)
  {
  }

  lemma SentNext(units: seq<nat>, n: nat)
    ensures Sent(units, n + 1) == Sent(units, n) + [Attempt(Events(Batch(units, n)), None, true)]
  {
  }

  /** The first `n` batches deliver the text up to where batch `n` starts, each unit once and in order. */
  lemma {:induction false} SentIsDelivered(units: seq<nat>, n: nat)
    ensures Delivered(Sent(units, n)) == units[..Start(|units|, n)]
  {
    if n > 0 {
      var m := n - 1;
      SentIsDelivered(units, m);
      SentNext(units, m);
      DeliveredMore(Sent(units, m), Batch(units, m), None, true);
      BatchJoins(units, m);
    }
  }

  /** A batch that is reported lost may be delivered all the same, whole. */
  lemma LostBatchIsDelivered(units: seq<nat>, n: nat, error: Error, landed: bool)
    ensures Delivered(Sent(units, n) + [Attempt(Events(Batch(units, n)), Some(error), landed)]) ==
      units[..Start(|units|, if landed then n + 1 else n)]
  {
    SentIsDelivered(units, n);
    DeliveredMore(Sent(units, n), Batch(units, n), Some(error), landed);
    BatchJoins(units, n);
  }

  /** Every batch fits into one packet, whose event count is a single byte. */
  lemma BatchFits(units: seq<nat>, n: nat)
    ensures |Events(Batch(units, n))| <= 2 * TYPE_UNITS_PER_BATCH < 255
  {
    EventsAreReceived(Batch(units, n));
  }

  /** All the batches deliver all the text. */
  lemma AllIsDelivered(units: seq<nat>)
    ensures Delivered(Sent(units, Batches(|units|))) == units
  {
    SentIsDelivered(units, Batches(|units|));
    BatchCount(|units|, Batches(|units|));
  }

  /** The count that a timeout reports is exactly what was delivered. */
  lemma ReportedIsDelivered(units: seq<nat>, n: nat)
    requires n < Batches(|units|)
    ensures n * TYPE_UNITS_PER_BATCH < |units|
    ensures Delivered(Sent(units, n)) == units[..n * TYPE_UNITS_PER_BATCH]
  {
    SentIsDelivered(units, n);
    BatchCount(|units|, n);
  }

  // ---------------------------------------------------------------- sending

  datatype Outcome =
    | Typed
    | TimedOut(budgetNs: nat, sent: nat, total: nat)
    | SendFailed(error: Error)

  /** Milliseconds slept before the sends of the first `n` batches. */
  function PacingMs(n: nat, delayMs: Option<nat>): nat {
    if n == 0 || delayMs == None then 0 else (n - 1) * delayMs.value
  }

  lemma PacingMore(n: nat, delayMs: Option<nat>)
    ensures PacingMs(n + 1, delayMs) == PacingMs(n, delayMs) + if n > 0 && delayMs.Some? then delayMs.value else 0
  {
    if n > 0 && delayMs.Some? {
      assert n * delayMs.value == (n - 1) * delayMs.value + delayMs.value;
    }
  }

  function End(sent: nat, total: nat): nat {
    if sent + TYPE_UNITS_PER_BATCH < total then sent + TYPE_UNITS_PER_BATCH else total
  }

  lemma NextBatch(units: seq<nat>, n: nat, sent: nat, log: seq<Attempt>)
    requires sent == Start(|units|, n) < |units|
    ensures n < Batches(|units|) && sent == n * TYPE_UNITS_PER_BATCH
    ensures Start(|units|, n + 1) == End(sent, |units|) && units[sent..End(sent, |units|)] == Batch(units, n)
    ensures var one := Attempt(Events(Batch(units, n)), None, true);
      Sent(units, n + 1) == Sent(units, n) + [one] && log + Sent(units, n + 1) == (log + Sent(units, n)) + [one]
  {
    BatchCount(|units|, n);
    SentNext(units, n);
    Grouped(log, Sent(units, n), [Attempt(Events(Batch(units, n)), None, true)]);
  }

  /** The pause before a batch that is not the first moves the deadline by as much. */
  method Pace(session: Session, first: bool, delayMs: Option<nat>, deadline: nat) returns (moved: nat)
    modifies session`slept, session`naps, session`now
    ensures session.slept == old(session.slept) + if first || delayMs == None then 0 else delayMs.value
    ensures moved == deadline + (session.slept - old(session.slept)) * NS_PER_MS
  {
    moved := deadline;
    if !first && delayMs.Some? {
      session.Sleep(delayMs.value);
      moved := deadline + delayMs.value * NS_PER_MS;
    }
  }

  /** When batch `k` is no longer sent: the budget after the start, and the pauses so far. */
  function Deadline(start: nat, k: nat, delayMs: Option<nat>): nat {
    start + INPUT_SEND_TIMEOUT_NS + PacingMs(k + 1, delayMs) * NS_PER_MS
  }

  /** Each of these sends began before its deadline. */
  predicate InTime(began: seq<nat>, start: nat, delayMs: Option<nat>) {
    forall k :: 0 <= k < |began| ==> began[k] < Deadline(start, k, delayMs)
  }

  /** Types the text; `n` batches are acknowledged, and `began` is when each send began: before
      its deadline. Once a deadline has passed the call gives up. */
  method SendText(session: Session, units: seq<nat>, delayMs: Option<nat>)
      returns (r: Outcome, ghost n: nat, ghost began: seq<nat>)
    modifies session
    ensures InTime(began, old(session.now), delayMs)
    ensures |began| == if r.SendFailed? then n + 1 else n
    ensures r == Typed <==> n == Batches(|units|)
    ensures r.TimedOut? <==> n < Batches(|units|) && |began| == n && session.now >= Deadline(old(session.now), n, delayMs)
    ensures r == Typed ==>
      && session.log == old(session.log) + Sent(units, n)
      && session.slept == old(session.slept) + PacingMs(n, delayMs)
    ensures r.TimedOut? ==>
      && n < Batches(|units|) && r.sent == n * TYPE_UNITS_PER_BATCH && r.total == |units|
      && session.log == old(session.log) + Sent(units, n)
      && session.slept == old(session.slept) + PacingMs(n + 1, delayMs)
      && r.budgetNs == 15_000_000_000 + (session.slept - old(session.slept)) * 1_000_000
      && session.now >= old(session.now) + r.budgetNs
    ensures r.SendFailed? ==>
      && n < Batches(|units|)
      && session.log == old(session.log) + Sent(units, n) +
           [Attempted(Events(Batch(units, n)), session.fates, |old(session.log)| + n)]
      && Some(r.error) == session.fates(|old(session.log)| + n).Failure()
      && session.slept == old(session.slept) + PacingMs(n + 1, delayMs)
  {
    var startedAt := session.now;
    var deadline := startedAt + INPUT_SEND_TIMEOUT_NS;
    var first := true;
    var sent := 0;
    n, began := 0, [];
    ghost var log, slept, done := session.log, session.slept, [];
    while sent < |units|
      invariant sent == Start(|units|, n) && (first <==> n == 0) && |began| == n
      invariant done == Sent(units, n) && session.log == log + done
      invariant session.slept == slept + PacingMs(n, delayMs)
      invariant deadline == startedAt + INPUT_SEND_TIMEOUT_NS + (session.slept - slept) * NS_PER_MS
      invariant n <= Batches(|units|) && InTime(began, startedAt, delayMs)
    {
      NextBatch(units, n, sent, log);
      PacingMore(n, delayMs);
      deadline := Pace(session, first, delayMs, deadline);
      assert deadline == Deadline(startedAt, n, delayMs);
      first := false;
      if session.now >= deadline {
        return TimedOut(deadline - startedAt, sent, |units|), n, began;
      }
      began := began + [session.now];
      var chunk := units[sent..End(sent, |units|)];
      var events := UnicodeKeyEvents(chunk);
      var e := session.Send(events);
      if e.Some? {
        return SendFailed(e.value), n, began;
      }
      sent := sent + |chunk|;
      done := done + [Attempt(Events(chunk), None, true)];
      n := n + 1;
    }
    BatchCount(|units|, n);
    r := Typed;
  }

  // ---------------------------------------------------------------- the cost of typing

  /** The estimate is what typing sleeps, whatever the text: capped by 64-bit saturation, and
      exactly whenever the request is admitted. */
  lemma EstimateIsExact(units: seq<nat>, delayMs: Option<nat>)
    ensures TypeHoldMs(|units|, delayMs) == Saturate(PacingMs(Batches(|units|), delayMs))
    ensures Validate(Type(units, delayMs)) == None <==> PacingMs(Batches(|units|), delayMs) <= PRESS_SEQ_MAX_MS
  {
  }

  /** Nor does a call that ends early sleep longer. */
  lemma PacingGrows(m: nat, n: nat, delayMs: Option<nat>)
    requires m <= n
    ensures PacingMs(m, delayMs) <= PacingMs(n, delayMs)
  {
    if m > 0 && delayMs.Some? {
      assert (m - 1) * delayMs.value <= (n - 1) * delayMs.value;
    }
  }

  datatype Reply = Done | NotConnected | Failed(outcome: Outcome)

  /** Handles a request to type. Nothing here asks `Validate`: every text is typed, with the
      pacing asked for, however long that takes. */
  method HandleType(session: Session?, units: seq<nat>, delayMs: Option<nat>) returns (r: Reply)
    modifies session
    ensures r == NotConnected <==> session == null
    ensures session != null && r == Done ==>
      && session.log == old(session.log) + Sent(units, Batches(|units|))
      && session.slept == old(session.slept) + PacingMs(Batches(|units|), delayMs)
    ensures session != null && |units| == 65 && delayMs == Some(3_600_000) && r == Done ==>
      && Validate(Type(units, delayMs)) == Some(HoldsTooLong(3_600_000))
      && session.slept == old(session.slept) + 3_600_000
    ensures session != null && r.Failed? ==> exists n: nat ::
      && n < Batches(|units|) && session.slept == old(session.slept) + PacingMs(n + 1, delayMs)
      && match r.outcome
         case Typed => false
         case TimedOut(budgetNs, sent, total) =>
           && sent == n * TYPE_UNITS_PER_BATCH && total == |units|
           && session.log == old(session.log) + Sent(units, n) && session.now >= old(session.now) + budgetNs
         case SendFailed(error) =>
           && session.fates(|old(session.log)| + n).Failure() == Some(error)
           && |session.log| == |old(session.log)| + n + 1
  {
    if session == null {
      return NotConnected;
    }
    var outcome, n, began := SendText(session, units, delayMs);
    if |units| == 65 {
      AnHourOfTyping(units);
    }
    r := if outcome == Typed then Done else Failed(outcome);
  }

  /** 65 units an hour apart are two batches, an hour of sleep that the limit does not allow. */
  lemma AnHourOfTyping(units: seq<nat>)
    requires |units| == 65
    ensures PacingMs(Batches(|units|), Some(3_600_000)) == 3_600_000 > PRESS_SEQ_MAX_MS
    ensures Validate(Type(units, Some(3_600_000))) == Some(HoldsTooLong(3_600_000))
  {
  }
}
