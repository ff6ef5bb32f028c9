/**
 The keep-alive of the frame processor: a Client Refresh Rect PDU (section 2.2.11.2 of
 MS-RDPBCGR) sent every period, and the verdict that a server which used to answer them
 has gone silent. The processor decides from a handful of flags; what they decide is
 stated here about everything that happened.
 */
module KeepAlive {
  import opened Wrappers

  const U32_MAX: nat := 0xFFFF_FFFF
  const MISSED_LIMIT: nat := 3

  // Clock readings are in nanoseconds.
  const ANSWER_WINDOW: int := 2_000_000_000

  datatype Written = Sent | Failed | NotEncoded

  /** What the select loop can be woken by. */
  datatype Event =
    | Tick(at: int, result: Written)      // the keep-alive timer
    | Inbound(at: int, stamped: int)      // a PDU; `stamped` is when it was recorded
    | Traffic                             // a command, a clipboard message, DVC data
  {
    predicate Sends() { Tick? && result.Sent? }
  }

  // ---------------------------------------------------------------- what happened

  /** The latest refresh sent. */
  function LastSend(h: seq<Event>): (j: Option<nat>)
    ensures j.Some? ==> j.value < |h| && h[j.value].Sends()
    ensures forall i :: 0 <= i < |h| && h[i].Sends() ==> j.Some? && i <= j.value
  {
    if h == [] then None
    else if h[|h| - 1].Sends() then Some(|h| - 1)
    else LastSend(h[..|h| - 1])
  }

  /** A PDU was recorded after the refresh `j` went out. */
  ghost predicate AnsweredAfter(h: seq<Event>, j: nat)
    requires j < |h| && h[j].Tick?
  {
    exists i :: j < i < |h| && h[i].Inbound? && h[i].stamped > h[j].at
  }

  /** The first PDU after the refresh `j` came within two seconds, the answer window. */
  ghost predicate PromptlyAfter(h: seq<Event>, j: nat)
    requires j < |h| && h[j].Tick?
  {
    exists i :: j < i < |h| && h[i].Inbound? && h[i].at - h[j].at <= 2_000_000_000
             && (forall k :: j < k < i ==> !h[k].Inbound?)
  }

  predicate QuietAfter(h: seq<Event>, j: int) {
    forall i :: 0 <= i < |h| && j < i ==> !h[i].Traffic?
  }

  /** The refresh sent at `k` found the one before it unanswered. */
  ghost predicate Unanswered(h: seq<Event>, k: nat)
    requires k < |h|
  {
    var j := LastSend(h[..k]);
    h[k].Sends() && j.Some? && !AnsweredAfter(h[..k], j.value)
  }

  /** The refresh sent at `k` found the one before it answered promptly on a quiet link. */
  ghost predicate Evidence(h: seq<Event>, k: nat)
    requires k < |h|
  {
    var j := LastSend(h[..k]);
    h[k].Sends() && j.Some? && PromptlyAfter(h[..k], j.value) && QuietAfter(h[..k], j.value)
  }

  /** `a` and `b` are sends with none in between. */
  predicate Consecutive(h: seq<Event>, a: nat, b: nat) {
    a < b < |h| && h[a].Sends() && h[b].Sends() && forall i :: a < i < b ==> !h[i].Sends()
  }

  /** The last three refreshes sent, the one at `k` included, were all unanswered. */
  ghost predicate ThreeUnanswered(h: seq<Event>, k: nat)
    requires k < |h|
  {
    exists a: nat, b: nat ::
      Consecutive(h, a, b) && Consecutive(h, b, k) && Unanswered(h, a) && Unanswered(h, b) && Unanswered(h, k)
  }

  /** The server has gone silent: evidence at some send so far, and three in a row
      unanswered up to this one. */
  ghost predicate Silent(h: seq<Event>) {
    && h != [] && ThreeUnanswered(h, |h| - 1)
    && exists k :: 0 <= k < |h| && Evidence(h, k)
  }

  /** The last three attempts to write a refresh, this one included, failed; attempts
      that could not be encoded do not count either way. */
  function FailedRun(h: seq<Event>): nat {
    if h == [] then 0
    else if h[|h| - 1].Tick? && h[|h| - 1].result.Failed? then FailedRun(h[..|h| - 1]) + 1
    else if h[|h| - 1].Sends() then 0
    else FailedRun(h[..|h| - 1])
  }

  predicate Unwritable(h: seq<Event>) {
    h != [] && h[|h| - 1].Tick? && h[|h| - 1].result.Failed? && FailedRun(h) >= MISSED_LIMIT
  }

  /** The latest clock reading. */
  function Clock(h: seq<Event>, start: int): int {
    if h == [] then start
    else
      match h[|h| - 1]
      case Tick(at, _) => at
      case Inbound(_, stamped) => stamped
      case Traffic => Clock(h[..|h| - 1], start)
  }

  /** `e` comes no earlier than anything in `h`. */
  predicate Follows(h: seq<Event>, start: int, e: Event) {
    match e
    case Tick(at, _) => Clock(h, start) <= at
    case Inbound(at, stamped) => Clock(h, start) <= at <= stamped
    case Traffic => true
  }

  /** The monotonic clock never goes back. */
  predicate Monotone(h: seq<Event>, start: int) {
    h != [] ==> Monotone(h[..|h| - 1], start) && Follows(h[..|h| - 1], start, h[|h| - 1])
  }

  lemma {:induction false} ClockBounds(h: seq<Event>, start: int)
    requires Monotone(h, start)
    ensures start <= Clock(h, start)
    ensures forall i :: 0 <= i < |h| && h[i].Tick? ==> h[i].at <= Clock(h, start)
    ensures forall i :: 0 <= i < |h| && h[i].Inbound? ==> h[i].stamped <= Clock(h, start)
    decreases |h|
  {
    if h != [] {
      var p := h[..|h| - 1];
      ClockBounds(p, start);
      assert forall i :: 0 <= i < |p| ==> p[i] == h[i];
    }
  }

  lemma {:induction false} MonotonePrefix(h: seq<Event>, start: int, n: nat)
    requires Monotone(h, start) && n <= |h|
    ensures Monotone(h[..n], start)
    decreases |h|
  {
    if n < |h| {
      MonotonePrefix(h[..|h| - 1], start, n);
      assert h[..|h| - 1][..n] == h[..n];
    } else {
      assert h[..n] == h;
    }
  }

  // ---------------------------------------------------------------- trailing runs

  /** Refreshes unanswered in a row, up to the latest. */
  ghost function UnansweredRun(h: seq<Event>): nat {
    if h == [] then 0
    else if !h[|h| - 1].Sends() then UnansweredRun(h[..|h| - 1])
    else if Unanswered(h, |h| - 1) then UnansweredRun(h[..|h| - 1]) + 1
    else 0
  }

  ghost predicate Armed(h: seq<Event>) { exists k :: 0 <= k < |h| && Evidence(h, k) }

  lemma ArmedExtends(h: seq<Event>, e: Event)
    ensures Armed(h + [e]) <==> Armed(h) || Evidence(h + [e], |h|)
  {
    var g := h + [e];
    forall k | 0 <= k < |h| ensures Evidence(g, k) == Evidence(h, k) && g[..k] == h[..k] {
      assert g[..k] == h[..k];
    }
  }

  /** Prefixes agree on which sends were unanswered. */
  lemma UnansweredInPrefix(h: seq<Event>, n: nat, k: nat)
    requires k < n <= |h|
    ensures Unanswered(h[..n], k) == Unanswered(h, k)
  {
    assert h[..n][..k] == h[..k];
  }

  /** A positive run is the latest send, unanswered, on top of a run before it. */
  lemma {:induction false} RunStep(h: seq<Event>)
    requires UnansweredRun(h) > 0
    ensures LastSend(h).Some?
    ensures var k := LastSend(h).value; Unanswered(h, k) && UnansweredRun(h[..k]) == UnansweredRun(h) - 1
    decreases |h|
  {
    if !h[|h| - 1].Sends() {
      var p := h[..|h| - 1];
      RunStep(p);
      var k := LastSend(p).value;
      assert p[..k] == h[..k];
      UnansweredInPrefix(h, |p|, k);
    }
  }

  lemma {:induction false} RunCounts(h: seq<Event>)
    requires LastSend(h).Some?
    ensures var k := LastSend(h).value;
      UnansweredRun(h) == if Unanswered(h, k) then UnansweredRun(h[..k]) + 1 else 0
    decreases |h|
  {
    if !h[|h| - 1].Sends() {
      var p := h[..|h| - 1];
      RunCounts(p);
      var k := LastSend(p).value;
      assert p[..k] == h[..k];
      UnansweredInPrefix(h, |p|, k);
    }
  }

  lemma RunBelow(h: seq<Event>, a: nat, b: nat)
    requires Consecutive(h, a, b)
    ensures LastSend(h[..b]) == Some(a)
    ensures UnansweredRun(h[..b]) == if Unanswered(h, a) then UnansweredRun(h[..a]) + 1 else 0
  {
    var p := h[..b];
    assert p[a] == h[a];
    RunCounts(p);
    assert p[..a] == h[..a];
    UnansweredInPrefix(h, b, a);
  }

  lemma LastSendIsConsecutive(h: seq<Event>, b: nat)
    requires b < |h| && h[b].Sends() && LastSend(h[..b]).Some?
    ensures Consecutive(h, LastSend(h[..b]).value, b)
  {
    forall i | LastSend(h[..b]).value < i < b ensures !h[i].Sends() {
      assert h[..b][i] == h[i];
    }
  }

  /** A trailing run of three is three consecutive unanswered sends. */
  lemma RunOfThree(h: seq<Event>)
    requires h != [] && h[|h| - 1].Sends() && UnansweredRun(h) >= 3
    ensures ThreeUnanswered(h, |h| - 1)
  {
    var k := |h| - 1;
    var b := LastSend(h[..k]).value;
    LastSendIsConsecutive(h, k);
    RunBelow(h, b, k);
    RunStep(h[..b]);
    var a := LastSend(h[..b]).value;
    LastSendIsConsecutive(h, b);
    RunBelow(h, a, b);
  }

  lemma ThreeMakeARun(h: seq<Event>)
    requires h != [] && h[|h| - 1].Sends() && ThreeUnanswered(h, |h| - 1)
    ensures UnansweredRun(h) >= 3
  {
    var k := |h| - 1;
    var a: nat, b: nat :|
      Consecutive(h, a, b) && Consecutive(h, b, k) && Unanswered(h, a) && Unanswered(h, b) && Unanswered(h, k);
    RunBelow(h, a, b);
    RunBelow(h, b, k);
  }

  /** An unanswered refresh: what has been recorded by then was recorded no later than the
      refresh it found unanswered, and after that one only at its very clock reading. */
  lemma NothingSince(h: seq<Event>, start: int, a: nat, b: nat, i: nat)
    requires Monotone(h, start)
    requires Consecutive(h, a, b) && Unanswered(h, b) && i < b && h[i].Inbound?
    ensures h[i].stamped <= h[a].at && (i > a ==> h[i].stamped == h[a].at)
  {
    RunBelow(h, a, b);
    assert h[..b][i] == h[i] && h[..b][a] == h[a];
    if i < a {
      MonotonePrefix(h, start, a + 1);
      assert h[..a + 1][..a] == h[..a];
      ClockBounds(h[..a], start);
      assert h[..a][i] == h[i];
    } else {
      MonotonePrefix(h, start, i + 1);
      assert h[..i + 1][..i] == h[..i];
      ClockBounds(h[..i], start);
      assert h[..i][a] == h[a];
    }
  }

  /** The PDU carries the very clock reading of a refresh sent before it arrived. */
  ghost predicate Tied(h: seq<Event>, i: nat)
    requires i < |h| && h[i].Inbound?
  {
    exists j :: 0 <= j < i && h[j].Sends() && h[j].at == h[i].stamped
  }

  lemma NoneUntied(h: seq<Event>, start: int, a: nat, b: nat, i: nat)
    requires Monotone(h, start) && Consecutive(h, a, b) && Unanswered(h, b)
    requires i < b && h[i].Inbound? && !Tied(h, i)
    ensures i < a && h[i].stamped <= h[a].at
  {
    NothingSince(h, start, a, b, i);
    assert h[a].Sends();
  }

  /** If refreshes go out at least `period` apart, then by the time the verdict falls no
      PDU has been recorded for three periods - but for one that carries the very clock
      reading of a refresh sent before it, which the strict comparison takes for older. */
  lemma SilentForThreePeriods(h: seq<Event>, start: int, period: int, i: nat)
    requires Silent(h) && Monotone(h, start) && i < |h| && h[i].Inbound?
    requires forall a: nat, b: nat :: Consecutive(h, a, b) ==> h[b].at - h[a].at >= period
    ensures h[i].stamped <= h[|h| - 1].at - 3 * period || Tied(h, i)
  {
    var k := |h| - 1;
    var a: nat, b: nat :|
      Consecutive(h, a, b) && Consecutive(h, b, k) && Unanswered(h, a) && Unanswered(h, b) && Unanswered(h, k);
    var z := LastSend(h[..a]).value;
    LastSendIsConsecutive(h, a);
    if !Tied(h, i) {
      NoneUntied(h, start, b, k, i);
      NoneUntied(h, start, a, b, i);
      NoneUntied(h, start, z, a, i);
    }
  }

  /** Such a PDU is not seen: it arrives right after a refresh, and the next refresh still
      counts that one as unanswered. */
  lemma TiedIsNotAnAnswer(h: seq<Event>, at: int, later: int)
    requires h == [Tick(at, Sent), Inbound(at, at), Tick(later, Sent)]
    ensures Unanswered(h, 2) && Tied(h, 1)
  {
    assert h[..2] == [Tick(at, Sent), Inbound(at, at)];
    assert h[..2][..1] == [Tick(at, Sent)];
    assert LastSend(h[..2]) == Some(0);
    assert h[0].Sends() && h[0].at == h[1].stamped;
  }

  // ---------------------------------------------------------------- the watch

  function SaturatingInc(n: nat): nat { if n < U32_MAX then n + 1 else U32_MAX }

  function AtMostMax(n: nat): nat { if n < U32_MAX then n else U32_MAX }

  class KeepAliveWatch {
    var unanswered: nat
    var armed: bool
    var sendFailures: nat

    constructor ()
      ensures unanswered == 0 && !armed && sendFailures == 0
    {
      unanswered, armed, sendFailures := 0, false, 0;
    }

    method RecordSend(answered: bool, prompt: bool) returns (dead: bool)
      modifies this
      ensures unanswered == if answered then 0 else SaturatingInc(old(unanswered))
      ensures armed == (old(armed) || prompt) && sendFailures == 0
      ensures dead <==> armed && unanswered >= MISSED_LIMIT
    {
      if answered {
        unanswered := 0;
      } else {
        unanswered := SaturatingInc(unanswered);
      }
      if prompt {
        armed := true;
      }
      sendFailures := 0;
      dead := armed && unanswered >= MISSED_LIMIT;
    }

    method RecordSendFailure() returns (dead: bool)
      modifies this`sendFailures
      ensures sendFailures == SaturatingInc(old(sendFailures))
      ensures dead <==> sendFailures >= MISSED_LIMIT
    {
      sendFailures := SaturatingInc(sendFailures);
      dead := sendFailures >= MISSED_LIMIT;
    }
  }

  // ---------------------------------------------------------------- the loop's flags

  datatype Flags = Flags(
    lastSentAt: Option<int>,
    clientSent: bool,
    awaiting: Option<int>,
    prompt: bool,
    lastFrameAt: int)

  function LastFrame(h: seq<Event>, start: int): int {
    if h == [] then start
    else if h[|h| - 1].Inbound? then h[|h| - 1].stamped
    else LastFrame(h[..|h| - 1], start)
  }

  ghost predicate InboundAfter(h: seq<Event>, j: nat) { exists i :: j < i < |h| && h[i].Inbound? }

  /** What each flag of the loop says about everything that happened. */
  ghost predicate Mean(f: Flags, h: seq<Event>, start: int) {
    && f.lastFrameAt == LastFrame(h, start)
    && match LastSend(h)
       case None =>
         f.lastSentAt.None? && f.awaiting.None? && !f.prompt && f.clientSent == !QuietAfter(h, -1)
       case Some(j) =>
         && f.lastSentAt == Some(h[j].at)
         && f.clientSent == !QuietAfter(h, j)
         && f.awaiting == (if InboundAfter(h, j) then None else Some(h[j].at))
         && f.prompt == PromptlyAfter(h, j)
  }

  /** The latest recorded PDU is later than the refresh `j` exactly if some PDU since is. */
  lemma {:induction false} LastFrameTells(h: seq<Event>, start: int, j: nat)
    requires Monotone(h, start) && j < |h| && h[j].Sends()
    ensures LastFrame(h, start) > h[j].at <==> AnsweredAfter(h, j)
    decreases |h|
  {
    var p, e := h[..|h| - 1], h[|h| - 1];
    if e.Inbound? {
      ClockBounds(p, start);
      if AnsweredAfter(h, j) {
        var i :| j < i < |h| && h[i].Inbound? && h[i].stamped > h[j].at;
        if i < |p| { assert p[i] == h[i]; }
      }
    } else if j == |h| - 1 {
      ClockBounds(p, start);
      FrameBefore(p, start, h[j].at);
    } else {
      LastFrameTells(p, start, j);
      if i :| j < i < |h| && h[i].Inbound? && h[i].stamped > h[j].at {
        assert p[i] == h[i];
      }
      if i :| j < i < |p| && p[i].Inbound? && p[i].stamped > p[j].at {
        assert h[i] == p[i];
      }
    }
  }

  lemma {:induction false} FrameBefore(h: seq<Event>, start: int, at: int)
    requires start <= at && forall i :: 0 <= i < |h| && h[i].Inbound? ==> h[i].stamped <= at
    ensures LastFrame(h, start) <= at
    decreases |h|
  {
    if h != [] {
      FrameBefore(h[..|h| - 1], start, at);
    }
  }

  /** At a send, the two questions the loop asks its flags are the two questions about
      the history. */
  lemma FlagsDecide(f: Flags, h: seq<Event>, start: int, e: Event)
    requires Mean(f, h, start) && Monotone(h, start) && e.Sends()
    ensures Unanswered(h + [e], |h|) <==> f.lastSentAt.Some? && f.lastFrameAt <= f.lastSentAt.value
    ensures Evidence(h + [e], |h|) <==> f.lastSentAt.Some? && !f.clientSent && f.prompt
  {
    assert (h + [e])[..|h|] == h;
    if LastSend(h).Some? {
      LastFrameTells(h, start, LastSend(h).value);
    }
  }

  /** What one more event does to each of the things the flags stand for. */
  lemma QuietExtends(h: seq<Event>, e: Event, j: int)
    requires j < |h|
    ensures QuietAfter(h + [e], j) <==> QuietAfter(h, j) && !e.Traffic?
  {
    var g := h + [e];
    assert forall i :: 0 <= i < |h| ==> g[i] == h[i];
    assert g[|h|] == e;
    if QuietAfter(g, j) {
      forall i | 0 <= i < |h| && j < i
        ensures !h[i].Traffic?
      {
        assert !g[i].Traffic?;
      }
    }
  }

  lemma InboundExtends(h: seq<Event>, e: Event, j: nat)
    requires j < |h|
    ensures InboundAfter(h + [e], j) <==> InboundAfter(h, j) || e.Inbound?
  {
    var g := h + [e];
    if i :| j < i < |h| && h[i].Inbound? {
      assert g[i].Inbound?;
    }
    if e.Inbound? {
      assert g[|h|].Inbound?;
    }
    if i :| j < i < |g| && g[i].Inbound? {
      assert i < |h| ==> h[i].Inbound?;
    }
  }

  lemma LatestExtends(h: seq<Event>, e: Event, start: int)
    ensures LastSend(h + [e]) == if e.Sends() then Some(|h|) else LastSend(h)
    ensures LastFrame(h + [e], start) == if e.Inbound? then e.stamped else LastFrame(h, start)
    ensures LastSend(h).Some? ==> (h + [e])[LastSend(h).value] == h[LastSend(h).value]
  {
    assert (h + [e])[..|h|] == h;
  }

  lemma PromptExtends(h: seq<Event>, e: Event, j: nat)
    requires j < |h| && h[j].Tick?
    ensures PromptlyAfter(h + [e], j) <==>
      PromptlyAfter(h, j) || (e.Inbound? && !InboundAfter(h, j) && e.at - h[j].at <= ANSWER_WINDOW)
  {
    var g := h + [e];
    assert forall i :: 0 <= i < |h| ==> g[i] == h[i];
    if i :| j < i < |h| && h[i].Inbound? && h[i].at - h[j].at <= ANSWER_WINDOW && (forall k :: j < k < i ==> !h[k].Inbound?) {
      assert g[i].Inbound?;
    } else if e.Inbound? && !InboundAfter(h, j) {
      assert g[|h|].Inbound?;
    }
  }

  lemma Extends(h: seq<Event>, e: Event, start: int)
    requires !e.Sends()
    ensures LastFrame(h + [e], start) == if e.Inbound? then e.stamped else LastFrame(h, start)
    ensures LastSend(h + [e]) == LastSend(h)
    ensures var j: int := if LastSend(h).Some? then LastSend(h).value else -1;
      QuietAfter(h + [e], j) <==> QuietAfter(h, j) && !e.Traffic?
    ensures LastSend(h).Some? ==>
      var j := LastSend(h).value;
      && (h + [e])[j] == h[j]
      && (InboundAfter(h + [e], j) <==> InboundAfter(h, j) || e.Inbound?)
      && (PromptlyAfter(h + [e], j) <==>
           PromptlyAfter(h, j) || (e.Inbound? && !InboundAfter(h, j) && e.at - h[j].at <= ANSWER_WINDOW))
  {
    LatestExtends(h, e, start);
    if LastSend(h).Some? {
      var j := LastSend(h).value;
      QuietExtends(h, e, j);
      InboundExtends(h, e, j);
      PromptExtends(h, e, j);
    } else {
      QuietExtends(h, e, -1);
    }
  }

  lemma AfterSend(f: Flags, h: seq<Event>, start: int, e: Event)
    requires Mean(f, h, start) && e.Sends()
    ensures Mean(Flags(Some(e.at), false, Some(e.at), false, f.lastFrameAt), h + [e], start)
  {
    LatestExtends(h, e, start);
  }

  lemma AfterFailedTick(f: Flags, h: seq<Event>, start: int, e: Event)
    requires Mean(f, h, start) && e.Tick? && !e.Sends()
    ensures Mean(f, h + [e], start)
  {
    Extends(h, e, start);
  }

  lemma AfterTraffic(f: Flags, h: seq<Event>, start: int)
    requires Mean(f, h, start)
    ensures Mean(f.(clientSent := true), h + [Traffic], start)
  {
    Extends(h, Traffic, start);
  }

  lemma AfterInbound(f: Flags, h: seq<Event>, start: int, e: Event)
    requires Mean(f, h, start) && e.Inbound?
    ensures
      var prompt := f.prompt || (f.awaiting.Some? && e.at - f.awaiting.value <= ANSWER_WINDOW);
      Mean(f.(awaiting := None, prompt := prompt, lastFrameAt := e.stamped), h + [e], start)
  {
    Extends(h, e, start);
  }

  datatype Verdict = Alive | SilentServer | DeadTransport

  ghost function Judge(h: seq<Event>): Verdict {
    if Silent(h) then SilentServer else if Unwritable(h) then DeadTransport else Alive
  }

  /** What a send adds to the counts behind the verdict. */
  lemma SendCounts(h: seq<Event>, e: Event)
    requires e.Sends()
    ensures UnansweredRun(h + [e]) == if Unanswered(h + [e], |h|) then UnansweredRun(h) + 1 else 0
    ensures FailedRun(h + [e]) == 0
    ensures Silent(h + [e]) <==> Armed(h + [e]) && UnansweredRun(h + [e]) >= 3
  {
    var g := h + [e];
    assert g[..|h|] == h;
    if UnansweredRun(g) >= 3 {
      RunOfThree(g);
    }
    if ThreeUnanswered(g, |h|) {
      ThreeMakeARun(g);
    }
  }

  /** The whole of what the processor keeps, against the history. */
  ghost predicate Tracks(f: Flags, unanswered: nat, armed: bool, failures: nat, h: seq<Event>, start: int) {
    && Monotone(h, start)
    && Mean(f, h, start)
    && unanswered == AtMostMax(UnansweredRun(h))
    && armed == Armed(h)
    && failures == AtMostMax(FailedRun(h))
  }

  lemma TracksSend(f: Flags, unanswered: nat, armed: bool, failures: nat, h: seq<Event>, start: int, at: int)
    requires Tracks(f, unanswered, armed, failures, h, start) && Follows(h, start, Tick(at, Sent))
    ensures
      var answered := f.lastSentAt.None? || f.lastFrameAt > f.lastSentAt.value;
      var promptly := f.lastSentAt.Some? && !f.clientSent && f.prompt;
      var u := if answered then 0 else SaturatingInc(unanswered);
      var g := h + [Tick(at, Sent)];
      && Tracks(Flags(Some(at), false, Some(at), false, f.lastFrameAt), u, armed || promptly, 0, g, start)
      && Judge(g) == if (armed || promptly) && u >= MISSED_LIMIT then SilentServer else Alive
  {
    var e := Tick(at, Sent);
    assert (h + [e])[..|h|] == h;
    FlagsDecide(f, h, start, e);
    SendCounts(h, e);
    ArmedExtends(h, e);
    AfterSend(f, h, start, e);
  }

  lemma TracksFailedTick(f: Flags, unanswered: nat, armed: bool, failures: nat, h: seq<Event>, start: int, e: Event)
    requires Tracks(f, unanswered, armed, failures, h, start) && Follows(h, start, e) && e.Tick? && !e.Sends()
    ensures
      var n := if e.result.Failed? then SaturatingInc(failures) else failures;
      && Tracks(f, unanswered, armed, n, h + [e], start)
      && Judge(h + [e]) == if e.result.Failed? && n >= MISSED_LIMIT then DeadTransport else Alive
  {
    assert (h + [e])[..|h|] == h;
    ArmedExtends(h, e);
    AfterFailedTick(f, h, start, e);
  }

  lemma TracksInbound(f: Flags, unanswered: nat, armed: bool, failures: nat, h: seq<Event>, start: int, e: Event)
    requires Tracks(f, unanswered, armed, failures, h, start) && Follows(h, start, e) && e.Inbound?
    ensures
      var prompt := f.prompt || (f.awaiting.Some? && e.at - f.awaiting.value <= ANSWER_WINDOW);
      && Tracks(f.(awaiting := None, prompt := prompt, lastFrameAt := e.stamped), unanswered, armed, failures, h + [e], start)
      && Judge(h + [e]) == Alive
  {
    assert (h + [e])[..|h|] == h;
    ArmedExtends(h, e);
    AfterInbound(f, h, start, e);
  }

  lemma TracksTraffic(f: Flags, unanswered: nat, armed: bool, failures: nat, h: seq<Event>, start: int)
    requires Tracks(f, unanswered, armed, failures, h, start)
    ensures Tracks(f.(clientSent := true), unanswered, armed, failures, h + [Traffic], start)
    ensures Judge(h + [Traffic]) == Alive
  {
    assert (h + [Traffic])[..|h|] == h;
    ArmedExtends(h, Traffic);
    AfterTraffic(f, h, start);
  }

  class FrameProcessor {
    const watch: KeepAliveWatch
    var lastSentAt: Option<int>
    var clientSent: bool
    var awaiting: Option<int>
    var prompt: bool
    var lastFrameAt: int

    ghost const start: int
    ghost var history: seq<Event>

    function View(): Flags
      reads this
    {
      Flags(lastSentAt, clientSent, awaiting, prompt, lastFrameAt)
    }

    ghost predicate Valid()
      reads this, watch
    {
      Tracks(View(), watch.unanswered, watch.armed, watch.sendFailures, history, start)
    }

    constructor (now: int)
      ensures Valid() && history == [] && start == now && fresh(watch)
    {
      watch := new KeepAliveWatch();
      lastSentAt, clientSent, awaiting, prompt, lastFrameAt := None, false, None, false, now;
      start := now;
      history := [];
    }

    /** The keep-alive arm of the select loop. */
    method OnTick(at: int, result: Written) returns (verdict: Verdict)
      requires Valid() && Follows(history, start, Tick(at, result))
      modifies this, watch
      ensures Valid() && history == old(history) + [Tick(at, result)]
      ensures verdict == Judge(history)
      ensures verdict == SilentServer <==> Silent(history)
      ensures verdict == DeadTransport <==> Unwritable(history)
    {
      if result.Sent? {
        verdict := OnSent(at);
      } else {
        verdict := OnUnsent(at, result);
      }
      SilentOrUnwritable(history);
    }

    method OnSent(at: int) returns (verdict: Verdict)
      requires Valid() && Follows(history, start, Tick(at, Sent))
      modifies this, watch
      ensures Valid() && history == old(history) + [Tick(at, Sent)]
      ensures verdict == Judge(history)
    {
      TracksSend(View(), watch.unanswered, watch.armed, watch.sendFailures, history, start, at);
      var answered := lastSentAt.None? || lastFrameAt > lastSentAt.value;
      var clientQuiet := lastSentAt.Some? && !clientSent;
      var promptly := clientQuiet && prompt;
      lastSentAt := Some(at);
      clientSent := false;
      prompt := false;
      awaiting := Some(at);
      var dead := watch.RecordSend(answered, promptly);
      verdict := if dead then SilentServer else Alive;
      history := history + [Tick(at, Sent)];
    }

    method OnUnsent(at: int, result: Written) returns (verdict: Verdict)
      requires Valid() && Follows(history, start, Tick(at, result)) && !result.Sent?
      modifies this, watch
      ensures Valid() && history == old(history) + [Tick(at, result)]
      ensures verdict == Judge(history)
    {
      verdict := Alive;
      TracksFailedTick(View(), watch.unanswered, watch.armed, watch.sendFailures, history, start, Tick(at, result));
      if result.Failed? {
        var dead := watch.RecordSendFailure();
        if dead {
          verdict := DeadTransport;
        }
      }
      history := history + [Tick(at, result)];
    }

    /** The read arm. */
    method OnInbound(at: int, stamped: int)
      requires Valid() && Follows(history, start, Inbound(at, stamped))
      modifies this
      ensures Valid() && history == old(history) + [Inbound(at, stamped)] && Judge(history) == Alive
    {
      TracksInbound(View(), watch.unanswered, watch.armed, watch.sendFailures, history, start, Inbound(at, stamped));
      if awaiting.Some? {
        if at - awaiting.value <= ANSWER_WINDOW {
          prompt := true;
        }
        awaiting := None;
      }
      lastFrameAt := stamped;
      history := history + [Inbound(at, stamped)];
    }

    /** The command, clipboard and DVC arms, as far as the keep-alive is concerned. */
    method OnTraffic()
      requires Valid()
      modifies this`clientSent, this`history
      ensures Valid() && history == old(history) + [Traffic] && Judge(history) == Alive
    {
      TracksTraffic(View(), watch.unanswered, watch.armed, watch.sendFailures, history, start);
      clientSent := true;
      history := history + [Traffic];
    }

    /** One turn of the select loop; the kill switch mutes the silence verdict. */
    method Handle(e: Event, silenceDropDisabled: bool) returns (verdict: Verdict)
      requires Valid() && Follows(history, start, e)
      modifies this, watch
      ensures Valid() && history == old(history) + [e]
      ensures verdict == Due(history, silenceDropDisabled)
      ensures verdict == SilentServer <==> Silent(history) && !silenceDropDisabled
      ensures verdict == DeadTransport <==> Unwritable(history)
    {
      verdict := Alive;
      match e {
        case Tick(at, result) => verdict := OnTick(at, result);
        case Inbound(at, stamped) => OnInbound(at, stamped);
        case Traffic => OnTraffic();
      }
      SilentOrUnwritable(history);
      if verdict.SilentServer? && silenceDropDisabled {
        verdict := Alive;
      }
    }
  }

  /** The two verdicts exclude each other. */
  lemma SilentOrUnwritable(h: seq<Event>)
    ensures !(Silent(h) && Unwritable(h))
  {
  }

  /** A verdict ends the session at the end of `h`. */
  ghost predicate Ends(h: seq<Event>, silenceDropDisabled: bool) { (Silent(h) && !silenceDropDisabled) || Unwritable(h) }

  ghost function Due(h: seq<Event>, silenceDropDisabled: bool): Verdict {
    if Judge(h).SilentServer? && silenceDropDisabled then Alive else Judge(h)
  }

  /** What is due after the first `n` wake-ups. */
  ghost function DueAt(trace: seq<Event>, n: nat, silenceDropDisabled: bool): Verdict
    requires n <= |trace|
  {
    if n == 0 then Alive else Due(trace[..n], silenceDropDisabled)
  }

  ghost predicate NothingDueBefore(trace: seq<Event>, n: nat, silenceDropDisabled: bool)
    requires n <= |trace|
  {
    forall k :: 0 <= k < n ==> DueAt(trace, k, silenceDropDisabled) == Alive
  }

  lemma NothingDueStill(trace: seq<Event>, n: nat, silenceDropDisabled: bool)
    requires n < |trace| && NothingDueBefore(trace, n, silenceDropDisabled)
    requires DueAt(trace, n, silenceDropDisabled) == Alive
    ensures NothingDueBefore(trace, n + 1, silenceDropDisabled)
  {
  }

  /** One refresh answered promptly on a quiet link and three in a row that found none: silent. */
  lemma SilentAfterThree(h: seq<Event>, p: int)
    requires p > ANSWER_WINDOW
    requires h == [Tick(0, Sent), Inbound(1, 1), Tick(p, Sent), Tick(2 * p, Sent), Tick(3 * p, Sent), Tick(4 * p, Sent)]
    ensures Silent(h) && !Silent(h[..5])
  {
    SendsFound(h, p);
    assert h[..2][1].Inbound? && h[..2][1].stamped > h[..2][0].at;
    assert Evidence(h, 2);
    assert Unanswered(h, 3) && Unanswered(h, 4) && Unanswered(h, 5);
    assert Consecutive(h, 3, 4) && Consecutive(h, 4, 5);
    assert ThreeUnanswered(h, 5);
    assert h[..5][..2] == h[..2];
    assert !Unanswered(h[..5], 2);
  }

  lemma SendsFound(h: seq<Event>, p: int)
    requires h == [Tick(0, Sent), Inbound(1, 1), Tick(p, Sent), Tick(2 * p, Sent), Tick(3 * p, Sent), Tick(4 * p, Sent)]
    ensures LastSend(h[..2]) == Some(0) && LastSend(h[..3]) == Some(2)
    ensures LastSend(h[..4]) == Some(3) && LastSend(h[..5]) == Some(4)
  {
  }

  /** Three writes in a row that fail: the transport is dead; two do not make it so. */
  lemma DeadAfterThree(h: seq<Event>, p: int)
    requires h == [Tick(0, Failed), Tick(p, Failed), Tick(2 * p, Failed)]
    ensures Unwritable(h) && !Unwritable(h[..2])
  {
    assert h[..2] == [Tick(0, Failed), Tick(p, Failed)] && h[..2][..1] == [Tick(0, Failed)] && h[..2][..1][..0] == [];
    assert FailedRun(h[..2][..1]) == 1;
  }

  lemma NothingEndedBefore(trace: seq<Event>, n: nat, silenceDropDisabled: bool)
    requires n <= |trace| && NothingDueBefore(trace, n, silenceDropDisabled)
    ensures forall k :: 0 < k < n ==> !Ends(trace[..k], silenceDropDisabled)
  {
    forall k | 0 < k < n
      ensures !Ends(trace[..k], silenceDropDisabled)
    {
      assert DueAt(trace, k, silenceDropDisabled) == Alive;
      SilentOrUnwritable(trace[..k]);
    }
  }

  /** The select loop over everything it is woken by: it ends at the first wake-up at
      which an unmuted verdict is due, with that verdict, and at no other. */
  method RunFrameProcessor(trace: seq<Event>, start: int, silenceDropDisabled: bool)
    returns (handled: nat, verdict: Verdict)
    requires Monotone(trace, start)
    ensures handled <= |trace|
    ensures verdict == SilentServer <==> handled > 0 && !silenceDropDisabled && Silent(trace[..handled])
    ensures verdict == DeadTransport <==> handled > 0 && Unwritable(trace[..handled])
    ensures verdict == Alive ==> handled == |trace|
    ensures forall k :: 0 < k < handled ==> !Ends(trace[..k], silenceDropDisabled)
  {
    var processor := new FrameProcessor(start);
    handled := 0;
    verdict := Alive;
    while handled < |trace| && verdict == Alive
      invariant 0 <= handled <= |trace|
      invariant fresh(processor) && fresh(processor.watch) && processor.Valid()
      invariant processor.history == trace[..handled] && processor.start == start
      invariant verdict == DueAt(trace, handled, silenceDropDisabled)
      invariant NothingDueBefore(trace, handled, silenceDropDisabled)
    {
      Next(trace, start, handled);
      NothingDueStill(trace, handled, silenceDropDisabled);
      verdict := processor.Handle(trace[handled], silenceDropDisabled);
      handled := handled + 1;
    }
    NothingEndedBefore(trace, handled, silenceDropDisabled);
    if handled > 0 {
      SilentOrUnwritable(trace[..handled]);
    }
  }

  lemma Next(trace: seq<Event>, start: int, n: nat)
    requires Monotone(trace, start) && n < |trace|
    ensures Follows(trace[..n], start, trace[n])
    ensures trace[..n + 1] == trace[..n] + [trace[n]]
  {
    MonotonePrefix(trace, start, n + 1);
    assert trace[..n + 1][..n] == trace[..n];
  }
}
