/**
 What the daemon remembers in order to reconnect by itself, and the rule that makes it
 give up on a host that accepts the session and drops it again.
 */
module AutoReconnect {
  import opened Wrappers

  const U32_MAX: nat := 0xFFFF_FFFF

  // Clock readings are in nanoseconds.
  const HEALTHY_SESSION: int := 120_000_000_000
  const MAX_SHORT_SESSIONS: nat := 5

  /** The retained connect request: only the opt-in matters here. */
  datatype Request = Request(autoReconnect: bool, target: string)

  function SaturatingInc(n: nat): (m: nat) {
    if n < U32_MAX then n + 1 else U32_MAX
  }

  /** The value of an `AutoReconnect` object. */
  datatype Auto = Auto(
    request: Option<Request>,
    enabled: bool,
    reconnects: nat,
    attempts: nat,
    lastAttemptError: Option<string>,
    outageBegan: Option<int>,
    nextAttemptAt: Option<int>,
    stoppedReason: Option<string>,
    shortSessions: nat,
    lastSuccess: Option<int>,
    inFlight: bool)
  {
    /** A reconnect succeeded less than `HEALTHY_SESSION` before `now`. A clock that
        went backwards says nothing, and nothing is not "short". */
    predicate Short(now: int) {
      lastSuccess.Some? && lastSuccess.value <= now && now - lastSuccess.value < HEALTHY_SESSION
    }

    predicate GivesUp(now: int) {
      Short(now) && SaturatingInc(shortSessions) >= MAX_SHORT_SESSIONS
    }

    function Outage(now: int): Auto {
      var noted := this.(shortSessions := if Short(now) then SaturatingInc(shortSessions) else 0);
      if GivesUp(now) then noted.Stop("repeated short sessions") else noted
    }

    function Success(now: int): Auto {
      this.(reconnects := SaturatingInc(reconnects), attempts := 0, nextAttemptAt := None,
            outageBegan := None, lastAttemptError := None, lastSuccess := Some(now))
    }

    function Remember(r: Request): Auto {
      this.(enabled := r.autoReconnect, request := Some(r), stoppedReason := None, attempts := 0,
            shortSessions := 0, lastSuccess := None, outageBegan := None, nextAttemptAt := None,
            inFlight := false)
    }

    function Stop(why: string): Auto { this.(nextAttemptAt := None, stoppedReason := Some(why)) }

    function StandDown(): Auto { this.(nextAttemptAt := None) }

    function Disarm(): Auto {
      this.(enabled := false, request := None, nextAttemptAt := None, outageBegan := None, attempts := 0)
    }
  }

  const FRESH := Auto(None, false, 0, 0, None, None, None, None, 0, None, false)

  // ---------------------------------------------------------------- history

  /** What happened to the object, as far as the give-up rule is concerned. */
  datatype Event =
    | Remembered           // a user connect succeeded
    | Succeeded(at: int)   // a reconnect succeeded
    | Dropped(at: int)     // an outage was noted
    | Other                // stop, stand-down, disarm, in-flight changes

  /** The latest reconnect since the last user connect. */
  function LatestSuccess(h: seq<Event>): Option<int> {
    if h == [] then None
    else
      match h[|h| - 1]
      case Succeeded(at) => Some(at)
      case Remembered => None
      case _ => LatestSuccess(h[..|h| - 1])
  }

  /** Event `i` is an outage within `HEALTHY_SESSION` of the latest success before it. */
  predicate ShortOutage(h: seq<Event>, i: nat)
    requires i < |h|
  {
    && h[i].Dropped?
    && var success := LatestSuccess(h[..i]);
       success.Some? && 0 <= h[i].at - success.value < HEALTHY_SESSION
  }

  /** Event `i` ends any run of short sessions: a user connect, or an outage that was
      not short. */
  predicate EndsRun(h: seq<Event>, i: nat)
    requires i < |h|
  {
    h[i].Remembered? || (h[i].Dropped? && !ShortOutage(h, i))
  }

  function Outages(h: seq<Event>): nat {
    if h == [] then 0 else Outages(h[..|h| - 1]) + if h[|h| - 1].Dropped? then 1 else 0
  }

  /** The trailing run of short outages starts at `from`. */
  predicate TrailingRun(h: seq<Event>, from: nat) {
    && from <= |h|
    && (from == 0 || EndsRun(h, from - 1))
    && forall i :: from <= i < |h| ==> !EndsRun(h, i)
  }

  function Min(a: nat, b: nat): nat { if a < b then a else b }

  /** `a` is a state of the object after `h`. */
  ghost predicate Remembers(a: Auto, h: seq<Event>) {
    && a.lastSuccess == LatestSuccess(h)
    && forall from: nat :: TrailingRun(h, from) ==> a.shortSessions == Min(Outages(h[from..]), U32_MAX)
  }

  lemma {:induction false} RunExists(h: seq<Event>) returns (from: nat)
    ensures TrailingRun(h, from)
    decreases |h|
  {
    if h == [] {
      from := 0;
    } else if EndsRun(h, |h| - 1) {
      from := |h|;
    } else {
      var p := h[..|h| - 1];
      from := RunExists(p);
      Prefix(p, h[|h| - 1]);
      assert h == p + [h[|h| - 1]];
    }
  }

  /** Adding an event changes nothing about the earlier ones. */
  lemma Prefix(h: seq<Event>, e: Event)
    ensures forall i :: 0 <= i < |h| ==> EndsRun(h + [e], i) == EndsRun(h, i)
    ensures LatestSuccess((h + [e])[..|h|]) == LatestSuccess(h)
  {
    assert (h + [e])[..|h|] == h;
    forall i | 0 <= i < |h| ensures (h + [e])[..i] == h[..i] { }
  }

  /** One event moves the object along its history. */
  lemma Moves(a: Auto, h: seq<Event>, e: Event, b: Auto)
    requires Remembers(a, h)
    requires e.Dropped? ==>
      b.lastSuccess == a.lastSuccess && b.shortSessions == a.Outage(e.at).shortSessions
    requires e.Succeeded? ==> b.lastSuccess == Some(e.at) && b.shortSessions == a.shortSessions
    requires e.Remembered? ==> b.lastSuccess == None && b.shortSessions == 0
    requires e.Other? ==> b.lastSuccess == a.lastSuccess && b.shortSessions == a.shortSessions
    ensures Remembers(b, h + [e])
  {
    var g := h + [e];
    Prefix(h, e);
    assert g[..|g| - 1] == h;
    forall from: nat | TrailingRun(g, from)
      ensures b.shortSessions == Min(Outages(g[from..]), U32_MAX)
    {
      if from == |g| {
        assert g[from..] == [];
        assert EndsRun(g, |h|);
      } else {
        assert g[from..] == h[from..] + [e];
        assert g[from..][..|g[from..]| - 1] == h[from..];
        assert !EndsRun(g, |h|);
        assert forall i :: from <= i < |h| ==> !EndsRun(h, i) by {
          forall i | from <= i < |h| ensures !EndsRun(h, i) { assert !EndsRun(g, i); }
        }
        assert TrailingRun(h, from);
        if e.Dropped? { assert ShortOutage(g, |h|); }
      }
    }
  }

  lemma StartsOver(a: Auto, h: seq<Event>, b: Auto)
    requires Remembers(a, h) && b.lastSuccess == None && b.shortSessions == 0
    ensures Remembers(b, h + [Remembered])
  {
    Moves(a, h, Remembered, b);
  }

  /** The object gives up at an outage exactly when it is the fifth or later short one in
      a row. */
  lemma GivesUpIff(a: Auto, h: seq<Event>, now: int)
    requires Remembers(a, h)
    ensures a.GivesUp(now) <==>
      exists from: nat :: TrailingRun(h + [Dropped(now)], from)
                       && Outages((h + [Dropped(now)])[from..]) >= 5
  {
    var g := h + [Dropped(now)];
    Moves(a, h, Dropped(now), a.Outage(now));
    Prefix(h, Dropped(now));
    var from := RunExists(g);
    assert a.Outage(now).shortSessions == Min(Outages(g[from..]), U32_MAX);
    if from == |g| { assert g[from..] == []; }
    assert EndsRun(g, |h|) <==> !a.Short(now);
  }

  // ---------------------------------------------------------------- how often it can go on

  function Step(a: Auto, e: Event): Auto {
    match e
    case Succeeded(at) => a.Success(at)
    case Dropped(at) => a.Outage(at)
    case _ => a
  }

  function Replay(h: seq<Event>): Auto {
    if h == [] then FRESH else Step(Replay(h[..|h| - 1]), h[|h| - 1])
  }

  /** The latest success or outage. */
  function LatestTimed(h: seq<Event>): Option<Event> {
    if h == [] then None
    else if h[|h| - 1].Succeeded? || h[|h| - 1].Dropped? then Some(h[|h| - 1])
    else LatestTimed(h[..|h| - 1])
  }

  function LatestTime(h: seq<Event>, start: int): int {
    match LatestTimed(h)
    case None => start
    case Some(e) => if e.Succeeded? || e.Dropped? then e.at else start
  }

  /** A stretch of life after a user connect, on a clock that reads `start` or more and
      never goes back: no outage follows another without a success in between, and none
      made the object give up. */
  predicate Stretch(h: seq<Event>, start: int) {
    h != [] ==>
      var p, e := h[..|h| - 1], h[|h| - 1];
      && Stretch(p, start)
      && !e.Remembered?
      && (e.Succeeded? ==> LatestTime(p, start) <= e.at)
      && (e.Dropped? ==>
            && LatestTime(p, start) <= e.at
            && LatestTimed(p) != Some(Dropped(LatestTime(p, start)))
            && !Replay(p).GivesUp(e.at))
  }

  lemma {:induction false} StretchState(h: seq<Event>, start: int)
    requires Stretch(h, start)
    ensures start <= LatestTime(h, start)
    ensures LatestTimed(h).Some? ==> LatestTimed(h).value.Succeeded? || LatestTimed(h).value.Dropped?
    ensures LatestTimed(h).Some? && LatestTimed(h).value.Succeeded? ==>
      Replay(h).lastSuccess == Some(LatestTime(h, start))
    ensures LatestTimed(h).None? ==> Outages(h) == 0 && Replay(h).shortSessions == 0
    decreases |h|
  {
    if h != [] {
      StretchState(h[..|h| - 1], start);
    }
  }

  /** `long` counts the outages, after the first, that came at least `HEALTHY_SESSION`
      after the success before them; each has pushed the clock that far. */
  lemma {:induction false} LongOutages(h: seq<Event>, start: int) returns (long: nat)
    requires Stretch(h, start)
    ensures Replay(h).shortSessions < MAX_SHORT_SESSIONS
    ensures Outages(h) - Replay(h).shortSessions <= 5 * long + 1
    ensures Outages(h) == 0 ==> Replay(h).shortSessions == 0
    ensures long * HEALTHY_SESSION <= LatestTime(h, start) - start
    decreases |h|
  {
    if h == [] {
      return 0;
    }
    var p, e := h[..|h| - 1], h[|h| - 1];
    long := LongOutages(p, start);
    StretchState(p, start);
    if e.Dropped? && !Replay(p).Short(e.at) && Outages(p) > 0 {
      long := long + 1;
    }
  }

  /** Within `t` of its start, a stretch accepts at most 5 * (1 + t / 120s) outages: a
      host that accepts the session and drops it again at once is not reconnected to all
      night. */
  lemma OutagesAcceptedAreBounded(h: seq<Event>, start: int, t: int)
    requires Stretch(h, start) && LatestTime(h, start) <= start + t
    ensures Outages(h) * 120_000_000_000 <= 5 * (120_000_000_000 + t)
  {
    var long := LongOutages(h, start);
    var n := Outages(h);
    assert n <= 5 * long + 5;
  }

  // ---------------------------------------------------------------- the object

  class AutoReconnect {
    var request: Option<Request>
    var enabled: bool
    var reconnects: nat
    var attempts: nat
    var lastAttemptError: Option<string>
    var outageBegan: Option<int>
    var nextAttemptAt: Option<int>
    var stoppedReason: Option<string>
    var shortSessions: nat
    var lastSuccess: Option<int>
    var inFlight: bool

    ghost var history: seq<Event>

    function View(): Auto
      reads this
    {
      Auto(request, enabled, reconnects, attempts, lastAttemptError, outageBegan, nextAttemptAt,
           stoppedReason, shortSessions, lastSuccess, inFlight)
    }

    /** The short-session count is the trailing run in everything that ever happened. */
    ghost predicate Valid()
      reads this
    {
      Remembers(View(), history)
    }

    constructor ()
      ensures Valid() && View() == FRESH && history == []
    {
      request, enabled, reconnects, attempts := None, false, 0, 0;
      lastAttemptError, outageBegan, nextAttemptAt, stoppedReason := None, None, None, None;
      shortSessions, lastSuccess, inFlight := 0, None, false;
      history := [];
    }

    method Remember(r: Request)
      requires Valid()
      modifies this
      ensures Valid() && history == old(history) + [Remembered]
      ensures View() == old(View()).Remember(r)
      ensures enabled == r.autoReconnect && request == Some(r) && stoppedReason == None && !inFlight
      ensures attempts == 0 && shortSessions == 0 && lastSuccess == None && outageBegan == None && nextAttemptAt == None
      ensures reconnects == old(reconnects) && lastAttemptError == old(lastAttemptError)
    {
      ghost var before := View();
      enabled := r.autoReconnect;
      request := Some(r);
      stoppedReason := None;
      attempts := 0;
      shortSessions := 0;
      lastSuccess := None;
      outageBegan := None;
      nextAttemptAt := None;
      inFlight := false;
      StartsOver(before, history, View());
      history := history + [Remembered];
    }

    method Stop(why: string)
      requires Valid()
      modifies this
      ensures Valid() && history == old(history) + [Other]
      ensures View() == old(View()).Stop(why)
      ensures stoppedReason == Some(why) && nextAttemptAt == None
      ensures enabled == old(enabled) && request == old(request) && inFlight == old(inFlight)
      ensures attempts == old(attempts) && reconnects == old(reconnects) && outageBegan == old(outageBegan)
    {
      ghost var before := View();
      nextAttemptAt := None;
      stoppedReason := Some(why);
      Moves(before, history, Other, View());
      history := history + [Other];
    }

    method StandDown()
      requires Valid()
      modifies this
      ensures Valid() && history == old(history) + [Other]
      ensures View() == old(View()).StandDown()
      ensures nextAttemptAt == None && stoppedReason == old(stoppedReason)
      ensures enabled == old(enabled) && request == old(request) && inFlight == old(inFlight)
    {
      ghost var before := View();
      nextAttemptAt := None;
      Moves(before, history, Other, View());
      history := history + [Other];
    }

    method NoteOutage(now: int) returns (worthIt: bool)
      requires Valid()
      modifies this
      ensures Valid() && history == old(history) + [Dropped(now)]
      ensures View() == old(View()).Outage(now)
      ensures worthIt <==> !old(View()).GivesUp(now)
      ensures worthIt ==> stoppedReason == old(stoppedReason) && nextAttemptAt == old(nextAttemptAt)
      ensures !worthIt ==> stoppedReason.Some? && nextAttemptAt == None
      ensures worthIt <==> shortSessions < MAX_SHORT_SESSIONS
      ensures enabled == old(enabled) && request == old(request) && lastSuccess == old(lastSuccess)
    {
      ghost var before := View();
      worthIt := true;
      var short := lastSuccess.Some? && lastSuccess.value <= now && now - lastSuccess.value < HEALTHY_SESSION;
      if short {
        shortSessions := SaturatingInc(shortSessions);
        if shortSessions >= MAX_SHORT_SESSIONS {
          nextAttemptAt := None;
          stoppedReason := Some("repeated short sessions");
          worthIt := false;
        }
      } else {
        shortSessions := 0;
      }
      Moves(before, history, Dropped(now), View());
      history := history + [Dropped(now)];
    }

    method NoteSuccess(now: int)
      requires Valid()
      modifies this
      ensures Valid() && history == old(history) + [Succeeded(now)]
      ensures View() == old(View()).Success(now)
      ensures lastSuccess == Some(now) && attempts == 0
      ensures nextAttemptAt == None && outageBegan == None && lastAttemptError == None
      ensures reconnects == if old(reconnects) < U32_MAX then old(reconnects) + 1 else U32_MAX
      ensures enabled == old(enabled) && request == old(request) && stoppedReason == old(stoppedReason)
    {
      ghost var before := View();
      reconnects := SaturatingInc(reconnects);
      attempts := 0;
      nextAttemptAt := None;
      outageBegan := None;
      lastAttemptError := None;
      lastSuccess := Some(now);
      Moves(before, history, Succeeded(now), View());
      history := history + [Succeeded(now)];
    }

    method Disarm()
      requires Valid()
      modifies this
      ensures Valid() && history == old(history) + [Other]
      ensures View() == old(View()).Disarm()
      ensures !enabled && request == None && nextAttemptAt == None && outageBegan == None && attempts == 0
      ensures inFlight == old(inFlight) && stoppedReason == old(stoppedReason) && reconnects == old(reconnects)
    {
      ghost var before := View();
      enabled := false;
      request := None;
      nextAttemptAt := None;
      outageBegan := None;
      attempts := 0;
      Moves(before, history, Other, View());
      history := history + [Other];
    }

    /** `InFlight::claim` and the release in its `drop`. */
    method SetInFlight(value: bool)
      requires Valid()
      modifies this
      ensures Valid() && history == old(history) + [Other]
      ensures View() == old(View()).(inFlight := value)
    {
      ghost var before := View();
      inFlight := value;
      Moves(before, history, Other, View());
      history := history + [Other];
    }
  }
}
