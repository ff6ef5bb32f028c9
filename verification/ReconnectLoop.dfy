/**
 The reconnect loops and what they guard against: the session generation, the counter
 of user actions, and the shared `AutoReconnect` object.

 Any number of loops run at once, each armed by a drop event, together with user
 requests that may connect, disconnect or shut down at any point. A loop's guard reads
 its snapshot in one step; everything between two guards is a step of its own.
 */
module ReconnectLoop {
  import opened Wrappers
  import opened AutoReconnect

  datatype Outcome = Success | AuthenticationFailed | InvalidRequest | Retryable

  datatype Stage =
    | Starting                      // has not noted the outage yet
    | Guarding                      // about to check its guard
    | Sleeping                      // passed it; will check again when it wakes
    | Claiming                      // passed again; about to mark an attempt in flight
    | Attempting                    // inside `connect::handle`
    | Rebasing(outcome: Outcome)    // the attempt returned
    | Releasing(outcome: Outcome)   // adopted the generation it saw
    | Reporting(outcome: Outcome)   // dropped the in-flight mark, or left that to a task
    | Done

  datatype Loop = Loop(base: nat, serialAtArm: nat, attempt: nat, stage: Stage)

  datatype State = State(
    generation: nat,
    serial: nat,
    auto: Auto,
    loops: seq<Loop>,
    lateReleases: nat)   // tasks spawned to clear the in-flight mark later

  datatype LoopAction =
    | NoteOutage(now: int)
    | CheckGuard(at: int)
    | Wake
    | MarkInFlight
    | BumpGeneration              // `connect::handle` claims a generation
    | HandleReturns(o: Outcome)
    | AdoptGeneration
    | Release(contended: bool)
    | Report(at: int)

  datatype Action =
    | Arm(g: nat)
    | LoopDoes(i: nat, l: LoopAction)
    | ReleaseLands
    | UserCounted                 // connect, disconnect or shutdown was received
    | UserBumps                   // a user connect claims a generation
    | UserConnected(r: Request)
    | UserDisarms

  function Init(): State { State(0, 0, FRESH, [], 0) }

  datatype Snapshot = Snapshot(
    enabled: bool,
    haveRequest: bool,
    stopped: bool,
    inFlight: bool,
    droppedGeneration: nat,
    currentGeneration: nat,
    serialAtArm: nat,
    serialNow: nat)

  datatype Refusal = NotEnabled | NoRequest | GaveUp | AlreadyRunning | NewerSession | UserActed

  function ShouldAttempt(s: Snapshot): Option<Refusal> {
    if !s.enabled then Some(NotEnabled)
    else if !s.haveRequest then Some(NoRequest)
    else if s.stopped then Some(GaveUp)
    else if s.inFlight then Some(AlreadyRunning)
    else if s.currentGeneration != s.droppedGeneration then Some(NewerSession)
    else if s.serialNow != s.serialAtArm then Some(UserActed)
    else None
  }

  function Take(s: State, i: nat): Snapshot
    requires i < |s.loops|
  {
    Snapshot(s.auto.enabled, s.auto.request.Some?, s.auto.stoppedReason.Some?, s.auto.inFlight,
             s.loops[i].base, s.generation, s.loops[i].serialAtArm, s.serial)
  }

  predicate GuardPasses(s: State, i: nat)
    requires i < |s.loops|
  {
    ShouldAttempt(Take(s, i)).None?
  }

  /** The pause before an attempt, in nanoseconds. */
  function Backoff(attempt: nat): int {
    (if attempt <= 1 then 5
     else if attempt == 2 then 10
     else if attempt == 3 then 20
     else if attempt == 4 then 40
     else 60) * 1_000_000_000
  }

  predicate LoopCan(s: State, i: nat, a: LoopAction) {
    && i < |s.loops|
    && var stage := s.loops[i].stage;
       match a
       case NoteOutage(_) => stage.Starting?
       case CheckGuard(_) => stage.Guarding?
       case Wake => stage.Sleeping?
       case MarkInFlight => stage.Claiming?
       case BumpGeneration => stage.Attempting?
       case HandleReturns(_) => stage.Attempting?
       case AdoptGeneration => stage.Rebasing?
       case Release(_) => stage.Releasing?
       case Report(_) => stage.Reporting?
  }

  function At(s: State, i: nat, stage: Stage): State
    requires i < |s.loops|
  {
    s.(loops := s.loops[i := s.loops[i].(stage := stage)])
  }

  /** A loop that will not go on withdraws the schedule it published, except when the
      reason is that another attempt is running. */
  function Leave(s: State, i: nat): State
    requires i < |s.loops|
  {
    At(s, i, Done).(auto := if s.auto.inFlight then s.auto else s.auto.StandDown())
  }

  function LoopStep(s: State, i: nat, a: LoopAction): State
    requires LoopCan(s, i, a)
  {
    var loop := s.loops[i];
    match a
    case NoteOutage(now) =>
      if !s.auto.enabled then At(s, i, Done)
      else if s.auto.GivesUp(now) then At(s, i, Done).(auto := s.auto.Outage(now).StandDown())
      else At(s, i, Guarding).(auto := s.auto.Outage(now).(attempts := 0, outageBegan := Some(now)))
    case CheckGuard(now) =>
      if GuardPasses(s, i) then
        s.(loops := s.loops[i := loop.(attempt := loop.attempt + 1, stage := Sleeping)],
           auto := s.auto.(attempts := loop.attempt + 1, nextAttemptAt := Some(now + Backoff(loop.attempt + 1))))
      else Leave(s, i)
    case Wake => if GuardPasses(s, i) then At(s, i, Claiming) else Leave(s, i)
    case MarkInFlight => At(s, i, Attempting).(auto := s.auto.(inFlight := true))
    case BumpGeneration => s.(generation := s.generation + 1)
    case HandleReturns(o) => At(s, i, Rebasing(o))
    case AdoptGeneration =>
      s.(loops := s.loops[i := loop.(base := s.generation, stage := Releasing(loop.stage.outcome))])
    case Release(contended) =>
      var next := At(s, i, Reporting(loop.stage.outcome));
      if contended then next.(lateReleases := s.lateReleases + 1)
      else next.(auto := s.auto.(inFlight := false))
    case Report(at) =>
      match loop.stage.outcome
      case Success => At(s, i, Done).(auto := s.auto.Success(at))
      case Retryable => At(s, i, Guarding).(auto := s.auto.(lastAttemptError := Some("connect failed")))
      case _ =>
        At(s, i, Done).(auto := s.auto.(lastAttemptError := Some("connect failed")).Stop("rejected"))
  }

  predicate Enabled(s: State, a: Action) {
    match a
    case Arm(_) => true
    case LoopDoes(i, l) => LoopCan(s, i, l)
    case ReleaseLands => s.lateReleases > 0
    case _ => true
  }

  function Apply(s: State, a: Action): State
    requires Enabled(s, a)
  {
    match a
    case Arm(g) => s.(loops := s.loops + [Loop(g, s.serial, 0, Starting)])
    case LoopDoes(i, l) => LoopStep(s, i, l)
    case ReleaseLands => s.(lateReleases := s.lateReleases - 1, auto := s.auto.(inFlight := false))
    case UserCounted => s.(serial := s.serial + 1)
    case UserBumps => s.(generation := s.generation + 1)
    case UserConnected(r) => s.(auto := s.auto.Remember(r))
    case UserDisarms => s.(auto := s.auto.Disarm())
  }

  ghost predicate Can(s: State, acts: seq<Action>)
    decreases |acts|
  {
    acts != [] ==> Enabled(s, acts[0]) && Can(Apply(s, acts[0]), acts[1..])
  }

  ghost function After(s: State, acts: seq<Action>): State
    requires Can(s, acts)
    decreases |acts|
  {
    if acts == [] then s else After(Apply(s, acts[0]), acts[1..])
  }

  // ---------------------------------------------------------------- the user wins

  /** No loop was armed under a count the user has not reached yet. */
  predicate ArmedInThePast(s: State) {
    forall i :: 0 <= i < |s.loops| ==> s.loops[i].serialAtArm <= s.serial
  }

  /** A step leaves every loop there and armed under the same count. */
  predicate Continues(s: State, u: State) {
    && u.serial >= s.serial && |u.loops| >= |s.loops|
    && forall i :: 0 <= i < |s.loops| ==> u.loops[i].serialAtArm == s.loops[i].serialAtArm
  }

  lemma StepContinues(s: State, a: Action)
    requires ArmedInThePast(s) && Enabled(s, a)
    ensures ArmedInThePast(Apply(s, a)) && Continues(s, Apply(s, a))
  {
  }

  lemma {:induction false} AlwaysArmedInThePast(s: State, acts: seq<Action>)
    requires ArmedInThePast(s) && Can(s, acts)
    ensures ArmedInThePast(After(s, acts)) && Continues(s, After(s, acts))
    decreases |acts|
  {
    if acts != [] {
      StepContinues(s, acts[0]);
      AlwaysArmedInThePast(Apply(s, acts[0]), acts[1..]);
    }
  }

  predicate OutsideAttempt(l: Loop) { !l.stage.Claiming? && !l.stage.Attempting? }

  lemma StepKeepsOut(s: State, a: Action, i: nat)
    requires Enabled(s, a)
    requires i < |s.loops| && s.loops[i].serialAtArm < s.serial && OutsideAttempt(s.loops[i])
    ensures i < |Apply(s, a).loops| && OutsideAttempt(Apply(s, a).loops[i])
  {
  }

  lemma {:induction false} BarredLoopStaysOut(s: State, acts: seq<Action>, i: nat)
    requires Can(s, acts) && ArmedInThePast(s)
    requires i < |s.loops| && s.loops[i].serialAtArm < s.serial && OutsideAttempt(s.loops[i])
    ensures i < |After(s, acts).loops| && OutsideAttempt(After(s, acts).loops[i])
    decreases |acts|
  {
    if acts != [] {
      StepContinues(s, acts[0]);
      StepKeepsOut(s, acts[0], i);
      BarredLoopStaysOut(Apply(s, acts[0]), acts[1..], i);
    }
  }

  /** Once a user connect, disconnect or shutdown has been counted, no loop armed before
      it passes a guard check again, whatever it and all the others do meanwhile - and
      unless it was already past its last check, it never starts another attempt. */
  lemma UserActionEndsEarlierLoops(before: seq<Action>, after: seq<Action>, i: nat)
    requires Can(Init(), before)
    requires var s := After(Init(), before);
      i < |s.loops| && Can(Apply(s, UserCounted), after)
    ensures var s := After(Init(), before);
      var u := After(Apply(s, UserCounted), after);
      && i < |u.loops|
      && !GuardPasses(u, i)
      && (OutsideAttempt(s.loops[i]) ==> OutsideAttempt(u.loops[i]))
  {
    AlwaysArmedInThePast(Init(), before);
    var s := After(Init(), before);
    var t := Apply(s, UserCounted);
    AlwaysArmedInThePast(t, after);
    if OutsideAttempt(s.loops[i]) {
      BarredLoopStaysOut(t, after, i);
    }
  }

  // ---------------------------------------------------------------- a loop and itself

  /** Only loop `i`, and the tasks it left a release to, do anything. */
  predicate Alone(acts: seq<Action>, i: nat) {
    forall k :: 0 <= k < |acts| ==> (acts[k].LoopDoes? && acts[k].i == i) || acts[k].ReleaseLands?
  }

  predicate InAttempt(stage: Stage) { stage.Attempting? || stage.Rebasing? || stage.Releasing? }

  /** Nobody but loop `i` has touched what its guard reads since it was armed. */
  predicate Undisturbed(s: State, i: nat) {
    && i < |s.loops|
    && var l := s.loops[i];
       l.stage.Done? || (
         && s.serial == l.serialAtArm
         && s.auto.enabled && s.auto.request.Some? && s.auto.stoppedReason.None?
         && (l.stage.Attempting? || l.stage.Rebasing? || s.generation == l.base)
         && (s.lateReleases == 0 || (s.lateReleases == 1 && (l.stage.Guarding? || l.stage.Reporting?)))
         && s.auto.inFlight == (InAttempt(l.stage) || s.lateReleases == 1))
  }

  lemma StepKeepsUndisturbed(s: State, i: nat, a: Action)
    requires Undisturbed(s, i) && Enabled(s, a)
    requires (a.LoopDoes? && a.i == i) || a.ReleaseLands?
    ensures Undisturbed(Apply(s, a), i)
  {
  }

  lemma {:induction false} StaysUndisturbed(s: State, i: nat, acts: seq<Action>)
    requires Undisturbed(s, i) && Can(s, acts) && Alone(acts, i)
    ensures Undisturbed(After(s, acts), i)
    decreases |acts|
  {
    if acts != [] {
      assert (acts[0].LoopDoes? && acts[0].i == i) || acts[0].ReleaseLands?;
      StepKeepsUndisturbed(s, i, acts[0]);
      assert Alone(acts[1..], i);
      StaysUndisturbed(Apply(s, acts[0]), i, acts[1..]);
    }
  }

  /** Left to itself, a loop is never stopped by its own attempts: after any number of
      them, and of the generation bumps they make, its guard passes again exactly when no
      release of its in-flight mark is still on its way. */
  lemma OwnAttemptsDoNotStopTheLoop(s: State, i: nat, acts: seq<Action>)
    requires Undisturbed(s, i) && Can(s, acts) && Alone(acts, i)
    requires i < |After(s, acts).loops|
    requires After(s, acts).loops[i].stage.Guarding? || After(s, acts).loops[i].stage.Sleeping?
    ensures GuardPasses(After(s, acts), i) <==> After(s, acts).lateReleases == 0
  {
    StaysUndisturbed(s, i, acts);
  }

  /** A loop armed at the current generation, with reconnection enabled, a request kept, not
      given up, and no attempt marked, starts out like that. */
  lemma JustArmed(s: State)
    requires s.auto.enabled && s.auto.request.Some? && s.auto.stoppedReason.None?
    requires !s.auto.inFlight && s.lateReleases == 0
    ensures Undisturbed(Apply(s, Arm(s.generation)), |s.loops|)
  {
  }

  predicate Uncontended(acts: seq<Action>) {
    forall k :: 0 <= k < |acts| ==> !(acts[k].LoopDoes? && acts[k].l == Release(true))
  }

  lemma {:induction false} NoLateReleases(s: State, acts: seq<Action>)
    requires s.lateReleases == 0 && Can(s, acts) && Uncontended(acts)
    ensures After(s, acts).lateReleases == 0
    decreases |acts|
  {
    if acts != [] {
      assert !(acts[0].LoopDoes? && acts[0].l == Release(true));
      assert Uncontended(acts[1..]);
      NoLateReleases(Apply(s, acts[0]), acts[1..]);
    }
  }

  /** From the moment it is armed such a loop's guard passes every time, however many of its
      attempts fail, as long as none of its releases is contended. */
  lemma UncontendedLoopGoesOn(s: State, acts: seq<Action>)
    requires s.auto.enabled && s.auto.request.Some? && s.auto.stoppedReason.None?
    requires !s.auto.inFlight && s.lateReleases == 0
    requires Can(Apply(s, Arm(s.generation)), acts) && Alone(acts, |s.loops|) && Uncontended(acts)
    ensures var u := After(Apply(s, Arm(s.generation)), acts);
      && |s.loops| < |u.loops|
      && (u.loops[|s.loops|].stage.Guarding? || u.loops[|s.loops|].stage.Sleeping? ==> GuardPasses(u, |s.loops|))
  {
    var armed := Apply(s, Arm(s.generation));
    var i := |s.loops|;
    JustArmed(s);
    NoLateReleases(armed, acts);
    StaysUndisturbed(armed, i, acts);
    var u := After(armed, acts);
    if u.loops[i].stage.Guarding? || u.loops[i].stage.Sleeping? {
      OwnAttemptsDoNotStopTheLoop(armed, i, acts);
    }
  }

  function StartAttempt(i: nat): seq<Action> {
    [LoopDoes(i, CheckGuard(0))] + ([LoopDoes(i, Wake)] + ([LoopDoes(i, MarkInFlight)] +
    ([LoopDoes(i, BumpGeneration)] + [])))
  }

  function FailContended(i: nat): seq<Action> {
    [LoopDoes(i, HandleReturns(Retryable))] + ([LoopDoes(i, AdoptGeneration)] +
    ([LoopDoes(i, Release(true))] + ([LoopDoes(i, Report(0))] + ([LoopDoes(i, CheckGuard(0))] + []))))
  }

  lemma Then(s: State, a: Action, rest: seq<Action>)
    requires Enabled(s, a) && Can(Apply(s, a), rest)
    ensures Can(s, [a] + rest) && After(s, [a] + rest) == After(Apply(s, a), rest)
  {
    assert ([a] + rest)[1..] == rest;
  }

  lemma {:induction false} Chain(s: State, first: seq<Action>, second: seq<Action>)
    requires Can(s, first) && Can(After(s, first), second)
    ensures Can(s, first + second) && After(s, first + second) == After(After(s, first), second)
    decreases |first|
  {
    if first == [] {
      assert first + second == second;
    } else {
      Chain(Apply(s, first[0]), first[1..], second);
      assert (first + second)[1..] == first[1..] + second;
    }
  }

  lemma StartsAttempt(s: State, i: nat)
    requires i < |s.loops| && s.loops[i].stage.Guarding? && GuardPasses(s, i)
    ensures Can(s, StartAttempt(i))
    ensures var l := s.loops[i];
      After(s, StartAttempt(i)) == s.(
        generation := s.generation + 1,
        loops := s.loops[i := l.(attempt := l.attempt + 1, stage := Attempting)],
        auto := s.auto.(attempts := l.attempt + 1, nextAttemptAt := Some(Backoff(l.attempt + 1)), inFlight := true))
  {
    var s1 := LoopStep(s, i, CheckGuard(0));
    var s2 := LoopStep(s1, i, Wake);
    var s3 := LoopStep(s2, i, MarkInFlight);
    Then(s3, LoopDoes(i, BumpGeneration), []);
    Then(s2, LoopDoes(i, MarkInFlight), [LoopDoes(i, BumpGeneration)] + []);
    Then(s1, LoopDoes(i, Wake), [LoopDoes(i, MarkInFlight)] + ([LoopDoes(i, BumpGeneration)] + []));
    Then(s, LoopDoes(i, CheckGuard(0)), [LoopDoes(i, Wake)] + ([LoopDoes(i, MarkInFlight)] +
      ([LoopDoes(i, BumpGeneration)] + [])));
  }

  lemma FailsContended(s: State, i: nat)
    requires i < |s.loops| && s.loops[i].stage.Attempting? && s.auto.inFlight
    ensures Can(s, FailContended(i))
    ensures After(s, FailContended(i)) == s.(
      loops := s.loops[i := s.loops[i].(base := s.generation, stage := Done)],
      auto := s.auto.(lastAttemptError := Some("connect failed")),
      lateReleases := s.lateReleases + 1)
  {
    var s1 := LoopStep(s, i, HandleReturns(Retryable));
    var s2 := LoopStep(s1, i, AdoptGeneration);
    var s3 := LoopStep(s2, i, Release(true));
    var s4 := LoopStep(s3, i, Report(0));
    Then(s4, LoopDoes(i, CheckGuard(0)), []);
    var a5 := [LoopDoes(i, CheckGuard(0))] + [];
    Then(s3, LoopDoes(i, Report(0)), a5);
    Then(s2, LoopDoes(i, Release(true)), [LoopDoes(i, Report(0))] + a5);
    Then(s1, LoopDoes(i, AdoptGeneration), [LoopDoes(i, Release(true))] + ([LoopDoes(i, Report(0))] + a5));
    Then(s, LoopDoes(i, HandleReturns(Retryable)), [LoopDoes(i, AdoptGeneration)] +
      ([LoopDoes(i, Release(true))] + ([LoopDoes(i, Report(0))] + a5)));
  }

  /** The other half of that condition: when the lock is contended as the mark is
      dropped, the release is left to a task, and if the loop gets to its next guard first
      it takes its own mark for somebody else's. It leaves for good after one failed
      attempt, with reconnection enabled, not given up, and a next attempt announced. */
  lemma ContendedReleaseEndsTheLoop(s: State, i: nat) returns (acts: seq<Action>)
    requires Undisturbed(s, i) && s.loops[i].stage.Guarding? && s.lateReleases == 0
    ensures Can(s, acts) && Alone(acts, i)
    ensures var u := After(s, acts);
      && |u.loops| == |s.loops| && u.loops == s.loops[i := u.loops[i]] && u.loops[i].stage.Done?
      && u.auto.enabled && u.auto.stoppedReason.None? && u.auto.nextAttemptAt.Some?
  {
    StartsAttempt(s, i);
    FailsContended(After(s, StartAttempt(i)), i);
    Chain(s, StartAttempt(i), FailContended(i));
    acts := StartAttempt(i) + FailContended(i);
  }

  // ---------------------------------------------------------------- what ends a loop

  /** A guard passes exactly when reconnection is enabled, a request is kept, nothing has made
      the daemon give up, no attempt is marked in flight, the session is the one that dropped,
      and no user request was counted since the loop was armed. */
  lemma GuardPassesIff(s: State, i: nat)
    requires i < |s.loops|
    ensures GuardPasses(s, i) <==>
      && s.auto.enabled && s.auto.request.Some? && s.auto.stoppedReason.None? && !s.auto.inFlight
      && s.generation == s.loops[i].base && s.serial == s.loops[i].serialAtArm
  {
  }

  /** Nothing but loop `i` and the object they share changed. */
  predicate OnlyLoop(s: State, u: State, i: nat)
    requires i < |s.loops|
  {
    && u.generation == s.generation && u.serial == s.serial && u.lateReleases == s.lateReleases
    && |u.loops| == |s.loops| && u.loops == s.loops[i := u.loops[i]]
  }

  /** How the guard decides: passed before the pause, the attempt is counted and the time it is
      due published; passed after the pause, the attempt begins. Failed, the loop is over, and
      it withdraws the published time unless another attempt is running. */
  lemma GuardDecides(s: State, i: nat, at: int)
    requires i < |s.loops|
    ensures LoopCan(s, i, CheckGuard(at)) && GuardPasses(s, i) ==>
      var u := LoopStep(s, i, CheckGuard(at));
      && OnlyLoop(s, u, i) && u.loops[i] == s.loops[i].(attempt := s.loops[i].attempt + 1, stage := Sleeping)
      && u.auto.attempts == s.loops[i].attempt + 1 && u.auto.nextAttemptAt == Some(at + Backoff(s.loops[i].attempt + 1))
    ensures LoopCan(s, i, Wake) && GuardPasses(s, i) ==>
      var u := LoopStep(s, i, Wake);
      OnlyLoop(s, u, i) && u.loops[i] == s.loops[i].(stage := Claiming) && u.auto == s.auto
    ensures forall a :: (a == CheckGuard(at) || a == Wake) && LoopCan(s, i, a) && !GuardPasses(s, i) ==>
      var u := LoopStep(s, i, a);
      && OnlyLoop(s, u, i) && u.loops[i].stage.Done?
      && u.auto == s.auto.(nextAttemptAt := if s.auto.inFlight then s.auto.nextAttemptAt else None)
  {
  }

  /** How a new loop starts: it goes on if reconnection is enabled and the outage is not the
      one too many, and is over otherwise. */
  lemma OutageDecides(s: State, i: nat, now: int)
    requires LoopCan(s, i, NoteOutage(now))
    ensures var u := LoopStep(s, i, NoteOutage(now));
      && OnlyLoop(s, u, i)
      && (u.loops[i].stage.Guarding? <==> s.auto.enabled && !s.auto.GivesUp(now))
      && (!u.loops[i].stage.Guarding? ==> u.loops[i].stage.Done?)
      && (u.loops[i].stage.Guarding? ==> u.auto.attempts == 0 && u.auto.outageBegan == Some(now) && u.auto.stoppedReason == s.auto.stoppedReason)
      && (s.auto.enabled && s.auto.GivesUp(now) ==> u.auto.stoppedReason.Some? && u.auto.nextAttemptAt.None?)
      && (!s.auto.enabled ==> u.auto == s.auto)
  {
  }

  /** Which outcomes let a loop go on, and what each leaves in the shared object. */
  lemma OutcomeDecides(s: State, i: nat, at: int)
    requires LoopCan(s, i, Report(at))
    ensures var o, u := s.loops[i].stage.outcome, LoopStep(s, i, Report(at));
      && OnlyLoop(s, u, i)
      && (u.loops[i].stage.Guarding? <==> o.Retryable?)
      && (u.loops[i].stage.Done? <==> o.Success? || o.AuthenticationFailed? || o.InvalidRequest?)
      && u.auto.request == s.auto.request && u.auto.enabled == s.auto.enabled && u.auto.inFlight == s.auto.inFlight
      && (o.Success? ==>
            && u.auto.lastSuccess == Some(at) && u.auto.nextAttemptAt.None? && u.auto.lastAttemptError.None?
            && u.auto.attempts == 0 && u.auto.outageBegan.None? && u.auto.stoppedReason == s.auto.stoppedReason
            && u.auto.reconnects == (if s.auto.reconnects < U32_MAX then s.auto.reconnects + 1 else U32_MAX))
      && (!o.Success? ==> u.auto.lastSuccess == s.auto.lastSuccess && u.auto.lastAttemptError.Some?)
      && (o.Retryable? ==> u.auto.stoppedReason == s.auto.stoppedReason && u.auto.nextAttemptAt == s.auto.nextAttemptAt)
      && (o.AuthenticationFailed? || o.InvalidRequest? ==> u.auto.stoppedReason.Some? && u.auto.nextAttemptAt.None?)
  {
  }

  /** The in-flight mark: set for an attempt, cleared after it, at once or by a task. */
  lemma MarkMoves(s: State, i: nat)
    requires i < |s.loops|
    ensures LoopCan(s, i, MarkInFlight) ==>
      LoopStep(s, i, MarkInFlight).auto == s.auto.(inFlight := true)
      && LoopStep(s, i, MarkInFlight).loops[i].stage.Attempting?
    ensures LoopCan(s, i, Release(false)) ==>
      LoopStep(s, i, Release(false)).auto == s.auto.(inFlight := false)
      && LoopStep(s, i, Release(false)).lateReleases == s.lateReleases
    ensures LoopCan(s, i, Release(true)) ==>
      LoopStep(s, i, Release(true)).auto == s.auto
      && LoopStep(s, i, Release(true)).lateReleases == s.lateReleases + 1
    ensures s.lateReleases > 0 ==>
      Apply(s, ReleaseLands).auto == s.auto.(inFlight := false) && Apply(s, ReleaseLands).lateReleases == s.lateReleases - 1
  {
  }

  /** What an attempt came to is what is reported, with the generation of that moment adopted. */
  lemma OutcomeTravels(s: State, i: nat, o: Outcome, contended: bool)
    requires i < |s.loops| && s.loops[i].stage.Attempting?
    ensures LoopCan(s, i, HandleReturns(o))
    ensures LoopCan(LoopStep(s, i, HandleReturns(o)), i, AdoptGeneration)
    ensures var t := LoopStep(LoopStep(s, i, HandleReturns(o)), i, AdoptGeneration);
      && LoopCan(t, i, Release(contended)) && t.auto == s.auto && t.generation == s.generation
      && LoopStep(t, i, Release(contended)).loops[i].stage == Reporting(o)
      && LoopStep(t, i, Release(contended)).loops[i].base == s.generation
  {
  }

  /** The pauses: 5, 10, 20 and 40 seconds, then a minute each, never shorter than the one before. */
  lemma Pauses(attempt: nat)
    ensures Backoff(1) == 5_000_000_000 && Backoff(2) == 10_000_000_000
    ensures Backoff(3) == 20_000_000_000 && Backoff(4) == 40_000_000_000
    ensures attempt >= 5 ==> Backoff(attempt) == 60_000_000_000
    ensures Backoff(attempt) <= Backoff(attempt + 1) <= 60_000_000_000
  {
  }

  lemma StepKeepsDone(s: State, a: Action, i: nat)
    requires Enabled(s, a) && i < |s.loops| && s.loops[i].stage.Done?
    ensures i < |Apply(s, a).loops| && Apply(s, a).loops[i].stage.Done?
    ensures !(a.LoopDoes? && a.i == i)
  {
  }

  /** A loop that is over does nothing any more, whatever the others and the user do. */
  lemma {:induction false} DoneForGood(s: State, acts: seq<Action>, i: nat)
    requires Can(s, acts) && i < |s.loops| && s.loops[i].stage.Done?
    ensures i < |After(s, acts).loops| && After(s, acts).loops[i].stage.Done?
    ensures forall k :: 0 <= k < |acts| ==> !(acts[k].LoopDoes? && acts[k].i == i)
    decreases |acts|
  {
    if acts != [] {
      StepKeepsDone(s, acts[0], i);
      DoneForGood(Apply(s, acts[0]), acts[1..], i);
      forall k | 0 <= k < |acts|
        ensures !(acts[k].LoopDoes? && acts[k].i == i)
      {
        assert k > 0 ==> acts[k] == acts[1..][k - 1];
      }
    }
  }

  /** In every run: once a loop has reported success, or a refusal that retrying cannot fix, it
      is over for good - it makes no further attempt and claims no further generation. */
  lemma FinalReportEndsTheLoop(before: seq<Action>, i: nat, at: int, after: seq<Action>)
    requires Can(Init(), before) && LoopCan(After(Init(), before), i, Report(at))
    requires !After(Init(), before).loops[i].stage.outcome.Retryable?
    requires Can(Apply(After(Init(), before), LoopDoes(i, Report(at))), after)
    ensures var u := After(Apply(After(Init(), before), LoopDoes(i, Report(at))), after);
      i < |u.loops| && u.loops[i].stage.Done?
    ensures forall k :: 0 <= k < |after| ==> !(after[k].LoopDoes? && after[k].i == i)
  {
    OutcomeDecides(After(Init(), before), i, at);
    DoneForGood(Apply(After(Init(), before), LoopDoes(i, Report(at))), after, i);
  }

  predicate NobodyConnects(acts: seq<Action>) { forall k :: 0 <= k < |acts| ==> !acts[k].UserConnected? }

  /** The daemon has given up, or the credentials were forgotten. */
  predicate Barred(a: Auto) { a.stoppedReason.Some? || !a.enabled }

  lemma StepKeepsBarred(s: State, a: Action)
    requires Enabled(s, a) && Barred(s.auto) && !a.UserConnected?
    ensures Barred(Apply(s, a).auto)
  {
  }

  /** Until the user connects again: then no guard of any loop passes. */
  lemma {:induction false} BarredUntilConnected(s: State, acts: seq<Action>, i: nat)
    requires Can(s, acts) && Barred(s.auto) && NobodyConnects(acts)
    ensures Barred(After(s, acts).auto)
    ensures i < |After(s, acts).loops| ==> !GuardPasses(After(s, acts), i)
    decreases |acts|
  {
    if acts != [] {
      assert !acts[0].UserConnected?;
      StepKeepsBarred(s, acts[0]);
      assert NobodyConnects(acts[1..]);
      BarredUntilConnected(Apply(s, acts[0]), acts[1..], i);
    }
  }

  /** In every run: after the server refused the credentials or the request no loop's guard
      passes until the user connects; nor after the user disconnected or shut down. */
  lemma RefusalBarsAllLoops(before: seq<Action>, a: Action, after: seq<Action>, j: nat)
    requires Can(Init(), before) && Enabled(After(Init(), before), a)
    requires a == UserDisarms ||
      (a.LoopDoes? && a.l.Report? &&
        (After(Init(), before).loops[a.i].stage.outcome.AuthenticationFailed? || After(Init(), before).loops[a.i].stage.outcome.InvalidRequest?))
    requires Can(Apply(After(Init(), before), a), after) && NobodyConnects(after)
    ensures var u := After(Apply(After(Init(), before), a), after);
      j < |u.loops| ==> !GuardPasses(u, j)
  {
    if a.LoopDoes? {
      OutcomeDecides(After(Init(), before), a.i, a.l.at);
    }
    BarredUntilConnected(Apply(After(Init(), before), a), after, j);
  }

  // ---------------------------------------------------------------- arming

  /** A user connect leaves everything as a new loop wants it. */
  lemma ConnectedStartsOver(s: State, r: Request)
    requires r.autoReconnect && s.lateReleases == 0
    ensures var u := Apply(s, UserConnected(r));
      && u.auto.enabled && u.auto.request == Some(r) && u.auto.stoppedReason.None? && !u.auto.inFlight
      && u.auto.shortSessions == 0 && u.auto.attempts == 0 && u.auto.nextAttemptAt.None?
      && Undisturbed(Apply(u, Arm(u.generation)), |u.loops|)
  {
  }

  /** A connect in progress bars every loop that was waiting for an older session. */
  lemma BumpBarsGuards(s: State, i: nat)
    requires i < |s.loops| && s.loops[i].base <= s.generation
    ensures !GuardPasses(Apply(s, UserBumps), i)
  {
  }

  /** A loop waits for the session that dropped. */
  predicate Outdated(s: State, i: nat, g: nat) {
    && i < |s.loops| && s.loops[i].base == g < s.generation
    && (s.loops[i].stage.Starting? || s.loops[i].stage.Guarding? || s.loops[i].stage.Done?)
  }

  lemma StepKeepsOutdated(s: State, a: Action, i: nat, g: nat)
    requires Enabled(s, a) && Outdated(s, i, g)
    ensures Outdated(Apply(s, a), i, g)
  {
  }

  lemma {:induction false} StaysOutdated(s: State, acts: seq<Action>, i: nat, g: nat)
    requires Can(s, acts) && Outdated(s, i, g)
    ensures Outdated(After(s, acts), i, g)
    decreases |acts|
  {
    if acts != [] {
      StepKeepsOutdated(s, acts[0], i, g);
      StaysOutdated(Apply(s, acts[0]), acts[1..], i, g);
    }
  }

  /** In every run: a loop armed for a session that is no longer the latest never starts an
      attempt, nor passes a guard. */
  lemma StaleLoopNeverStarts(s: State, g: nat, acts: seq<Action>)
    requires g < s.generation && Can(Apply(s, Arm(g)), acts)
    ensures var u := After(Apply(s, Arm(g)), acts);
      && |s.loops| < |u.loops| && !GuardPasses(u, |s.loops|) && OutsideAttempt(u.loops[|s.loops|])
  {
    StaysOutdated(Apply(s, Arm(g)), acts, |s.loops|, g);
  }

  lemma StepKeepsStarted(s: State, a: Action, i: nat)
    requires Enabled(s, a) && i < |s.loops| && !s.loops[i].stage.Starting?
    ensures i < |Apply(s, a).loops| && !Apply(s, a).loops[i].stage.Starting?
    ensures !(a.LoopDoes? && a.i == i && a.l.NoteOutage?)
  {
  }

  /** A loop notes its outage once. */
  lemma {:induction false} OutageNotedOnce(s: State, acts: seq<Action>, i: nat)
    requires Can(s, acts) && i < |s.loops| && !s.loops[i].stage.Starting?
    ensures forall k :: 0 <= k < |acts| ==> !(acts[k].LoopDoes? && acts[k].i == i && acts[k].l.NoteOutage?)
    decreases |acts|
  {
    if acts != [] {
      StepKeepsStarted(s, acts[0], i);
      OutageNotedOnce(Apply(s, acts[0]), acts[1..], i);
      forall k | 0 <= k < |acts|
        ensures !(acts[k].LoopDoes? && acts[k].i == i && acts[k].l.NoteOutage?)
      {
        assert k > 0 ==> acts[k] == acts[1..][k - 1];
      }
    }
  }
}
