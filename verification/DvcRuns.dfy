/**
 Everything that can happen to a `DvcChannel.Dvc` during one RDP session: agents open
 channels, speak, and close them, the bootstrap releases an agent, callers register
 requests and give up on them. An agent says hello at most once per channel and speaks
 only while its channel is open.
 */
module DvcRuns {
  import opened Wrappers
  import opened DvcChannel

  datatype World = World(
    dvc: Dvc,
    open: set<nat>,
    greeted: set<nat>,        // open channels that have said hello
    told: set<nat>,           // open channels that were answered with a shutdown
    released: set<nat>,       // open channels whose agent was released
    owner: Option<nat>,       // the channel the latest recorded hello came on
    log: seq<string>,         // the id of every registration, in order
    elapsed: set<nat>,        // deadline passed, table entry not removed yet
    granted: seq<int>)        // deadlines granted since the agent last changed

  datatype Action =
    | Opens(c: nat)
    | Receives(c: nat, payload: Payload, now: int)
    | Closes(c: nat)
    | Releases(c: nat)
    | Registers(id: string, tx: Sender, until: int, occupies: bool)
    | Elapses(t: nat)
    | Removes(t: nat)

  function Init(expected: Option<string>, supervised: bool): World {
    World(FRESH.(expectedBuild := expected, supervised := supervised), {}, {}, {}, {}, None, [], {}, [])
  }

  predicate IsHello(p: Payload) { p.Decoded? && p.message.Hello? }

  predicate Enabled(w: World, a: Action) {
    match a
    case Opens(c) => c !in w.open
    case Receives(c, p, _) => c in w.open && (IsHello(p) ==> c !in w.greeted)
    case Closes(c) => c in w.open
    case Releases(_) => true
    case Registers(_, _, _, _) => true
    case Elapses(t) => t < |w.log| && t !in w.dvc.outcomes
    case Removes(t) => t < |w.log| && t in w.elapsed
  }

  function Replies(w: World, a: Action): seq<Reply> {
    if a.Receives? then w.dvc.Process(a.c, a.payload, a.now).1 else []
  }

  function Apply(w: World, a: Action): World
    requires Enabled(w, a)
  {
    match a
    case Opens(c) => w.(dvc := w.dvc.Start(c), open := w.open + {c})
    case Receives(c, p, now) =>
      var (d, replies) := w.dvc.Process(c, p, now);
      w.(dvc := d,
         greeted := if IsHello(p) then w.greeted + {c} else w.greeted,
         told := if replies != [] then w.told + {c} else w.told,
         owner := if IsHello(p) && replies == [] then Some(c) else w.owner,
         granted := if IsHello(p) && replies == [] then [] else w.granted)
    case Closes(c) =>
      w.(dvc := w.dvc.Close(c), open := w.open - {c}, greeted := w.greeted - {c},
         told := w.told - {c}, released := w.released - {c})
    case Releases(c) =>
      w.(dvc := w.dvc.Release(c),
         released := if w.dvc.channel == Some(c) then w.released + {c} else w.released,
         granted := if w.dvc.channel == Some(c) then [] else w.granted)
    case Registers(id, tx, until, occupies) =>
      w.(dvc := w.dvc.Register(id, tx, until, occupies),
         log := if w.dvc.Refuses(id, tx).None? then w.log + [id] else w.log,
         granted := if w.dvc.Refuses(id, tx).None? && occupies then w.granted + [until] else w.granted)
    case Elapses(t) => w.(dvc := w.dvc.Elapse(t), elapsed := w.elapsed + {t})
    case Removes(t) => w.(dvc := w.dvc.Remove(w.log[t]), elapsed := w.elapsed - {t})
  }

  ghost predicate Can(w: World, acts: seq<Action>)
    decreases |acts|
  {
    acts != [] ==> Enabled(w, acts[0]) && Can(Apply(w, acts[0]), acts[1..])
  }

  ghost function After(w: World, acts: seq<Action>): World
    requires Can(w, acts)
    decreases |acts|
  {
    if acts == [] then w else After(Apply(w, acts[0]), acts[1..])
  }

  // ---------------------------------------------------------------- who is talked to

  function Primary(d: Dvc): set<nat> { if d.channel.Some? then {d.channel.value} else {} }

  /** The open channels are exactly the primary and the extras, which never overlap; a
      recorded hello came on the current primary and carries an accepted build. */
  ghost predicate ChannelsSound(w: World) {
    var d := w.dvc;
    && w.open == Primary(d) + d.extras
    && Primary(d) !! d.extras
    && (d.handshake.Some? ==>
          && d.channel.Some? && d.channel.value in w.greeted
          && w.owner == d.channel && d.Accepts(d.handshake.value))
  }

  /** Where every open channel stands: one that has said hello is the recorded primary,
      or an extra that was told to exit or released; nobody else was told anything. */
  ghost predicate AgentsSound(w: World) {
    && w.greeted <= w.open && w.told <= w.greeted && w.told <= w.dvc.extras && w.released <= w.open
    && (forall c :: c in w.greeted ==>
          || (w.dvc.channel == Some(c) && w.dvc.handshake.Some?)
          || (c in w.dvc.extras && (c in w.told || c in w.released)))
  }

  lemma StepKeepsChannels(w: World, a: Action)
    requires ChannelsSound(w) && AgentsSound(w) && Enabled(w, a)
    ensures ChannelsSound(Apply(w, a))
  {
  }

  lemma StepKeepsAgents(w: World, a: Action)
    requires ChannelsSound(w) && AgentsSound(w) && Enabled(w, a)
    ensures AgentsSound(Apply(w, a))
  {
  }

  /** A hello ends in one of two ways: recorded, its channel the primary, without an
      answer; or answered with exactly one shutdown, its channel an extra. It is answered
      when its build is not accepted, or when another open channel is the primary - for an
      agent of an accepted build that is the only case. Nothing else is ever answered. */
  lemma HelloOutcome(w: World, c: nat, h: Handshake, now: int)
    requires ChannelsSound(w) && AgentsSound(w) && Enabled(w, Receives(c, Decoded(Message.Hello(h)), now))
    ensures
      var a := Receives(c, Decoded(Message.Hello(h)), now);
      var u := Apply(w, a);
      var refused := !w.dvc.Accepts(h) || (w.dvc.channel.Some? && w.dvc.channel != Some(c));
      && (!refused ==> Replies(w, a) == [] && u.dvc.channel == Some(c) && u.dvc.handshake == Some(h))
      && (refused ==> Replies(w, a) == [Shutdown(c)] && c in u.dvc.extras && u.dvc.handshake == w.dvc.handshake
                      && c !in w.told)
      && (refused && w.dvc.Accepts(h) ==>
            w.dvc.channel.value in w.open && u.dvc == w.dvc)
  {
  }

  lemma OnlyHelloIsAnswered(w: World, a: Action)
    requires Enabled(w, a) && Replies(w, a) != []
    ensures a.Receives? && IsHello(a.payload) && a.c !in w.greeted && a.c in Apply(w, a).told
  {
  }

  /** The supervisor is woken once for each close of the primary, and by nothing else:
      not by an extra, a released or a stale agent. */
  lemma WakeUpsArePrimaryCloses(w: World, a: Action)
    requires ChannelsSound(w) && AgentsSound(w) && Enabled(w, a)
    ensures Apply(w, a).dvc.wakeUps ==
      w.dvc.wakeUps + if a.Closes? && w.dvc.channel == Some(a.c) && w.dvc.supervised then 1 else 0
    ensures Apply(w, a).dvc.wakeUps > w.dvc.wakeUps ==>
      a.c !in w.told && a.c !in w.dvc.extras && (a.c in w.greeted ==> w.dvc.handshake.Some?)
  {
  }

  // ---------------------------------------------------------------- the request table

  /** Every registration still waiting is in the table under its own id, so a reply finds
      it; an entry whose waiter is gone is one whose deadline has passed. */
  ghost predicate TableSound(w: World) {
    var d := w.dvc;
    && d.registered == |w.log|
    && (forall id :: id in d.pending ==>
          d.pending[id] < |w.log| && w.log[d.pending[id]] == id
          && (d.pending[id] in d.outcomes ==> d.pending[id] in w.elapsed))
    && (forall t :: 0 <= t < |w.log| && t !in d.outcomes ==> w.log[t] in d.pending && d.pending[w.log[t]] == t)
    && (forall t :: t in d.outcomes ==> t < |w.log|)
    && (forall t :: t in w.elapsed ==> t in d.outcomes && d.outcomes[t] == TimedOut)
  }

  lemma DrainKeepsTable(w: World, o: Outcome, u: World)
    requires TableSound(w)
    requires u.log == w.log && u.elapsed == w.elapsed
    requires u.dvc.registered == w.dvc.registered && u.dvc.pending == map[]
    requires u.dvc.outcomes == Drained(w.dvc.pending, w.dvc.outcomes, o)
    ensures TableSound(u)
  {
    forall t | 0 <= t < |w.log| ensures t in u.dvc.outcomes {
      if t !in w.dvc.outcomes {
        assert w.dvc.pending[w.log[t]] == t;
      }
    }
    forall t | t in u.dvc.outcomes ensures t < |w.log| {
      if t !in w.dvc.outcomes {
        var id :| id in w.dvc.pending && w.dvc.pending[id] == t;
      }
    }
  }

  /** Taking the entry of `id` out of the table completes its registration. */
  lemma TakeOutKeepsTable(w: World, id: string, o: Outcome, u: World)
    requires TableSound(w) && id in w.dvc.pending
    requires u.log == w.log && u.dvc.registered == w.dvc.registered && u.elapsed <= w.elapsed
    requires u.dvc.pending == w.dvc.pending - {id}
    requires u.dvc.outcomes == w.dvc.Deliver(w.dvc.pending[id], o)
    requires forall i :: i in u.dvc.pending && w.dvc.pending[i] in w.elapsed ==> w.dvc.pending[i] in u.elapsed
    ensures TableSound(u)
  {
  }

  /** Any table with the same entries, log and outcomes. */
  lemma SameTable(w: World, u: World)
    requires TableSound(w) && u.log == w.log && u.elapsed == w.elapsed
    requires u.dvc.registered == w.dvc.registered && u.dvc.pending == w.dvc.pending && u.dvc.outcomes == w.dvc.outcomes
    ensures TableSound(u)
  {
  }

  lemma RegisterKeepsTable(w: World, id: string, tx: Sender, until: int, occupies: bool)
    requires TableSound(w)
    ensures TableSound(Apply(w, Registers(id, tx, until, occupies)))
  {
  }

  lemma ElapseKeepsTable(w: World, t: nat)
    requires TableSound(w) && Enabled(w, Elapses(t))
    ensures TableSound(Apply(w, Elapses(t)))
  {
  }

  lemma RemoveKeepsTable(w: World, t: nat)
    requires TableSound(w) && Enabled(w, Removes(t))
    ensures TableSound(Apply(w, Removes(t)))
  {
    var u := Apply(w, Removes(t));
    if w.log[t] in w.dvc.pending {
      TakeOutKeepsTable(w, w.log[t], Orphaned, u);
    }
  }

  lemma ReceiveKeepsTable(w: World, a: Action)
    requires TableSound(w) && Enabled(w, a) && a.Receives?
    ensures TableSound(Apply(w, a))
  {
    var u := Apply(w, a);
    if a.payload.Decoded? && a.payload.message.Response? && a.c !in w.dvc.extras && a.payload.message.id in w.dvc.pending {
      TakeOutKeepsTable(w, a.payload.message.id, Replied(a.payload.message.success), u);
    } else {
      SameTable(w, u);
    }
  }

  lemma StepKeepsTable(w: World, a: Action)
    requires TableSound(w) && Enabled(w, a)
    ensures TableSound(Apply(w, a))
  {
    var u := Apply(w, a);
    match a
    case Opens(_) => SameTable(w, u);
    case Receives(_, _, _) => ReceiveKeepsTable(w, a);
    case Closes(c) =>
      if w.dvc.channel == Some(c) && c !in w.dvc.extras {
        DrainKeepsTable(w, ChannelClosed, u);
      } else {
        SameTable(w, u);
      }
    case Releases(c) =>
      if w.dvc.channel == Some(c) {
        DrainKeepsTable(w, Released, u);
      } else {
        SameTable(w, u);
      }
    case Registers(id, tx, until, occupies) => RegisterKeepsTable(w, id, tx, until, occupies);
    case Elapses(t) => ElapseKeepsTable(w, t);
    case Removes(t) => RemoveKeepsTable(w, t);
  }

  /** The deadline published as "busy until" is the furthest one granted since the agent
      last changed: no reply, close or later short request lowers it. */
  ghost predicate BusySound(w: World) {
    match w.dvc.busyUntil
    case None => w.granted == []
    case Some(b) => b in w.granted && forall i :: 0 <= i < |w.granted| ==> w.granted[i] <= b
  }

  lemma StepKeepsBusy(w: World, a: Action)
    requires BusySound(w) && Enabled(w, a)
    requires TableSound(w)
    ensures BusySound(Apply(w, a))
  {
    var u := Apply(w, a);
    if a.Registers? && w.dvc.Refuses(a.id, a.tx).None? && a.occupies {
      assert u.granted[|w.granted|] == a.until;
      if w.dvc.busyUntil.Some? {
        var k :| 0 <= k < |w.granted| && w.granted[k] == w.dvc.busyUntil.value;
        assert u.granted[k] == w.granted[k];
      }
    }
  }

  ghost predicate Inv(w: World) {
    ChannelsSound(w) && AgentsSound(w) && TableSound(w) && BusySound(w)
  }

  lemma InvStep(w: World, a: Action)
    requires Inv(w) && Enabled(w, a)
    ensures Inv(Apply(w, a))
  {
    StepKeepsChannels(w, a);
    StepKeepsAgents(w, a);
    StepKeepsTable(w, a);
    StepKeepsBusy(w, a);
  }

  /** All of this holds at every point of every run. */
  lemma {:induction false} EveryRun(w: World, acts: seq<Action>)
    requires Inv(w) && Can(w, acts)
    ensures Inv(After(w, acts))
    decreases |acts|
  {
    if acts != [] {
      InvStep(w, acts[0]);
      EveryRun(Apply(w, acts[0]), acts[1..]);
    }
  }

  lemma FromTheStart(expected: Option<string>, supervised: bool, acts: seq<Action>)
    requires Can(Init(expected, supervised), acts)
    ensures Inv(After(Init(expected, supervised), acts))
  {
    EveryRun(Init(expected, supervised), acts);
  }

  // ---------------------------------------------------------------- who is told to exit

  /** In every run: how a hello ends, whatever happened before it. */
  lemma EveryHello(expected: Option<string>, supervised: bool, acts: seq<Action>, c: nat, h: Handshake, now: int)
    requires Can(Init(expected, supervised), acts)
    requires Enabled(After(Init(expected, supervised), acts), Receives(c, Decoded(Message.Hello(h)), now))
    ensures
      var w := After(Init(expected, supervised), acts);
      var a := Receives(c, Decoded(Message.Hello(h)), now);
      var u := Apply(w, a);
      || (Replies(w, a) == [] && w.dvc.Accepts(h) && u.dvc.channel == Some(c) && u.dvc.handshake == Some(h))
      || (Replies(w, a) == [Shutdown(c)] && c in u.dvc.extras && u.dvc.channel != Some(c)
          && (w.dvc.Accepts(h) ==> w.dvc.channel.Some? && w.dvc.channel.value in w.open - {c}))
  {
    FromTheStart(expected, supervised, acts);
    HelloOutcome(After(Init(expected, supervised), acts), c, h, now);
  }

  /** How many shutdowns are sent on channel `c`. */
  ghost function Shutdowns(w: World, acts: seq<Action>, c: nat): nat
    requires Can(w, acts)
    decreases |acts|
  {
    if acts == [] then 0
    else (if Shutdown(c) in Replies(w, acts[0]) then 1 else 0) + Shutdowns(Apply(w, acts[0]), acts[1..], c)
  }

  function Openings(acts: seq<Action>, c: nat): nat {
    if acts == [] then 0 else (if acts[0] == Opens(c) then 1 else 0) + Openings(acts[1..], c)
  }

  /** At most one shutdown for each time a channel is opened, in every stretch of every run:
      a channel that is open and has not said hello counts as opened. */
  lemma {:induction false} ShutdownsAreFew(w: World, acts: seq<Action>, c: nat)
    requires Inv(w) && Can(w, acts)
    ensures Shutdowns(w, acts, c) <= Openings(acts, c) + if c in w.open - w.greeted then 1 else 0
    decreases |acts|
  {
    if acts != [] {
      var a, u := acts[0], Apply(w, acts[0]);
      InvStep(w, a);
      ShutdownsAreFew(u, acts[1..], c);
      if Replies(w, a) != [] {
        OnlyHelloIsAnswered(w, a);
        HelloOutcome(w, a.c, a.payload.message.handshake, a.now);
      }
      Waits(w, a, c);
    }
  }

  /** A channel gets to wait for its hello only by being opened. */
  lemma Waits(w: World, a: Action, c: nat)
    requires Inv(w) && Enabled(w, a)
    ensures c in Apply(w, a).open - Apply(w, a).greeted ==> a == Opens(c) || c in w.open - w.greeted
    ensures Replies(w, a) == [Shutdown(c)] ==> c in w.open - w.greeted && c in Apply(w, a).greeted
  {
  }

  /** How often a supervised primary closes. */
  ghost function PrimaryCloses(w: World, acts: seq<Action>): nat
    requires Can(w, acts)
    decreases |acts|
  {
    if acts == [] then 0
    else
      var a := acts[0];
      (if a.Closes? && w.dvc.channel == Some(a.c) && w.dvc.supervised then 1 else 0) +
      PrimaryCloses(Apply(w, a), acts[1..])
  }

  /** The supervisor is woken once for each of these, and never otherwise. */
  lemma {:induction false} WakeUpsCount(w: World, acts: seq<Action>)
    requires Inv(w) && Can(w, acts)
    ensures After(w, acts).dvc.wakeUps == w.dvc.wakeUps + PrimaryCloses(w, acts)
    decreases |acts|
  {
    if acts != [] {
      InvStep(w, acts[0]);
      WakeUpsArePrimaryCloses(w, acts[0]);
      WakeUpsCount(Apply(w, acts[0]), acts[1..]);
    }
  }

  /** Both over whole runs. */
  lemma FewShutdownsAndWakeUps(expected: Option<string>, supervised: bool, acts: seq<Action>, c: nat)
    requires Can(Init(expected, supervised), acts)
    ensures Shutdowns(Init(expected, supervised), acts, c) <= Openings(acts, c)
    ensures After(Init(expected, supervised), acts).dvc.wakeUps == PrimaryCloses(Init(expected, supervised), acts)
  {
    ShutdownsAreFew(Init(expected, supervised), acts, c);
    WakeUpsCount(Init(expected, supervised), acts);
  }

  /** Agents come and go no more, and none is released. */
  ghost predicate Settled(acts: seq<Action>) {
    forall i :: 0 <= i < |acts| ==> !acts[i].Opens? && !acts[i].Closes? && !acts[i].Releases?
  }

  ghost predicate Stays(w: World) {
    w.dvc.channel.Some? && (w.dvc.handshake.Some? || w.dvc.expectedBuild.None?)
  }

  lemma StepKeepsStays(w: World, a: Action)
    requires Inv(w) && Stays(w) && Enabled(w, a) && !a.Opens? && !a.Closes? && !a.Releases?
    ensures Stays(Apply(w, a))
  {
  }

  /** A primary whose hello is recorded stays the primary while no agent comes, goes or is
      released; so does any primary if every build is accepted. */
  lemma {:induction false} RecordedPrimaryStays(w: World, acts: seq<Action>)
    requires Inv(w) && Stays(w) && Can(w, acts) && Settled(acts)
    ensures Stays(After(w, acts))
    decreases |acts|
  {
    if acts != [] {
      InvStep(w, acts[0]);
      StepKeepsStays(w, acts[0]);
      assert Settled(acts[1..]);
      RecordedPrimaryStays(Apply(w, acts[0]), acts[1..]);
    }
  }

  /** The primary that has not said hello turns out to be stale. */
  lemma StalePrimaryLeaves(w: World) returns (acts: seq<Action>)
    requires Inv(w) && w.dvc.channel.Some? && w.dvc.handshake.None? && w.dvc.expectedBuild.Some?
    ensures Can(w, acts) && Settled(acts) && After(w, acts).dvc.channel.None?
  {
    var stale := Receives(w.dvc.channel.value, Decoded(Message.Hello(Handshake(0, None, None))), 0);
    acts := [stale] + [];
    assert Enabled(w, stale);
    Then(w, stale, []);
  }

  /** The exact condition: an agent of an accepted build that is turned away leaves nobody to
      talk to, in some continuation in which no agent comes, goes or is released, if and only
      if builds are checked and the primary it gave way to has not said hello. */
  lemma NobodyLeftIff(w: World, c: nat, h: Handshake, now: int)
    requires Inv(w) && Enabled(w, Receives(c, Decoded(Message.Hello(h)), now))
    requires w.dvc.Accepts(h) && w.dvc.channel.Some? && w.dvc.channel != Some(c)
    ensures
      var u := Apply(w, Receives(c, Decoded(Message.Hello(h)), now));
      (exists acts: seq<Action> :: Can(u, acts) && Settled(acts) && After(u, acts).dvc.channel.None?)
      <==> w.dvc.expectedBuild.Some? && w.dvc.handshake.None?
  {
    var a := Receives(c, Decoded(Message.Hello(h)), now);
    var u := Apply(w, a);
    HelloOutcome(w, c, h, now);
    InvStep(w, a);
    if w.dvc.expectedBuild.Some? && w.dvc.handshake.None? {
      var acts := StalePrimaryLeaves(u);
    } else {
      forall acts: seq<Action> | Can(u, acts) && Settled(acts)
        ensures After(u, acts).dvc.channel.Some?
      {
        RecordedPrimaryStays(u, acts);
      }
    }
  }

  // ---------------------------------------------------------------- how requests end

  /** A registration's outcome is decided once, and never replaced. */
  lemma {:induction false} OutcomesAreFinal(w: World, acts: seq<Action>, t: nat)
    requires Can(w, acts) && t in w.dvc.outcomes
    ensures t in After(w, acts).dvc.outcomes && After(w, acts).dvc.outcomes[t] == w.dvc.outcomes[t]
    decreases |acts|
  {
    if acts != [] {
      OutcomesAreFinal(Apply(w, acts[0]), acts[1..], t);
    }
  }

  /** No registration takes over the entry of another one. */
  lemma EntriesAreNotOverwritten(w: World, a: Action, id: string)
    requires TableSound(w) && Enabled(w, a)
    requires id in w.dvc.pending && id in Apply(w, a).dvc.pending
    ensures Apply(w, a).dvc.pending[id] == w.dvc.pending[id]
  {
  }

  /** How a waiting request `t` can end: by a response carrying its id on the primary
      channel, by the close or the release of the primary - either of which leaves nothing
      in the table -, by its own deadline, or by the late removal of an earlier request
      with the same id whose deadline had passed. */
  lemma HowRequestsEnd(w: World, a: Action, t: nat)
    requires Inv(w) && Enabled(w, a)
    requires t < |w.log| && t !in w.dvc.outcomes && t in Apply(w, a).dvc.outcomes
    ensures
      var u := Apply(w, a);
      match u.dvc.outcomes[t]
      case Replied(ok) =>
        a.Receives? && w.dvc.channel == Some(a.c) && a.payload == Decoded(Message.Response(w.log[t], ok))
      case ChannelClosed => a.Closes? && w.dvc.channel == Some(a.c) && u.dvc.pending == map[]
      case Released => a.Releases? && w.dvc.channel == Some(a.c) && u.dvc.pending == map[]
      case TimedOut => a == Elapses(t)
      case Orphaned => a.Removes? && a.t != t && w.log[a.t] == w.log[t]
  {
    assert w.dvc.pending[w.log[t]] == t;
  }

  /** And the other way round: a response on the primary settles the request waiting under its
      id, whatever it reports, and takes the entry out. */
  lemma ReplySettles(w: World, c: nat, id: string, ok: bool, now: int, t: nat)
    requires Inv(w) && Enabled(w, Receives(c, Decoded(Message.Response(id, ok)), now))
    requires w.dvc.channel == Some(c) && t < |w.log| && w.log[t] == id && t !in w.dvc.outcomes
    ensures var u := Apply(w, Receives(c, Decoded(Message.Response(id, ok)), now));
      && t in u.dvc.outcomes && u.dvc.outcomes[t] == Replied(ok) && id !in u.dvc.pending
      && (forall other :: other != id ==> (other in u.dvc.pending <==> other in w.dvc.pending))
      && (forall v :: v != t ==> (v in u.dvc.outcomes <==> v in w.dvc.outcomes))
      && u.dvc.channel == w.dvc.channel && u.dvc.lastInbound == Some(now)
  {
    assert w.dvc.pending[id] == t;
  }

  /** The close of the primary settles everything that waits, and leaves no primary. */
  lemma CloseSettles(w: World, c: nat, t: nat)
    requires Inv(w) && Enabled(w, Closes(c)) && w.dvc.channel == Some(c)
    requires t < |w.log| && t !in w.dvc.outcomes
    ensures var u := Apply(w, Closes(c));
      && t in u.dvc.outcomes && u.dvc.outcomes[t] == ChannelClosed && u.dvc.pending == map[]
      && u.dvc.channel.None? && u.dvc.handshake.None?
  {
    assert w.dvc.pending[w.log[t]] == t;
    assert t in w.dvc.pending.Values;
  }

  /** So does its release, after which it is an extra. */
  lemma ReleaseSettles(w: World, c: nat, t: nat)
    requires Inv(w) && w.dvc.channel == Some(c) && t < |w.log| && t !in w.dvc.outcomes
    ensures var u := Apply(w, Releases(c));
      && t in u.dvc.outcomes && u.dvc.outcomes[t] == Released && u.dvc.pending == map[]
      && u.dvc.channel.None? && u.dvc.handshake.None? && c in u.dvc.extras
      && u.dvc.busyUntil.None? && u.dvc.lastInbound.None?
  {
    assert w.dvc.pending[w.log[t]] == t;
    assert t in w.dvc.pending.Values;
  }

  /** A deadline settles its own request, and its removal takes the entry out. */
  lemma ElapseSettles(w: World, t: nat)
    requires Inv(w) && Enabled(w, Elapses(t))
    ensures var u := Apply(w, Elapses(t));
      t in u.dvc.outcomes && u.dvc.outcomes[t] == TimedOut && u.dvc.pending == w.dvc.pending
    ensures var u := Apply(w, Elapses(t));
      Enabled(u, Removes(t)) && w.log[t] !in Apply(u, Removes(t)).dvc.pending
  {
  }

  /** A response nobody waits for any more is still a sign of life, and nothing else. */
  lemma LateReplyIsHeard(w: World, c: nat, id: string, ok: bool, now: int)
    requires Inv(w) && Enabled(w, Receives(c, Decoded(Message.Response(id, ok)), now))
    requires w.dvc.channel == Some(c) && id !in w.dvc.pending
    ensures Apply(w, Receives(c, Decoded(Message.Response(id, ok)), now)).dvc == w.dvc.(lastInbound := Some(now))
  {
  }

  /** What is no message of these kinds changes nothing. */
  lemma NoiseIsIgnored(w: World, c: nat, p: Payload, now: int)
    requires Enabled(w, Receives(c, p, now)) && !(p.Decoded? && (p.message.Hello? || p.message.Response?))
    ensures Apply(w, Receives(c, p, now)).dvc == w.dvc && Replies(w, Receives(c, p, now)) == []
  {
  }

  /** A response on any channel but the primary changes nothing. */
  lemma OthersAreIgnored(w: World, c: nat, p: Payload, now: int)
    requires Inv(w) && Enabled(w, Receives(c, p, now)) && !IsHello(p) && w.dvc.channel != Some(c)
    ensures Apply(w, Receives(c, p, now)).dvc == w.dvc
  {
  }

  /** A request is accepted exactly when there is a primary, the sender is there and takes it,
      and its id is free; then it waits under that id, and nothing else changes but the busy
      mark. A refused one changes nothing. */
  lemma RegisteredIff(w: World, id: string, tx: Sender, until: int, occupies: bool)
    requires Inv(w)
    ensures var u, t := Apply(w, Registers(id, tx, until, occupies)), |w.log|;
      && ((t < |u.log|) <==> w.dvc.channel.Some? && tx.Ready? && id !in w.dvc.pending)
      && (t < |u.log| ==> u.log == w.log + [id] && id in u.dvc.pending && u.dvc.pending[id] == t && t !in u.dvc.outcomes)
      && (t >= |u.log| ==> u.dvc == w.dvc)
      && (forall other :: other != id ==> (other in u.dvc.pending <==> other in w.dvc.pending))
      && u.dvc.outcomes == w.dvc.outcomes && u.dvc.channel == w.dvc.channel && u.dvc.extras == w.dvc.extras
  {
  }

  /** Why it is refused: no channel, no sender, the id in flight, or a sender that is gone, in
      this order. */
  lemma RefusedBecause(d: Dvc, id: string, tx: Sender)
    ensures d.Refuses(id, tx) == Some(NotOpen) <==> d.channel.None?
    ensures d.Refuses(id, tx) == Some(NoSender) <==> d.channel.Some? && tx.Missing?
    ensures d.Refuses(id, tx) == Some(StillInFlight) <==> d.channel.Some? && !tx.Missing? && id in d.pending
    ensures d.Refuses(id, tx) == Some(SendFailed) <==> d.channel.Some? && tx.Gone? && id !in d.pending
  {
  }

  /** The first to open is the primary; whoever opens while there is one is an extra. */
  lemma FirstOpenerWins(w: World, c: nat)
    requires Inv(w) && Enabled(w, Opens(c))
    ensures var u := Apply(w, Opens(c));
      && u.dvc.channel == (if w.dvc.channel.None? then Some(c) else w.dvc.channel)
      && (c in u.dvc.extras <==> w.dvc.channel.Some?)
      && u.dvc.pending == w.dvc.pending && u.dvc.outcomes == w.dvc.outcomes && u.dvc.handshake == w.dvc.handshake
  {
  }

  /** A recorded hello starts the agent's time anew: it was just heard from and owes nothing.
      A refused build is counted, and one whose channel was the primary leaves none. */
  lemma HelloMarks(w: World, c: nat, h: Handshake, now: int)
    requires Inv(w) && Enabled(w, Receives(c, Decoded(Message.Hello(h)), now))
    ensures var a := Receives(c, Decoded(Message.Hello(h)), now);
      var u := Apply(w, a).dvc;
      && (Replies(w, a) == [] ==> u.lastInbound == Some(now) && u.busyUntil.None?)
      && (Replies(w, a) != [] ==> u.lastInbound == w.dvc.lastInbound && u.busyUntil == w.dvc.busyUntil)
      && u.staleRejections == (if w.dvc.Accepts(h) then w.dvc.staleRejections
                               else if w.dvc.staleRejections < U32_MAX then w.dvc.staleRejections + 1 else U32_MAX)
      && (!w.dvc.Accepts(h) && w.dvc.channel == Some(c) ==> u.channel.None?)
      && (w.dvc.Accepts(h) <==> w.dvc.expectedBuild.None? || h.buildId == w.dvc.expectedBuild)
      && u.pending == w.dvc.pending && u.outcomes == w.dvc.outcomes
  {
  }

  /** Nobody registers under an id whose expired entry is still to be removed. */
  ghost predicate Patient(w: World, a: Action) {
    a.Registers? && w.dvc.Refuses(a.id, a.tx).None? ==>
      forall t :: t in w.elapsed ==> t < |w.log| && w.log[t] != a.id
  }

  ghost predicate PatientRun(w: World, acts: seq<Action>)
    requires Can(w, acts)
    decreases |acts|
  {
    acts != [] ==> Patient(w, acts[0]) && PatientRun(Apply(w, acts[0]), acts[1..])
  }

  /** No waiting request shares its id with an expired one. */
  ghost predicate NoClash(w: World) {
    && (forall t, u :: t in w.elapsed && 0 <= u < |w.log| && u !in w.dvc.outcomes ==>
          t < |w.log| && w.log[t] != w.log[u])
    && (forall t :: t in w.dvc.outcomes ==> w.dvc.outcomes[t] != Orphaned)
  }

  lemma NoneOrphaned(w: World, a: Action, t: nat)
    requires Inv(w) && NoClash(w) && Enabled(w, a) && t in Apply(w, a).dvc.outcomes
    ensures Apply(w, a).dvc.outcomes[t] != Orphaned
  {
    if t !in w.dvc.outcomes {
      InvStep(w, a);
      if t < |w.log| {
        HowRequestsEnd(w, a, t);
      }
    }
  }

  lemma StillApart(w: World, a: Action, t: nat, u: nat)
    requires Inv(w) && NoClash(w) && Enabled(w, a) && Patient(w, a)
    requires t in Apply(w, a).elapsed && u < |Apply(w, a).log| && u !in Apply(w, a).dvc.outcomes
    ensures t < |Apply(w, a).log| && Apply(w, a).log[t] != Apply(w, a).log[u]
  {
  }

  lemma StepKeepsNoClash(w: World, a: Action)
    requires Inv(w) && NoClash(w) && Enabled(w, a) && Patient(w, a)
    ensures NoClash(Apply(w, a))
  {
    var v := Apply(w, a);
    forall t | t in v.dvc.outcomes
      ensures v.dvc.outcomes[t] != Orphaned
    {
      NoneOrphaned(w, a, t);
    }
    forall t, u | t in v.elapsed && 0 <= u < |v.log| && u !in v.dvc.outcomes
      ensures t < |v.log| && v.log[t] != v.log[u]
    {
      StillApart(w, a, t, u);
    }
  }

  /** With that patience on the callers' side, every request ends by a reply, by the close
      or release of the primary, or by its own deadline. */
  lemma {:induction false} PatientRequestsAreNeverOrphaned(w: World, acts: seq<Action>)
    requires Inv(w) && NoClash(w) && Can(w, acts) && PatientRun(w, acts)
    ensures NoClash(After(w, acts))
    decreases |acts|
  {
    if acts != [] {
      StepKeepsNoClash(w, acts[0]);
      EveryRun(w, [acts[0]]);
      assert After(w, [acts[0]]) == Apply(w, acts[0]) by { assert [acts[0]][1..] == []; }
      PatientRequestsAreNeverOrphaned(Apply(w, acts[0]), acts[1..]);
    }
  }

  /** A waiting request can be cut off by somebody else's deadline exactly when an
      expired, not yet removed request used the same id. */
  lemma OrphanIff(w: World, u: nat)
    requires Inv(w) && u < |w.log| && u !in w.dvc.outcomes
    ensures
      (exists t: nat :: Enabled(w, Removes(t)) && u in Apply(w, Removes(t)).dvc.outcomes)
      <==> exists t: nat :: t in w.elapsed && t < |w.log| && w.log[t] == w.log[u]
  {
    assert w.dvc.pending[w.log[u]] == u;
    if t: nat :| t in w.elapsed && t < |w.log| && w.log[t] == w.log[u] {
      assert Enabled(w, Removes(t)) && u in Apply(w, Removes(t)).dvc.outcomes;
    }
  }

  lemma Then(w: World, a: Action, rest: seq<Action>)
    requires Enabled(w, a) && Can(Apply(w, a), rest)
    ensures Can(w, [a] + rest) && After(w, [a] + rest) == After(Apply(w, a), rest)
  {
    assert ([a] + rest)[1..] == rest;
  }

  /** It happens: a keyed request expires, its reply arrives before the entry is removed,
      another caller uses the same key - and the late removal cuts that one off. */
  lemma RetryWithSameKeyIsOrphaned() returns (acts: seq<Action>)
    ensures Can(Init(None, true), acts)
    ensures var u := After(Init(None, true), acts).dvc.outcomes; 1 in u && u[1] == Orphaned
  {
    var register := Registers("key", Ready, 10, true);
    var reply := Receives(1, Decoded(Message.Response("key", true)), 11);
    var w0 := Init(None, true);
    var w1 := Apply(w0, Opens(1));
    var w2 := Apply(w1, register);
    var w3 := Apply(w2, Elapses(0));
    var w4 := Apply(w3, reply);
    var w5 := Apply(w4, register);
    Then(w5, Removes(0), []);
    var a5 := [Removes(0)] + [];
    Then(w4, register, a5);
    var a4 := [register] + a5;
    Then(w3, reply, a4);
    var a3 := [reply] + a4;
    Then(w2, Elapses(0), a3);
    var a2 := [Elapses(0)] + a3;
    Then(w1, register, a2);
    Then(w0, Opens(1), [register] + a2);
    acts := [Opens(1)] + ([register] + a2);
  }

  /** First opener wins until it says hello: an agent of the right build that greets while
      a stale one still holds the slot is sent away, and when the stale one then greets it
      is sent away too. Both channels are open, both were told to exit, nobody is primary. */
  lemma BothAgentsTurnedAway(build: string, other: string) returns (acts: seq<Action>)
    requires build != other
    ensures Can(Init(Some(build), true), acts)
    ensures var w := After(Init(Some(build), true), acts);
      w.open == {1, 2} && w.told == {1, 2} && w.dvc.channel.None? && w.dvc.handshake.None? && w.dvc.wakeUps == 0
  {
    var right := Receives(2, Decoded(Message.Hello(Handshake(20, Some(build), None))), 5);
    var stale := Receives(1, Decoded(Message.Hello(Handshake(10, Some(other), None))), 6);
    var w0 := Init(Some(build), true);
    var w1 := Apply(w0, Opens(1));
    var w2 := Apply(w1, Opens(2));
    var w3 := Apply(w2, right);
    var w4 := Apply(w3, stale);
    Then(w3, stale, []);
    Then(w2, right, [stale] + []);
    Then(w1, Opens(2), [right] + ([stale] + []));
    Then(w0, Opens(1), [Opens(2)] + ([right] + ([stale] + [])));
    acts := [Opens(1)] + ([Opens(2)] + ([right] + ([stale] + [])));
  }
}
