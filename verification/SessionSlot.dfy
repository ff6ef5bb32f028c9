/**
 The session slot and everything that races for it: `connect` handlers, frame
 processors that die, the accept loop's drop arm, and the teardown tasks it spawns.

 One step is one access to shared state. A lock section is a single step, except where
 the code reads something inside the section that others change without that lock (the
 generation counter, a processor's drop reason); there the section is split and the
 lock is held in between. Sessions are named by the generation of the connect that
 builds them.
 */
module SessionSlot {
  import opened Wrappers

  // Room in the drop-notification channel.
  const EVENT_CAPACITY := 8

  /** A frame processor. Its drop reason is set exactly in the cases `Died` lists. */
  datatype Proc =
    | NotStarted
    | Running
    | Stamped   // drop reason written, event not queued yet
    | Notified  // event queued; the processor is over
    | Stopped   // ended on request, no reason stamped
    | Aborted   // killed after stamping and before queuing its event
  {
    predicate Died() { Stamped? || Notified? || Aborted? }
  }

  /** How far one `connect` has got. */
  datatype Progress =
    | Claimed        // generation bumped, nothing else touched
    | Taken          // the previous session is out of the slot
    | Cleaned        // the previous automation state is gone
    | Ready          // own automation state created, or not wanted
    | Connected      // transport up, processor running, session not stored
    | Storing        // holds the slot lock, saw no drop reason
    | Bootstrapping  // session stored
    | Finished
  {
    predicate HasTransport() { Connected? || Storing? || Bootstrapping? }
  }

  datatype Connect = Connect(at: Progress, proc: Proc)

  datatype Phase =
    | Spawned
    | Clearing       // holds the slot lock, saw its own generation
    | SlotCleared
    | StreamStopped
    | Cleaning       // holds the automation lock, saw its own generation
    | TornDown       // goes on to the reconnect loop
    | Superseded     // returned early

  datatype Teardown = Teardown(dropped: nat, phase: Phase) {
    predicate Pending() { !phase.TornDown? && !phase.Superseded? }

    predicate PastClear() {
      phase.SlotCleared? || phase.StreamStopped? || phase.Cleaning? || phase.TornDown?
    }
  }

  datatype Holder = ByConnect(generation: nat) | ByTask(task: nat)

  /** The accept loop's drop arm, which handles one event at a time. */
  datatype Arm = Idle | Received(generation: nat) | Live(generation: nat)

  /** `connects[g]` is the connect of generation `g`; entry 0 stands for "before any". */
  datatype State = State(
    generation: nat,
    connects: seq<Connect>,
    slot: Option<nat>,
    slotLock: Option<Holder>,
    closing: set<nat>,          // sessions whose handle was taken or dropped
    automation: Option<nat>,    // the connect whose automation state is installed
    automationLock: Option<nat>,
    events: seq<nat>,
    arm: Arm,
    tasks: seq<Teardown>,
    late: set<nat>)             // history: stored by a connect that was no longer the latest

  datatype ConnectAction =
    | TakeOldSession
    | CleanOldAutomation
    | InitAutomation
    | SkipAutomation
    | TransportFails
    | TransportUp
    | CheckDropReason
    | StoreSession
    | Finish

  datatype ProcessorAction = StampDropReason | SendEvent | StopGracefully | Abort

  datatype AcceptLoopAction = ReceiveEvent | CompareGeneration | SpawnTeardown

  datatype TeardownAction =
    | CheckSlotOwner
    | ClearSlot
    | CheckStreamOwner
    | CheckAutomationOwner
    | CleanAutomation

  datatype UserAction = CleansAutomation | TakesSession

  datatype Action =
    | ClaimGeneration
    | ConnectDoes(g: nat, c: ConnectAction)
    | ProcessorDoes(g: nat, p: ProcessorAction)
    | AcceptLoopDoes(l: AcceptLoopAction)
    | TeardownDoes(t: nat, d: TeardownAction)
    | UserDoes(u: UserAction)

  function Init(): State {
    State(0, [Connect(Finished, NotStarted)], None, None, {}, None, None, [], Idle, [], {})
  }

  function Progressed(s: State, g: nat, at: Progress): seq<Connect>
    requires g < |s.connects|
  {
    s.connects[g := s.connects[g].(at := at)]
  }

  function Became(s: State, g: nat, proc: Proc): seq<Connect>
    requires g < |s.connects|
  {
    s.connects[g := s.connects[g].(proc := proc)]
  }

  /** `session.take()`, `*session = None`, or overwriting: the handle leaves the slot. */
  function EmptySlot(s: State): State {
    s.(slot := None, closing := s.closing + if s.slot.Some? then {s.slot.value} else {})
  }

  function Claim(s: State): State {
    s.(generation := s.generation + 1, connects := s.connects + [Connect(Claimed, NotStarted)])
  }

  predicate ConnectCan(s: State, g: nat, a: ConnectAction) {
    && 0 < g < |s.connects|
    && var at := s.connects[g].at;
       match a
       case TakeOldSession => at.Claimed? && s.slotLock.None?
       case CleanOldAutomation => at.Taken? && s.automationLock.None?
       case InitAutomation => at.Cleaned? && s.automationLock.None?
       case SkipAutomation => at.Cleaned?
       case TransportFails => at.Ready?
       case TransportUp => at.Ready?
       case CheckDropReason => at.Connected? && s.slotLock.None?
       case StoreSession => at.Storing?
       case Finish => at.Bootstrapping?
  }

  function ConnectStep(s: State, g: nat, a: ConnectAction): State
    requires ConnectCan(s, g, a)
  {
    match a
    case TakeOldSession => EmptySlot(s).(connects := Progressed(s, g, Taken))
    case CleanOldAutomation => s.(automation := None, connects := Progressed(s, g, Cleaned))
    case InitAutomation => s.(automation := Some(g), connects := Progressed(s, g, Ready))
    case SkipAutomation => s.(connects := Progressed(s, g, Ready))
    case TransportFails => s.(connects := Progressed(s, g, Finished))
    case TransportUp => s.(connects := s.connects[g := Connect(Connected, Running)])
    case CheckDropReason =>
      if s.connects[g].proc.Died() then
        s.(connects := Progressed(s, g, Finished), closing := s.closing + {g})
      else
        s.(connects := Progressed(s, g, Storing),
           slotLock := Some(ByConnect(g)),
           late := if g != s.generation then s.late + {g} else s.late)
    case StoreSession =>
      EmptySlot(s).(slot := Some(g), slotLock := None, connects := Progressed(s, g, Bootstrapping))
    case Finish => s.(connects := Progressed(s, g, Finished))
  }

  predicate ProcessorCan(s: State, g: nat, a: ProcessorAction) {
    && 0 < g < |s.connects|
    && var proc := s.connects[g].proc;
       match a
       case StampDropReason => proc.Running?
       case SendEvent => proc.Stamped? && |s.events| < EVENT_CAPACITY
       case StopGracefully => proc.Running? && g in s.closing
       case Abort => (proc.Running? || proc.Stamped?) && g in s.closing
  }

  function ProcessorStep(s: State, g: nat, a: ProcessorAction): State
    requires ProcessorCan(s, g, a)
  {
    match a
    case StampDropReason => s.(connects := Became(s, g, Stamped))
    case SendEvent => s.(connects := Became(s, g, Notified), events := s.events + [g])
    case StopGracefully => s.(connects := Became(s, g, Stopped))
    case Abort =>
      s.(connects := Became(s, g, if s.connects[g].proc.Running? then Stopped else Aborted))
  }

  predicate AcceptLoopCan(s: State, a: AcceptLoopAction) {
    match a
    case ReceiveEvent => s.arm.Idle? && s.events != []
    case CompareGeneration => s.arm.Received?
    case SpawnTeardown => s.arm.Live?
  }

  function AcceptLoopStep(s: State, a: AcceptLoopAction): State
    requires AcceptLoopCan(s, a)
  {
    match a
    case ReceiveEvent => s.(arm := Received(s.events[0]), events := s.events[1..])
    case CompareGeneration =>
      s.(arm := if s.arm.generation != s.generation then Idle else Live(s.arm.generation))
    case SpawnTeardown =>
      s.(arm := Idle, tasks := s.tasks + [Teardown(s.arm.generation, Spawned)])
  }

  predicate TeardownCan(s: State, t: nat, a: TeardownAction) {
    && t < |s.tasks|
    && var phase := s.tasks[t].phase;
       match a
       case CheckSlotOwner => phase.Spawned? && s.slotLock.None?
       case ClearSlot => phase.Clearing?
       case CheckStreamOwner => phase.SlotCleared?
       case CheckAutomationOwner => phase.StreamStopped? && s.automationLock.None?
       case CleanAutomation => phase.Cleaning?
  }

  function SetPhase(s: State, t: nat, p: Phase): State
    requires t < |s.tasks|
  {
    s.(tasks := s.tasks[t := s.tasks[t].(phase := p)])
  }

  function TeardownStep(s: State, t: nat, a: TeardownAction): State
    requires TeardownCan(s, t, a)
  {
    match a
    case CheckSlotOwner =>
      if s.tasks[t].dropped != s.generation then SetPhase(s, t, Superseded)
      else SetPhase(s, t, Clearing).(slotLock := Some(ByTask(t)))
    case ClearSlot => SetPhase(EmptySlot(s), t, SlotCleared).(slotLock := None)
    case CheckStreamOwner =>
      SetPhase(s, t, if s.tasks[t].dropped != s.generation then Superseded else StreamStopped)
    case CheckAutomationOwner =>
      if s.tasks[t].dropped != s.generation then SetPhase(s, t, Superseded)
      else SetPhase(s, t, Cleaning).(automationLock := Some(t))
    case CleanAutomation =>
      SetPhase(s, t, TornDown).(automation := None, automationLock := None)
  }

  predicate UserCan(s: State, a: UserAction) {
    match a
    case CleansAutomation => s.automationLock.None?
    case TakesSession => s.slotLock.None?
  }

  function UserStep(s: State, a: UserAction): State
    requires UserCan(s, a)
  {
    match a
    case CleansAutomation => s.(automation := None)
    case TakesSession => EmptySlot(s)
  }

  predicate Enabled(s: State, a: Action) {
    match a
    case ClaimGeneration => true
    case ConnectDoes(g, c) => ConnectCan(s, g, c)
    case ProcessorDoes(g, p) => ProcessorCan(s, g, p)
    case AcceptLoopDoes(l) => AcceptLoopCan(s, l)
    case TeardownDoes(t, d) => TeardownCan(s, t, d)
    case UserDoes(u) => UserCan(s, u)
  }

  function Apply(s: State, a: Action): State
    requires Enabled(s, a)
  {
    match a
    case ClaimGeneration => Claim(s)
    case ConnectDoes(g, c) => ConnectStep(s, g, c)
    case ProcessorDoes(g, p) => ProcessorStep(s, g, p)
    case AcceptLoopDoes(l) => AcceptLoopStep(s, l)
    case TeardownDoes(t, d) => TeardownStep(s, t, d)
    case UserDoes(u) => UserStep(s, u)
  }

  /** Performing `acts` one after the other from `s` is possible. */
  ghost predicate Can(s: State, acts: seq<Action>)
    decreases |acts|
  {
    acts != [] ==> Enabled(s, acts[0]) && Can(Apply(s, acts[0]), acts[1..])
  }

  ghost function After(s: State, acts: seq<Action>): State
    requires Can(s, acts)
    decreases |acts|
  {
    if acts == [] then s else After(Apply(s, acts[0]), acts[1..])
  }

  ghost predicate Reachable(s: State) {
    exists acts: seq<Action> :: Can(Init(), acts) && After(Init(), acts) == s
  }

  // ---------------------------------------------------------------- invariant

  ghost predicate ConnectsSound(s: State) {
    && |s.connects| == s.generation + 1
    && s.connects[0] == Connect(Finished, NotStarted)
    && (forall g :: g in s.closing || g in s.late ==> g < |s.connects|)
    && (forall g :: 0 <= g < |s.connects| ==>
          var c := s.connects[g];
          && (c.at.HasTransport() ==> !c.proc.NotStarted?)
          && (!c.proc.NotStarted? ==> c.at.HasTransport() || c.at.Finished?)
          && (c.proc.Stopped? || c.proc.Aborted? ==> g in s.closing)
          && (g in s.closing ==> c.at.Bootstrapping? || c.at.Finished?)
          && (g in s.late ==> !c.proc.NotStarted? && !c.at.Connected?)
          && (c.at.Storing? ==> s.slotLock == Some(ByConnect(g))))
  }

  ghost predicate SlotSound(s: State) {
    && (s.automation.Some? ==> s.automation.value <= s.generation)
    && (s.slot.Some? ==>
          var g := s.slot.value;
          && 0 < g < |s.connects| && g !in s.closing
          && !s.connects[g].proc.NotStarted?
          && (s.connects[g].at.Bootstrapping? || s.connects[g].at.Finished?))
  }

  /** A session stored by the then-latest connect is current until a later connect
      takes it out: every later connect is still before that step. */
  ghost predicate StoredOnTime(s: State, g: nat) {
    forall c :: g < c < |s.connects| ==> s.connects[c].at.Claimed?
  }

  ghost predicate LateSound(s: State) {
    && (s.slot.Some? && s.slot.value !in s.late ==> StoredOnTime(s, s.slot.value))
    && (s.slotLock.Some? && s.slotLock.value.ByConnect? && s.slotLock.value.generation !in s.late ==>
          StoredOnTime(s, s.slotLock.value.generation))
  }

  ghost predicate Over(s: State, g: nat) {
    0 < g < |s.connects| && s.connects[g].proc.Notified?
  }

  /** Everything a teardown task relies on: its session is over, what it found under
      its lock still bounds what it is about to wipe, and once it has cleared the slot
      its own session cannot be there again. */
  ghost predicate TaskSound(s: State, t: nat, d: Teardown) {
    && Over(s, d.dropped)
    && (d.phase.Clearing? ==>
          && s.slotLock == Some(ByTask(t))
          && (s.slot.Some? ==> s.slot.value <= d.dropped))
    && (d.phase.Cleaning? ==>
          && s.automationLock == Some(t)
          && (s.automation.Some? ==> s.automation.value <= d.dropped))
    && (d.PastClear() ==> s.slot != Some(d.dropped) && !s.connects[d.dropped].at.Storing?)
  }

  ghost predicate EventsSound(s: State) {
    && (forall k :: 0 <= k < |s.events| ==> Over(s, s.events[k]))
    && (!s.arm.Idle? ==> Over(s, s.arm.generation))
  }

  ghost predicate TasksSound(s: State) {
    forall t :: 0 <= t < |s.tasks| ==> TaskSound(s, t, s.tasks[t])
  }

  ghost predicate Sound(s: State) {
    && ConnectsSound(s)
    && SlotSound(s)
    && LateSound(s)
    && EventsSound(s)
    && TasksSound(s)
  }

  /** A drop event for `g` is queued, being looked at, or has become a teardown task
      that has not given up. */
  ghost predicate EventOutstanding(s: State, g: nat) {
    || (exists k :: 0 <= k < |s.events| && s.events[k] == g)
    || (!s.arm.Idle? && s.arm.generation == g)
    || (exists t :: 0 <= t < |s.tasks| && s.tasks[t].dropped == g && !s.tasks[t].phase.Superseded?)
  }

  /** Once the latest session's processor is over, somebody still knows. */
  ghost predicate DeathKnown(s: State) {
    Over(s, s.generation) ==> EventOutstanding(s, s.generation)
  }

  ghost predicate Inv(s: State) { Sound(s) && DeathKnown(s) }

  lemma ClaimKeepsSound(s: State)
    requires Sound(s)
    ensures Sound(Claim(s))
  {
  }

  lemma TakeKeepsSound(s: State, g: nat)
    requires Sound(s) && ConnectCan(s, g, TakeOldSession)
    ensures Sound(ConnectStep(s, g, TakeOldSession))
  {
  }

  lemma CleanKeepsSound(s: State, g: nat)
    requires Sound(s) && ConnectCan(s, g, CleanOldAutomation)
    ensures Sound(ConnectStep(s, g, CleanOldAutomation))
  {
  }

  lemma InitKeepsSound(s: State, g: nat)
    requires Sound(s) && ConnectCan(s, g, InitAutomation)
    ensures Sound(ConnectStep(s, g, InitAutomation))
  {
  }

  lemma SkipKeepsSound(s: State, g: nat)
    requires Sound(s) && ConnectCan(s, g, SkipAutomation)
    ensures Sound(ConnectStep(s, g, SkipAutomation))
  {
  }

  lemma FailKeepsSound(s: State, g: nat)
    requires Sound(s) && ConnectCan(s, g, TransportFails)
    ensures Sound(ConnectStep(s, g, TransportFails))
  {
  }

  lemma UpKeepsSound(s: State, g: nat)
    requires Sound(s) && ConnectCan(s, g, TransportUp)
    ensures Sound(ConnectStep(s, g, TransportUp))
  {
  }

  lemma FinishKeepsSound(s: State, g: nat)
    requires Sound(s) && ConnectCan(s, g, Finish)
    ensures Sound(ConnectStep(s, g, Finish))
  {
  }

  /** A processor seen alive under the lock has sent no event, so no teardown for this
      session can be past its clear. */
  lemma CheckKeepsSound(s: State, g: nat)
    requires Sound(s) && ConnectCan(s, g, CheckDropReason) && !s.connects[g].proc.Died()
    ensures Sound(ConnectStep(s, g, CheckDropReason))
  {
  }

  lemma RefusalKeepsSound(s: State, g: nat)
    requires Sound(s) && ConnectCan(s, g, CheckDropReason) && s.connects[g].proc.Died()
    ensures Sound(ConnectStep(s, g, CheckDropReason))
  {
  }

  lemma StoreKeepsSound(s: State, g: nat)
    requires Sound(s) && ConnectCan(s, g, StoreSession)
    ensures Sound(ConnectStep(s, g, StoreSession))
  {
  }

  lemma ConnectKeepsSound(s: State, g: nat, a: ConnectAction)
    requires Sound(s) && ConnectCan(s, g, a)
    ensures Sound(ConnectStep(s, g, a))
  {
    match a
    case TakeOldSession => TakeKeepsSound(s, g);
    case CleanOldAutomation => CleanKeepsSound(s, g);
    case InitAutomation => InitKeepsSound(s, g);
    case SkipAutomation => SkipKeepsSound(s, g);
    case TransportFails => FailKeepsSound(s, g);
    case TransportUp => UpKeepsSound(s, g);
    case CheckDropReason =>
      if s.connects[g].proc.Died() {
        RefusalKeepsSound(s, g);
      } else {
        CheckKeepsSound(s, g);
      }
    case StoreSession => StoreKeepsSound(s, g);
    case Finish => FinishKeepsSound(s, g);
  }

  lemma StampKeepsSound(s: State, g: nat)
    requires Sound(s) && ProcessorCan(s, g, StampDropReason)
    ensures Sound(ProcessorStep(s, g, StampDropReason))
  {
  }

  lemma SendKeepsSound(s: State, g: nat)
    requires Sound(s) && ProcessorCan(s, g, SendEvent)
    ensures Sound(ProcessorStep(s, g, SendEvent))
  {
  }

  lemma StopKeepsSound(s: State, g: nat)
    requires Sound(s) && ProcessorCan(s, g, StopGracefully)
    ensures Sound(ProcessorStep(s, g, StopGracefully))
  {
  }

  lemma AbortKeepsSound(s: State, g: nat)
    requires Sound(s) && ProcessorCan(s, g, Abort)
    ensures Sound(ProcessorStep(s, g, Abort))
  {
  }

  lemma ProcessorKeepsSound(s: State, g: nat, a: ProcessorAction)
    requires Sound(s) && ProcessorCan(s, g, a)
    ensures Sound(ProcessorStep(s, g, a))
  {
    match a
    case StampDropReason => StampKeepsSound(s, g);
    case SendEvent => SendKeepsSound(s, g);
    case StopGracefully => StopKeepsSound(s, g);
    case Abort => AbortKeepsSound(s, g);
  }

  lemma AcceptLoopKeepsSound(s: State, a: AcceptLoopAction)
    requires Sound(s) && AcceptLoopCan(s, a)
    ensures Sound(AcceptLoopStep(s, a))
  {
  }

  lemma OwnershipKeepsSound(s: State, t: nat)
    requires Sound(s) && TeardownCan(s, t, CheckSlotOwner) && s.tasks[t].dropped == s.generation
    ensures Sound(TeardownStep(s, t, CheckSlotOwner))
  {
  }

  lemma OvertakenKeepsSound(s: State, t: nat)
    requires Sound(s) && TeardownCan(s, t, CheckSlotOwner) && s.tasks[t].dropped != s.generation
    ensures Sound(TeardownStep(s, t, CheckSlotOwner))
  {
  }

  lemma ClearKeepsSound(s: State, t: nat)
    requires Sound(s) && TeardownCan(s, t, ClearSlot)
    ensures Sound(TeardownStep(s, t, ClearSlot))
  {
  }

  lemma StreamOwnershipKeepsSound(s: State, t: nat)
    requires Sound(s) && TeardownCan(s, t, CheckStreamOwner)
    ensures Sound(TeardownStep(s, t, CheckStreamOwner))
  {
  }

  lemma AutomationOwnershipKeepsSound(s: State, t: nat)
    requires Sound(s) && TeardownCan(s, t, CheckAutomationOwner) && s.tasks[t].dropped == s.generation
    ensures Sound(TeardownStep(s, t, CheckAutomationOwner))
  {
  }

  lemma SupersededKeepsSound(s: State, t: nat)
    requires Sound(s) && TeardownCan(s, t, CheckAutomationOwner) && s.tasks[t].dropped != s.generation
    ensures Sound(TeardownStep(s, t, CheckAutomationOwner))
  {
  }

  lemma CleaningKeepsSound(s: State, t: nat)
    requires Sound(s) && TeardownCan(s, t, CleanAutomation)
    ensures Sound(TeardownStep(s, t, CleanAutomation))
  {
  }

  lemma TeardownKeepsSound(s: State, t: nat, a: TeardownAction)
    requires Sound(s) && TeardownCan(s, t, a)
    ensures Sound(TeardownStep(s, t, a))
  {
    match a
    case CheckSlotOwner =>
      if s.tasks[t].dropped == s.generation {
        OwnershipKeepsSound(s, t);
      } else {
        OvertakenKeepsSound(s, t);
      }
    case ClearSlot => ClearKeepsSound(s, t);
    case CheckStreamOwner => StreamOwnershipKeepsSound(s, t);
    case CheckAutomationOwner =>
      if s.tasks[t].dropped == s.generation {
        AutomationOwnershipKeepsSound(s, t);
      } else {
        SupersededKeepsSound(s, t);
      }
    case CleanAutomation => CleaningKeepsSound(s, t);
  }

  lemma UserKeepsSound(s: State, a: UserAction)
    requires Sound(s) && UserCan(s, a)
    ensures Sound(UserStep(s, a))
  {
  }

  lemma StepKeepsSound(s: State, a: Action)
    requires Sound(s) && Enabled(s, a)
    ensures Sound(Apply(s, a))
  {
    match a
    case ClaimGeneration => ClaimKeepsSound(s);
    case ConnectDoes(g, c) => ConnectKeepsSound(s, g, c);
    case ProcessorDoes(g, p) => ProcessorKeepsSound(s, g, p);
    case AcceptLoopDoes(l) => AcceptLoopKeepsSound(s, l);
    case TeardownDoes(t, d) => TeardownKeepsSound(s, t, d);
    case UserDoes(u) => UserKeepsSound(s, u);
  }

  /** The accept loop and the tasks drop an event only after seeing a generation other
      than its own, so one for the latest generation is never lost. */
  lemma StepKeepsOutstanding(s: State, a: Action)
    requires Enabled(s, a) && !a.ClaimGeneration? && EventOutstanding(s, s.generation)
    ensures EventOutstanding(Apply(s, a), s.generation)
  {
    var u := Apply(s, a);
    if k :| 0 <= k < |s.events| && s.events[k] == s.generation {
      if a != AcceptLoopDoes(ReceiveEvent) {
        assert u.events[k] == s.generation;
      } else if k > 0 {
        assert u.events[k - 1] == s.generation;
      }
    } else if t :| 0 <= t < |s.tasks| && s.tasks[t].dropped == s.generation && !s.tasks[t].phase.Superseded? {
      assert u.tasks[t].dropped == s.generation && !u.tasks[t].phase.Superseded?;
    } else if a == AcceptLoopDoes(SpawnTeardown) {
      assert u.tasks[|s.tasks|].dropped == s.generation;
    }
  }

  lemma StepKeepsDeathKnown(s: State, a: Action)
    requires DeathKnown(s) && Enabled(s, a) && !a.ClaimGeneration?
    ensures DeathKnown(Apply(s, a))
  {
    if Over(s, s.generation) {
      StepKeepsOutstanding(s, a);
    } else if a == ProcessorDoes(s.generation, SendEvent) {
      assert Apply(s, a).events[|s.events|] == s.generation;
    }
  }

  lemma StepKeepsInv(s: State, a: Action)
    requires Inv(s) && Enabled(s, a)
    ensures Inv(Apply(s, a))
  {
    StepKeepsSound(s, a);
    if !a.ClaimGeneration? {
      StepKeepsDeathKnown(s, a);
    }
  }

  lemma {:induction false} RunKeepsInv(s: State, acts: seq<Action>)
    requires Inv(s) && Can(s, acts)
    ensures Inv(After(s, acts))
    decreases |acts|
  {
    if acts != [] {
      StepKeepsInv(s, acts[0]);
      RunKeepsInv(Apply(s, acts[0]), acts[1..]);
    }
  }

  lemma ReachableInv(s: State)
    requires Reachable(s)
    ensures Inv(s)
  {
    var acts: seq<Action> :| Can(Init(), acts) && After(Init(), acts) == s;
    RunKeepsInv(Init(), acts);
  }

  // ---------------------------------------------------------------- teardown safety

  lemma ClearsItsOwn(s: State, t: nat)
    requires Sound(s) && TeardownCan(s, t, ClearSlot) && s.slot.Some?
    ensures
      var g, dropped := s.slot.value, s.tasks[t].dropped;
      || (g == dropped && g < |s.connects| && s.connects[g].proc.Died())
      || (g < dropped && g in s.late)
  {
    var d := s.tasks[t];
    assert TaskSound(s, t, d);
    assert !s.connects[d.dropped].at.Claimed?;
  }

  /** Whatever the interleaving, overlapping connects included: a session leaves the
      slot only because a connect or the user takes it, because another connect stores
      over it, or because of a teardown - and then it is the very session whose death
      the teardown is for, or one stored by a connect that had already been superseded.
      Never one of a later generation. */
  lemma HowSessionsLeave(s: State, a: Action)
    requires Reachable(s) && Enabled(s, a)
    requires s.slot.Some? && Apply(s, a).slot != s.slot
    ensures s.slot.value in Apply(s, a).closing
    ensures
      var g := s.slot.value;
      || (a.ConnectDoes? && a.g != g && (a.c.TakeOldSession? || a.c.StoreSession?))
      || a == UserDoes(TakesSession)
      || (&& a.TeardownDoes? && a.d.ClearSlot?
          && var dropped := s.tasks[a.t].dropped;
             || (g == dropped && g < |s.connects| && s.connects[g].proc.Died())
             || (g < dropped && g in s.late))
  {
    ReachableInv(s);
    if a.TeardownDoes? {
      assert a.d.ClearSlot?;
      ClearsItsOwn(s, a.t);
    }
  }

  /** Automation state installed by a connect is wiped by a connect, by the user, or by
      the teardown of that generation or a later one - never of an earlier one. */
  lemma HowAutomationLeaves(s: State, a: Action)
    requires Reachable(s) && Enabled(s, a)
    requires s.automation.Some? && Apply(s, a).automation != s.automation
    ensures
      || (a.ConnectDoes? && (a.c.CleanOldAutomation? || a.c.InitAutomation?))
      || a == UserDoes(CleansAutomation)
      || (a.TeardownDoes? && a.d.CleanAutomation? && s.automation.value <= s.tasks[a.t].dropped)
  {
    ReachableInv(s);
    if a.TeardownDoes? {
      assert TaskSound(s, a.t, s.tasks[a.t]);
    }
  }

  // ---------------------------------------------------------------- what a run leaves

  /** What an action does to the slot, and to the automation state: named by who put it there. */
  function SlotAfter(before: Option<nat>, a: Action): Option<nat> {
    match a
    case ConnectDoes(g, StoreSession) => Some(g)
    case ConnectDoes(_, TakeOldSession) => None
    case TeardownDoes(_, ClearSlot) => None
    case UserDoes(TakesSession) => None
    case _ => before
  }

  function AutomationAfter(before: Option<nat>, a: Action): Option<nat> {
    match a
    case ConnectDoes(g, InitAutomation) => Some(g)
    case ConnectDoes(_, CleanOldAutomation) => None
    case TeardownDoes(_, CleanAutomation) => None
    case UserDoes(CleansAutomation) => None
    case _ => before
  }

  function LastSlot(before: Option<nat>, acts: seq<Action>): Option<nat>
    decreases |acts|
  {
    if acts == [] then before else LastSlot(SlotAfter(before, acts[0]), acts[1..])
  }

  function LastAutomation(before: Option<nat>, acts: seq<Action>): Option<nat>
    decreases |acts|
  {
    if acts == [] then before else LastAutomation(AutomationAfter(before, acts[0]), acts[1..])
  }

  lemma StepLeaves(s: State, a: Action)
    requires Enabled(s, a)
    ensures Apply(s, a).slot == SlotAfter(s.slot, a)
    ensures Apply(s, a).automation == AutomationAfter(s.automation, a)
  {
  }

  /** After any run the slot holds the session stored last, and the automation state is that of
      the connect that installed some last, unless either was taken or cleaned since. */
  lemma {:induction false} RunLeaves(s: State, acts: seq<Action>)
    requires Can(s, acts)
    ensures After(s, acts).slot == LastSlot(s.slot, acts)
    ensures After(s, acts).automation == LastAutomation(s.automation, acts)
    decreases |acts|
  {
    if acts != [] {
      StepLeaves(s, acts[0]);
      RunLeaves(Apply(s, acts[0]), acts[1..]);
    }
  }

  predicate TasksGoOn(before: seq<Teardown>, after: seq<Teardown>) {
    |before| <= |after| && forall t :: 0 <= t < |before| ==> after[t].dropped == before[t].dropped
  }

  lemma StepKeepsTasks(s: State, a: Action)
    requires Enabled(s, a)
    ensures TasksGoOn(s.tasks, Apply(s, a).tasks)
  {
  }

  lemma {:induction false} RunKeepsTasks(s: State, acts: seq<Action>)
    requires Can(s, acts)
    ensures TasksGoOn(s.tasks, After(s, acts).tasks)
    decreases |acts|
  {
    if acts != [] {
      StepKeepsTasks(s, acts[0]);
      RunKeepsTasks(Apply(s, acts[0]), acts[1..]);
    }
  }

  /** Nobody installs or cleans automation state but, perhaps, a teardown of a generation before `g`. */
  predicate LeavesAlone(a: Action, g: nat, tasks: seq<Teardown>) {
    && (a.ConnectDoes? ==> !a.c.InitAutomation? && !a.c.CleanOldAutomation?)
    && a != UserDoes(CleansAutomation)
    && (a.TeardownDoes? && a.d.CleanAutomation? ==> a.t < |tasks| && tasks[a.t].dropped < g)
  }

  lemma {:induction false} InstalledStays(s: State, g: nat, acts: seq<Action>)
    requires Inv(s) && Can(s, acts) && s.automation == Some(g)
    requires forall k :: 0 <= k < |acts| ==> LeavesAlone(acts[k], g, After(s, acts).tasks)
    ensures After(s, acts).automation == Some(g)
    decreases |acts|
  {
    if acts != [] {
      var a := acts[0];
      assert LeavesAlone(a, g, After(s, acts).tasks);
      RunKeepsTasks(s, acts);
      StepLeaves(s, a);
      StepKeepsInv(s, a);
      if a.TeardownDoes? && a.d.CleanAutomation? {
        assert TaskSound(s, a.t, s.tasks[a.t]);
      }
      forall k | 0 <= k < |acts[1..]|
        ensures LeavesAlone(acts[1..][k], g, After(s, acts).tasks)
      {
        assert acts[1..][k] == acts[k + 1];
      }
      InstalledStays(Apply(s, a), g, acts[1..]);
    }
  }

  /** Automation state that a connect installs is there until a later connect installs or cleans,
      the user cleans, or the teardown of that connect's generation or a later one does. */
  lemma InstalledUntilCleaned(before: seq<Action>, g: nat, after: seq<Action>)
    requires Can(Init(), before) && Enabled(After(Init(), before), ConnectDoes(g, InitAutomation))
    requires var s := Apply(After(Init(), before), ConnectDoes(g, InitAutomation));
      Can(s, after) && forall k :: 0 <= k < |after| ==> LeavesAlone(after[k], g, After(s, after).tasks)
    ensures After(Apply(After(Init(), before), ConnectDoes(g, InitAutomation)), after).automation == Some(g)
  {
    var s := After(Init(), before);
    RunKeepsInv(Init(), before);
    StepKeepsInv(s, ConnectDoes(g, InitAutomation));
    StepLeaves(s, ConnectDoes(g, InitAutomation));
    InstalledStays(Apply(s, ConnectDoes(g, InitAutomation)), g, after);
  }

  /** The drop-notification channel never holds more than it has room for. */
  lemma {:induction false} EventsFit(s: State, acts: seq<Action>)
    requires |s.events| <= 8 && Can(s, acts)
    ensures |After(s, acts).events| <= 8
    decreases |acts|
  {
    if acts != [] {
      EventsFit(Apply(s, acts[0]), acts[1..]);
    }
  }

  // ---------------------------------------------------------------- every task gets on

  function Rank(at: Progress): nat {
    match at
    case Claimed => 7
    case Taken => 6
    case Cleaned => 5
    case Ready => 4
    case Connected => 3
    case Storing => 2
    case Bootstrapping => 1
    case Finished => 0
  }

  function ProcRank(proc: Proc): nat {
    match proc
    case NotStarted => 3
    case Running => 2
    case Stamped => 1
    case Notified => 0
    case Stopped => 0
    case Aborted => 0
  }

  function PhaseRank(phase: Phase): nat {
    match phase
    case Spawned => 5
    case Clearing => 4
    case SlotCleared => 3
    case StreamStopped => 2
    case Cleaning => 1
    case TornDown => 0
    case Superseded => 0
  }

  /** Every step of a connect, a processor or a teardown brings it closer to its end: none can
      go on for ever. */
  lemma EveryStepProgresses(s: State, a: Action)
    requires Enabled(s, a)
    ensures a.ConnectDoes? ==> Rank(Apply(s, a).connects[a.g].at) < Rank(s.connects[a.g].at)
    ensures a.ProcessorDoes? ==> ProcRank(Apply(s, a).connects[a.g].proc) < ProcRank(s.connects[a.g].proc)
    ensures a.TeardownDoes? ==> PhaseRank(Apply(s, a).tasks[a.t].phase) < PhaseRank(s.tasks[a.t].phase)
  {
  }

  /** How a processor ends: an event is queued only after a stamp; told to stop, it leaves no
      stamp; killed, it keeps the stamp it had, and never queues its event. */
  lemma ProcessorMoves(s: State, g: nat, a: ProcessorAction)
    requires ProcessorCan(s, g, a)
    ensures var p, q := s.connects[g].proc, ProcessorStep(s, g, a).connects[g].proc;
      && (a.StampDropReason? ==> p.Running? && q.Stamped?)
      && (a.SendEvent? ==> p.Stamped? && q.Notified? && ProcessorStep(s, g, a).events == s.events + [g])
      && (!a.SendEvent? ==> ProcessorStep(s, g, a).events == s.events)
      && (a.StopGracefully? ==> q.Stopped?)
      && (a.Abort? ==> (q.Aborted? <==> p.Stamped?) && (q.Stopped? <==> p.Running?))
  {
  }

  /** What a teardown finds decides: its own generation the latest, it goes on; otherwise it
      returns and touches nothing. */
  lemma TeardownDecides(s: State, t: nat, a: TeardownAction)
    requires TeardownCan(s, t, a) && (a.CheckSlotOwner? || a.CheckStreamOwner? || a.CheckAutomationOwner?)
    ensures var u := TeardownStep(s, t, a);
      && (u.tasks[t].phase.Superseded? <==> s.tasks[t].dropped != s.generation)
      && (u.tasks[t].phase.Superseded? ==> u == s.(tasks := u.tasks))
      && u.slot == s.slot && u.automation == s.automation
  {
  }

  /** While somebody holds a lock, nobody else changes what it guards. */
  lemma LocksHold(s: State, a: Action)
    requires Enabled(s, a)
    ensures s.automationLock.Some? && Apply(s, a).automation != s.automation ==>
      a.TeardownDoes? && a.d.CleanAutomation?
    ensures s.slotLock.Some? && Apply(s, a).slot != s.slot ==>
      (a.TeardownDoes? && a.d.ClearSlot?) || (a.ConnectDoes? && a.c.StoreSession?)
    ensures a.ConnectDoes? && (a.c.CleanOldAutomation? || a.c.InitAutomation?) ==> s.automationLock.None?
    ensures a == UserDoes(CleansAutomation) ==> s.automationLock.None?
  {
  }

  /** A session that was built and whose connect is past storing it is in the slot, or its
      handle was taken or dropped. */
  ghost predicate Kept(s: State, g: nat)
    requires g < |s.connects|
  {
    var c := s.connects[g];
    !c.proc.NotStarted? && (c.at.Bootstrapping? || c.at.Finished?) ==> s.slot == Some(g) || g in s.closing
  }

  ghost predicate NoLeaks(s: State) { forall g :: 0 <= g < |s.connects| ==> Kept(s, g) }

  lemma ConnectKeeps(s: State, h: nat, a: ConnectAction, g: nat)
    requires ConnectsSound(s) && ConnectCan(s, h, a) && g < |s.connects| && Kept(s, g)
    ensures Kept(ConnectStep(s, h, a), g)
  {
  }

  lemma ProcessorKeeps(s: State, h: nat, a: ProcessorAction, g: nat)
    requires ProcessorCan(s, h, a) && g < |s.connects| && Kept(s, g)
    ensures Kept(ProcessorStep(s, h, a), g)
  {
  }

  lemma TeardownKeeps(s: State, t: nat, a: TeardownAction, g: nat)
    requires TeardownCan(s, t, a) && g < |s.connects| && Kept(s, g)
    ensures Kept(TeardownStep(s, t, a), g)
  {
  }

  lemma StepKeepsNoLeaks(s: State, a: Action)
    requires Inv(s) && NoLeaks(s) && Enabled(s, a)
    ensures NoLeaks(Apply(s, a))
  {
    var u := Apply(s, a);
    forall g | 0 <= g < |u.connects|
      ensures Kept(u, g)
    {
      if g < |s.connects| {
        assert Kept(s, g);
        match a
        case ClaimGeneration =>
        case ConnectDoes(h, c) => ConnectKeeps(s, h, c, g);
        case ProcessorDoes(h, p) => ProcessorKeeps(s, h, p, g);
        case AcceptLoopDoes(_) =>
        case TeardownDoes(t, d) => TeardownKeeps(s, t, d, g);
        case UserDoes(_) =>
      }
    }
  }

  /** In every run: no session is left behind. */
  lemma {:induction false} NothingLeaks(s: State, acts: seq<Action>)
    requires Inv(s) && NoLeaks(s) && Can(s, acts)
    ensures NoLeaks(After(s, acts))
    decreases |acts|
  {
    if acts != [] {
      StepKeepsNoLeaks(s, acts[0]);
      StepKeepsInv(s, acts[0]);
      NothingLeaks(Apply(s, acts[0]), acts[1..]);
    }
  }

  // ---------------------------------------------------------------- no corpse left

  /** No connect running, no processor between stamping and sending, no drop event and
      no teardown outstanding. */
  ghost predicate Quiescent(s: State) {
    && (forall g :: 0 <= g < |s.connects| ==>
          s.connects[g].at.Finished? && !s.connects[g].proc.Stamped?)
    && s.events == []
    && s.arm.Idle?
    && (forall t :: 0 <= t < |s.tasks| ==> !s.tasks[t].Pending())
  }

  /** The slot holds a session whose processor has died. */
  ghost predicate Corpse(s: State) {
    s.slot.Some? && s.slot.value < |s.connects| && s.connects[s.slot.value].proc.Died()
  }

  /** The event of a death in the latest session ended in a teardown that ran to its end. */
  lemma LatestDeathIsTornDown(s: State)
    requires Inv(s) && Quiescent(s) && Over(s, s.generation)
    ensures s.slot != Some(s.generation)
  {
    var t :| 0 <= t < |s.tasks| && s.tasks[t].dropped == s.generation && !s.tasks[t].phase.Superseded?;
    assert TaskSound(s, t, s.tasks[t]);
  }

  /** When everything has settled, a dead session can sit in the slot only if the
      connect that stored it was no longer the latest one at that moment. */
  lemma QuiescentCorpseIsLate(s: State)
    requires Inv(s) && Quiescent(s) && Corpse(s)
    ensures s.slot.value < s.generation && s.slot.value in s.late
  {
    if Over(s, s.generation) {
      LatestDeathIsTornDown(s);
    }
    assert s.connects[s.generation].at.Finished?;
  }

  /** Connects do not overlap: a generation is claimed only when no connect is running. */
  ghost predicate Sequential(s: State, acts: seq<Action>)
    requires Can(s, acts)
    decreases |acts|
  {
    acts != [] ==>
      && (acts[0].ClaimGeneration? ==> forall g :: 0 <= g < |s.connects| ==> s.connects[g].at.Finished?)
      && Sequential(Apply(s, acts[0]), acts[1..])
  }

  ghost predicate OneAtATime(s: State) {
    s.late == {} && forall g :: 0 <= g < |s.connects| - 1 ==> s.connects[g].at.Finished?
  }

  lemma ConnectKeepsOneAtATime(s: State, g: nat, c: ConnectAction)
    requires ConnectsSound(s) && OneAtATime(s) && ConnectCan(s, g, c)
    ensures OneAtATime(ConnectStep(s, g, c))
  {
    assert g == |s.connects| - 1;
  }

  lemma ProcessorKeepsOneAtATime(s: State, g: nat, p: ProcessorAction)
    requires OneAtATime(s) && ProcessorCan(s, g, p)
    ensures OneAtATime(ProcessorStep(s, g, p))
  {
  }

  lemma SameConnects(s: State, u: State)
    requires OneAtATime(s) && u.connects == s.connects && u.late == s.late
    ensures OneAtATime(u)
  {
  }

  lemma StepKeepsOneAtATime(s: State, a: Action)
    requires Inv(s) && OneAtATime(s) && Enabled(s, a)
    requires a.ClaimGeneration? ==> forall g :: 0 <= g < |s.connects| ==> s.connects[g].at.Finished?
    ensures OneAtATime(Apply(s, a))
  {
    match a
    case ConnectDoes(g, c) => ConnectKeepsOneAtATime(s, g, c);
    case ProcessorDoes(g, p) => ProcessorKeepsOneAtATime(s, g, p);
    case AcceptLoopDoes(l) => SameConnects(s, AcceptLoopStep(s, l));
    case TeardownDoes(t, d) => SameConnects(s, TeardownStep(s, t, d));
    case UserDoes(u) => SameConnects(s, UserStep(s, u));
    case ClaimGeneration =>
  }

  lemma {:induction false} SequentialIsNeverLate(s: State, acts: seq<Action>)
    requires Inv(s) && OneAtATime(s) && Can(s, acts) && Sequential(s, acts)
    ensures OneAtATime(After(s, acts))
    decreases |acts|
  {
    if acts != [] {
      StepKeepsInv(s, acts[0]);
      StepKeepsOneAtATime(s, acts[0]);
      SequentialIsNeverLate(Apply(s, acts[0]), acts[1..]);
    }
  }

  /** With connects that do not overlap, once everything has settled the slot is empty
      or holds a session whose processor has not died - in every interleaving of the
      processors, the accept loop, the teardown tasks and the user. */
  lemma NoCorpse(acts: seq<Action>)
    requires Can(Init(), acts) && Sequential(Init(), acts) && Quiescent(After(Init(), acts))
    ensures !Corpse(After(Init(), acts))
  {
    RunKeepsInv(Init(), acts);
    SequentialIsNeverLate(Init(), acts);
    if Corpse(After(Init(), acts)) {
      QuiescentCorpseIsLate(After(Init(), acts));
    }
  }

  // ---------------------------------------------------------------- automation of the dead

  /** A teardown of the latest session that ran to its end left no automation state behind. */
  ghost predicate AutomationGone(s: State) {
    forall t :: 0 <= t < |s.tasks| && s.tasks[t].phase.TornDown? && s.tasks[t].dropped == s.generation ==>
      s.automation.None?
  }

  /** Only the connect of the latest generation could install some, and its session is over. */
  lemma StepKeepsAutomationGone(s: State, a: Action)
    requires Inv(s) && OneAtATime(s) && AutomationGone(s) && Enabled(s, a)
    ensures AutomationGone(Apply(s, a))
  {
    var u := Apply(s, a);
    forall t | 0 <= t < |u.tasks| && u.tasks[t].phase.TornDown? && u.tasks[t].dropped == u.generation
      ensures u.automation.None?
    {
      assert t < |s.tasks| ==> TaskSound(s, t, s.tasks[t]);
    }
  }

  lemma {:induction false} AutomationStaysGone(s: State, acts: seq<Action>)
    requires Inv(s) && OneAtATime(s) && AutomationGone(s) && Can(s, acts) && Sequential(s, acts)
    ensures AutomationGone(After(s, acts))
    decreases |acts|
  {
    if acts != [] {
      StepKeepsInv(s, acts[0]);
      StepKeepsOneAtATime(s, acts[0]);
      StepKeepsAutomationGone(s, acts[0]);
      AutomationStaysGone(Apply(s, acts[0]), acts[1..]);
    }
  }

  /** With connects that do not overlap: once everything has settled and the latest session's
      processor is over, neither that session nor any automation state is left. */
  lemma NothingLeftOfTheDead(acts: seq<Action>)
    requires Can(Init(), acts) && Sequential(Init(), acts) && Quiescent(After(Init(), acts))
    requires Over(After(Init(), acts), After(Init(), acts).generation)
    ensures After(Init(), acts).automation.None?
    ensures After(Init(), acts).slot != Some(After(Init(), acts).generation)
  {
    var s := After(Init(), acts);
    RunKeepsInv(Init(), acts);
    AutomationStaysGone(Init(), acts);
    LatestDeathIsTornDown(s);
    var t :| 0 <= t < |s.tasks| && s.tasks[t].dropped == s.generation && !s.tasks[t].phase.Superseded?;
    assert s.tasks[t].phase.TornDown?;
  }

  ghost predicate NoClaims(acts: seq<Action>) {
    forall i :: 0 <= i < |acts| ==> !acts[i].ClaimGeneration?
  }

  /** Without a new connect, what is in the slot stays or goes; nothing replaces it. */
  lemma {:induction false} SlotOnlyEmpties(s: State, acts: seq<Action>)
    requires Inv(s) && Can(s, acts) && NoClaims(acts)
    requires forall g :: 0 <= g < |s.connects| ==> s.connects[g].at.Finished?
    ensures After(s, acts).generation == s.generation
    ensures After(s, acts).slot == s.slot || After(s, acts).slot == None
    decreases |acts|
  {
    if acts != [] {
      StepKeepsInv(s, acts[0]);
      SlotOnlyEmpties(Apply(s, acts[0]), acts[1..]);
    }
  }

  /** The death of a session whose event is ignored as stale. */
  function SilentDeath(g: nat): seq<Action> {
    [ProcessorDoes(g, StampDropReason)] + ([ProcessorDoes(g, SendEvent)] +
    ([AcceptLoopDoes(ReceiveEvent)] + ([AcceptLoopDoes(CompareGeneration)] + [])))
  }

  lemma Then(s: State, a: Action, rest: seq<Action>)
    requires Enabled(s, a) && Can(Apply(s, a), rest)
    ensures Can(s, [a] + rest) && After(s, [a] + rest) == After(Apply(s, a), rest)
  {
    assert ([a] + rest)[1..] == rest;
  }

  lemma SilentDeathLeavesCorpse(s: State)
    requires Inv(s) && Quiescent(s) && s.slot.Some? && s.slot.value != s.generation
    requires s.connects[s.slot.value].proc.Running?
    ensures Can(s, SilentDeath(s.slot.value))
    ensures Quiescent(After(s, SilentDeath(s.slot.value))) && Corpse(After(s, SilentDeath(s.slot.value)))
  {
    var g := s.slot.value;
    var s1 := ProcessorStep(s, g, StampDropReason);
    var s2 := ProcessorStep(s1, g, SendEvent);
    var s3 := AcceptLoopStep(s2, ReceiveEvent);
    var s4 := AcceptLoopStep(s3, CompareGeneration);
    Then(s3, AcceptLoopDoes(CompareGeneration), []);
    Then(s2, AcceptLoopDoes(ReceiveEvent), [AcceptLoopDoes(CompareGeneration)] + []);
    Then(s1, ProcessorDoes(g, SendEvent), [AcceptLoopDoes(ReceiveEvent)] + ([AcceptLoopDoes(CompareGeneration)] + []));
    Then(s, ProcessorDoes(g, StampDropReason), [ProcessorDoes(g, SendEvent)] +
      ([AcceptLoopDoes(ReceiveEvent)] + ([AcceptLoopDoes(CompareGeneration)] + [])));
    assert s4.events == [];
  }

  lemma LeaveCorpse(s: State) returns (acts: seq<Action>)
    requires Inv(s) && Quiescent(s) && s.slot.Some? && s.slot.value != s.generation
    ensures Can(s, acts) && NoClaims(acts) && Quiescent(After(s, acts)) && Corpse(After(s, acts))
  {
    var g := s.slot.value;
    if s.connects[g].proc.Running? {
      SilentDeathLeavesCorpse(s);
      acts := SilentDeath(g);
    } else {
      acts := [];
    }
  }

  /** The exact condition: from a settled state the slot can come to hold a corpse for
      good, without any further connect, if and only if the session in it is not of the
      latest generation. `connect` could test that under the slot lock before storing;
      it does not. */
  lemma CorpsePossibleIff(s: State)
    requires Reachable(s) && Quiescent(s) && s.slot.Some?
    ensures
      (exists acts: seq<Action> :: Can(s, acts) && NoClaims(acts) && Quiescent(After(s, acts)) && Corpse(After(s, acts)))
      <==> s.slot.value != s.generation
  {
    ReachableInv(s);
    forall acts: seq<Action> | Can(s, acts) && NoClaims(acts) && Quiescent(After(s, acts)) && Corpse(After(s, acts))
      ensures s.slot.value != s.generation
    {
      RunKeepsInv(s, acts);
      SlotOnlyEmpties(s, acts);
      QuiescentCorpseIsLate(After(s, acts));
    }
    if s.slot.value != s.generation {
      var acts := LeaveCorpse(s);
    }
  }

  lemma {:induction false} Append(s: State, acts: seq<Action>, a: Action)
    requires Can(s, acts) && Enabled(After(s, acts), a)
    ensures Can(s, acts + [a]) && After(s, acts + [a]) == Apply(After(s, acts), a)
    decreases |acts|
  {
    if acts == [] {
      Then(s, a, []);
    } else {
      Append(Apply(s, acts[0]), acts[1..], a);
      assert (acts + [a])[1..] == acts[1..] + [a];
    }
  }

  lemma Extend(s: State, a: Action)
    requires Reachable(s) && Enabled(s, a)
    ensures Reachable(Apply(s, a))
  {
    var acts: seq<Action> :| Can(Init(), acts) && After(Init(), acts) == s;
    Append(Init(), acts, a);
  }

  lemma {:induction false} ReachAfter(s: State, acts: seq<Action>)
    requires Reachable(s) && Can(s, acts)
    ensures Reachable(After(s, acts))
    decreases |acts|
  {
    if acts != [] {
      Extend(s, acts[0]);
      ReachAfter(Apply(s, acts[0]), acts[1..]);
    }
  }

  lemma TransportUpReachable(s: State)
    returns (u: State)
    requires Reachable(s) && s.slotLock.None? && s.automationLock.None? && s.slot.None? && s.automation.None?
    requires |s.connects| == s.generation + 1
    ensures Reachable(u)
    ensures u == s.(generation := s.generation + 1, connects := s.connects + [Connect(Connected, Running)])
  {
    var g := s.generation + 1;
    Extend(s, ClaimGeneration);
    var s1 := Claim(s);
    Extend(s1, ConnectDoes(g, TakeOldSession));
    var s2 := ConnectStep(s1, g, TakeOldSession);
    Extend(s2, ConnectDoes(g, CleanOldAutomation));
    var s3 := ConnectStep(s2, g, CleanOldAutomation);
    Extend(s3, ConnectDoes(g, SkipAutomation));
    var s4 := ConnectStep(s3, g, SkipAutomation);
    Extend(s4, ConnectDoes(g, TransportUp));
    u := ConnectStep(s4, g, TransportUp);
    assert u.connects == s.connects + [Connect(Connected, Running)];
  }

  lemma StoreReachable(s: State, g: nat)
    returns (u: State)
    requires Reachable(s) && s.slotLock.None? && 0 < g < |s.connects| && s.connects[g] == Connect(Connected, Running)
    ensures Reachable(u)
    ensures u == EmptySlot(s).(slot := Some(g), connects := Progressed(s, g, Finished),
                               late := if g != s.generation then s.late + {g} else s.late)
  {
    Extend(s, ConnectDoes(g, CheckDropReason));
    var s1 := ConnectStep(s, g, CheckDropReason);
    Extend(s1, ConnectDoes(g, StoreSession));
    var s2 := ConnectStep(s1, g, StoreSession);
    Extend(s2, ConnectDoes(g, Finish));
    u := ConnectStep(s2, g, Finish);
    assert u.connects == Progressed(s, g, Finished);
  }

  /** A session with automation can be up: in the slot, of the latest generation, alive, and
      everything settled. */
  lemma AutomationCanBeUp() returns (v: State)
    ensures Reachable(v) && Quiescent(v) && v.generation == 1 && v.slot == Some(1) && v.automation == Some(1)
    ensures |v.connects| == 2 && v.connects[1] == Connect(Finished, Running)
  {
    assert Can(Init(), []) && After(Init(), []) == Init();
    var s := ReadyReachable();
    Extend(s, ConnectDoes(1, TransportUp));
    var u := ConnectStep(s, 1, TransportUp);
    v := StoreReachable(u, 1);
  }

  lemma ReadyReachable() returns (s: State)
    ensures Reachable(s)
    ensures s == Init().(generation := 1, connects := [Connect(Finished, NotStarted), Connect(Ready, NotStarted)], automation := Some(1))
  {
    assert Can(Init(), []) && After(Init(), []) == Init();
    Extend(Init(), ClaimGeneration);
    var s1 := Claim(Init());
    Extend(s1, ConnectDoes(1, TakeOldSession));
    var s2 := ConnectStep(s1, 1, TakeOldSession);
    Extend(s2, ConnectDoes(1, CleanOldAutomation));
    var s3 := ConnectStep(s2, 1, CleanOldAutomation);
    Extend(s3, ConnectDoes(1, InitAutomation));
    s := ConnectStep(s3, 1, InitAutomation);
  }

  /** Two overlapping connects: the first one reaches the host after the second has
      stored its session, stores over it, and dies. Its event is stale, so nothing ever
      removes it: the slot keeps a corpse although everything has settled. */
  lemma OverlappingConnectsLeaveCorpse()
    ensures exists s: State :: Reachable(s) && Quiescent(s) && Corpse(s) && s.slot == Some(1) && s.generation == 2
  {
    assert Can(Init(), []) && After(Init(), []) == Init();
    assert Reachable(Init());
    var s1 := TransportUpReachable(Init());
    var s2 := TransportUpReachable(s1);
    var s3 := StoreReachable(s2, 2);
    var s4 := StoreReachable(s3, 1);
    ReachableInv(s4);
    SilentDeathLeavesCorpse(s4);
    var s5 := After(s4, SilentDeath(1));
    ReachAfter(s4, SilentDeath(1));
    SlotOnlyEmpties(s4, SilentDeath(1));
  }
}
