/**
 The state an automation channel shares with the senders of requests: which agent is
 talked to, which others are waiting to exit, and the table of requests in flight.
 Each operation is one message or one lock section.
 */
module DvcChannel {
  import opened Wrappers

  const U32_MAX: nat := 0xFFFF_FFFF

  datatype Handshake = Handshake(pid: nat, buildId: Option<string>, instance: Option<string>)

  datatype Message =
    | Hello(handshake: Handshake)
    | Response(id: string, success: bool)
    | Request
    | Poll

  /** What arrives on a channel: a message, or bytes that do not decode to one. */
  datatype Payload = Decoded(message: Message) | Garbage

  /** The one request ever sent to an agent that is not adopted. */
  datatype Reply = Shutdown(channel: nat)

  /** How a registered request ends for the caller waiting on it. */
  datatype Outcome =
    | Replied(success: bool)
    | ChannelClosed
    | Released
    | TimedOut
    | Orphaned   // its entry was dropped without an answer

  datatype SendError = NotOpen | NoSender | StillInFlight | SendFailed

  datatype Sender = Missing | Gone | Ready

  /** The value of the shared state. Registrations are numbered; `pending` maps a request
      id to the registration waiting under it, `outcomes` says how registrations ended. */
  datatype Dvc = Dvc(
    pending: map<string, nat>,
    handshake: Option<Handshake>,
    channel: Option<nat>,
    extras: set<nat>,
    expectedBuild: Option<string>,
    staleRejections: nat,
    lastInbound: Option<int>,
    busyUntil: Option<int>,
    supervised: bool,
    wakeUps: nat,
    registered: nat,
    outcomes: map<nat, Outcome>)
  {
    predicate Accepts(h: Handshake) { expectedBuild.Some? ==> h.buildId == expectedBuild }

    function Start(c: nat): Dvc {
      if channel.None? then this.(channel := Some(c), extras := extras - {c})
      else this.(extras := extras + {c})
    }

    function Hello(c: nat, h: Handshake, now: int): (Dvc, seq<Reply>) {
      var isExtra := c in extras;
      if !Accepts(h) then
        (this.(staleRejections := if staleRejections < U32_MAX then staleRejections + 1 else U32_MAX,
               channel := if channel == Some(c) then None else channel,
               extras := extras + {c}),
         [Shutdown(c)])
      else if isExtra && channel.Some? && channel != Some(c) then (this, [Shutdown(c)])
      else
        (this.(extras := if isExtra then extras - {c} else extras,
               channel := if isExtra then Some(c) else channel,
               handshake := Some(h), lastInbound := Some(now), busyUntil := None),
         [])
    }

    function Deliver(t: nat, o: Outcome): map<nat, Outcome> {
      if t in outcomes then outcomes else outcomes[t := o]
    }

    function Respond(c: nat, id: string, success: bool, now: int): Dvc {
      if c in extras then this
      else if id in pending then
        this.(lastInbound := Some(now), outcomes := Deliver(pending[id], Replied(success)),
              pending := pending - {id})
      else this.(lastInbound := Some(now))
    }

    function Process(c: nat, p: Payload, now: int): (Dvc, seq<Reply>) {
      match p
      case Decoded(Hello(h)) => Hello(c, h, now)
      case Decoded(Response(id, success)) => (Respond(c, id, success, now), [])
      case _ => (this, [])
    }

    function Drain(o: Outcome): Dvc {
      this.(pending := map[], outcomes := Drained(pending, outcomes, o))
    }

    function Close(c: nat): Dvc {
      if c in extras then this.(extras := extras - {c})
      else if channel != Some(c) then this
      else
        this.(channel := None, handshake := None,
              wakeUps := if supervised then wakeUps + 1 else wakeUps).Drain(ChannelClosed)
    }

    function Release(c: nat): Dvc {
      if channel != Some(c) then this
      else
        this.(channel := None, handshake := None, lastInbound := None, busyUntil := None,
              extras := extras + {c}).Drain(Released)
    }

    function Refuses(id: string, tx: Sender): Option<SendError> {
      if channel.None? then Some(NotOpen)
      else if tx.Missing? then Some(NoSender)
      else if id in pending then Some(StillInFlight)
      else if tx.Gone? then Some(SendFailed)
      else None
    }

    function Register(id: string, tx: Sender, until: int, occupies: bool): Dvc {
      if Refuses(id, tx).Some? then this
      else
        this.(pending := pending[id := registered], registered := registered + 1,
              busyUntil := if occupies && (busyUntil.None? || until > busyUntil.value) then Some(until) else busyUntil)
    }

    /** The waiter of registration `t` stops listening. */
    function Elapse(t: nat): Dvc { this.(outcomes := Deliver(t, TimedOut)) }

    /** ... and then removes the entry under its id, whoever's it is by now. */
    function Remove(id: string): Dvc {
      if id in pending then this.(outcomes := Deliver(pending[id], Orphaned), pending := pending - {id})
      else this
    }
  }

  function Drained(p: map<string, nat>, outs: map<nat, Outcome>, o: Outcome): map<nat, Outcome> {
    map t | t in outs.Keys + p.Values :: if t in outs then outs[t] else o
  }

  const FRESH := Dvc(map[], None, None, {}, None, 0, None, None, false, 0, 0, map[])

  // ---------------------------------------------------------------- the object

  class DvcSharedState {
    var pending: map<string, nat>
    var handshake: Option<Handshake>
    var channelId: Option<nat>
    var extras: set<nat>
    var expectedBuildId: Option<string>
    var staleRejections: nat
    var lastInboundAt: Option<int>
    var busyUntil: Option<int>
    var closedNotify: bool
    var wakeUps: nat
    var registered: nat
    var outcomes: map<nat, Outcome>

    function View(): Dvc
      reads this
    {
      Dvc(pending, handshake, channelId, extras, expectedBuildId, staleRejections, lastInboundAt,
          busyUntil, closedNotify, wakeUps, registered, outcomes)
    }

    constructor (expectedBuildId: Option<string>, closedNotify: bool)
      ensures View() == FRESH.(expectedBuild := expectedBuildId, supervised := closedNotify)
    {
      pending, handshake, channelId, extras := map[], None, None, {};
      staleRejections, lastInboundAt, busyUntil, wakeUps := 0, None, None, 0;
      registered, outcomes := 0, map[];
      this.expectedBuildId := expectedBuildId;
      this.closedNotify := closedNotify;
    }

    method Start(c: nat)
      modifies this
      ensures View() == old(View()).Start(c)
    {
      extras := extras - {c};
      match channelId {
        case None => channelId := Some(c);
        case Some(_) => extras := extras + {c};
      }
    }

    method Process(c: nat, payload: Payload, now: int) returns (replies: seq<Reply>)
      modifies this
      ensures (View(), replies) == old(View()).Process(c, payload, now)
    {
      var isExtra := c in extras;
      replies := [];
      if payload.Garbage? {
        return;
      }
      match payload.message {
        case Hello(h) =>
          var promote := channelId.None? || channelId == Some(c);
          var stale := !(expectedBuildId.None? || h.buildId == expectedBuildId);
          if stale {
            staleRejections := if staleRejections < U32_MAX then staleRejections + 1 else U32_MAX;
            if channelId == Some(c) {
              channelId := None;
            }
            extras := extras + {c};
            return [Shutdown(c)];
          }
          if isExtra && !promote {
            return [Shutdown(c)];
          }
          if isExtra {
            extras := extras - {c};
            channelId := Some(c);
          }
          handshake := Some(h);
          lastInboundAt := Some(now);
          busyUntil := None;
        case Response(id, success) =>
          if isExtra {
            return;
          }
          lastInboundAt := Some(now);
          if id in pending {
            Send(pending[id], Replied(success));
            pending := pending - {id};
          }
        case _ =>
      }
    }

    /** Completes a oneshot; a receiver that is gone does not notice. */
    method Send(t: nat, o: Outcome)
      modifies this`outcomes
      ensures View() == old(View()).(outcomes := old(View()).Deliver(t, o))
    {
      if t !in outcomes {
        outcomes := outcomes[t := o];
      }
    }

    method FailPending(o: Outcome)
      modifies this`outcomes, this`pending
      ensures View() == old(View()).Drain(o)
    {
      var drained := pending;
      pending := map[];
      ghost var all := Drained(drained, outcomes, o);
      while drained != map[]
        invariant pending == map[] && Drained(drained, outcomes, o) == all
        decreases drained.Keys
      {
        var id :| id in drained;
        DrainOne(drained, outcomes, o, id);
        Send(drained[id], o);
        drained := drained - {id};
      }
      DrainedNone(outcomes, o);
    }

    method Close(c: nat)
      modifies this
      ensures View() == old(View()).Close(c)
    {
      if c in extras {
        extras := extras - {c};
        return;
      }
      if channelId != Some(c) {
        return;
      }
      channelId := None;
      handshake := None;
      if closedNotify {
        wakeUps := wakeUps + 1;
      }
      FailPending(ChannelClosed);
    }

    method ReleasePrimary(c: nat) returns (released: bool)
      modifies this
      ensures View() == old(View()).Release(c)
      ensures released <==> old(channelId) == Some(c)
    {
      if channelId != Some(c) {
        return false;
      }
      channelId := None;
      handshake := None;
      lastInboundAt := None;
      busyUntil := None;
      extras := extras + {c};
      FailPending(Released);
      return true;
    }

    /** The registration section of `send_request_inner`. */
    method Register(id: string, tx: Sender, until: int, occupies: bool)
      returns (r: Result<(nat, nat), SendError>)
      modifies this
      ensures View() == old(View()).Register(id, tx, until, occupies)
      ensures r == if old(View()).Refuses(id, tx).Some? then Err(old(View()).Refuses(id, tx).value)
                   else Ok((old(channelId).value, old(registered)))
    {
      if channelId.None? {
        return Err(NotOpen);
      }
      if tx.Missing? {
        return Err(NoSender);
      }
      if id in pending {
        return Err(StillInFlight);
      }
      if tx.Gone? {
        return Err(SendFailed);
      }
      pending := pending[id := registered];
      if occupies && (busyUntil.None? || until > busyUntil.value) {
        busyUntil := Some(until);
      }
      r := Ok((channelId.value, registered));
      registered := registered + 1;
    }

    /** The removal a waiter performs after its deadline. */
    method RemoveExpired(id: string)
      modifies this
      ensures View() == old(View()).Remove(id)
    {
      if id in pending {
        Send(pending[id], Orphaned);
        pending := pending - {id};
      }
    }
  }

  lemma DrainedNone(outs: map<nat, Outcome>, o: Outcome)
    ensures Drained(map[], outs, o) == outs
  {
  }

  lemma DrainOne(p: map<string, nat>, outs: map<nat, Outcome>, o: Outcome, id: string)
    requires id in p
    ensures
      Drained(p - {id}, if p[id] in outs then outs else outs[p[id] := o], o) == Drained(p, outs, o)
  {
    var q := p - {id};
    var outs' := if p[id] in outs then outs else outs[p[id] := o];
    assert outs'.Keys + q.Values == outs.Keys + p.Values by {
      forall t | t in p.Values ensures t in outs'.Keys + q.Values {
        var i :| i in p && p[i] == t;
        if i != id { assert i in q && q[i] == t; }
      }
    }
  }
}
