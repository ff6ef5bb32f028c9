/**
 Input as it leaves the daemon: every send is awaited and either acknowledged or reported
 lost; sleeping and sending let time pass. A send is reported lost when it could not be
 queued, when the processor says so, or when its reply is late; in the last case it is still
 queued and may take effect, after what was queued before it and before what comes next.
 */
module Transport {
  import opened Wrappers
  import opened KeyNames

  datatype Event = Down(key: Key) | Up(key: Key) | UnitDown(code: nat) | UnitUp(code: nat)

  type Error = string

  datatype Fate = Acked(took: nat) | Lost(error: Error, took: nat, landed: bool) {
    function Failure(): Option<Error> { if Lost? then Some(error) else None }

    /** Whether the remote desktop gets it. */
    predicate Lands() { Acked? || landed }
  }

  /** What becomes of each send, by its number. */
  type Fates = nat -> Fate

  /** What the daemon is told of a send, and what the remote desktop got. */
  datatype Attempt = Attempt(events: seq<Event>, error: Option<Error>, landed: bool)

  function Attempted(events: seq<Event>, fates: Fates, call: nat): Attempt {
    Attempt(events, fates(call).Failure(), fates(call).Lands())
  }

  function FirstError(attempts: seq<Attempt>): Option<Error> {
    if attempts == [] then None
    else if attempts[0].error.Some? then attempts[0].error
    else FirstError(attempts[1..])
  }

  lemma {:induction false} FirstErrorOfBoth(a: seq<Attempt>, b: seq<Attempt>)
    ensures FirstError(a + b) == if FirstError(a).Some? then FirstError(a) else FirstError(b)
  {
    if a == [] {
      assert a + b == b;
    } else {
      FirstErrorOfBoth(a[1..], b);
      assert (a + b)[1..] == a[1..] + b;
    }
  }

  lemma {:induction false} FirstErrorMore(a: seq<Attempt>, one: Attempt)
    ensures FirstError(a + [one]) == if FirstError(a).Some? then FirstError(a) else one.error
  {
    if a == [] {
      assert a + [one] == [one];
      assert [one][1..] == [];
    } else {
      FirstErrorMore(a[1..], one);
      assert (a + [one])[1..] == a[1..] + [one];
    }
  }

  lemma Grouped(a: seq<Attempt>, b: seq<Attempt>, c: seq<Attempt>)
    ensures a + (b + c) == (a + b) + c
  {
  }

  function Step(held: set<Key>, attempt: Attempt): set<Key> {
    if !attempt.landed || |attempt.events| != 1 then held
    else
      match attempt.events[0]
      case Down(key) => held + {key}
      case Up(key) => held - {key}
      case _ => held
  }

  /** The keys held on the remote desktop after what reached it, acknowledged or not. */
  function Held(held: set<Key>, attempts: seq<Attempt>): set<Key>
    decreases |attempts|
  {
    if attempts == [] then held else Held(Step(held, attempts[0]), attempts[1..])
  }

  lemma {:induction false} HeldInTurn(held: set<Key>, a: seq<Attempt>, b: seq<Attempt>)
    ensures Held(held, a + b) == Held(Held(held, a), b)
    decreases |a|
  {
    if a == [] {
      assert a + b == b;
    } else {
      HeldInTurn(Step(held, a[0]), a[1..], b);
      assert (a + b)[1..] == a[1..] + b;
    }
  }

  lemma HeldNext(held: set<Key>, one: Attempt, rest: seq<Attempt>)
    ensures Held(held, [one] + rest) == Held(Step(held, one), rest)
  {
    assert ([one] + rest)[1..] == rest;
  }

  const NS_PER_MS: nat := 1_000_000

  class Session {
    const fates: Fates
    /** By how much each sleep overshoots. */
    const lateness: nat -> nat
    var log: seq<Attempt>
    /** Milliseconds asked to sleep, how often, and the time in nanoseconds. */
    var slept: nat
    var naps: nat
    var now: nat

    constructor (fates: Fates, lateness: nat -> nat, start: nat)
      ensures this.fates == fates && this.lateness == lateness
      ensures log == [] && slept == 0 && naps == 0 && now == start
    {
      this.fates := fates;
      this.lateness := lateness;
      log, slept, naps, now := [], 0, 0, start;
    }

    method Send(events: seq<Event>) returns (e: Option<Error>)
      modifies this`log, this`now
      ensures log == old(log) + [Attempted(events, fates, |old(log)|)] && e == fates(|old(log)|).Failure()
      ensures now == old(now) + fates(|old(log)|).took
    {
      var fate := fates(|log|);
      log := log + [Attempted(events, fates, |log|)];
      now := now + fate.took;
      e := fate.Failure();
    }

    method Sleep(ms: nat)
      modifies this`slept, this`naps, this`now
      ensures slept == old(slept) + ms && naps == old(naps) + 1
      ensures now == old(now) + ms * NS_PER_MS + lateness(old(naps))
    {
      now := now + ms * NS_PER_MS + lateness(naps);
      slept := slept + ms;
      naps := naps + 1;
    }
  }
}
