/**
 Actions that send input, one after the other until one of them has an error.
 */
module Turns {
  import opened Wrappers
  import opened KeyNames
  import opened Transport

  /** What an action attempts, by the number of its first send. */
  type Play = nat -> seq<Attempt>

  /** The actions from number `i` on, up to and with the first that has an error. */
  function Runs(plays: seq<Play>, i: nat, call: nat): seq<Attempt>
    requires i <= |plays|
    decreases |plays| - i
  {
    if i == |plays| then []
    else
      var first := plays[i](call);
      if FirstError(first).Some? then first else first + Runs(plays, i + 1, call + |first|)
  }

  /** How many of them have no error before one has. */
  function Completed(plays: seq<Play>, i: nat, call: nat): (n: nat)
    requires i <= |plays|
    ensures i + n <= |plays|
    decreases |plays| - i
  {
    if i == |plays| || FirstError(plays[i](call)).Some? then 0
    else 1 + Completed(plays, i + 1, call + |plays[i](call)|)
  }

  /** `done` is what the first `i` actions attempted, all of them without an error. */
  ghost predicate Played(plays: seq<Play>, call: nat, done: seq<Attempt>, i: nat)
    requires i <= |plays|
  {
    && Runs(plays, 0, call) == done + Runs(plays, i, call + |done|)
    && Completed(plays, 0, call) == i + Completed(plays, i, call + |done|)
  }

  lemma Start(plays: seq<Play>, call: nat)
    ensures Played(plays, call, [], 0)
  {
    assert [] + Runs(plays, 0, call) == Runs(plays, 0, call);
  }

  lemma OneMorePlayed(plays: seq<Play>, i: nat, call: nat, done: seq<Attempt>, next: seq<Attempt>)
    requires i < |plays| && Played(plays, call, done, i)
    requires next == plays[i](call + |done|) && FirstError(next) == None
    ensures Played(plays, call, done + next, i + 1)
  {
    Grouped(done, next, Runs(plays, i + 1, call + |done| + |next|));
  }

  lemma LastPlayed(plays: seq<Play>, i: nat, call: nat, done: seq<Attempt>, next: seq<Attempt>)
    requires i < |plays| && Played(plays, call, done, i)
    requires next == plays[i](call + |done|) && FirstError(next) != None
    ensures Runs(plays, 0, call) == done + next && Completed(plays, 0, call) == i
  {
  }

  lemma AllPlayed(plays: seq<Play>, call: nat, done: seq<Attempt>)
    requires Played(plays, call, done, |plays|)
    ensures Runs(plays, 0, call) == done && Completed(plays, 0, call) == |plays|
  {
    assert done + [] == done;
  }

  // ---------------------------------------------------------------- keys left held

  /** Whatever an action does it holds down no key but its own, and without an error none. */
  ghost predicate LeavesHeld(play: Play, keys: set<Key>, call: nat, held: set<Key>) {
    && Held(held, play(call)) <= held + keys
    && (FirstError(play(call)) == None ==> Held(held, play(call)) == held - keys)
  }

  ghost predicate Behave(plays: seq<Play>, keys: seq<set<Key>>) {
    && |plays| == |keys|
    && forall i, call: nat, held :: 0 <= i < |plays| ==> LeavesHeld(plays[i], keys[i], call, held)
  }

  /** All of `n` sets from number `i` on. */
  function Union(sets: seq<set<Key>>, i: nat, n: nat): set<Key>
    requires i + n <= |sets|
    decreases n
  {
    if n == 0 then {} else sets[i] + Union(sets, i + 1, n - 1)
  }

  lemma {:induction false} CleanTurns(held: set<Key>, plays: seq<Play>, keys: seq<set<Key>>, i: nat, call: nat)
    requires Behave(plays, keys) && i <= |plays| && FirstError(Runs(plays, i, call)) == None
    ensures Held(held, Runs(plays, i, call)) == held - Union(keys, i, |plays| - i)
    decreases |plays| - i
  {
    if i < |plays| {
      var first := plays[i](call);
      var rest := Runs(plays, i + 1, call + |first|);
      FirstErrorOfBoth(first, rest);
      assert LeavesHeld(plays[i], keys[i], call, held);
      HeldInTurn(held, first, rest);
      CleanTurns(held - keys[i], plays, keys, i + 1, call + |first|);
    }
  }

  lemma {:induction false} FailedTurns(held: set<Key>, plays: seq<Play>, keys: seq<set<Key>>, i: nat, call: nat)
    requires Behave(plays, keys) && i <= |plays| && i + Completed(plays, i, call) < |plays|
    ensures var n := Completed(plays, i, call);
      Held(held, Runs(plays, i, call)) <= held - Union(keys, i, n) + keys[i + n]
    decreases |plays| - i
  {
    var first := plays[i](call);
    assert LeavesHeld(plays[i], keys[i], call, held);
    if FirstError(first) == None {
      HeldInTurn(held, first, Runs(plays, i + 1, call + |first|));
      FailedTurns(held - keys[i], plays, keys, i + 1, call + |first|);
    }
  }
}
