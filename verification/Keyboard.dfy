/**
 Pressing key combinations: what is sent and slept, and which keys are left held, whatever
 sends fail.
 */
module Keyboard {
  import opened Wrappers
  import opened KeyNames
  import opened Transport
  import opened Turns

  // ---------------------------------------------------------------- one combination

  /** How many of the keys from number `i` on go down, send `call` being the first, before
      one is reported lost. */
  function Through(keys: seq<Key>, i: nat, fates: Fates, call: nat): (d: nat)
    requires i <= |keys|
    ensures i + d <= |keys|
    decreases |keys| - i
  {
    if i == |keys| || fates(call).Lost? then 0 else 1 + Through(keys, i + 1, fates, call + 1)
  }

  /** How many presses are attempted: those that go through, and the one reported lost. */
  function Tried(keys: seq<Key>, i: nat, fates: Fates, call: nat): (n: nat)
    requires i <= |keys|
    ensures i + n <= |keys|
  {
    var d := Through(keys, i, fates, call);
    if i + d < |keys| then d + 1 else d
  }

  /** Keys going down in order from number `i` on, up to and with the first reported lost. */
  function Pressing(keys: seq<Key>, i: nat, fates: Fates, call: nat): seq<Attempt>
    requires i <= |keys|
  {
    seq(Tried(keys, i, fates, call), j requires 0 <= j < |keys| - i => Attempted([Down(keys[i + j])], fates, call + j))
  }

  /** The first `n` keys coming up, last one first. */
  function Releasing(keys: seq<Key>, n: nat, fates: Fates, call: nat): seq<Attempt>
    requires n <= |keys|
  {
    seq(n, j requires 0 <= j < n => Attempted([Up(keys[n - 1 - j])], fates, call + j))
  }

  lemma PressingNext(keys: seq<Key>, i: nat, fates: Fates, call: nat)
    requires i < |keys|
    ensures var one := Attempted([Down(keys[i])], fates, call);
      Pressing(keys, i, fates, call) == if fates(call).Lost? then [one] else [one] + Pressing(keys, i + 1, fates, call + 1)
  {
    var one := Attempted([Down(keys[i])], fates, call);
    var all := Pressing(keys, i, fates, call);
    if fates(call).Acked? {
      var rest := Pressing(keys, i + 1, fates, call + 1);
      assert |all| == 1 + |rest|;
      forall j | 0 <= j < |all|
        ensures all[j] == ([one] + rest)[j]
      {
      }
    }
  }

  lemma PressingNone(keys: seq<Key>, fates: Fates, call: nat)
    ensures Pressing(keys, |keys|, fates, call) == []
  {
  }

  lemma ReleasingNext(keys: seq<Key>, n: nat, fates: Fates, call: nat)
    requires 0 < n <= |keys|
    ensures Releasing(keys, n, fates, call) ==
      [Attempted([Up(keys[n - 1])], fates, call)] + Releasing(keys, n - 1, fates, call + 1)
  {
    var all := Releasing(keys, n, fates, call);
    var rest := Releasing(keys, n - 1, fates, call + 1);
    forall j | 0 <= j < n
      ensures all[j] == ([Attempted([Up(keys[n - 1])], fates, call)] + rest)[j]
    {
    }
  }

  /** How many keys of a combination are acknowledged going down. */
  function Acknowledged(keys: seq<Key>, fates: Fates, call: nat): (d: nat)
    ensures d <= |keys|
  {
    Through(keys, 0, fates, call)
  }

  /** The send number of a combination's first release. */
  function FirstUp(keys: seq<Key>, fates: Fates, call: nat): nat { call + |Pressing(keys, 0, fates, call)| }

  function Combination(keys: seq<Key>, fates: Fates, call: nat): seq<Attempt> {
    Pressing(keys, 0, fates, call) +
    Releasing(keys, Acknowledged(keys, fates, call), fates, FirstUp(keys, fates, call))
  }

  function SleptMs(keys: seq<Key>, fates: Fates, call: nat): nat {
    var d := Acknowledged(keys, fates, call);
    d * PRESS_KEY_GAP_MS + (if d == |keys| then PRESS_HOLD_MS else 0) + d * PRESS_KEY_GAP_MS
  }

  /** Where the presses stop. */
  lemma {:induction false} ThroughStops(keys: seq<Key>, i: nat, fates: Fates, call: nat, n: nat)
    requires i <= |keys| && n <= Through(keys, i, fates, call)
    ensures n < Through(keys, i, fates, call) <==> i + n < |keys| && fates(call + n).Acked?
    decreases |keys| - i
  {
    if n > 0 {
      ThroughStops(keys, i + 1, fates, call + 1, n - 1);
      assert call + 1 + (n - 1) == call + n;
    }
  }

  lemma PressingAt(keys: seq<Key>, fates: Fates, call: nat, n: nat)
    requires n < |keys| && n <= Acknowledged(keys, fates, call)
    ensures var all := Pressing(keys, 0, fates, call);
      && n < |all| && all[..n + 1] == all[..n] + [Attempted([Down(keys[n])], fates, call + n)]
      && (fates(call + n).Lost? ==> |all| == n + 1 && Acknowledged(keys, fates, call) == n)
      && (fates(call + n).Acked? ==> n + 1 <= Acknowledged(keys, fates, call))
  {
    ThroughStops(keys, 0, fates, call, n);
  }

  /** One key down, and the little gap after it if it went. */
  method PressKey(session: Session, key: Key) returns (e: Option<Error>)
    modifies session
    ensures session.log == old(session.log) + [Attempted([Down(key)], session.fates, |old(session.log)|)]
    ensures e == session.fates(|old(session.log)|).Failure()
    ensures session.slept == old(session.slept) + if e == None then PRESS_KEY_GAP_MS else 0
  {
    e := session.Send([Down(key)]);
    if e == None {
      session.Sleep(10);
    }
  }

  /** Puts keys down until one is lost. */
  method PressDown(session: Session, keys: seq<Key>) returns (down: nat, first: Option<Error>)
    modifies session
    ensures session.log == old(session.log) + Pressing(keys, 0, session.fates, |old(session.log)|)
    ensures down == Acknowledged(keys, session.fates, |old(session.log)|)
    ensures first == FirstError(Pressing(keys, 0, session.fates, |old(session.log)|))
    ensures first == None <==> down == |keys|
    ensures session.slept == old(session.slept) + down * PRESS_KEY_GAP_MS
  {
    ghost var log, slept := session.log, session.slept;
    ghost var all := Pressing(keys, 0, session.fates, |log|);
    down := 0;
    first := None;
    assert all[..0] == [] && log + [] == log;
    while down < |keys|
      invariant 0 <= down <= |keys| && first == None
      invariant down <= Acknowledged(keys, session.fates, |log|) && down <= |all|
      invariant session.log == log + all[..down] && FirstError(all[..down]) == None
      invariant session.slept == slept + down * PRESS_KEY_GAP_MS
    {
      ghost var one := Attempted([Down(keys[down])], session.fates, |log| + down);
      PressingAt(keys, session.fates, |log|, down);
      Grouped(log, all[..down], [one]);
      FirstErrorMore(all[..down], one);
      first := PressKey(session, keys[down]);
      if first.Some? {
        assert all[..down + 1] == all;
        return;
      }
      down := down + 1;
    }
    assert all[..down] == all;
  }

  lemma ReleasingAt(keys: seq<Key>, n: nat, fates: Fates, call: nat, i: nat)
    requires i < n <= |keys|
    ensures var all := Releasing(keys, n, fates, call);
      all[..i + 1] == all[..i] + [Attempted([Up(keys[n - 1 - i])], fates, call + i)]
  {
  }

  /** One key up, and the little gap after it. */
  method ReleaseKey(session: Session, key: Key) returns (e: Option<Error>)
    modifies session
    ensures session.log == old(session.log) + [Attempted([Up(key)], session.fates, |old(session.log)|)]
    ensures e == session.fates(|old(session.log)|).Failure()
    ensures session.slept == old(session.slept) + PRESS_KEY_GAP_MS
  {
    e := session.Send([Up(key)]);
    session.Sleep(10);
  }

  /** Releases the first `n` keys in reverse order, whatever is lost; keeps an error there was before. */
  method ReleaseKeys(session: Session, keys: seq<Key>, n: nat, before: Option<Error>) returns (first: Option<Error>)
    requires n <= |keys|
    modifies session
    ensures session.log == old(session.log) + Releasing(keys, n, session.fates, |old(session.log)|)
    ensures first == if before.Some? then before else FirstError(Releasing(keys, n, session.fates, |old(session.log)|))
    ensures session.slept == old(session.slept) + n * PRESS_KEY_GAP_MS
  {
    ghost var log, slept := session.log, session.slept;
    ghost var all := Releasing(keys, n, session.fates, |log|);
    first := before;
    var i := 0;
    assert all[..0] == [] && log + [] == log;
    while i < n
      invariant 0 <= i <= n
      invariant session.log == log + all[..i]
      invariant first == if before.Some? then before else FirstError(all[..i])
      invariant session.slept == slept + i * PRESS_KEY_GAP_MS
    {
      ghost var one := Attempted([Up(keys[n - 1 - i])], session.fates, |log| + i);
      ReleasingAt(keys, n, session.fates, |log|, i);
      Grouped(log, all[..i], [one]);
      FirstErrorMore(all[..i], one);
      var e := ReleaseKey(session, keys[n - 1 - i]);
      if first == None {
        first := e;
      }
      i := i + 1;
    }
    assert all[..n] == all;
  }

  lemma Both(log: seq<Attempt>, keys: seq<Key>, fates: Fates)
    ensures var down := Pressing(keys, 0, fates, |log|);
      var up := Releasing(keys, Acknowledged(keys, fates, |log|), fates, FirstUp(keys, fates, |log|));
      && log + Combination(keys, fates, |log|) == (log + down) + up
      && FirstError(Combination(keys, fates, |log|)) == if FirstError(down).Some? then FirstError(down) else FirstError(up)
  {
    var down := Pressing(keys, 0, fates, |log|);
    var up := Releasing(keys, Acknowledged(keys, fates, |log|), fates, FirstUp(keys, fates, |log|));
    Grouped(log, down, up);
    FirstErrorOfBoth(down, up);
  }

  /** Presses a combination: keys down in order, a hold if all went down, and up again, in
      reverse, exactly those that were acknowledged going down. */
  method PressCombination(session: Session, keys: seq<Key>) returns (e: Option<Error>)
    modifies session
    ensures session.log == old(session.log) + Combination(keys, session.fates, |old(session.log)|)
    ensures e == FirstError(Combination(keys, session.fates, |old(session.log)|))
    ensures session.slept == old(session.slept) + SleptMs(keys, session.fates, |old(session.log)|)
  {
    var down, first := PressDown(session, keys);
    if first == None {
      session.Sleep(50);
    }
    e := ReleaseKeys(session, keys, down, first);
    Both(old(session.log), keys, session.fates);
  }

  // ---------------------------------------------------------------- keys left held

  /** The keys from number `i` up to number `n`. */
  function Keys(keys: seq<Key>, i: nat, n: nat): set<Key>
    requires n <= |keys|
  {
    set j | i <= j < n :: keys[j]
  }

  /** The keys from number `i` on that go down on the remote desktop: those acknowledged, and
      the one reported lost if it lands all the same. */
  function DownFrom(keys: seq<Key>, i: nat, fates: Fates, call: nat): set<Key>
    requires i <= |keys|
  {
    var d := Through(keys, i, fates, call);
    Keys(keys, i, i + d) + if i + d < |keys| && fates(call + d).Lands() then {keys[i + d]} else {}
  }

  lemma DownFromNext(keys: seq<Key>, i: nat, fates: Fates, call: nat)
    requires i < |keys|
    ensures fates(call).Acked? ==> DownFrom(keys, i, fates, call) == {keys[i]} + DownFrom(keys, i + 1, fates, call + 1)
    ensures fates(call).Lost? ==> DownFrom(keys, i, fates, call) == if fates(call).landed then {keys[i]} else {}
  {
    var d := Through(keys, i, fates, call);
    if fates(call).Acked? {
      assert Keys(keys, i, i + d) == {keys[i]} + Keys(keys, i + 1, i + d);
    } else {
      assert Keys(keys, i, i) == {};
    }
  }

  lemma {:induction false} HeldPressing(held: set<Key>, keys: seq<Key>, i: nat, fates: Fates, call: nat)
    requires i <= |keys|
    ensures Held(held, Pressing(keys, i, fates, call)) == held + DownFrom(keys, i, fates, call)
    decreases |keys| - i
  {
    if i < |keys| {
      var first := Attempted([Down(keys[i])], fates, call);
      PressingNext(keys, i, fates, call);
      DownFromNext(keys, i, fates, call);
      if fates(call).Acked? {
        HeldNext(held, first, Pressing(keys, i + 1, fates, call + 1));
        HeldPressing(Step(held, first), keys, i + 1, fates, call + 1);
      } else {
        HeldNext(held, first, []);
        assert [first] + [] == [first];
      }
    } else {
      PressingNone(keys, fates, call);
    }
  }

  /** Those of the first `n` keys of which some release lands, the releases starting at
      number `call`. */
  function Released(keys: seq<Key>, n: nat, fates: Fates, call: nat): set<Key>
    requires n <= |keys|
  {
    if n == 0 then {}
    else (if fates(call).Lands() then {keys[n - 1]} else {}) + Released(keys, n - 1, fates, call + 1)
  }

  lemma {:induction false} HeldReleasing(held: set<Key>, keys: seq<Key>, n: nat, fates: Fates, call: nat)
    requires n <= |keys|
    ensures Held(held, Releasing(keys, n, fates, call)) == held - Released(keys, n, fates, call)
    decreases n
  {
    if n > 0 {
      var one := Attempted([Up(keys[n - 1])], fates, call);
      ReleasingNext(keys, n, fates, call);
      HeldNext(held, one, Releasing(keys, n - 1, fates, call + 1));
      HeldReleasing(Step(held, one), keys, n - 1, fates, call + 1);
    }
  }

  /** The keys a combination puts down on the remote desktop. */
  function WentDown(keys: seq<Key>, fates: Fates, call: nat): set<Key> { DownFrom(keys, 0, fates, call) }

  /** The keys of which some release of the combination lands. */
  function CameUp(keys: seq<Key>, fates: Fates, call: nat): set<Key> {
    Released(keys, Acknowledged(keys, fates, call), fates, FirstUp(keys, fates, call))
  }

  /** After a combination exactly those keys are held that were held before or went down,
      less those of which some release landed. */
  lemma HeldAfter(held: set<Key>, keys: seq<Key>, fates: Fates, call: nat)
    ensures Held(held, Combination(keys, fates, call)) ==
      held + WentDown(keys, fates, call) - CameUp(keys, fates, call)
  {
    var d, up := Acknowledged(keys, fates, call), FirstUp(keys, fates, call);
    HeldInTurn(held, Pressing(keys, 0, fates, call), Releasing(keys, d, fates, up));
    HeldPressing(held, keys, 0, fates, call);
    HeldReleasing(held + WentDown(keys, fates, call), keys, d, fates, up);
  }

  /** No key the combination put down stays held exactly when every key that went down has
      a release that landed. */
  lemma NothingStuckIff(held: set<Key>, keys: seq<Key>, fates: Fates, call: nat)
    ensures Held(held, Combination(keys, fates, call)) !! WentDown(keys, fates, call)
      <==> WentDown(keys, fates, call) <= CameUp(keys, fates, call)
  {
    HeldAfter(held, keys, fates, call);
  }

  /** Whether `n` sends from number `call` on all land. */
  predicate AllLand(n: nat, fates: Fates, call: nat) {
    n == 0 || (fates(call).Lands() && AllLand(n - 1, fates, call + 1))
  }

  predicate Different(keys: seq<Key>) { forall i, j :: 0 <= i < j < |keys| ==> keys[i] != keys[j] }

  lemma {:induction false} ReleasedAre(keys: seq<Key>, n: nat, fates: Fates, call: nat)
    requires n <= |keys|
    ensures Released(keys, n, fates, call) <= Keys(keys, 0, n)
    ensures AllLand(n, fates, call) ==> Released(keys, n, fates, call) == Keys(keys, 0, n)
    ensures Different(keys) && Released(keys, n, fates, call) == Keys(keys, 0, n) ==> AllLand(n, fates, call)
    decreases n
  {
    if n > 0 {
      ReleasedAre(keys, n - 1, fates, call + 1);
      assert Keys(keys, 0, n) == Keys(keys, 0, n - 1) + {keys[n - 1]};
      if Different(keys) {
        assert keys[n - 1] !in Keys(keys, 0, n - 1);
      }
    }
  }

  /** Whether a press is reported lost but lands. */
  predicate LostOneLands(keys: seq<Key>, fates: Fates, call: nat) {
    var d := Acknowledged(keys, fates, call);
    d < |keys| && fates(call + d).Lands()
  }

  /** For a combination of different keys: none it put down stays held exactly when the press
      that was reported lost, if one was, did not land after all, and every release landed. */
  lemma NothingStuckWhen(held: set<Key>, keys: seq<Key>, fates: Fates, call: nat)
    requires Different(keys)
    ensures Held(held, Combination(keys, fates, call)) !! WentDown(keys, fates, call)
      <==> !LostOneLands(keys, fates, call)
           && AllLand(Acknowledged(keys, fates, call), fates, FirstUp(keys, fates, call))
  {
    var d := Acknowledged(keys, fates, call);
    NothingStuckIff(held, keys, fates, call);
    ReleasedAre(keys, d, fates, FirstUp(keys, fates, call));
    if LostOneLands(keys, fates, call) {
      assert keys[d] !in Keys(keys, 0, d) && keys[d] in WentDown(keys, fates, call);
    }
  }

  /** A press whose reply came too late lands, is counted as not pressed, and is never
      released: the key stays held, unless the combination pressed it earlier as well. */
  lemma LostPressStaysHeld(held: set<Key>, keys: seq<Key>, fates: Fates, call: nat)
    requires LostOneLands(keys, fates, call)
    requires keys[Acknowledged(keys, fates, call)] !in Keys(keys, 0, Acknowledged(keys, fates, call))
    ensures keys[Acknowledged(keys, fates, call)] in Held(held, Combination(keys, fates, call))
  {
    HeldAfter(held, keys, fates, call);
    ReleasedAre(keys, Acknowledged(keys, fates, call), fates, FirstUp(keys, fates, call));
  }

  /** With a single key: the log is one press, the caller is told it failed, and the key is down. */
  lemma OneLostPress(key: Key, error: Error, took: nat)
    ensures var fates := (n: nat) => Lost(error, took, true);
      && Combination([key], fates, 0) == [Attempt([Down(key)], Some(error), true)]
      && FirstError(Combination([key], fates, 0)) == Some(error)
      && Held({}, Combination([key], fates, 0)) == {key}
  {
    var fates := (n: nat) => Lost(error, took, true);
    PressingNext([key], 0, fates, 0);
    assert Pressing([key], 0, fates, 0) == [Attempt([Down(key)], Some(error), true)];
    HeldAfter({}, [key], fates, 0);
    assert Keys([key], 0, 0) == {};
  }

  /** The keys from number `i` on, each acknowledged going down. */
  function AllDown(keys: seq<Key>, i: nat): seq<Attempt>
    requires i <= |keys|
    decreases |keys| - i
  {
    if i == |keys| then [] else [Attempt([Down(keys[i])], None, true)] + AllDown(keys, i + 1)
  }

  /** The first `n` keys from the last to the first, each acknowledged coming up. */
  function AllUp(keys: seq<Key>, n: nat): seq<Attempt>
    requires n <= |keys|
  {
    if n == 0 then [] else [Attempt([Up(keys[n - 1])], None, true)] + AllUp(keys, n - 1)
  }

  lemma FirstErrorNext(one: Attempt, rest: seq<Attempt>)
    ensures FirstError([one] + rest) == if one.error.Some? then one.error else FirstError(rest)
  {
    assert ([one] + rest)[1..] == rest;
  }

  lemma {:induction false} CleanPressing(keys: seq<Key>, i: nat, fates: Fates, call: nat)
    requires i <= |keys| && FirstError(Pressing(keys, i, fates, call)) == None
    ensures Through(keys, i, fates, call) == |keys| - i && Pressing(keys, i, fates, call) == AllDown(keys, i)
    decreases |keys| - i
  {
    if i < |keys| {
      var one := Attempted([Down(keys[i])], fates, call);
      PressingNext(keys, i, fates, call);
      assert [one] + [] == [one];
      FirstErrorNext(one, if fates(call).Lost? then [] else Pressing(keys, i + 1, fates, call + 1));
      CleanPressing(keys, i + 1, fates, call + 1);
    } else {
      PressingNone(keys, fates, call);
    }
  }

  lemma {:induction false} CleanReleasing(keys: seq<Key>, n: nat, fates: Fates, call: nat)
    requires n <= |keys| && FirstError(Releasing(keys, n, fates, call)) == None
    ensures Releasing(keys, n, fates, call) == AllUp(keys, n) && AllLand(n, fates, call)
    decreases n
  {
    if n > 0 {
      ReleasingNext(keys, n, fates, call);
      FirstErrorNext(Attempted([Up(keys[n - 1])], fates, call), Releasing(keys, n - 1, fates, call + 1));
      CleanReleasing(keys, n - 1, fates, call + 1);
    }
  }

  lemma {:induction false} AllDownAt(keys: seq<Key>, i: nat, k: nat)
    requires i <= k < |keys|
    ensures |AllDown(keys, i)| == |keys| - i && AllDown(keys, i)[k - i] == Attempt([Down(keys[k])], None, true)
    decreases |keys| - i
  {
    if i < k {
      AllDownAt(keys, i + 1, k);
    } else if i + 1 < |keys| {
      AllDownAt(keys, i + 1, i + 1);
    }
  }

  lemma {:induction false} ConcatAt(groups: seq<seq<Key>>, i: nat, j: nat)
    requires i < |groups| && j < |groups[i]|
    ensures |Concat(groups[..i])| + j < |Concat(groups)|
    ensures Concat(groups)[|Concat(groups[..i])| + j] == groups[i][j]
  {
    if i > 0 {
      ConcatAt(groups[1..], i - 1, j);
      assert groups[..i][1..] == groups[1..][..i - 1];
    }
  }

  /** In a clean combination the key of a shifted name goes down right after a Shift of its own. */
  lemma ShiftGoesFirst(layout: Layout, combo: string, groups: seq<seq<Key>>, keys: seq<Key>, i: nat)
    requires Spells(layout, Split(combo), groups, keys) && i < |Split(combo)|
    requires layout.direct(layout.normal(Split(combo)[i])).None?
    ensures var at := |Concat(groups[..i])|;
      && at + 1 < |AllDown(keys, 0)|
      && AllDown(keys, 0)[at] == Attempt([Down(SHIFT)], None, true)
      && AllDown(keys, 0)[at + 1] ==
           Attempt([Down(layout.direct(layout.shifted(layout.normal(Split(combo)[i])).value).value)], None, true)
  {
    var at := |Concat(groups[..i])|;
    assert Types(layout, layout.normal(Split(combo)[i]), groups[i]);
    ConcatAt(groups, i, 0);
    ConcatAt(groups, i, 1);
    AllDownAt(keys, 0, at);
    AllDownAt(keys, 0, at + 1);
  }

  /** A combination that reports no error pressed every key in order, released them in
      reverse, and leaves none of them held. */
  lemma CleanCombination(held: set<Key>, keys: seq<Key>, fates: Fates, call: nat)
    requires FirstError(Combination(keys, fates, call)) == None
    ensures Combination(keys, fates, call) == AllDown(keys, 0) + AllUp(keys, |keys|)
    ensures Acknowledged(keys, fates, call) == |keys|
    ensures Held(held, Combination(keys, fates, call)) == held - Keys(keys, 0, |keys|)
  {
    var d, up := Acknowledged(keys, fates, call), FirstUp(keys, fates, call);
    FirstErrorOfBoth(Pressing(keys, 0, fates, call), Releasing(keys, d, fates, up));
    CleanPressing(keys, 0, fates, call);
    CleanReleasing(keys, d, fates, up);
    ReleasedAre(keys, d, fates, up);
    HeldAfter(held, keys, fates, call);
  }

  // ---------------------------------------------------------------- a sequence

  /** What each combination attempts, from whichever send on. */
  function Plays(combos: seq<seq<Key>>, fates: Fates): seq<Play> {
    seq(|combos|, i requires 0 <= i < |combos| => (call: nat) => Combination(combos[i], fates, call))
  }

  ghost predicate PlaysAs(play: Play, keys: seq<Key>, fates: Fates) {
    forall call: nat {:trigger Combination(keys, fates, call)} :: play(call) == Combination(keys, fates, call)
  }

  ghost predicate ArePlays(plays: seq<Play>, combos: seq<seq<Key>>, fates: Fates) {
    |plays| == |combos| && forall i :: 0 <= i < |combos| ==> PlaysAs(plays[i], combos[i], fates)
  }

  lemma PlaysAre(combos: seq<seq<Key>>, fates: Fates)
    ensures ArePlays(Plays(combos, fates), combos, fates)
  {
  }

  datatype Reply = Pressed | Invalid | NotConnected | Failed(error: Error, sent: nat, total: nat)

  lemma Ms(keys: seq<Key>, fates: Fates, call: nat)
    ensures SleptMs(keys, fates, call) <= CombinationMs(|keys|)
    ensures FirstError(Combination(keys, fates, call)) == None ==> SleptMs(keys, fates, call) == CombinationMs(|keys|)
    ensures SleptMs(keys, fates, call) ==
      20 * Acknowledged(keys, fates, call) + if Acknowledged(keys, fates, call) == |keys| then 50 else 0
  {
    if FirstError(Combination(keys, fates, call)) == None {
      CleanCombination({}, keys, fates, call);
    }
  }

  lemma {:induction false} CombinationsMsMore(combos: seq<seq<Key>>)
    requires combos != []
    ensures CombinationsMs(combos) == CombinationsMs(combos[..|combos| - 1]) + CombinationMs(|combos[|combos| - 1]|)
  {
    if |combos| > 1 {
      CombinationsMsMore(combos[1..]);
      assert combos[..|combos| - 1][1..] == combos[1..][..|combos| - 2];
    }
  }

  lemma {:induction false} CombinationsMsGrow(combos: seq<seq<Key>>, n: nat)
    requires n <= |combos|
    ensures CombinationsMs(combos[..n]) <= CombinationsMs(combos)
    decreases |combos| - n
  {
    if n < |combos| {
      CombinationsMsGrow(combos, n + 1);
      CombinationsMsMore(combos[..n + 1]);
      assert combos[..n + 1][..n] == combos[..n];
    } else {
      assert combos[..n] == combos;
    }
  }

  lemma SequenceMsMore(combos: seq<seq<Key>>, n: nat, interval: nat)
    requires n < |combos|
    ensures SequenceMs(combos[..n + 1], interval) ==
      SequenceMs(combos[..n], interval) + (if n > 0 then interval else 0) + CombinationMs(|combos[n]|)
    ensures SequenceMs(combos[..n + 1], interval) <= SequenceMs(combos, interval)
  {
    CombinationsMsMore(combos[..n + 1]);
    assert combos[..n + 1][..n] == combos[..n];
    CombinationsMsGrow(combos, n + 1);
    assert n * interval <= (|combos| - 1) * interval;
    assert n > 0 ==> n * interval == (n - 1) * interval + interval;
  }

  lemma {:induction false} ParseAllMeans(layout: Layout, keys: seq<string>)
    ensures ParseAll(layout, keys).Ok? ==>
      && |ParseAll(layout, keys).value| == |keys|
      && forall i :: 0 <= i < |keys| ==> Parse(layout, keys[i]) == Ok(ParseAll(layout, keys).value[i])
    ensures ParseAll(layout, keys).Err? ==> exists i ::
      && 0 <= i < |keys| && Parse(layout, keys[i]) == Err(ParseAll(layout, keys).error)
      && forall j :: 0 <= j < i ==> Parse(layout, keys[j]).Ok?
  {
    if keys != [] && Parse(layout, keys[0]).Ok? {
      ParseAllMeans(layout, keys[1..]);
      if ParseAll(layout, keys).Err? {
        var i :| 0 <= i < |keys[1..]| && Parse(layout, keys[1..][i]) == Err(ParseAll(layout, keys[1..]).error)
          && forall j :: 0 <= j < i ==> Parse(layout, keys[1..][j]).Ok?;
        assert keys[i + 1] == keys[1..][i];
        forall j | 0 <= j < i + 1
          ensures Parse(layout, keys[j]).Ok?
        {
          assert j > 0 ==> keys[j] == keys[1..][j - 1];
        }
      } else {
        forall i | 0 <= i < |keys|
          ensures Parse(layout, keys[i]) == Ok(ParseAll(layout, keys).value[i])
        {
          assert i > 0 ==> keys[i] == keys[1..][i - 1];
        }
      }
    }
  }

  /** Every combination parsed, or the error of the first that does not. */
  method ParseKeys(layout: Layout, keys: seq<string>) returns (r: Result<seq<seq<Key>>, string>)
    ensures r == ParseAll(layout, keys)
    ensures r.Ok? ==> |r.value| == |keys| && forall i :: 0 <= i < |keys| ==> Parse(layout, keys[i]) == Ok(r.value[i])
    ensures r.Err? ==> exists i ::
      && 0 <= i < |keys| && Parse(layout, keys[i]) == Err(r.error)
      && forall j :: 0 <= j < i ==> Parse(layout, keys[j]).Ok?
  {
    ParseAllMeans(layout, keys);
    var parsed := [];
    var i := 0;
    assert keys[0..] == keys;
    AllEnds([], ParseAll(layout, keys));
    while i < |keys|
      invariant 0 <= i <= |keys|
      invariant ParseAll(layout, keys) == AllAfter(parsed, ParseAll(layout, keys[i..]))
    {
      var one := ParseCombination(layout, keys[i]);
      assert keys[i..][0] == keys[i] && keys[i..][1..] == keys[i + 1..];
      if one.Err? {
        return Err(one.error);
      }
      AllGathered(parsed, one.value, ParseAll(layout, keys[i + 1..]));
      parsed := parsed + [one.value];
      i := i + 1;
    }
    assert keys[i..] == [];
    AllEnds(parsed, Ok([]));
    r := Ok(parsed);
  }

  function AllAfter(parsed: seq<seq<Key>>, rest: Result<seq<seq<Key>>, string>): Result<seq<seq<Key>>, string> {
    match rest
    case Ok(more) => Ok(parsed + more)
    case Err(unknown) => Err(unknown)
  }

  lemma AllEnds(parsed: seq<seq<Key>>, rest: Result<seq<seq<Key>>, string>)
    ensures AllAfter([], rest) == rest && AllAfter(parsed, Ok([])) == Ok(parsed)
  {
    assert parsed + [] == parsed;
    assert rest.Ok? ==> [] + rest.value == rest.value;
  }

  lemma AllGathered(parsed: seq<seq<Key>>, one: seq<Key>, rest: Result<seq<seq<Key>>, string>)
    ensures AllAfter(parsed, AllAfter([one], rest)) == AllAfter(parsed + [one], rest)
  {
    if rest.Ok? {
      assert parsed + ([one] + rest.value) == parsed + [one] + rest.value;
    }
  }

  /** A combination, after the pause if it is not the first. */
  method PressNext(session: Session, keys: seq<Key>, first: bool, interval: nat, ghost play: Play)
      returns (e: Option<Error>)
    requires PlaysAs(play, keys, session.fates)
    modifies session
    ensures session.log == old(session.log) + play(|old(session.log)|)
    ensures e == FirstError(play(|old(session.log)|))
    ensures var ms := (if first then 0 else interval) + CombinationMs(|keys|);
      session.slept <= old(session.slept) + ms && (e == None ==> session.slept == old(session.slept) + ms)
  {
    Ms(keys, session.fates, |session.log|);
    if !first {
      session.Sleep(interval);
    }
    e := PressCombination(session, keys);
  }

  /** Runs the combinations until one fails, sleeping between them. */
  method PressAll(session: Session, combos: seq<seq<Key>>, interval: nat, ghost plays: seq<Play>) returns (r: Reply)
    requires ArePlays(plays, combos, session.fates)
    modifies session
    ensures session.log == old(session.log) + Runs(plays, 0, |old(session.log)|)
    ensures session.slept <= old(session.slept) + SequenceMs(combos, interval)
    ensures match FirstError(Runs(plays, 0, |old(session.log)|))
      case None =>
        && r == Pressed && Completed(plays, 0, |old(session.log)|) == |combos|
        && session.slept == old(session.slept) + SequenceMs(combos, interval)
      case Some(e) =>
        && r == Failed(e, Completed(plays, 0, |old(session.log)|), |combos|)
        && r.sent < r.total
  {
    ghost var log, slept, done, spent := session.log, session.slept, [], 0;
    var i := 0;
    assert log + done == log;
    Start(plays, |log|);
    while i < |combos|
      invariant 0 <= i <= |combos|
      invariant Played(plays, |log|, done, i) && FirstError(done) == None
      invariant session.log == log + done
      invariant session.slept == slept + spent && spent == SequenceMs(combos[..i], interval)
    {
      ghost var at := |log| + |done|;
      ghost var next := plays[i](at);
      assert |session.log| == at;
      Grouped(log, done, next);
      FirstErrorOfBoth(done, next);
      SequenceMsMore(combos, i, interval);
      var e := PressNext(session, combos[i], i == 0, interval, plays[i]);
      if e.Some? {
        LastPlayed(plays, i, |log|, done, next);
        return Failed(e.value, i, |combos|);
      }
      OneMorePlayed(plays, i, |log|, done, next);
      done := done + next;
      i := i + 1;
      spent := SequenceMs(combos[..i], interval);
    }
    assert combos[..i] == combos;
    AllPlayed(plays, |log|, done);
    r := Pressed;
  }

  /** Handles a request to press a sequence of keys. */
  method PressSequence(session: Session?, layout: Layout, keys: seq<string>, intervalMs: Option<nat>) returns (r: Reply)
    requires layout.Valid()
    modifies session
    ensures r == Invalid <==> Validate(PressSeq(keys, intervalMs)).Some? || ParseAll(layout, keys).Err?
    ensures r == NotConnected <==> r != Invalid && session == null
    ensures session != null && r == Invalid ==> session.log == old(session.log) && session.slept == old(session.slept)
    ensures session != null ==> session.slept <= old(session.slept) + PRESS_SEQ_MAX_MS
    ensures session != null && r != Invalid ==>
      var combos := ParseAll(layout, keys).value;
      var plays := Plays(combos, session.fates);
      var attempts := Runs(plays, 0, |old(session.log)|);
      && |combos| == |keys|
      && session.log == old(session.log) + attempts
      && match FirstError(attempts)
         case None => r == Pressed && session.slept == old(session.slept) + SequenceMs(combos, Interval(intervalMs))
         case Some(e) => r == Failed(e, Completed(plays, 0, |old(session.log)|), |keys|)
  {
    if Validate(PressSeq(keys, intervalMs)).Some? {
      return Invalid;
    }
    var parsed := ParseKeys(layout, keys);
    if parsed.Err? {
      return Invalid;
    }
    AdmittedIsBounded(layout, keys, intervalMs);
    EstimateCovers(layout, keys, intervalMs);
    if session == null {
      return NotConnected;
    }
    PlaysAre(parsed.value, session.fates);
    r := PressAll(session, parsed.value, Interval(intervalMs), Plays(parsed.value, session.fates));
  }

  function KeySets(combos: seq<seq<Key>>): seq<set<Key>> {
    seq(|combos|, i requires 0 <= i < |combos| => Keys(combos[i], 0, |combos[i]|))
  }

  lemma PlaysBehave(combos: seq<seq<Key>>, fates: Fates)
    ensures Behave(Plays(combos, fates), KeySets(combos))
  {
    forall i, call: nat, held | 0 <= i < |combos|
      ensures LeavesHeld(Plays(combos, fates)[i], KeySets(combos)[i], call, held)
    {
      HeldAfter(held, combos[i], fates, call);
      if FirstError(Combination(combos[i], fates, call)) == None {
        CleanCombination(held, combos[i], fates, call);
      }
    }
  }

  /** A sequence without an error leaves none of its keys held, and every other key as it was. */
  lemma CleanSequence(held: set<Key>, combos: seq<seq<Key>>, fates: Fates, call: nat)
    requires FirstError(Runs(Plays(combos, fates), 0, call)) == None
    ensures Held(held, Runs(Plays(combos, fates), 0, call)) == held - Union(KeySets(combos), 0, |combos|)
  {
    PlaysBehave(combos, fates);
    CleanTurns(held, Plays(combos, fates), KeySets(combos), 0, call);
  }

  /** Of a sequence that fails only keys of the combination that failed can stay held. */
  lemma FailedSequence(held: set<Key>, combos: seq<seq<Key>>, fates: Fates, call: nat)
    requires Completed(Plays(combos, fates), 0, call) < |combos|
    ensures var n := Completed(Plays(combos, fates), 0, call);
      Held(held, Runs(Plays(combos, fates), 0, call)) <= held - Union(KeySets(combos), 0, n) + KeySets(combos)[n]
  {
    PlaysBehave(combos, fates);
    FailedTurns(held, Plays(combos, fates), KeySets(combos), 0, call);
  }
}
