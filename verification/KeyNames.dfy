/**
 Key combinations as text: how "ctrl+shift+a" becomes keys to press, and how long a
 request that presses a sequence of them may hold the session.
 */
module KeyNames {
  import opened Wrappers

  datatype Key = Key(code: nat, extended: bool)

  /** The key table, and what trimming and lower-casing make of a name. No key has the empty name. */
  datatype Layout = Layout(normal: string -> string, direct: string -> Option<Key>, shifted: string -> Option<string>) {
    predicate Valid() { normal("") == "" && direct("") == None && shifted("") == None }

    /** The keys to hold for a name, a modifier first. */
    function Sequence(name: string): Option<seq<Key>> {
      if direct(name).Some? then Some([direct(name).value])
      else if shifted(name).None? then None
      else if direct(shifted(name).value).None? then None
      else Some([SHIFT, direct(shifted(name).value).value])
    }
  }

  const SHIFT := Key(0x2A, false)

  // ---------------------------------------------------------------- splitting

  /** The pieces between the plus signs, empty ones too. */
  function Split(s: string): (parts: seq<string>)
    ensures |parts| >= 1
  {
    if s == [] then [[]]
    else if s[0] == '+' then [[]] + Split(s[1..])
    else [[s[0]] + Split(s[1..])[0]] + Split(s[1..])[1..]
  }

  function Join(parts: seq<string>): string
    requires |parts| >= 1
  {
    if |parts| == 1 then parts[0] else parts[0] + "+" + Join(parts[1..])
  }

  /** Splitting cuts at every plus sign and loses nothing. */
  lemma {:induction false} SplitIsExact(s: string)
    ensures Join(Split(s)) == s && forall i :: 0 <= i < |Split(s)| ==> '+' !in Split(s)[i]
  {
    if s != [] {
      SplitIsExact(s[1..]);
      var rest := Split(s[1..]);
      assert s == [s[0]] + s[1..];
      if s[0] == '+' {
        assert ([[]] + rest)[1..] == rest;
      } else {
        assert ([[s[0]] + rest[0]] + rest[1..])[1..] == rest[1..];
      }
    }
  }

  // ---------------------------------------------------------------- parsing

  function After(keys: seq<Key>, rest: Result<seq<Key>, string>): Result<seq<Key>, string> {
    match rest
    case Ok(more) => Ok(keys + more)
    case Err(unknown) => Err(unknown)
  }

  function Expand(layout: Layout, parts: seq<string>): Result<seq<Key>, string> {
    if parts == [] then Ok([])
    else
      var name := layout.normal(parts[0]);
      if layout.Sequence(name).None? then Err(name)
      else
        After(layout.Sequence(name).value, Expand(layout, parts[1..]))
  }

  /** The keys of a combination, or its first unknown name. */
  function Parse(layout: Layout, combo: string): Result<seq<Key>, string> { Expand(layout, Split(combo)) }

  lemma Ends(keys: seq<Key>, rest: Result<seq<Key>, string>)
    ensures After([], rest) == rest && After(keys, Ok([])) == Ok(keys)
  {
    assert keys + [] == keys;
    assert rest.Ok? ==> [] + rest.value == rest.value;
  }

  lemma Gathered(keys: seq<Key>, sequence: seq<Key>, rest: Result<seq<Key>, string>)
    ensures After(keys, After(sequence, rest)) == After(keys + sequence, rest)
  {
    if rest.Ok? {
      assert keys + (sequence + rest.value) == keys + sequence + rest.value;
    }
  }

  /** The layout has keys for the name: one of its own, or one under Shift. */
  predicate Known(layout: Layout, name: string) {
    layout.direct(name).Some? || (layout.shifted(name).Some? && layout.direct(layout.shifted(name).value).Some?)
  }

  /** What a known name is typed with: its own key, or Shift and then the key it is on. */
  predicate Types(layout: Layout, name: string, group: seq<Key>) {
    if layout.direct(name).Some? then group == [layout.direct(name).value]
    else
      && layout.shifted(name).Some? && layout.direct(layout.shifted(name).value).Some?
      && |group| == 2 && group[0] == SHIFT && group[1] == layout.direct(layout.shifted(name).value).value
  }

  function Concat(groups: seq<seq<Key>>): seq<Key> { if groups == [] then [] else groups[0] + Concat(groups[1..]) }

  /** The keys are those of the names in turn. */
  ghost predicate Spells(layout: Layout, names: seq<string>, groups: seq<seq<Key>>, keys: seq<Key>) {
    && |groups| == |names| && keys == Concat(groups)
    && forall i :: 0 <= i < |names| ==> Types(layout, layout.normal(names[i]), groups[i])
  }

  /** `i` is the first of the names that the layout does not have. */
  ghost predicate FirstUnknown(layout: Layout, names: seq<string>, i: nat) {
    && i < |names| && !Known(layout, layout.normal(names[i]))
    && forall j :: 0 <= j < i ==> Known(layout, layout.normal(names[j]))
  }

  lemma SpellsMore(layout: Layout, name: string, names: seq<string>, group: seq<Key>, groups: seq<seq<Key>>, keys: seq<Key>)
    requires Spells(layout, names, groups, keys) && Types(layout, layout.normal(name), group)
    ensures Spells(layout, [name] + names, [group] + groups, group + keys)
  {
    assert ([group] + groups)[1..] == groups;
  }

  lemma FirstUnknownMore(layout: Layout, name: string, names: seq<string>, i: nat)
    requires FirstUnknown(layout, names, i) && Known(layout, layout.normal(name))
    ensures FirstUnknown(layout, [name] + names, i + 1)
  {
    forall j | 0 <= j < i + 1
      ensures Known(layout, layout.normal(([name] + names)[j]))
    {
      assert j > 0 ==> ([name] + names)[j] == names[j - 1];
    }
  }

  lemma {:induction false} ExpandMeans(layout: Layout, names: seq<string>)
    ensures Expand(layout, names).Ok? ==> exists groups :: Spells(layout, names, groups, Expand(layout, names).value)
    ensures Expand(layout, names).Err? ==>
      exists i: nat :: FirstUnknown(layout, names, i) && Expand(layout, names).error == layout.normal(names[i])
  {
    if names == [] {
      assert Spells(layout, names, [], []);
    } else {
      var name := layout.normal(names[0]);
      var rest := Expand(layout, names[1..]);
      assert names == [names[0]] + names[1..];
      if layout.Sequence(name).None? {
        assert FirstUnknown(layout, names, 0);
      } else {
        ExpandMeans(layout, names[1..]);
        if rest.Ok? {
          var groups :| Spells(layout, names[1..], groups, rest.value);
          SpellsMore(layout, names[0], names[1..], layout.Sequence(name).value, groups, rest.value);
        } else {
          var i: nat :| FirstUnknown(layout, names[1..], i) && rest.error == layout.normal(names[1..][i]);
          FirstUnknownMore(layout, names[0], names[1..], i);
          assert names[i + 1] == names[1..][i];
        }
      }
    }
  }

  /** The keys of the names in turn, a shifted one's after Shift; or the first unknown name. */
  method ParseCombination(layout: Layout, combo: string) returns (r: Result<seq<Key>, string>)
    ensures r == Parse(layout, combo)
    ensures r.Ok? ==> exists groups :: Spells(layout, Split(combo), groups, r.value)
    ensures r.Err? ==> exists i: nat :: FirstUnknown(layout, Split(combo), i) && r.error == layout.normal(Split(combo)[i])
  {
    ExpandMeans(layout, Split(combo));
    var parts := Split(combo);
    var keys := [];
    var i := 0;
    assert parts[0..] == parts;
    Ends([], Expand(layout, parts));
    while i < |parts|
      invariant 0 <= i <= |parts|
      invariant Parse(layout, combo) == After(keys, Expand(layout, parts[i..]))
    {
      ghost var before := keys;
      var name := layout.normal(parts[i]);
      assert parts[i..][0] == parts[i] && parts[i..][1..] == parts[i + 1..];
      match layout.Sequence(name) {
        case None => return Err(name);
        case Some(sequence) => keys := keys + sequence;
      }
      i := i + 1;
      Gathered(before, layout.Sequence(name).value, Expand(layout, parts[i..]));
    }
    assert parts[i..] == [];
    Ends(keys, Ok([]));
    r := Ok(keys);
  }

  lemma {:induction false} ExpandedLength(layout: Layout, parts: seq<string>)
    requires layout.Valid() && Expand(layout, parts).Ok?
    ensures forall i :: 0 <= i < |parts| ==> parts[i] != []
    ensures |parts| <= |Expand(layout, parts).value| <= 2 * |parts|
  {
    if parts != [] {
      ExpandedLength(layout, parts[1..]);
    }
  }

  // ---------------------------------------------------------------- the cost model

  const U64_MAX: nat := 0xFFFF_FFFF_FFFF_FFFF
  const PRESS_SEQ_MAX_MS: nat := 30_000
  const PRESS_SEQ_MIN_INTERVAL_MS: nat := 5
  const DEFAULT_PRESS_SEQ_INTERVAL_MS: nat := 40
  const PRESS_KEY_GAP_MS: nat := 10
  const PRESS_HOLD_MS: nat := 50
  const TYPE_UNITS_PER_BATCH: nat := 64

  function Saturate(n: nat): nat { if n <= U64_MAX then n else U64_MAX }

  function Named(parts: seq<string>): nat {
    if parts == [] then 0 else (if parts[0] != [] then 1 else 0) + Named(parts[1..])
  }

  function PartCount(combo: string): nat {
    var n := Named(Split(combo));
    if n < 1 then 1 else n
  }

  function PressesHoldMs(keys: seq<string>): nat {
    if keys == [] then 0
    else PRESS_HOLD_MS + 4 * PartCount(keys[0]) * PRESS_KEY_GAP_MS + PressesHoldMs(keys[1..])
  }

  function Interval(intervalMs: Option<nat>): nat {
    if intervalMs.Some? then intervalMs.value else DEFAULT_PRESS_SEQ_INTERVAL_MS
  }

  /** What a sequence is estimated to hold the session for, in saturating 64-bit arithmetic. */
  function PressSeqHoldMs(keys: seq<string>, intervalMs: Option<nat>): nat {
    var gaps := Saturate((if |keys| == 0 then 0 else |keys| - 1) * Interval(intervalMs));
    Saturate(gaps + PressesHoldMs(keys))
  }

  function TypeHoldMs(units: nat, delayMs: Option<nat>): nat {
    match delayMs
    case None => 0
    case Some(delay) =>
      var batches := (units + TYPE_UNITS_PER_BATCH - 1) / TYPE_UNITS_PER_BATCH;
      Saturate((if batches == 0 then 0 else batches - 1) * delay)
  }

  datatype KeyboardRequest =
    | Type(text: seq<nat>, delayMs: Option<nat>)
    | PressSeq(keys: seq<string>, intervalMs: Option<nat>)
    | Press(combo: string)

  datatype Refusal = HoldsTooLong(worst: nat) | NoKeys | TooFast

  function Validate(request: KeyboardRequest): Option<Refusal> {
    match request
    case Type(text, delayMs) =>
      var worst := TypeHoldMs(|text|, delayMs);
      if worst > PRESS_SEQ_MAX_MS then Some(HoldsTooLong(worst)) else None
    case PressSeq(keys, intervalMs) =>
      if keys == [] then Some(NoKeys)
      else if Interval(intervalMs) < PRESS_SEQ_MIN_INTERVAL_MS then Some(TooFast)
      else
        var worst := PressSeqHoldMs(keys, intervalMs);
        if worst > PRESS_SEQ_MAX_MS then Some(HoldsTooLong(worst)) else None
    case Press(_) => None
  }

  /** What is admitted: a sequence with a key in it, keys at least 5ms apart, that holds the
      session for at most 30s; text that does; and any single combination. */
  lemma AdmittedIff(request: KeyboardRequest)
    ensures Validate(request) == None <==>
      match request
      case Type(text, delayMs) => TypeHoldMs(|text|, delayMs) <= 30_000
      case PressSeq(keys, intervalMs) =>
        && |keys| >= 1 && (intervalMs.Some? ==> intervalMs.value >= 5)
        && (|keys| - 1) * (if intervalMs.Some? then intervalMs.value else 40) + PressesHoldMs(keys) <= 30_000
      case Press(_) => true
  {
    if request.PressSeq? && |request.keys| >= 1 {
      Saturates((|request.keys| - 1) * Interval(request.intervalMs), PressesHoldMs(request.keys));
    }
  }

  /** Whatever it is written like, no combination is estimated below a single key with its
      hold and its gaps. */
  lemma {:induction false} EachCostsSomething(keys: seq<string>)
    ensures PressesHoldMs(keys) >= 90 * |keys|
  {
    if keys != [] {
      EachCostsSomething(keys[1..]);
    }
  }

  lemma Saturates(gaps: nat, presses: nat)
    ensures Saturate(Saturate(gaps) + presses) <= 30_000 <==> gaps + presses <= 30_000
  {
  }

  // ---------------------------------------------------------------- what pressing costs

  function ParseAll(layout: Layout, keys: seq<string>): Result<seq<seq<Key>>, string> {
    if keys == [] then Ok([])
    else
      match Parse(layout, keys[0])
      case Err(unknown) => Err(unknown)
      case Ok(first) =>
        match ParseAll(layout, keys[1..])
        case Err(unknown) => Err(unknown)
        case Ok(rest) => Ok([first] + rest)
  }

  /** Milliseconds slept while pressing and releasing `n` keys that all go through. */
  function CombinationMs(n: nat): nat { 2 * n * 10 + 50 }

  function CombinationsMs(combos: seq<seq<Key>>): nat {
    if combos == [] then 0 else CombinationMs(|combos[0]|) + CombinationsMs(combos[1..])
  }

  function SequenceMs(combos: seq<seq<Key>>, interval: nat): nat {
    CombinationsMs(combos) + (if |combos| == 0 then 0 else |combos| - 1) * interval
  }

  lemma {:induction false} AllNamed(parts: seq<string>)
    requires forall i :: 0 <= i < |parts| ==> parts[i] != []
    ensures Named(parts) == |parts|
  {
    if parts != [] {
      AllNamed(parts[1..]);
    }
  }

  lemma ParsedLength(layout: Layout, combo: string)
    requires layout.Valid() && Parse(layout, combo).Ok?
    ensures PartCount(combo) == |Split(combo)| <= |Parse(layout, combo).value| <= 2 * PartCount(combo)
  {
    ExpandedLength(layout, Split(combo));
    AllNamed(Split(combo));
  }

  /** Whether every name of every combination is a shifted symbol, two keys each. */
  predicate AllShifted(keys: seq<string>, combos: seq<seq<Key>>)
    requires |keys| == |combos|
  {
    forall i :: 0 <= i < |keys| ==> |combos[i]| == 2 * |Split(keys[i])|
  }

  lemma {:induction false} PressesAreCovered(layout: Layout, keys: seq<string>)
    requires layout.Valid() && ParseAll(layout, keys).Ok?
    ensures var combos := ParseAll(layout, keys).value;
      && |combos| == |keys|
      && CombinationsMs(combos) <= PressesHoldMs(keys)
      && (CombinationsMs(combos) == PressesHoldMs(keys) <==> AllShifted(keys, combos))
  {
    if keys != [] {
      var combos := ParseAll(layout, keys).value;
      ParsedLength(layout, keys[0]);
      PressesAreCovered(layout, keys[1..]);
      assert combos == [Parse(layout, keys[0]).value] + ParseAll(layout, keys[1..]).value;
      assert combos[1..] == ParseAll(layout, keys[1..]).value;
      AllShiftedSplits(keys, combos);
    }
  }

  lemma AllShiftedSplits(keys: seq<string>, combos: seq<seq<Key>>)
    requires |keys| == |combos| >= 1
    ensures AllShifted(keys, combos) <==> |combos[0]| == 2 * |Split(keys[0])| && AllShifted(keys[1..], combos[1..])
  {
    if AllShifted(keys[1..], combos[1..]) && |combos[0]| == 2 * |Split(keys[0])| {
      forall i | 0 <= i < |keys|
        ensures |combos[i]| == 2 * |Split(keys[i])|
      {
        if i > 0 {
          assert keys[i] == keys[1..][i - 1] && combos[i] == combos[1..][i - 1];
        }
      }
    } else if AllShifted(keys, combos) {
      forall i | 0 <= i < |keys[1..]|
        ensures |combos[1..][i]| == 2 * |Split(keys[1..][i])|
      {
        assert keys[i + 1] == keys[1..][i] && combos[i + 1] == combos[1..][i];
      }
    }
  }

  /** The estimate covers every sequence that parses, and is reached, short of saturation,
      exactly by those made of shifted symbols alone. */
  lemma EstimateCovers(layout: Layout, keys: seq<string>, intervalMs: Option<nat>)
    requires layout.Valid() && ParseAll(layout, keys).Ok?
    ensures var combos := ParseAll(layout, keys).value;
      && |combos| == |keys|
      && Saturate(SequenceMs(combos, Interval(intervalMs))) <= PressSeqHoldMs(keys, intervalMs)
      && (PressSeqHoldMs(keys, intervalMs) < U64_MAX ==>
           (SequenceMs(combos, Interval(intervalMs)) == PressSeqHoldMs(keys, intervalMs) <==> AllShifted(keys, combos)))
  {
    PressesAreCovered(layout, keys);
  }

  /** Every admitted sequence that parses is over within the limit. */
  lemma AdmittedIsBounded(layout: Layout, keys: seq<string>, intervalMs: Option<nat>)
    requires layout.Valid() && ParseAll(layout, keys).Ok?
    requires Validate(PressSeq(keys, intervalMs)) == None
    ensures SequenceMs(ParseAll(layout, keys).value, Interval(intervalMs)) <= PressSeqHoldMs(keys, intervalMs) <= PRESS_SEQ_MAX_MS
  {
    EstimateCovers(layout, keys, intervalMs);
  }
}
