/**
 The directory of diagnostics captures. A capture is a pair `stem.png`, `stem.json`;
 after each one the oldest pairs beyond a bound are deleted, oldest meaning first in the
 order of the names.
 */
module Diagnostics {
  import opened Lexical
  import opened TimeStamps

  const MAX_CAPTURES: nat := 20

  function Min(a: nat, b: nat): nat { if a < b then a else b }

  // ---------------------------------------------------------------- sorting

  predicate First(m: string, s: set<string>) { m in s && forall x :: x in s && x != m ==> Less(m, x) }

  lemma {:induction false} HasFirst(s: set<string>) returns (m: string)
    requires s != {}
    ensures First(m, s)
    decreases |s|
  {
    var x :| x in s;
    m := x;
    if s != {x} {
      var rest := s - {x};
      assert s == rest + {x};
      var n := HasFirst(rest);
      Total(n, x);
      m := if Less(n, x) then n else x;
      forall y | y in s && y != m
        ensures Less(m, y)
      {
        if y != x && y != n && m == x {
          Transitive(x, n, y);
        }
      }
    }
  }

  lemma FirstIsUnique(m: string, n: string, s: set<string>)
    requires First(m, s) && First(n, s)
    ensures m == n
  {
    if m != n {
      Transitive(m, n, m);
      Irreflexive(m);
    }
  }

  predicate Ascending(r: seq<string>) { forall i, j :: 0 <= i < j < |r| ==> Less(r[i], r[j]) }

  function Elements(s: seq<string>): set<string> { set x | x in s }

  lemma Prepended(m: string, rest: seq<string>, s: set<string>)
    requires First(m, s) && Elements(rest) == s - {m} && Ascending(rest)
    ensures Elements([m] + rest) == s && Ascending([m] + rest)
  {
    assert forall i :: 0 <= i < |rest| ==> rest[i] in Elements(rest);
    assert Elements([m] + rest) == {m} + Elements(rest);
  }

  lemma FirstOne(s: set<string>)
    requires s != {}
    ensures exists m :: First(m, s)
    ensures forall m, n :: First(m, s) && First(n, s) ==> m == n
  {
    var m := HasFirst(s);
    forall m, n | First(m, s) && First(n, s)
      ensures m == n
    {
      FirstIsUnique(m, n, s);
    }
  }

  /** The names in ascending order. */
  function Sorted(s: set<string>): (r: seq<string>)
    ensures |r| == |s| && Elements(r) == s && Ascending(r)
    decreases |s|
  {
    if s == {} then []
    else
      FirstOne(s);
      var m :| First(m, s);
      Prepended(m, Sorted(s - {m}), s);
      [m] + Sorted(s - {m})
  }

  // ---------------------------------------------------------------- the newest names

  /** `kept` is what a bound of `keep` names leaves of `all`: as many as allowed, and none
      deleted that sorts after one kept. */
  ghost predicate IsNewest(all: set<string>, keep: nat, kept: set<string>) {
    && kept <= all
    && |kept| == Min(|all|, keep)
    && forall d, k :: d in all - kept && k in kept ==> Less(d, k)
  }

  lemma Subset(a: set<string>, b: set<string>)
    requires a <= b
    ensures |a| <= |b| && (|a| == |b| ==> a == b)
  {
    assert b == a + (b - a);
    assert |b| == |a| + |b - a|;
  }

  lemma Larger(a: set<string>, b: set<string>)
    requires |a| >= |b| && a != b
    ensures exists x :: x in a - b
  {
    if a - b == {} {
      forall x | x in a
        ensures x in b
      {
        assert x !in a - b;
      }
      Subset(a, b);
    }
  }

  lemma NewestIsUnique(all: set<string>, keep: nat, a: set<string>, b: set<string>)
    requires IsNewest(all, keep, a) && IsNewest(all, keep, b)
    ensures a == b
  {
    if a != b {
      Larger(a, b);
      Larger(b, a);
      var x :| x in a - b;
      var y :| y in b - a;
      Transitive(x, y, x);
      Irreflexive(x);
    }
  }

  lemma {:induction false} DistinctSize(s: seq<string>)
    requires Ascending(s)
    ensures |Elements(s)| == |s|
  {
    if s != [] {
      DistinctSize(s[1..]);
      assert Elements(s) == {s[0]} + Elements(s[1..]);
      if s[0] in s[1..] {
        Irreflexive(s[0]);
      }
    }
  }

  lemma Split(r: seq<string>, n: nat)
    requires n <= |r| && Ascending(r)
    ensures Elements(r[n..]) == Elements(r) - Elements(r[..n])
    ensures |Elements(r[n..])| == |r| - n
    ensures forall d, k :: d in r[..n] && k in r[n..] ==> Less(d, k)
  {
    DistinctSize(r[n..]);
    assert r == r[..n] + r[n..];
    forall d, k | d in r[..n] && k in r[n..]
      ensures Less(d, k) && d != k
    {
      var i :| 0 <= i < n && r[i] == d;
      var j :| n <= j < |r| && r[j] == k;
      Irreflexive(d);
    }
  }

  /** Dropping the first of the sorted names leaves the newest. */
  lemma SortedTail(r: seq<string>, keep: nat)
    requires keep <= |r| && Ascending(r) && |Elements(r)| == |r|
    ensures Elements(r[|r| - keep..]) == Elements(r) - Elements(r[..|r| - keep])
    ensures IsNewest(Elements(r), keep, Elements(r[|r| - keep..]))
  {
    Split(r, |r| - keep);
  }

  ghost function Newest(all: set<string>, keep: nat): (kept: set<string>)
    ensures IsNewest(all, keep, kept)
  {
    if |all| <= keep then all
    else
      var r := Sorted(all);
      SortedTail(r, keep);
      Elements(r[|r| - keep..])
  }

  /** What was dropped before never comes back: the newest of what is left are the newest
      of everything. */
  lemma NewestOfPart(all: set<string>, part: set<string>, keep: nat)
    requires Newest(all, keep) <= part <= all
    ensures Newest(part, keep) == Newest(all, keep)
  {
    var kept := Newest(all, keep);
    Subset(kept, part);
    Subset(part, all);
    assert IsNewest(part, keep, kept);
    NewestIsUnique(part, keep, kept, Newest(part, keep));
  }

  lemma NewestOfMore(all: set<string>, x: string, keep: nat)
    ensures Newest(all + {x}, keep) <= Newest(all, keep) + {x}
  {
    var more := all + {x};
    var kept, wide := Newest(all, keep), Newest(more, keep);
    if y :| y in wide && y !in kept && y != x {
      // `y` was dropped from `all`, so `keep` names above it are there, and one of them
      // is missing from `wide`
      Subset(kept, all);
      assert |kept| == keep;
      assert kept != wide;
      Subset(wide, more);
      Larger(kept, wide);
      var z :| z in kept - wide;
      assert Less(y, z) && Less(z, y);
      Transitive(y, z, y);
      Irreflexive(y);
    }
  }

  // ---------------------------------------------------------------- the directory

  function Json(stem: string): string { stem + ".json" }

  function Png(stem: string): string { stem + ".png" }

  function Stems(files: set<string>): set<string> {
    set f | f in files && |f| >= 5 && f[|f| - 5..] == ".json" :: f[..|f| - 5]
  }

  lemma StemNames(files: set<string>, stem: string)
    ensures stem in Stems(files) <==> Json(stem) in files
  {
    var f := Json(stem);
    assert f[|f| - 5..] == ".json" && f[..|f| - 5] == stem;
    if stem in Stems(files) {
      var g :| g in files && |g| >= 5 && g[|g| - 5..] == ".json" && g[..|g| - 5] == stem;
      assert g == g[..|g| - 5] + g[|g| - 5..];
    }
  }

  function Pairs(stems: seq<string>): set<string> {
    if stems == [] then {} else Pairs(stems[..|stems| - 1]) + {Png(stems[|stems| - 1]), Json(stems[|stems| - 1])}
  }

  lemma PairsStep(stems: seq<string>, i: nat)
    requires i < |stems|
    ensures Pairs(stems[..i + 1]) == Pairs(stems[..i]) + {Png(stems[i]), Json(stems[i])}
  {
    assert stems[..i + 1][..i] == stems[..i];
  }

  lemma PngIsNotJson(a: string, b: string)
    ensures Png(a) != Json(b)
    ensures Png(a) == Png(b) ==> a == b
    ensures Json(a) == Json(b) ==> a == b
  {
    assert Png(a)[|Png(a)| - 1] == 'g' && Json(b)[|Json(b)| - 1] == 'n';
    assert Png(a)[..|Png(a)| - 4] == a && Png(b)[..|Png(b)| - 4] == b;
    assert Json(a)[..|Json(a)| - 5] == a && Json(b)[..|Json(b)| - 5] == b;
  }

  lemma StemsMore(files: set<string>, stem: string)
    ensures Stems(files + {Png(stem)}) == Stems(files)
    ensures Stems(files + {Png(stem)} + {Json(stem)}) == Stems(files) + {stem}
  {
    forall s
      ensures s in Stems(files + {Png(stem)}) <==> s in Stems(files)
      ensures s in Stems(files + {Png(stem)} + {Json(stem)}) <==> s in Stems(files) + {stem}
    {
      StemNames(files, s);
      StemNames(files + {Png(stem)}, s);
      StemNames(files + {Png(stem)} + {Json(stem)}, s);
      PngIsNotJson(stem, s);
    }
  }

  /** Both files of every stem. */
  function PairsOf(stems: set<string>): set<string> { (set s | s in stems :: Png(s)) + (set s | s in stems :: Json(s)) }

  lemma {:induction false} SamePairs(stems: seq<string>)
    ensures Pairs(stems) == PairsOf(Elements(stems))
  {
    if stems != [] {
      var n := |stems| - 1;
      SamePairs(stems[..n]);
      assert Elements(stems) == Elements(stems[..n]) + {stems[n]};
    }
  }

  /** What pruning leaves of `files`; the deletions in `stuck` fail, and nobody notices. */
  ghost function AfterPrune(files: set<string>, keep: nat, stuck: set<string>): set<string> {
    files - (PairsOf(Stems(files) - Newest(Stems(files), keep)) - stuck)
  }

  lemma Excess(files: set<string>, stems: seq<string>, keep: nat)
    requires keep <= |stems| == |Elements(stems)| && Ascending(stems) && Elements(stems) == Stems(files)
    ensures Pairs(stems[..|stems| - keep]) == PairsOf(Stems(files) - Newest(Stems(files), keep))
  {
    var gone, tail := stems[..|stems| - keep], stems[|stems| - keep..];
    SortedTail(stems, keep);
    NewestIsUnique(Stems(files), keep, Elements(tail), Newest(Stems(files), keep));
    SamePairs(gone);
    PrefixElements(stems, |stems| - keep);
    Complement(Elements(stems), Elements(gone), Newest(Stems(files), keep));
  }

  lemma PrefixElements(s: seq<string>, n: nat)
    requires n <= |s|
    ensures Elements(s[..n]) <= Elements(s)
  {
  }

  lemma Complement(all: set<string>, gone: set<string>, kept: set<string>)
    requires gone <= all && kept == all - gone
    ensures all - kept == gone
  {
  }

  lemma InPairsOf(stems: set<string>, stem: string)
    ensures Json(stem) in PairsOf(stems) <==> stem in stems
    ensures Png(stem) in PairsOf(stems) <==> stem in stems
  {
    forall other
      ensures Png(other) != Json(stem) && Json(other) != Png(stem)
      ensures Json(other) == Json(stem) || Png(other) == Png(stem) ==> other == stem
    {
      PngIsNotJson(other, stem);
      PngIsNotJson(stem, other);
    }
  }

  /** The records left are those of the newest captures, and those that could not be deleted. */
  lemma StemsAfterPrune(files: set<string>, keep: nat, stuck: set<string>)
    ensures Stems(AfterPrune(files, keep, stuck)) ==
      Newest(Stems(files), keep) + set s | s in Stems(files) && Json(s) in stuck
  {
    var kept := Newest(Stems(files), keep);
    forall s
      ensures s in Stems(AfterPrune(files, keep, stuck)) <==> s in Stems(files) && (s in kept || Json(s) in stuck)
    {
      StemNames(files, s);
      StemNames(AfterPrune(files, keep, stuck), s);
      InPairsOf(Stems(files) - kept, s);
    }
  }

  /** When pruning takes a picture away: exactly if its record is there, it is not one of the
      newest, and the deletion works. A picture whose record was never written stays for good. */
  lemma PictureGoesIff(files: set<string>, keep: nat, stuck: set<string>, stem: string)
    requires Png(stem) in files
    ensures Png(stem) !in AfterPrune(files, keep, stuck) <==>
      Json(stem) in files && stem !in Newest(Stems(files), keep) && Png(stem) !in stuck
  {
    StemNames(files, stem);
    InPairsOf(Stems(files) - Newest(Stems(files), keep), stem);
  }

  /** A picture without a record survives every pruning of every directory, even one that
      keeps nothing. */
  lemma StrayPictureStays(files: set<string>, keep: nat, stuck: set<string>, stem: string)
    requires Png(stem) in files && Json(stem) !in files
    ensures Png(stem) in AfterPrune(files, keep, stuck)
  {
    PictureGoesIff(files, keep, stuck, stem);
  }

  method Sort(names: set<string>) returns (r: seq<string>)
    ensures |r| == |names| && Elements(r) == names && Ascending(r)
  {
    r := Sorted(names);
  }

  class DiagnosticsDir {
    var files: set<string>
    /** Every capture that was ever completed here. */
    ghost var saved: set<string>

    ghost predicate Valid() reads this { HoldsNewest(files, saved) }

    constructor (found: set<string>)
      ensures Valid() && files == found && saved == Stems(found)
    {
      files := found;
      saved := Stems(found);
    }

    method RemoveFile(name: string, stuck: set<string>)
      modifies this`files
      ensures files == old(files) - ({name} - stuck)
    {
      if name !in stuck {
        files := files - {name};
      }
    }

    /** Deletes the oldest pairs beyond `keep`, as far as that works, and nothing else. */
    method Prune(keep: nat, stuck: set<string>)
      modifies this`files
      ensures files == AfterPrune(old(files), keep, stuck)
    {
      var stems := Sort(Stems(files));
      if |stems| <= keep {
        return;
      }
      var excess := |stems| - keep;
      var i := 0;
      while i < excess
        invariant 0 <= i <= excess
        invariant files == old(files) - (Pairs(stems[..i]) - stuck)
      {
        PairsStep(stems, i);
        RemoveFile(Png(stems[i]), stuck);
        RemoveFile(Json(stems[i]), stuck);
        i := i + 1;
      }
      Excess(old(files), stems, keep);
    }

    /** One capture: the picture, its record, then pruning. A write that fails ends it. */
    method Capture(stem: string, pngWritten: bool, jsonWritten: bool, stuck: set<string>)
      requires Valid()
      modifies this
      ensures Valid()
      ensures !(pngWritten && jsonWritten) ==>
        saved == old(saved) && files == old(files) + if pngWritten then {Png(stem)} else {}
      ensures pngWritten && jsonWritten ==>
        && saved == old(saved) + {stem}
        && files == AfterPrune(old(files) + {Png(stem)} + {Json(stem)}, 20, stuck)
        && Stems(files) == Newest(saved, 20) + set s | s in old(Stems(files)) + {stem} && Json(s) in stuck
    {
      if !pngWritten {
        return;
      }
      PictureKeeps(files, saved, stem);
      files := files + {Png(stem)};
      if !jsonWritten {
        return;
      }
      RecordKeeps(files, saved, stem);
      StemsMore(old(files), stem);
      files := files + {Json(stem)};
      saved := saved + {stem};
      StemsAfterPrune(files, MAX_CAPTURES, stuck);
      NewestOfPart(saved, Stems(files), MAX_CAPTURES);
      Prune(MAX_CAPTURES, stuck);
    }
  }

  // ---------------------------------------------------------------- captures at once

  /** The newest of all captures completed are there, and nothing but such captures. */
  ghost predicate HoldsNewest(files: set<string>, saved: set<string>) {
    Newest(saved, MAX_CAPTURES) <= Stems(files) <= saved
  }

  lemma PictureKeeps(files: set<string>, saved: set<string>, stem: string)
    requires HoldsNewest(files, saved)
    ensures HoldsNewest(files + {Png(stem)}, saved)
  {
    StemsMore(files, stem);
  }

  lemma RecordKeeps(files: set<string>, saved: set<string>, stem: string)
    requires HoldsNewest(files, saved)
    ensures HoldsNewest(files + {Json(stem)}, saved + {stem})
  {
    forall s
      ensures s in Stems(files + {Json(stem)}) <==> s in Stems(files) + {stem}
    {
      StemNames(files, s);
      StemNames(files + {Json(stem)}, s);
      PngIsNotJson(s, stem);
    }
    NewestOfMore(saved, stem, MAX_CAPTURES);
  }

  /** A file of a completed capture that is not one of the newest. */
  ghost predicate Old(saved: set<string>, name: string) {
    exists s :: s in saved - Newest(saved, MAX_CAPTURES) && (name == Png(s) || name == Json(s))
  }

  lemma DroppedStaysDropped(saved: set<string>, stem: string, s: string)
    requires s in saved - Newest(saved, MAX_CAPTURES)
    ensures s in saved + {stem} - Newest(saved + {stem}, MAX_CAPTURES)
  {
    if s == stem {
      assert saved + {stem} == saved;
    } else {
      NewestOfMore(saved, stem, MAX_CAPTURES);
    }
  }

  /** What is old stays old, even if it is captured again. */
  lemma OldStaysOld(saved: set<string>, stem: string, name: string)
    requires Old(saved, name)
    ensures Old(saved + {stem}, name)
  {
    var s :| s in saved - Newest(saved, MAX_CAPTURES) && (name == Png(s) || name == Json(s));
    DroppedStaysDropped(saved, stem, s);
  }

  /** Captures and prunings may overlap: `doomed` are the files that prunings have decided to
      delete, each from its own listing of the directory. */
  datatype Dir = Dir(files: set<string>, saved: set<string>, doomed: set<string>)

  datatype Act =
    | WritesPicture(stem: string)
    | WritesRecord(stem: string)
    | Lists
    | Deletes(name: string, works: bool)

  ghost function Do(d: Dir, a: Act): Dir {
    match a
    case WritesPicture(stem) => d.(files := d.files + {Png(stem)})
    case WritesRecord(stem) => d.(files := d.files + {Json(stem)}, saved := d.saved + {stem})
    case Lists => d.(doomed := d.doomed + PairsOf(Stems(d.files) - Newest(Stems(d.files), MAX_CAPTURES)))
    case Deletes(name, works) => if name in d.doomed && works then d.(files := d.files - {name}) else d
  }

  ghost function DoAll(d: Dir, acts: seq<Act>): Dir
    decreases |acts|
  {
    if acts == [] then d else DoAll(Do(d, acts[0]), acts[1..])
  }

  ghost predicate Safe(d: Dir) {
    HoldsNewest(d.files, d.saved) && forall name :: name in d.doomed ==> Old(d.saved, name)
  }

  lemma ListsOld(d: Dir, name: string)
    requires HoldsNewest(d.files, d.saved)
    requires name in PairsOf(Stems(d.files) - Newest(Stems(d.files), MAX_CAPTURES))
    ensures Old(d.saved, name)
  {
    NewestOfPart(d.saved, Stems(d.files), MAX_CAPTURES);
    var s :| s in Stems(d.files) - Newest(Stems(d.files), MAX_CAPTURES) && (name == Png(s) || name == Json(s));
    assert s in d.saved - Newest(d.saved, MAX_CAPTURES);
  }

  lemma DeletingKeeps(d: Dir, name: string)
    requires HoldsNewest(d.files, d.saved) && Old(d.saved, name)
    ensures HoldsNewest(d.files - {name}, d.saved)
  {
    var gone :| gone in d.saved - Newest(d.saved, MAX_CAPTURES) && (name == Png(gone) || name == Json(gone));
    forall s
      ensures s in Stems(d.files - {name}) ==> s in Stems(d.files)
      ensures s in Stems(d.files) && s != gone ==> s in Stems(d.files - {name})
    {
      StemNames(d.files, s);
      StemNames(d.files - {name}, s);
      PngIsNotJson(gone, s);
    }
  }

  lemma StepIsSafe(d: Dir, a: Act)
    requires Safe(d)
    ensures Safe(Do(d, a))
  {
    match a
    case WritesPicture(stem) => PictureKeeps(d.files, d.saved, stem);
    case WritesRecord(stem) =>
      RecordKeeps(d.files, d.saved, stem);
      forall name | name in d.doomed
        ensures Old(d.saved + {stem}, name)
      {
        OldStaysOld(d.saved, stem, name);
      }
    case Lists =>
      forall name | name in Do(d, a).doomed
        ensures Old(d.saved, name)
      {
        if name !in d.doomed {
          ListsOld(d, name);
        }
      }
    case Deletes(name, works) =>
      if name in d.doomed && works {
        DeletingKeeps(d, name);
      }
  }

  /** However captures and prunings overlap, and whichever deletions fail: none of the newest
      captures is ever deleted. */
  lemma {:induction false} NewestAreNeverDeleted(d: Dir, acts: seq<Act>)
    requires Safe(d)
    ensures Safe(DoAll(d, acts))
    decreases |acts|
  {
    if acts != [] {
      StepIsSafe(d, acts[0]);
      NewestAreNeverDeleted(Do(d, acts[0]), acts[1..]);
    }
  }

  lemma {:induction false} OldForever(d: Dir, acts: seq<Act>, name: string)
    requires Old(d.saved, name)
    ensures Old(DoAll(d, acts).saved, name)
    decreases |acts|
  {
    if acts != [] {
      if acts[0].WritesRecord? {
        OldStaysOld(d.saved, acts[0].stem, name);
      }
      OldForever(Do(d, acts[0]), acts[1..], name);
    }
  }

  lemma NewestPictureIsNotOld(saved: set<string>, stem: string)
    requires stem in Newest(saved, MAX_CAPTURES)
    ensures !Old(saved, Png(stem))
  {
    forall s
      ensures (Png(stem) == Png(s) ==> s == stem) && Png(stem) != Json(s)
    {
      PngIsNotJson(stem, s);
    }
  }

  lemma NotDoomed(d: Dir, acts: seq<Act>, stem: string)
    requires Safe(d) && stem in Newest(DoAll(d, acts).saved, MAX_CAPTURES)
    ensures Png(stem) !in d.doomed
  {
    NewestPictureIsNotOld(DoAll(d, acts).saved, stem);
    if Png(stem) in d.doomed {
      OldForever(d, acts, Png(stem));
    }
  }

  lemma PictureStays(d: Dir, a: Act, stem: string)
    requires Png(stem) in d.files && Png(stem) !in d.doomed
    ensures Png(stem) in Do(d, a).files
  {
  }

  /** A picture once written is still there after any such run, if its capture is one of the
      newest by then - whether its record was written before the run or in it. */
  lemma {:induction false} NewestPicturesStay(d: Dir, acts: seq<Act>, stem: string)
    requires Safe(d) && Png(stem) in d.files && stem in Newest(DoAll(d, acts).saved, MAX_CAPTURES)
    ensures Png(stem) in DoAll(d, acts).files
    decreases |acts|
  {
    if acts != [] {
      NotDoomed(d, acts, stem);
      StepIsSafe(d, acts[0]);
      PictureStays(d, acts[0], stem);
      NewestPicturesStay(Do(d, acts[0]), acts[1..], stem);
    }
  }

  // ---------------------------------------------------------------- captures in time

  /** A capture's stem starts with the stamp of the instant it was taken. */
  function Stem(t: int, rest: string): string { UtcCompact(t) + rest }

  /** None that a bound of `keep` drops is newer, to the second, than one that it keeps;
      all captures were taken before second `limit`. */
  ghost predicate KeepsTheNewest(limit: nat) {
    forall all: set<string>, keep: nat, t, x, u, y ::
      (&& Stem(t, x) in all - Newest(all, keep) && Stem(u, y) in Newest(all, keep)
       && Second(t) < limit && Second(u) < limit)
      ==> Second(t) <= Second(u)
  }

  lemma NothingNewerIsDropped(all: set<string>, keep: nat, t: int, x: string, u: int, y: string)
    requires Stem(t, x) in all - Newest(all, keep) && Stem(u, y) in Newest(all, keep)
    requires Second(t) < FIVE_DIGIT_YEARS && Second(u) < FIVE_DIGIT_YEARS
    ensures Second(t) <= Second(u)
  {
    NamesSortByTime(t, u, x, y);
  }

  /** The first capture of the year 10000 is dropped at once, and an older one stays. */
  lemma NewestCaptureDropped(t: int, x: string, u: int, y: string)
    requires Second(t) == FIVE_DIGIT_YEARS && Second(u) == FIVE_DIGIT_YEARS - 1
    ensures Newest({Stem(t, x), Stem(u, y)}, 1) == {Stem(u, y)} && Stem(t, x) != Stem(u, y)
  {
    FiveDigitsSortFirst(t, u, x, y);
    Irreflexive(Stem(t, x));
    var all := {Stem(t, x), Stem(u, y)};
    assert |all| == 2;
    assert IsNewest(all, 1, {Stem(u, y)});
    NewestIsUnique(all, 1, {Stem(u, y)}, Newest(all, 1));
  }

  /** Whatever the captures are about and however many are kept, pruning drops the oldest
      exactly as long as no capture is taken after 9999. */
  lemma KeepsTheNewestIff(limit: nat)
    ensures KeepsTheNewest(limit) <==> limit <= FIVE_DIGIT_YEARS
  {
    if limit <= FIVE_DIGIT_YEARS {
      forall all: set<string>, keep: nat, t, x, u, y |
        Stem(t, x) in all - Newest(all, keep) && Stem(u, y) in Newest(all, keep)
        && Second(t) < limit && Second(u) < limit
        ensures Second(t) <= Second(u)
      {
        NothingNewerIsDropped(all, keep, t, x, u, y);
      }
    } else {
      var t, u := FIVE_DIGIT_YEARS * 1_000_000_000, (FIVE_DIGIT_YEARS - 1) * 1_000_000_000;
      NewestCaptureDropped(t, [], u, []);
      var all := {Stem(t, []), Stem(u, [])};
      assert Stem(t, []) in all - Newest(all, 1) && Stem(u, []) in Newest(all, 1);
    }
  }
}
