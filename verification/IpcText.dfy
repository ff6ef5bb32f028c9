/**
 The text of the replies that the SDK's connection hands out: each piece of the stream is
 decoded by itself, so a character that is cut in two is lost.
 */
module IpcText {
  import opened Wrappers
  import opened Bytes
  import Utf8
  import opened IpcClient
  import opened IpcRuns

  /** However a reply is cut, its text is what decoding it whole would give. */
  ghost predicate Intact(env: Env, reply: seq<Byte>) {
    forall line :: Reads(env, line, reply) ==> line == env.decode(reply)
  }

  /** No cut inside the reply changes how what came before it and what follows decode. */
  ghost predicate CutsAnywhere(env: Env, reply: seq<Byte>) {
    forall i, j :: 0 <= i <= j <= |reply| ==> env.decode(reply[..i]) + env.decode(reply[i..j]) == env.decode(reply[..j])
  }

  lemma {:induction false} PiecesDecode(env: Env, pieces: seq<seq<Byte>>, tail: seq<Byte>)
    requires env.Valid() && CutsAnywhere(env, Flatten(pieces) + tail)
    ensures Text(env, pieces) == env.decode(Flatten(pieces))
  {
    if pieces != [] {
      var n := |pieces| - 1;
      var a, reply := Flatten(pieces[..n]), Flatten(pieces) + tail;
      assert reply == a + (pieces[n] + tail);
      PiecesDecode(env, pieces[..n], pieces[n] + tail);
      assert reply[..|a|] == a && reply[|a|..|Flatten(pieces)|] == pieces[n] && reply[..|Flatten(pieces)|] == Flatten(pieces);
    }
  }

  lemma TwoPieces(env: Env, a: seq<Byte>, b: seq<Byte>)
    ensures Reads(env, env.decode(a) + env.decode(b), a + b)
  {
    PiecesMore(env, [], a);
    PiecesMore(env, [a], b);
    assert [] + [a] == [a] && [] + a == a && [] + env.decode(a) == env.decode(a);
    assert Flatten([a] + [b]) == a + b && Text(env, [a] + [b]) == env.decode(a) + env.decode(b);
  }

  lemma ThreePieces(env: Env, a: seq<Byte>, b: seq<Byte>, c: seq<Byte>)
    ensures Reads(env, env.decode(a) + env.decode(b) + env.decode(c), a + b + c)
  {
    TwoPieces(env, a, b);
    var pieces :| Flatten(pieces) == a + b && Text(env, pieces) == env.decode(a) + env.decode(b);
    PiecesMore(env, pieces, c);
  }

  lemma CutInThree(env: Env, reply: seq<Byte>, i: nat, j: nat)
    requires Intact(env, reply) && i <= j <= |reply|
    ensures env.decode(reply[..i]) + env.decode(reply[i..j]) == env.decode(reply[..j])
  {
    var a, b, c := reply[..i], reply[i..j], reply[j..];
    assert reply[..j] == a + b && reply == a + b + c;
    ThreePieces(env, a, b, c);
    TwoPieces(env, a + b, c);
    SameFront(env.decode(a) + env.decode(b), env.decode(a + b), env.decode(c));
  }

  lemma SameFront(a: string, b: string, c: string)
    requires a + c == b + c
    ensures a == b
  {
    assert (a + c)[..|a|] == a && (b + c)[..|b|] == b;
  }

  /** Decoding piece by piece, as the client does, gives every reply its own text exactly when
      no cut falls inside what decodes as a unit. */
  lemma IntactIff(env: Env, reply: seq<Byte>)
    requires env.Valid()
    ensures Intact(env, reply) <==> CutsAnywhere(env, reply)
  {
    if Intact(env, reply) {
      forall i, j | 0 <= i <= j <= |reply|
        ensures env.decode(reply[..i]) + env.decode(reply[i..j]) == env.decode(reply[..j])
      {
        CutInThree(env, reply, i, j);
      }
    }
    if CutsAnywhere(env, reply) {
      forall line | Reads(env, line, reply)
        ensures line == env.decode(reply)
      {
        var pieces :| Flatten(pieces) == reply && Text(env, pieces) == line;
        assert Flatten(pieces) + [] == reply;
        PiecesDecode(env, pieces, []);
      }
    }
  }

  // ---------------------------------------------------------------- UTF-8

  /** The connection decodes leniently, each piece by itself. */
  function Utf8Env(replies: nat -> seq<Byte>, json: string -> bool): Env { Env(replies, Utf8.Decode, json) }

  lemma Utf8IsValid(replies: nat -> seq<Byte>, json: string -> bool)
    requires forall k :: NEWLINE !in replies(k)
    ensures Utf8Env(replies, json).Valid()
  {
    forall x | NEWLINE !in x
      ensures '\n' !in Utf8.Decode(x)
    {
      Utf8.NoNewline(x);
    }
    forall x, y
      ensures Utf8.Decode(x + [NEWLINE] + y) == Utf8.Decode(x) + "\n" + Utf8.Decode(y)
    {
      Utf8.DecodeAroundNewline(x, y);
    }
  }

  lemma CutInAscii(reply: seq<Byte>, i: nat, j: nat)
    requires Utf8.Ascii(reply) && i <= j <= |reply|
    ensures Utf8.Decode(reply[..i]) + Utf8.Decode(reply[i..j]) == Utf8.Decode(reply[..j])
  {
    assert reply[..j] == reply[..i] + reply[i..j];
    Utf8.DecodeAfterAscii(reply[..i], reply[i..j]);
  }

  lemma AsciiIntact(env: Env, reply: seq<Byte>)
    requires env.Valid() && env.decode == Utf8.Decode && Utf8.Ascii(reply)
    ensures Intact(env, reply)
  {
    forall i, j | 0 <= i <= j <= |reply|
      ensures env.decode(reply[..i]) + env.decode(reply[i..j]) == env.decode(reply[..j])
    {
      CutInAscii(reply, i, j);
    }
    IntactIff(env, reply);
  }

  lemma CutNotIntact(env: Env, reply: seq<Byte>, i: nat)
    requires i <= |reply| && env.decode(reply[..i]) + env.decode(reply[i..]) != env.decode(reply)
    ensures !Intact(env, reply)
  {
    var a, b := reply[..i], reply[i..];
    assert reply == a + b;
    TwoPieces(env, a, b);
  }

  /** A reply in well-formed UTF-8 is handed out intact, however it is cut, if and only if it
      is ASCII. */
  lemma Utf8IntactIff(replies: nat -> seq<Byte>, json: string -> bool, reply: seq<Byte>)
    requires forall k :: NEWLINE !in replies(k)
    requires Utf8.WellFormed(reply)
    ensures Intact(Utf8Env(replies, json), reply) <==> Utf8.Ascii(reply)
  {
    var env := Utf8Env(replies, json);
    Utf8IsValid(replies, json);
    if Utf8.Ascii(reply) {
      AsciiIntact(env, reply);
    } else {
      var i := Utf8.SomeCutShows(reply);
      CutNotIntact(env, reply, i);
    }
  }

  /** The two bytes of an e with an acute accent, arriving one by one, become two
      replacement characters. */
  lemma AcuteAccentIsLost(replies: nat -> seq<Byte>, json: string -> bool)
    requires forall k :: NEWLINE !in replies(k)
    ensures Utf8.WellFormed([0xC3, 0xA9]) && Utf8.Decode([0xC3, 0xA9]) == "\U{E9}"
    ensures Reads(Utf8Env(replies, json), "\U{FFFD}\U{FFFD}", [0xC3, 0xA9])
    ensures !Intact(Utf8Env(replies, json), [0xC3, 0xA9])
  {
    var s: seq<Byte> := [0xC3, 0xA9];
    assert s[2..] == [] && Utf8.Extent(s) == 2;
    assert Utf8.Decode([0xC3]) == "\U{FFFD}" && Utf8.Decode([0xA9]) == "\U{FFFD}";
    TwoPieces(Utf8Env(replies, json), [0xC3], [0xA9]);
    assert [0xC3] + [0xA9] == s;
  }

  // ---------------------------------------------------------------- in every run

  lemma Then(env: Env, w: World, a: Action, rest: seq<Action>)
    requires Awaits(w, a) && Sequential(env, Step(env, w, a), rest)
    ensures Sequential(env, w, [a] + rest) && After(env, w, [a] + rest) == After(env, Step(env, w, a), rest)
  {
    assert ([a] + rest)[1..] == rest;
  }

  lemma {:induction false} Chain(env: Env, w: World, first: seq<Action>, second: seq<Action>)
    requires Sequential(env, w, first) && Sequential(env, After(env, w, first), second)
    ensures Sequential(env, w, first + second)
    ensures After(env, w, first + second) == After(env, After(env, w, first), second)
    decreases |first|
  {
    if first == [] {
      assert first + second == second;
    } else {
      Chain(env, Step(env, w, first[0]), first[1..], second);
      assert (first + second)[1..] == first[1..] + second;
    }
  }

  /** Connected, nothing waiting and nothing on its way. */
  predicate Idle(w: World) {
    && w.client.Alive() && w.client.pending == None && w.client.buffer == [] && w.undelivered == []
    && (Calls(w) > 0 ==> w.client.settled[Calls(w) - 1] != None)
  }

  /** The client after call `k` got `line`. */
  function Answered(env: Env, c: Client, line: string): Client {
    c.(settled := c.settled + [Some(Taken(line, env.json))])
  }

  lemma FirstPart(env: Env, w: World, i: nat)
    requires env.Valid() && Idle(w) && i <= |env.replies(Calls(w))|
    ensures var r := env.replies(Calls(w));
      Step(env, Step(env, w, Send), Data(i)) ==
      World(w.client.(pending := Some(Calls(w)), settled := w.client.settled + [None], buffer := env.decode(r[..i])),
            r[i..] + [NEWLINE])
  {
    var r := env.replies(Calls(w));
    var u := Step(env, w, Send);
    assert u.undelivered == r + [NEWLINE];
    assert u.undelivered[..i] == r[..i] && u.undelivered[i..] == r[i..] + [NEWLINE];
    Grows(env, u.client, [], r[..i]);
    PiecesMore(env, [], r[..i]);
    assert [] + env.decode(r[..i]) == env.decode(r[..i]);
  }

  lemma SecondPart(env: Env, c: Client, a: seq<Byte>, b: seq<Byte>)
    requires env.Valid() && NEWLINE !in a && NEWLINE !in b && c.buffer == env.decode(a)
    ensures c.Data(env.decode(b + [NEWLINE]), env.json) ==
      c.(buffer := []).Line(env.decode(a) + env.decode(b), env.json)
  {
    var line := env.decode(a) + env.decode(b);
    PiecesMore(env, [], a);
    PiecesMore(env, [a], b);
    assert [] + [a] == [a] && [] + a == a && [] + env.decode(a) == env.decode(a);
    assert b + [NEWLINE] + [] == b + [NEWLINE];
    Completes(env, c, [a], b, []);
    NothingMore(env, c.(buffer := []).Line(line, env.json));
  }

  lemma LineAnswers(env: Env, c: Client, line: string)
    requires c.pending == None && c.buffer == []
    ensures c.(pending := Some(|c.settled|), settled := c.settled + [None]).Line(line, env.json) == Answered(env, c, line)
  {
    assert (c.settled + [None])[|c.settled| := Some(Taken(line, env.json))] == c.settled + [Some(Taken(line, env.json))];
  }

  lemma AllOf(env: Env, w: World, bytes: seq<Byte>)
    requires w.undelivered == bytes
    ensures Step(env, w, Data(|bytes|)) == World(w.client.Data(env.decode(bytes), env.json), [])
  {
    assert bytes[..|bytes|] == bytes;
  }

  lemma BothParts(env: Env, w: World, i: nat)
    requires env.Valid() && Idle(w) && i <= |env.replies(Calls(w))|
    ensures
      var r := env.replies(Calls(w));
      Step(env, Step(env, Step(env, w, Send), Data(i)), Data(|r| - i + 1)) ==
      World(Answered(env, w.client, env.decode(r[..i]) + env.decode(r[i..])), [])
  {
    var r := env.replies(Calls(w));
    var a, b := r[..i], r[i..];
    var u := Step(env, Step(env, w, Send), Data(i));
    FirstPart(env, w, i);
    assert |b + [NEWLINE]| == |r| - i + 1;
    AllOf(env, u, b + [NEWLINE]);
    assert a + b == r && NEWLINE !in a && NEWLINE !in b;
    SecondPart(env, u.client, a, b);
    LineAnswers(env, w.client, env.decode(a) + env.decode(b));
    assert u.client.(buffer := []) == w.client.(pending := Some(Calls(w)), settled := w.client.settled + [None]);
  }

  function CutIn(i: nat, n: nat): seq<Action> { [Send] + ([Data(i)] + ([Data(n)] + [])) }

  lemma ThreeSteps(env: Env, w: World, i: nat, n: nat)
    requires Awaits(w, Send)
    ensures Sequential(env, w, CutIn(i, n))
    ensures After(env, w, CutIn(i, n)) == Step(env, Step(env, Step(env, w, Send), Data(i)), Data(n))
  {
    var u1 := Step(env, w, Send);
    var u2 := Step(env, u1, Data(i));
    Then(env, u2, Data(n), []);
    Then(env, u1, Data(i), [Data(n)] + []);
    Then(env, w, Send, [Data(i)] + ([Data(n)] + []));
  }

  /** From an idle connection, a call whose reply arrives cut at `i` gets the text of the two parts. */
  lemma CutReply(env: Env, w: World, i: nat)
    requires env.Valid() && Idle(w) && i <= |env.replies(Calls(w))|
    ensures
      var r := env.replies(Calls(w));
      var acts := CutIn(i, |r| - i + 1);
      && Sequential(env, w, acts)
      && After(env, w, acts) == World(Answered(env, w.client, env.decode(r[..i]) + env.decode(r[i..])), [])
      && Idle(After(env, w, acts))
  {
    BothParts(env, w, i);
    ThreeSteps(env, w, i, |env.replies(Calls(w))| - i + 1);
  }

  /** Any number of calls can be made and answered. */
  lemma {:induction false} IdleAt(env: Env, k: nat) returns (acts: seq<Action>)
    requires env.Valid()
    ensures Sequential(env, START, acts) && Idle(After(env, START, acts)) && Calls(After(env, START, acts)) == k
  {
    if k == 0 {
      acts := [];
    } else {
      var before := IdleAt(env, k - 1);
      var w := After(env, START, before);
      CutReply(env, w, 0);
      var more := CutIn(0, |env.replies(k - 1)| + 1);
      Chain(env, START, before, more);
      acts := before + more;
    }
  }

  ghost predicate OwnText(env: Env, outcome: Option<Settled>, k: nat) {
    match outcome
    case Some(Resolved(line)) => line == env.decode(env.replies(k))
    case Some(BadReply(line)) => line == env.decode(env.replies(k))
    case _ => true
  }

  /** In every run of a caller that awaits its calls, every call that gets a line gets the
      text of the reply to it, as decoding it whole would give. */
  ghost predicate AllWhole(env: Env) {
    forall acts, k :: Sequential(env, START, acts) && 0 <= k < Calls(After(env, START, acts)) ==>
      OwnText(env, After(env, START, acts).client.settled[k], k)
  }

  lemma CutShows(env: Env, k: nat, i: nat)
    requires env.Valid() && i <= |env.replies(k)|
    requires env.decode(env.replies(k)[..i]) + env.decode(env.replies(k)[i..]) != env.decode(env.replies(k))
    ensures !AllWhole(env)
  {
    var before := IdleAt(env, k);
    var w := After(env, START, before);
    var more := CutIn(i, |env.replies(k)| - i + 1);
    CutReply(env, w, i);
    Chain(env, START, before, more);
    assert !OwnText(env, After(env, START, before + more).client.settled[k], k);
  }

  lemma AsciiIsWhole(replies: nat -> seq<Byte>, json: string -> bool, acts: seq<Action>, k: nat)
    requires (forall k :: NEWLINE !in replies(k)) && (forall k :: Utf8.WellFormed(replies(k)))
    requires Utf8.Ascii(replies(k)) && Sequential(Utf8Env(replies, json), START, acts)
    requires k < Calls(After(Utf8Env(replies, json), START, acts))
    ensures OwnText(Utf8Env(replies, json), After(Utf8Env(replies, json), START, acts).client.settled[k], k)
  {
    var env := Utf8Env(replies, json);
    Utf8IsValid(replies, json);
    EveryCallGetsItsOwnReply(env, acts);
    Utf8IntactIff(replies, json, replies(k));
    assert RightReply(env, After(env, START, acts).client.settled[k], k);
  }

  /** With replies in well-formed UTF-8: every call gets the text of its own reply in every
      run if and only if all the replies are ASCII. */
  lemma AllWholeIff(replies: nat -> seq<Byte>, json: string -> bool)
    requires (forall k :: NEWLINE !in replies(k)) && (forall k :: Utf8.WellFormed(replies(k)))
    ensures AllWhole(Utf8Env(replies, json)) <==> forall k :: Utf8.Ascii(replies(k))
  {
    var env := Utf8Env(replies, json);
    Utf8IsValid(replies, json);
    if k :| !Utf8.Ascii(replies(k)) {
      var i := Utf8.SomeCutShows(replies(k));
      CutShows(env, k, i);
    } else {
      forall acts, k | Sequential(env, START, acts) && 0 <= k < Calls(After(env, START, acts))
        ensures OwnText(env, After(env, START, acts).client.settled[k], k)
      {
        AsciiIsWhole(replies, json, acts, k);
      }
    }
  }
}
