/**
 Runs of the SDK's connection against a daemon that answers one line per request, in order:
 whose reply each call gets, however the bytes are cut into pieces and wherever calls time
 out or the connection closes.
 */
module IpcRuns {
  import opened Wrappers
  import opened Bytes
  import opened IpcClient

  /** The daemon's reply to each request, how a piece of the stream becomes text, and which
      lines are well-formed. */
  datatype Env = Env(replies: nat -> seq<Byte>, decode: seq<Byte> -> string, json: string -> bool) {
    /** Replies hold no newline, and decoding keeps newlines apart from what is around them. */
    ghost predicate Valid() {
      && (forall k :: NEWLINE !in replies(k))
      && (forall x :: NEWLINE !in x ==> '\n' !in decode(x))
      && (forall x, y :: decode(x + [NEWLINE] + y) == decode(x) + "\n" + decode(y))
      && decode([]) == []
    }
  }

  /** `undelivered` is what the daemon wrote and did not arrive yet. */
  datatype World = World(client: Client, undelivered: seq<Byte>)

  datatype Action =
    | Send
    | Data(n: nat)
    | Timeout(call: nat)
    | SocketClosed
    | Close

  function Calls(w: World): nat { |w.client.settled| }

  function Step(env: Env, w: World, a: Action): World {
    match a
    case Send =>
      var (client, refused) := w.client.Send();
      World(client, w.undelivered + if refused == None then env.replies(Calls(w)) + [NEWLINE] else [])
    case Data(n) =>
      if n > |w.undelivered| then w
      else World(w.client.Data(env.decode(w.undelivered[..n]), env.json), w.undelivered[n..])
    case Timeout(call) => w.(client := w.client.Timeout(call))
    case SocketClosed => w.(client := w.client.OnClose())
    case Close => w.(client := w.client.Close())
  }

  /** A caller that awaits each call before it makes the next. */
  predicate Awaits(w: World, a: Action) { a == Send && Calls(w) > 0 ==> w.client.settled[Calls(w) - 1] != None }

  predicate Sequential(env: Env, w: World, acts: seq<Action>)
    decreases |acts|
  {
    acts == [] || (Awaits(w, acts[0]) && Sequential(env, Step(env, w, acts[0]), acts[1..]))
  }

  function After(env: Env, w: World, acts: seq<Action>): World
    decreases |acts|
  {
    if acts == [] then w else After(env, Step(env, w, acts[0]), acts[1..])
  }

  const START := World(FRESH, [])

  // ---------------------------------------------------------------- the stream

  /** What the daemon writes for requests `first` up to `last`. */
  function Rest(env: Env, first: nat, last: nat): seq<Byte>
    decreases last - first
  {
    if first >= last then [] else env.replies(first) + [NEWLINE] + Rest(env, first + 1, last)
  }

  lemma {:induction false} RestMore(env: Env, first: nat, last: nat)
    requires first <= last
    ensures Rest(env, first, last + 1) == Rest(env, first, last) + (env.replies(last) + [NEWLINE])
    decreases last - first
  {
    if first < last {
      RestMore(env, first + 1, last);
    } else {
      assert Rest(env, last + 1, last + 1) == [];
    }
  }

  function Flatten(pieces: seq<seq<Byte>>): seq<Byte> {
    if pieces == [] then [] else Flatten(pieces[..|pieces| - 1]) + pieces[|pieces| - 1]
  }

  /** Pieces decoded one by one, as they arrive. */
  function Text(env: Env, pieces: seq<seq<Byte>>): string {
    if pieces == [] then [] else Text(env, pieces[..|pieces| - 1]) + env.decode(pieces[|pieces| - 1])
  }

  /** The line is the reply, decoded in some pieces. */
  ghost predicate Reads(env: Env, line: string, reply: seq<Byte>) {
    exists pieces :: Flatten(pieces) == reply && Text(env, pieces) == line
  }

  lemma PiecesMore(env: Env, pieces: seq<seq<Byte>>, x: seq<Byte>)
    ensures Flatten(pieces + [x]) == Flatten(pieces) + x && Text(env, pieces + [x]) == Text(env, pieces) + env.decode(x)
  {
    assert (pieces + [x])[..|pieces|] == pieces;
  }

  lemma {:induction false} OneCut(a: seq<Byte>, b: seq<Byte>, s: seq<Byte>, t: seq<Byte>)
    requires NEWLINE !in a && NEWLINE !in b && a + [NEWLINE] + s == b + [NEWLINE] + t
    ensures a == b && s == t
  {
    assert (a + [NEWLINE] + s)[0] == (b + [NEWLINE] + t)[0];
    assert a + [NEWLINE] + s == a + ([NEWLINE] + s) && b + [NEWLINE] + t == b + ([NEWLINE] + t);
    if a != [] && b != [] {
      assert (a + [NEWLINE] + s)[1..] == a[1..] + [NEWLINE] + s;
      assert (b + [NEWLINE] + t)[1..] == b[1..] + [NEWLINE] + t;
      OneCut(a[1..], b[1..], s, t);
      assert a == [a[0]] + a[1..] && b == [b[0]] + b[1..];
    } else {
      assert ([NEWLINE] + s)[1..] == s && ([NEWLINE] + t)[1..] == t;
    }
  }

  // ---------------------------------------------------------------- what holds in every run

  /** `answered` lines were taken from the stream; the buffer holds the next one so far, which
      arrived in `pieces`. */
  ghost predicate Streams(env: Env, w: World, answered: nat, pieces: seq<seq<Byte>>) {
    && answered <= Calls(w)
    && NEWLINE !in Flatten(pieces)
    && w.client.buffer == Text(env, pieces)
    && Flatten(pieces) + w.undelivered == Rest(env, answered, Calls(w))
  }

  ghost predicate Waits(c: Client, answered: nat) {
    && (c.pending.Some? ==> c.pending.value == answered == |c.settled| - 1 && c.settled[answered] == None)
    && (c.Alive() && c.pending.None? ==> answered == |c.settled|)
    && (forall k :: 0 <= k < |c.settled| && c.settled[k] == None ==> c.pending == Some(k))
  }

  /** A call gets a line only if it is the reply to its own request. */
  ghost predicate Correlated(env: Env, c: Client) {
    forall k :: 0 <= k < |c.settled| ==> RightReply(env, c.settled[k], k)
  }

  ghost predicate RightReply(env: Env, outcome: Option<Settled>, k: nat) {
    match outcome
    case Some(Resolved(line)) => env.json(line) && Reads(env, line, env.replies(k))
    case Some(BadReply(line)) => !env.json(line) && Reads(env, line, env.replies(k))
    case _ => true
  }

  ghost predicate Inv(env: Env, w: World, answered: nat, pieces: seq<seq<Byte>>) {
    Streams(env, w, answered, pieces) && Waits(w.client, answered) && Correlated(env, w.client)
  }

  // ---------------------------------------------------------------- data

  lemma PositionAfter(c: char, rest: string)
    ensures c == '\n' ==> Position([c] + rest) == Some(0)
    ensures c != '\n' && Position(rest).Some? ==> Position([c] + rest) == Some(Position(rest).value + 1)
  {
    var s := [c] + rest;
    assert s[0] == c && s[1..] == rest;
    if c != '\n' && Position(rest).Some? {
      assert Position(s) == Some(Position(s[1..]).value + 1);
    }
  }

  lemma {:induction false} FirstNewline(a: string, b: string)
    requires '\n' !in a
    ensures Position(a + "\n" + b) == Some(|a|)
    ensures (a + "\n" + b)[..|a|] == a && (a + "\n" + b)[|a| + 1..] == b
  {
    if a == [] {
      assert a + "\n" + b == ['\n'] + b;
      PositionAfter('\n', b);
    } else {
      FirstNewline(a[1..], b);
      assert a + "\n" + b == [a[0]] + (a[1..] + "\n" + b);
      PositionAfter(a[0], a[1..] + "\n" + b);
    }
  }

  lemma {:induction false} TextHasNoNewline(env: Env, pieces: seq<seq<Byte>>)
    requires env.Valid() && NEWLINE !in Flatten(pieces)
    ensures '\n' !in Text(env, pieces)
  {
    if pieces != [] {
      TextHasNoNewline(env, pieces[..|pieces| - 1]);
    }
  }

  /** Where the first newline is; the end if there is none. */
  lemma {:induction false} FindNewline(chunk: seq<Byte>) returns (i: nat)
    ensures i <= |chunk| && NEWLINE !in chunk[..i]
    ensures i < |chunk| ==> chunk[i] == NEWLINE
  {
    if chunk == [] || chunk[0] == NEWLINE {
      i := 0;
    } else {
      i := FindNewline(chunk[1..]);
      assert chunk[..i + 1] == [chunk[0]] + chunk[1..][..i];
      i := i + 1;
    }
  }

  lemma LineWithBuffer(c: Client, line: string, rest: string, json: string -> bool)
    ensures c.(buffer := rest).Line(line, json) == c.(buffer := []).Line(line, json).(buffer := rest)
  {
  }

  lemma ProcessStep(c: Client, i: nat, json: string -> bool)
    requires Position(c.buffer) == Some(i)
    ensures c.Process(json) == c.(buffer := c.buffer[i + 1..]).Line(c.buffer[..i], json).Process(json)
  {
  }

  lemma DataOnEmpty(d: Client, text: string, json: string -> bool)
    requires d.buffer == []
    ensures d.Data(text, json) == d.(buffer := text).Process(json)
  {
    assert [] + text == text;
  }

  lemma ProcessOne(c: Client, line: string, rest: string, json: string -> bool)
    requires '\n' !in line && c.buffer == line + "\n" + rest
    ensures c.Process(json) == c.(buffer := []).Line(line, json).Data(rest, json)
  {
    FirstNewline(line, rest);
    ProcessStep(c, |line|, json);
    LineWithBuffer(c, line, rest, json);
    DataOnEmpty(c.(buffer := []).Line(line, json), rest, json);
  }

  lemma Arrives(env: Env, buffer: string, x: seq<Byte>, y: seq<Byte>)
    requires env.Valid()
    ensures buffer + env.decode(x + [NEWLINE] + y) == buffer + env.decode(x) + "\n" + env.decode(y)
  {
    assert env.decode(x + [NEWLINE] + y) == env.decode(x) + "\n" + env.decode(y);
  }

  /** A piece with a newline completes the line in the buffer. */
  lemma Completes(env: Env, c: Client, pieces: seq<seq<Byte>>, x: seq<Byte>, y: seq<Byte>)
    requires env.Valid() && NEWLINE !in Flatten(pieces) && NEWLINE !in x && c.buffer == Text(env, pieces)
    ensures c.Data(env.decode(x + [NEWLINE] + y), env.json) ==
      c.(buffer := []).Line(Text(env, pieces + [x]), env.json).Data(env.decode(y), env.json)
  {
    PiecesMore(env, pieces, x);
    TextHasNoNewline(env, pieces);
    Arrives(env, c.buffer, x, y);
    var next := c.(buffer := c.buffer + env.decode(x + [NEWLINE] + y));
    ProcessOne(next, Text(env, pieces + [x]), env.decode(y), env.json);
  }

  /** A piece without one only grows the buffer. */
  lemma Grows(env: Env, c: Client, pieces: seq<seq<Byte>>, x: seq<Byte>)
    requires env.Valid() && NEWLINE !in Flatten(pieces) && NEWLINE !in x && c.buffer == Text(env, pieces)
    ensures c.Data(env.decode(x), env.json) == c.(buffer := Text(env, pieces + [x]))
    ensures NEWLINE !in Flatten(pieces + [x])
  {
    PiecesMore(env, pieces, x);
    TextHasNoNewline(env, pieces);
  }

  /** The line a newline completes is the next reply. */
  lemma IsNextReply(env: Env, calls: nat, answered: nat, pieces: seq<seq<Byte>>, x: seq<Byte>, rest: seq<Byte>)
    requires env.Valid() && NEWLINE !in Flatten(pieces) && NEWLINE !in x && answered <= calls
    requires Flatten(pieces) + (x + [NEWLINE] + rest) == Rest(env, answered, calls)
    ensures answered < calls && Flatten(pieces + [x]) == env.replies(answered)
    ensures rest == Rest(env, answered + 1, calls)
    ensures Reads(env, Text(env, pieces + [x]), env.replies(answered))
  {
    PiecesMore(env, pieces, x);
    assert Flatten(pieces) + (x + [NEWLINE] + rest) == (Flatten(pieces) + x) + [NEWLINE] + rest;
    assert Rest(env, answered, calls) != [];
    OneCut(Flatten(pieces) + x, env.replies(answered), rest, Rest(env, answered + 1, calls));
  }

  /** Handing the next reply to whoever waits keeps the books straight. */
  lemma AnswersTheRightCall(env: Env, c: Client, answered: nat, line: string)
    requires Waits(c, answered) && Correlated(env, c) && answered < |c.settled|
    requires Reads(env, line, env.replies(answered))
    ensures Waits(c.Line(line, env.json), answered + 1) && Correlated(env, c.Line(line, env.json))
    ensures c.Line(line, env.json).buffer == c.buffer && |c.Line(line, env.json).settled| == |c.settled|
  {
    var d := c.Line(line, env.json);
    forall k | 0 <= k < |d.settled|
      ensures RightReply(env, d.settled[k], k)
    {
      assert RightReply(env, c.settled[k], k);
    }
  }

  /** Any piece of the stream keeps the invariant, however many lines it completes. */
  lemma {:induction false} Feed(env: Env, c: Client, answered: nat, pieces: seq<seq<Byte>>, chunk: seq<Byte>, left: seq<Byte>, e: Client)
      returns (answered': nat, pieces': seq<seq<Byte>>)
    requires env.Valid() && Inv(env, World(c, chunk + left), answered, pieces)
    requires e == c.Data(env.decode(chunk), env.json)
    ensures Inv(env, World(e, left), answered', pieces')
    decreases |chunk|
  {
    var i := FindNewline(chunk);
    if i == |chunk| {
      assert chunk[..i] == chunk;
      answered', pieces' := answered, pieces + [chunk];
      FeedPart(env, c, answered, pieces, chunk, left);
    } else {
      var d := FeedCut(env, c, answered, pieces, chunk, i, left);
      answered', pieces' := Feed(env, d, answered + 1, [], chunk[i + 1..], left, e);
    }
  }

  lemma FeedCut(env: Env, c: Client, answered: nat, pieces: seq<seq<Byte>>, chunk: seq<Byte>, i: nat, left: seq<Byte>)
      returns (d: Client)
    requires env.Valid() && Inv(env, World(c, chunk + left), answered, pieces)
    requires i < |chunk| && chunk[i] == NEWLINE && NEWLINE !in chunk[..i]
    ensures Inv(env, World(d, chunk[i + 1..] + left), answered + 1, [])
    ensures c.Data(env.decode(chunk), env.json) == d.Data(env.decode(chunk[i + 1..]), env.json)
  {
    var x, y := chunk[..i], chunk[i + 1..];
    d := c.(buffer := []).Line(Text(env, pieces + [x]), env.json);
    CutAt(chunk, i, left);
    CompletesChunk(env, c, pieces, chunk, x, y);
    NextLine(env, c, answered, pieces, chunk + left, x, y + left);
  }

  lemma CutAt(chunk: seq<Byte>, i: nat, left: seq<Byte>)
    requires i < |chunk| && chunk[i] == NEWLINE
    ensures chunk == chunk[..i] + [NEWLINE] + chunk[i + 1..]
    ensures chunk + left == chunk[..i] + [NEWLINE] + (chunk[i + 1..] + left)
  {
  }

  lemma CompletesChunk(env: Env, c: Client, pieces: seq<seq<Byte>>, chunk: seq<Byte>, x: seq<Byte>, y: seq<Byte>)
    requires env.Valid() && NEWLINE !in Flatten(pieces) && NEWLINE !in x && c.buffer == Text(env, pieces)
    requires chunk == x + [NEWLINE] + y
    ensures c.Data(env.decode(chunk), env.json) ==
      c.(buffer := []).Line(Text(env, pieces + [x]), env.json).Data(env.decode(y), env.json)
  {
    Completes(env, c, pieces, x, y);
  }

  lemma NextLine(env: Env, c: Client, answered: nat, pieces: seq<seq<Byte>>, bytes: seq<Byte>, x: seq<Byte>, left: seq<Byte>)
    requires env.Valid() && Inv(env, World(c, bytes), answered, pieces)
    requires bytes == x + [NEWLINE] + left && NEWLINE !in x
    ensures Inv(env, World(c.(buffer := []).Line(Text(env, pieces + [x]), env.json), left), answered + 1, [])
  {
    IsNextReply(env, |c.settled|, answered, pieces, x, left);
    FeedLine(env, c.(buffer := []), answered, Text(env, pieces + [x]), left);
  }

  lemma FeedPart(env: Env, c: Client, answered: nat, pieces: seq<seq<Byte>>, chunk: seq<Byte>, left: seq<Byte>)
    requires env.Valid() && Inv(env, World(c, chunk + left), answered, pieces) && NEWLINE !in chunk
    ensures Inv(env, World(c.Data(env.decode(chunk), env.json), left), answered, pieces + [chunk])
  {
    Grows(env, c, pieces, chunk);
    PiecesMore(env, pieces, chunk);
    assert Flatten(pieces) + (chunk + left) == (Flatten(pieces) + chunk) + left;
    forall k | 0 <= k < |c.settled|
      ensures RightReply(env, c.settled[k], k)
    {
    }
  }

  lemma FeedLine(env: Env, d: Client, answered: nat, line: string, left: seq<Byte>)
    requires d.buffer == [] && answered < |d.settled| && Waits(d, answered) && Correlated(env, d)
    requires Reads(env, line, env.replies(answered)) && left == Rest(env, answered + 1, |d.settled|)
    ensures Inv(env, World(d.Line(line, env.json), left), answered + 1, [])
  {
    AnswersTheRightCall(env, d, answered, line);
    assert [] + left == left;
  }

  // ---------------------------------------------------------------- the other steps

  lemma SendKeeps(env: Env, w: World, answered: nat, pieces: seq<seq<Byte>>)
    requires Inv(env, w, answered, pieces) && Awaits(w, Send)
    ensures Inv(env, Step(env, w, Send), answered, pieces)
  {
    if w.client.Alive() {
      var n := Calls(w);
      RestMore(env, answered, n);
      assert Flatten(pieces) + (w.undelivered + (env.replies(n) + [NEWLINE])) ==
        (Flatten(pieces) + w.undelivered) + (env.replies(n) + [NEWLINE]);
      var d := Step(env, w, Send).client;
      forall k | 0 <= k < |d.settled|
        ensures RightReply(env, d.settled[k], k) && (d.settled[k] == None ==> d.pending == Some(k))
      {
        if k < n {
          assert d.settled[k] == w.client.settled[k];
        }
      }
    } else {
      assert w.undelivered + [] == w.undelivered;
    }
  }

  lemma EndingKeeps(env: Env, w: World, a: Action, answered: nat, pieces: seq<seq<Byte>>)
    requires Inv(env, w, answered, pieces) && (a.Timeout? || a.SocketClosed? || a.Close?)
    ensures Inv(env, Step(env, w, a), answered, pieces)
  {
    var d := Step(env, w, a).client;
    forall k | 0 <= k < |d.settled|
      ensures RightReply(env, d.settled[k], k) && (d.settled[k] == None ==> d.pending == Some(k))
    {
      assert RightReply(env, w.client.settled[k], k);
    }
  }

  lemma StepKeepsInv(env: Env, w: World, a: Action, answered: nat, pieces: seq<seq<Byte>>)
      returns (answered': nat, pieces': seq<seq<Byte>>)
    requires env.Valid() && Inv(env, w, answered, pieces) && Awaits(w, a)
    ensures Inv(env, Step(env, w, a), answered', pieces')
  {
    answered', pieces' := answered, pieces;
    match a
    case Send => SendKeeps(env, w, answered, pieces);
    case Data(n) =>
      if n <= |w.undelivered| {
        assert w.undelivered == w.undelivered[..n] + w.undelivered[n..];
        answered', pieces' := Feed(env, w.client, answered, pieces, w.undelivered[..n], w.undelivered[n..], Step(env, w, a).client);
      }
    case _ => EndingKeeps(env, w, a, answered, pieces);
  }

  lemma {:induction false} RunKeepsInv(env: Env, w: World, acts: seq<Action>, answered: nat, pieces: seq<seq<Byte>>)
      returns (answered': nat, pieces': seq<seq<Byte>>)
    requires env.Valid() && Inv(env, w, answered, pieces) && Sequential(env, w, acts)
    ensures Inv(env, After(env, w, acts), answered', pieces')
    decreases |acts|
  {
    answered', pieces' := answered, pieces;
    if acts != [] {
      answered', pieces' := StepKeepsInv(env, w, acts[0], answered, pieces);
      answered', pieces' := RunKeepsInv(env, Step(env, w, acts[0]), acts[1..], answered', pieces');
    }
  }

  // ---------------------------------------------------------------- what every run comes to

  /** While a caller awaits each call before the next, no call ever gets the reply to another,
      however the stream is cut and wherever calls time out or the connection closes. */
  lemma EveryCallGetsItsOwnReply(env: Env, acts: seq<Action>)
    requires env.Valid() && Sequential(env, START, acts)
    ensures Correlated(env, After(env, START, acts).client)
  {
    var answered, pieces := RunKeepsInv(env, START, acts, 0, []);
  }

  /** Only the last call can be unsettled, and then its reply has not fully arrived. */
  lemma NoReplyIsLost(env: Env, acts: seq<Action>, k: nat)
    requires env.Valid() && Sequential(env, START, acts)
    requires k < Calls(After(env, START, acts)) && After(env, START, acts).client.settled[k] == None
    ensures k == Calls(After(env, START, acts)) - 1 && After(env, START, acts).undelivered != []
  {
    var w := After(env, START, acts);
    var answered, pieces := RunKeepsInv(env, START, acts, 0, []);
    assert w.client.pending == Some(k) && answered == k;
    assert Rest(env, k, k + 1)[|env.replies(k)|] == NEWLINE;
    assert NEWLINE in Flatten(pieces) + w.undelivered;
  }

  ghost predicate Keeps(c: Client, d: Client) {
    |c.settled| <= |d.settled| && forall k :: 0 <= k < |c.settled| && c.settled[k] != None ==> d.settled[k] == c.settled[k]
  }

  lemma LineKeeps(c: Client, line: string, json: string -> bool)
    ensures Keeps(c, c.Line(line, json)) && c.Line(line, json).buffer == c.buffer
  {
  }

  lemma KeepsOn(c: Client, d: Client, e: Client)
    requires Keeps(c, d) && Keeps(d, e)
    ensures Keeps(c, e)
  {
  }

  lemma {:induction false} ProcessKeeps(c: Client, json: string -> bool)
    ensures Keeps(c, c.Process(json))
    decreases |c.buffer|
  {
    var i := Position(c.buffer);
    if i.Some? {
      var b := c.(buffer := c.buffer[i.value + 1..]);
      var d := b.Line(c.buffer[..i.value], json);
      LineKeeps(b, c.buffer[..i.value], json);
      ProcessKeeps(d, json);
      KeepsOn(c, d, d.Process(json));
    }
  }

  lemma StepKeepsOutcomes(env: Env, w: World, a: Action)
    ensures Keeps(w.client, Step(env, w, a).client)
  {
    if a.Data? && a.n <= |w.undelivered| {
      ProcessKeeps(w.client.(buffer := w.client.buffer + env.decode(w.undelivered[..a.n])), env.json);
    }
  }

  /** No step changes the outcome of a call, overlapping sends or not. */
  lemma {:induction false} OutcomesAreFinal(env: Env, w: World, acts: seq<Action>)
    ensures Keeps(w.client, After(env, w, acts).client)
    decreases |acts|
  {
    if acts != [] {
      var u := Step(env, w, acts[0]);
      StepKeepsOutcomes(env, w, acts[0]);
      OutcomesAreFinal(env, u, acts[1..]);
      KeepsOn(w.client, u.client, After(env, u, acts[1..]).client);
    }
  }

  // ---------------------------------------------------------------- how calls end

  /** A send is refused exactly on a client without a socket, or one that a timeout desynchronized;
      refused, nothing changes. Otherwise a new call waits, alone, and its request is written. */
  lemma SendDecides(env: Env, w: World)
    ensures var (c, refused) := w.client.Send();
      var u := Step(env, w, Send);
      && (refused == Some(NotConnected) <==> !w.client.open)
      && (refused == Some(Abandoned) <==> w.client.open && w.client.desynchronized)
      && (refused != None ==> u == w)
      && (refused == None ==>
            && Calls(u) == Calls(w) + 1 && u.client.settled[..Calls(w)] == w.client.settled
            && u.client.settled[Calls(w)] == None && u.client.pending == Some(Calls(w))
            && u.undelivered == w.undelivered + (env.replies(Calls(w)) + [NEWLINE]))
  {
    assert w.undelivered + [] == w.undelivered;
  }

  /** A timeout settles its call, if nothing has; then nobody waits, and every later call is
      refused. */
  lemma TimeoutSettles(env: Env, w: World, k: nat)
    requires k < Calls(w) && w.client.settled[k] == None
    ensures var c := Step(env, w, Timeout(k)).client;
      && c.settled == w.client.settled[k := Some(TimedOut)] && c.pending == None
      && c.desynchronized && !c.open && c.Connect().Send().1 == Some(Abandoned)
  {
  }

  /** A close event settles the call that waits; afterwards calls are refused. Closing refuses
      them too, but leaves the waiting call to its reply, its timer or the close event. */
  lemma CloseSettles(env: Env, w: World)
    ensures var c := Step(env, w, SocketClosed).client;
      && !c.open && c.pending == None && c.Send().1 == Some(NotConnected)
      && (w.client.pending == None ==> c.settled == w.client.settled)
      && (w.client.pending.Some? && w.client.pending.value < Calls(w) && w.client.settled[w.client.pending.value] == None ==>
            c.settled == w.client.settled[w.client.pending.value := Some(Closed)])
    ensures var c := Step(env, w, Close).client;
      c == w.client.(open := false) && c.Send().1 == Some(NotConnected)
  {
  }

  predicate ByLine(outcome: Option<Settled>) { outcome.Some? && (outcome.value.Resolved? || outcome.value.BadReply?) }

  /** From `c` to `d` at most the call that waited was settled, by a line. */
  ghost predicate Progress(c: Client, d: Client) {
    && |d.settled| == |c.settled| && (d.pending == c.pending || d.pending == None)
    && forall k :: 0 <= k < |c.settled| ==>
      d.settled[k] == c.settled[k] || (c.pending == Some(k) && c.settled[k] == None && ByLine(d.settled[k]))
  }

  lemma LineProgress(c: Client, line: string, json: string -> bool)
    ensures Progress(c, c.Line(line, json)) && c.Line(line, json).buffer == c.buffer
  {
  }

  lemma ProgressOn(c: Client, d: Client, e: Client)
    requires Progress(c, d) && Progress(d, e)
    ensures Progress(c, e)
  {
  }

  lemma {:induction false} ProcessProgress(c: Client, json: string -> bool)
    ensures Progress(c, c.Process(json))
    decreases |c.buffer|
  {
    var i := Position(c.buffer);
    if i.Some? {
      var b := c.(buffer := c.buffer[i.value + 1..]);
      var d := b.Line(c.buffer[..i.value], json);
      LineProgress(b, c.buffer[..i.value], json);
      ProcessProgress(d, json);
      ProgressOn(c, d, d.Process(json));
    }
  }

  /** How an unsettled call can end: by a line while it is the one that waits, by a close event
      then, or by its own timer. */
  lemma HowCallsEnd(env: Env, w: World, a: Action, k: nat)
    requires k < Calls(w) && w.client.settled[k] == None
    ensures k < Calls(Step(env, w, a))
    ensures match Step(env, w, a).client.settled[k]
      case None => true
      case Some(Resolved(_)) => a.Data? && w.client.pending == Some(k)
      case Some(BadReply(_)) => a.Data? && w.client.pending == Some(k)
      case Some(Closed) => a == SocketClosed && w.client.pending == Some(k)
      case Some(TimedOut) => a == Timeout(k)
  {
    if a.Data? && a.n <= |w.undelivered| {
      ProcessProgress(w.client.(buffer := w.client.buffer + env.decode(w.undelivered[..a.n])), env.json);
    }
  }

  // ---------------------------------------------------------------- overlapping sends

  /** A second send while a call waits: the reply to the first settles the second. */
  lemma OverlapTakesTheReply(env: Env, w: World, k: nat, pieces: seq<seq<Byte>>) returns (line: string, x: seq<Byte>)
    requires env.Valid() && Inv(env, w, k, pieces) && w.client.Alive() && w.client.pending == Some(k)
    ensures Reads(env, line, env.replies(k))
    ensures w.undelivered == x + [NEWLINE]
    ensures Step(env, Step(env, w, Send), Data(|w.undelivered|)).client ==
      Step(env, w, Send).client.(buffer := [], pending := None).Settle(k + 1, Taken(line, env.json))
  {
    var v := Step(env, w, Send);
    assert Rest(env, k + 1, k + 1) == [];
    assert Flatten(pieces) + w.undelivered == env.replies(k) + [NEWLINE];
    x := LastPart(Flatten(pieces), w.undelivered, env.replies(k));
    PiecesMore(env, pieces, x);
    line := Text(env, pieces + [x]);
    assert w.undelivered == x + [NEWLINE] + [];
    CompletesChunk(env, v.client, pieces, w.undelivered, x, []);
    assert v.undelivered[..|w.undelivered|] == w.undelivered;
    NothingMore(env, v.client.(buffer := []).Line(line, env.json));
  }

  lemma SecondCallGetsIt(env: Env, w: World, k: nat, pieces: seq<seq<Byte>>) returns (line: string, u: World)
    requires env.Valid() && Inv(env, w, k, pieces) && w.client.Alive() && w.client.pending == Some(k)
    ensures u == Step(env, Step(env, w, Send), Data(|w.undelivered|))
    ensures Reads(env, line, env.replies(k))
    ensures |u.client.settled| == k + 2 && u.client.settled[k + 1] == Some(Taken(line, env.json))
  {
    var x;
    line, x := OverlapTakesTheReply(env, w, k, pieces);
    u := Step(env, Step(env, w, Send), Data(|w.undelivered|));
  }

  lemma NothingMore(env: Env, c: Client)
    requires env.Valid() && c.buffer == []
    ensures c.Data(env.decode([]), env.json) == c
  {
    assert c.buffer + [] == c.buffer;
  }

  lemma LastPart(a: seq<Byte>, b: seq<Byte>, r: seq<Byte>) returns (x: seq<Byte>)
    requires NEWLINE !in a && a + b == r + [NEWLINE] && NEWLINE !in r
    ensures b == x + [NEWLINE] && NEWLINE !in x && a + x == r
  {
    assert (a + b)[|r|] == NEWLINE;
    assert |a| <= |r|;
    x := r[|a|..];
    assert b == (a + b)[|a|..] == (r + [NEWLINE])[|a|..] == x + [NEWLINE];
    assert a == (a + b)[..|a|] == r[..|a|];
  }

  /** Whether some run from here on, its caller awaiting every call, gives a call the wrong reply. */
  ghost predicate MixesUp(env: Env, w: World) {
    exists acts :: Sequential(env, w, acts) && !Correlated(env, After(env, w, acts).client)
  }

  ghost predicate Distinct(env: Env) {
    forall k: nat, line :: Reads(env, line, env.replies(k)) ==> !Reads(env, line, env.replies(k + 1))
  }

  /** On a live connection another request may be sent exactly when no call is waiting;
      otherwise some run hands a call the reply to another. */
  lemma SendMixesUpIff(env: Env, acts: seq<Action>)
    requires env.Valid() && Distinct(env) && Sequential(env, START, acts) && After(env, START, acts).client.Alive()
    ensures MixesUp(env, Step(env, After(env, START, acts), Send)) <==> After(env, START, acts).client.pending != None
  {
    var w := After(env, START, acts);
    var answered, pieces := RunKeepsInv(env, START, acts, 0, []);
    if w.client.pending == None {
      SendKeeps(env, w, answered, pieces);
      if MixesUp(env, Step(env, w, Send)) {
        var more :| Sequential(env, Step(env, w, Send), more) && !Correlated(env, After(env, Step(env, w, Send), more).client);
        var n, p := RunKeepsInv(env, Step(env, w, Send), more, answered, pieces);
      }
    } else {
      OverlapIsWrong(env, w, answered, pieces);
    }
  }

  lemma OverlapIsWrong(env: Env, w: World, k: nat, pieces: seq<seq<Byte>>)
    requires env.Valid() && Distinct(env) && Inv(env, w, k, pieces) && w.client.Alive() && w.client.pending == Some(k)
    ensures MixesUp(env, Step(env, w, Send))
  {
    var line, u := SecondCallGetsIt(env, w, k, pieces);
    NotItsOwn(env, k, line);
    GotTheWrongLine(env, u.client, k + 1, line);
    OneStep(env, Step(env, w, Send), Data(|w.undelivered|), u);
  }

  lemma GotTheWrongLine(env: Env, c: Client, k: nat, line: string)
    requires k < |c.settled| && !Reads(env, line, env.replies(k))
    requires c.settled[k] == Some(Taken(line, env.json))
    ensures !Correlated(env, c)
  {
    assert !RightReply(env, c.settled[k], k);
  }

  lemma NotItsOwn(env: Env, k: nat, line: string)
    requires Distinct(env) && Reads(env, line, env.replies(k))
    ensures !Reads(env, line, env.replies(k + 1))
  {
  }

  lemma OneStep(env: Env, w: World, a: Action, next: World)
    requires Awaits(w, a) && next == Step(env, w, a) && !Correlated(env, next.client)
    ensures MixesUp(env, w)
  {
    var acts := [a];
    assert acts[0] == a && acts[1..] == [];
    assert After(env, next, []) == next && Sequential(env, next, []);
    assert Sequential(env, w, acts);
    assert After(env, w, acts) == After(env, Step(env, w, acts[0]), acts[1..]);
  }
}
