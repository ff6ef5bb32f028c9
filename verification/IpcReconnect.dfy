/**
 Connecting the same client object again. The socket is replaced; the buffer, the waiting
 call and the mark of a timed-out request stay as they were, and the old socket's handlers
 go on to act on the same object until its close event has come.
 */
module IpcReconnect {
  import opened Wrappers
  import opened Bytes
  import opened IpcClient
  import opened IpcRuns
  import IpcText

  /** The old socket is gone for good, and a new one is connected. */
  function Again(w: World): World { World(w.client.OnClose().Connect(), []) }

  lemma SendOnNewSocket(env: Env, w: World)
    requires !w.client.desynchronized
    ensures var u := Step(env, Again(w), Send);
      && u.undelivered == env.replies(Calls(w)) + [NEWLINE]
      && u.client.buffer == w.client.buffer && u.client.pending == Some(Calls(w))
      && |u.client.settled| == Calls(w) + 1 && u.client.settled[Calls(w)] == None
  {
  }

  lemma TakesWholeLine(env: Env, c: Client, reply: seq<Byte>)
    requires env.Valid() && NEWLINE !in reply && '\n' !in c.buffer
    ensures c.Data(env.decode(reply + [NEWLINE]), env.json) ==
      c.(buffer := []).Line(c.buffer + env.decode(reply), env.json)
  {
    assert reply + [NEWLINE] + [] == reply + [NEWLINE];
    Arrives(env, c.buffer, reply, []);
    var line := c.buffer + env.decode(reply);
    ProcessOne(c.(buffer := c.buffer + env.decode(reply + [NEWLINE])), line, env.decode([]), env.json);
    NothingMore(env, c.(buffer := []).Line(line, env.json));
  }

  /** After any run of a caller that awaits its calls, and after the old socket's close event: the
      next call, if its reply comes in one piece, gets what the old connection had left in the
      buffer in front of it. */
  lemma NextCallGets(env: Env, acts: seq<Action>)
    requires env.Valid() && Sequential(env, START, acts) && !After(env, START, acts).client.desynchronized
    ensures
      var w := After(env, START, acts);
      var u := Step(env, Again(w), Send);
      var line := w.client.buffer + env.decode(env.replies(Calls(w)));
      Step(env, u, Data(|u.undelivered|)).client.settled == Again(w).client.settled +
      [Some(Taken(line, env.json))]
  {
    var w := After(env, START, acts);
    var answered, pieces := RunKeepsInv(env, START, acts, 0, []);
    TextHasNoNewline(env, pieces);
    SendOnNewSocket(env, w);
    var u := Step(env, Again(w), Send);
    assert u.undelivered[..|u.undelivered|] == u.undelivered;
    TakesWholeLine(env, u.client, env.replies(Calls(w)));
    SettlesLast(Again(w).client.settled, w.client.buffer + env.decode(env.replies(Calls(w))), env.json);
  }

  lemma SettlesLast(settled: seq<Option<Settled>>, line: string, json: string -> bool)
    ensures var outcome := Taken(line, json);
      (settled + [None])[|settled| := Some(outcome)] == settled + [Some(outcome)]
  {
  }

  /** So then it gets its own reply if and only if the old connection left nothing in the buffer. */
  lemma OwnReplyIff(env: Env, acts: seq<Action>)
    requires env.Valid() && Sequential(env, START, acts) && !After(env, START, acts).client.desynchronized
    ensures
      var w := After(env, START, acts);
      var u := Step(env, Again(w), Send);
      var own := env.decode(env.replies(Calls(w)));
      Step(env, u, Data(|u.undelivered|)).client.settled == Again(w).client.settled +
        [Some(Taken(own, env.json))]
      <==> w.client.buffer == []
  {
    NextCallGets(env, acts);
    var w := After(env, START, acts);
    var own := env.decode(env.replies(Calls(w)));
    var line := w.client.buffer + own;
    assert [] + own == own;
    assert |line| == |w.client.buffer| + |own|;
    var before := Again(w).client.settled;
    assert (before + [Some(Taken(line, env.json))])[|before|]
      == Some(Taken(line, env.json));
    assert (before + [Some(Taken(own, env.json))])[|before|]
      == Some(Taken(own, env.json));
  }

  /** Closing while a call waits and connecting again before the old socket is gone changes
      nothing at all: the next call then gets the reply to the one that waits. */
  lemma ClosedWhileWaiting(env: Env, acts: seq<Action>)
    requires env.Valid() && Distinct(env) && Sequential(env, START, acts)
    requires After(env, START, acts).client.Alive() && After(env, START, acts).client.pending.Some?
    ensures
      var w := After(env, START, acts);
      var again := w.(client := w.client.Close().Connect());
      again == w && MixesUp(env, Step(env, again, Send))
  {
    SendMixesUpIff(env, acts);
  }

  /** The old socket's close event, if it comes late, takes the new socket away and fails the
      call that waits on it. */
  lemma LateCloseFailsNewCall(c: Client)
    requires !c.desynchronized
    ensures var d := c.Connect().Send().0.OnClose();
      !d.open && d.settled == c.settled + [Some(Closed)]
  {
    assert (c.settled + [None])[|c.settled| := Some(Closed)] == c.settled + [Some(Closed)];
  }

  /** After a timeout connecting again does not help: every call is refused. */
  lemma TimedOutForGood(c: Client, call: nat)
    requires call < |c.settled| && c.settled[call] == None
    ensures c.Timeout(call).Connect().Send() == (c.Timeout(call).Connect(), Some(Abandoned))
  {
  }

  // ---------------------------------------------------------------- two sockets

  /** After connecting again: `former` is what the old socket has yet to deliver, until its close
      event; `latter` what the new one has. `struck` are the calls that waited when the old
      socket's close event came. */
  datatype Two = Two(client: Client, former: Option<seq<Byte>>, latter: seq<Byte>, struck: set<nat>)

  datatype Act = OldData(n: nat) | OldCloses | Does(a: Action)

  function Waiting(c: Client): set<nat> { if c.pending.Some? then {c.pending.value} else {} }

  function Do(env: Env, t: Two, a: Act): Two {
    match a
    case OldData(n) =>
      if t.former.None? || n > |t.former.value| then t
      else t.(client := t.client.Data(env.decode(t.former.value[..n]), env.json), former := Some(t.former.value[n..]))
    case OldCloses =>
      if t.former.None? then t
      else t.(client := t.client.OnClose(), former := None, struck := t.struck + Waiting(t.client))
    case Does(b) =>
      var u := Step(env, World(t.client, t.latter), b);
      t.(client := u.client, latter := u.undelivered)
  }

  predicate AllAwait(env: Env, t: Two, acts: seq<Act>)
    decreases |acts|
  {
    acts == [] ||
    ((acts[0].Does? ==> Awaits(World(t.client, t.latter), acts[0].a)) && AllAwait(env, Do(env, t, acts[0]), acts[1..]))
  }

  function DoAll(env: Env, t: Two, acts: seq<Act>): Two
    decreases |acts|
  {
    if acts == [] then t else DoAll(env, Do(env, t, acts[0]), acts[1..])
  }

  /** Connected again after a run on the first connection. */
  function Connected(env: Env, acts: seq<Action>): Two {
    var w := After(env, START, acts);
    Two(w.client.Connect(), if SocketClosed in acts then None else Some(w.undelivered), [], {})
  }

  /** A request was sent on the new socket. */
  function Sent(env: Env, c: Client): Client {
    c.(open := true, pending := Some(|c.settled|), settled := c.settled + [None])
  }

  /** And the next request sent, whether or not a call was waiting. */
  function Asked(env: Env, acts: seq<Action>): Two { Do(env, Connected(env, acts), Does(Send)) }

  lemma AskedIs(env: Env, acts: seq<Action>)
    requires !After(env, START, acts).client.desynchronized
    ensures var w := After(env, START, acts);
      Asked(env, acts) ==
      Two(Sent(env, w.client), if SocketClosed in acts then None else Some(w.undelivered),
          env.replies(Calls(w)) + [NEWLINE], {})
  {
    var w := After(env, START, acts);
    assert [] + (env.replies(Calls(w)) + [NEWLINE]) == env.replies(Calls(w)) + [NEWLINE];
  }

  /** A call from number `first` on was failed by the old socket's close event, or was handed a
      line that is not its reply. */
  ghost predicate Harmed(env: Env, t: Two, first: nat) {
    exists k :: first <= k < |t.client.settled| && (k in t.struck || !RightReply(env, t.client.settled[k], k))
  }

  /** Whether that happens to a new call in some run, its caller awaiting every call. */
  ghost predicate HarmsNewCalls(env: Env, acts: seq<Action>) {
    exists more :: AllAwait(env, Asked(env, acts), more) &&
      Harmed(env, DoAll(env, Asked(env, acts), more), Calls(After(env, START, acts)))
  }

  /** No reply can be read both as a line and as that line with something in front. */
  ghost predicate Unglued(env: Env) {
    forall k: nat, front, line ::
      front != [] && Reads(env, line, env.replies(k)) ==> !Reads(env, front + line, env.replies(k))
  }

  /** So it is where every reply stays intact, as in ASCII. */
  lemma IntactIsUnglued(env: Env)
    requires forall k: nat :: IpcText.Intact(env, env.replies(k))
    ensures Unglued(env)
  {
    forall k: nat, front, line | front != [] && Reads(env, line, env.replies(k))
      ensures !Reads(env, front + line, env.replies(k))
    {
      assert |front + line| > |line|;
      assert IpcText.Intact(env, env.replies(k));
    }
  }

  // ---------------------------------------------------------------- after the close event

  lemma {:induction false} ProcessWithoutCall(c: Client, json: string -> bool)
    requires c.pending == None
    ensures c.Process(json) == c.(buffer := c.Process(json).buffer)
    decreases |c.buffer|
  {
    var i := Position(c.buffer);
    if i.Some? {
      ProcessWithoutCall(c.(buffer := c.buffer[i.value + 1..]), json);
    }
  }

  predicate Off(c: Client) { !c.open && c.pending == None }

  lemma StepStaysOff(env: Env, w: World, a: Action)
    requires Off(w.client) || a == SocketClosed
    ensures Off(Step(env, w, a).client)
  {
    if a.Data? && a.n <= |w.undelivered| {
      ProcessWithoutCall(w.client.(buffer := w.client.buffer + env.decode(w.undelivered[..a.n])), env.json);
    }
  }

  lemma {:induction false} OffAfterClose(env: Env, w: World, acts: seq<Action>)
    requires Off(w.client) || SocketClosed in acts
    ensures Off(After(env, w, acts).client)
    decreases |acts|
  {
    if acts != [] {
      if Off(w.client) || acts[0] == SocketClosed {
        StepStaysOff(env, w, acts[0]);
      }
      OffAfterClose(env, Step(env, w, acts[0]), acts[1..]);
    }
  }

  // ---------------------------------------------------------------- with the old socket gone

  lemma {:induction false} GoneRun(env: Env, t: Two, more: seq<Act>, answered: nat, pieces: seq<seq<Byte>>)
    requires env.Valid() && t.former == None && Inv(env, World(t.client, t.latter), answered, pieces) && AllAwait(env, t, more)
    ensures Correlated(env, DoAll(env, t, more).client) && DoAll(env, t, more).struck == t.struck
    decreases |more|
  {
    if more != [] {
      var u := Do(env, t, more[0]);
      if more[0].Does? {
        var n, p := StepKeepsInv(env, World(t.client, t.latter), more[0].a, answered, pieces);
        GoneRun(env, u, more[1..], n, p);
      } else {
        GoneRun(env, u, more[1..], answered, pieces);
      }
    }
  }

  /** What the old connection left in the buffer, as bytes. */
  lemma Leftover(env: Env, acts: seq<Action>) returns (pieces: seq<seq<Byte>>)
    requires env.Valid() && Sequential(env, START, acts) && SocketClosed in acts
    ensures var c := After(env, START, acts).client;
      && Off(c) && c.buffer == Text(env, pieces) && NEWLINE !in Flatten(pieces)
      && Correlated(env, c) && forall k :: 0 <= k < |c.settled| ==> c.settled[k] != None
  {
    var answered;
    answered, pieces := RunKeepsInv(env, START, acts, 0, []);
    OffAfterClose(env, START, acts);
  }

  /** The same daemon, but that the reply to call `n` starts with other bytes. */
  function Prefixed(env: Env, n: nat, front: seq<Byte>): Env {
    env.(replies := (k: nat) => if k == n then front + env.replies(n) else env.replies(k))
  }

  lemma PrefixedIsValid(env: Env, n: nat, front: seq<Byte>)
    requires env.Valid() && NEWLINE !in front
    ensures Prefixed(env, n, front).Valid()
  {
    var f := Prefixed(env, n, front);
    forall k
      ensures NEWLINE !in f.replies(k)
    {
    }
    forall x, y
      ensures f.decode(x + [NEWLINE] + y) == f.decode(x) + "\n" + f.decode(y)
    {
      assert env.decode(x + [NEWLINE] + y) == env.decode(x) + "\n" + env.decode(y);
    }
  }

  lemma {:induction false} SameText(env: Env, n: nat, front: seq<Byte>, pieces: seq<seq<Byte>>)
    ensures Text(Prefixed(env, n, front), pieces) == Text(env, pieces)
  {
    if pieces != [] {
      SameText(env, n, front, pieces[..|pieces| - 1]);
    }
  }

  lemma SameReads(env: Env, n: nat, front: seq<Byte>, line: string, bytes: seq<Byte>)
    ensures Reads(Prefixed(env, n, front), line, bytes) <==> Reads(env, line, bytes)
  {
    var f := Prefixed(env, n, front);
    if pieces :| Flatten(pieces) == bytes && Text(f, pieces) == line {
      SameText(env, n, front, pieces);
    }
    if pieces :| Flatten(pieces) == bytes && Text(env, pieces) == line {
      SameText(env, n, front, pieces);
    }
  }

  lemma SameRight(env: Env, n: nat, front: seq<Byte>, outcome: Option<Settled>, k: nat)
    requires k != n
    ensures RightReply(Prefixed(env, n, front), outcome, k) <==> RightReply(env, outcome, k)
  {
    match outcome
    case Some(Resolved(line)) => SameReads(env, n, front, line, env.replies(k));
    case Some(BadReply(line)) => SameReads(env, n, front, line, env.replies(k));
    case _ =>
  }

  lemma DoKeepsCalls(env: Env, t: Two, a: Act)
    ensures |Do(env, t, a).client.settled| >= |t.client.settled|
  {
    match a
    case OldData(n) =>
      if t.former.Some? && n <= |t.former.value| {
        ProcessKeeps(t.client.(buffer := t.client.buffer + env.decode(t.former.value[..n])), env.json);
      }
    case OldCloses =>
    case Does(b) => StepKeepsOutcomes(env, World(t.client, t.latter), b);
  }

  lemma {:induction false} SameRun(env: Env, n: nat, front: seq<Byte>, t: Two, more: seq<Act>)
    requires |t.client.settled| > n
    ensures DoAll(Prefixed(env, n, front), t, more) == DoAll(env, t, more)
    ensures AllAwait(Prefixed(env, n, front), t, more) == AllAwait(env, t, more)
    decreases |more|
  {
    if more != [] {
      DoKeepsCalls(env, t, more[0]);
      assert Do(Prefixed(env, n, front), t, more[0]) == Do(env, t, more[0]);
      SameRun(env, n, front, Do(env, t, more[0]), more[1..]);
    }
  }

  /** A new call on a client with something left in the buffer, seen as a call whose reply
      starts with what was left. */
  lemma SentStreams(env: Env, c: Client, pieces: seq<seq<Byte>>, f: Env)
    requires Off(c) && !c.desynchronized && c.buffer == Text(env, pieces) && NEWLINE !in Flatten(pieces)
    requires f == Prefixed(env, |c.settled|, Flatten(pieces))
    ensures Streams(f, World(Sent(env, c), env.replies(|c.settled|) + [NEWLINE]), |c.settled|, pieces)
  {
    var n := |c.settled|;
    SameText(env, n, Flatten(pieces), pieces);
    assert Rest(f, n + 1, n + 1) == [];
    assert f.replies(n) == Flatten(pieces) + env.replies(n);
    assert Rest(f, n, n + 1) == f.replies(n) + [NEWLINE] + [];
    assert Flatten(pieces) + (env.replies(n) + [NEWLINE]) == f.replies(n) + [NEWLINE] + [];
  }

  lemma SentWaits(env: Env, c: Client, f: Env, left: seq<Byte>)
    requires Off(c) && Correlated(env, c) && (forall k :: 0 <= k < |c.settled| ==> c.settled[k] != None)
    requires f == Prefixed(env, |c.settled|, left)
    ensures Waits(Sent(env, c), |c.settled|) && Correlated(f, Sent(env, c))
  {
    var d := Sent(env, c);
    forall k | 0 <= k < |d.settled|
      ensures RightReply(f, d.settled[k], k)
    {
      if k < |c.settled| {
        assert RightReply(env, c.settled[k], k);
        SameRight(env, |c.settled|, left, c.settled[k], k);
      }
    }
  }

  lemma AskedStreams(env: Env, acts: seq<Action>, pieces: seq<seq<Byte>>) returns (f: Env)
    requires env.Valid() && Sequential(env, START, acts) && SocketClosed in acts
    requires !After(env, START, acts).client.desynchronized
    requires var c := After(env, START, acts).client;
      && Off(c) && c.buffer == Text(env, pieces) && NEWLINE !in Flatten(pieces)
      && Correlated(env, c) && forall k :: 0 <= k < |c.settled| ==> c.settled[k] != None
    ensures f == Prefixed(env, Calls(After(env, START, acts)), Flatten(pieces))
    ensures var n := Calls(After(env, START, acts));
      var u := Asked(env, acts);
      && u.former == None && u.struck == {} && |u.client.settled| == n + 1
      && Inv(f, World(u.client, u.latter), n, pieces)
  {
    var c := After(env, START, acts).client;
    f := Prefixed(env, |c.settled|, Flatten(pieces));
    AskedIs(env, acts);
    SentStreams(env, c, pieces, f);
    SentWaits(env, c, f, Flatten(pieces));
  }

  /** In every run after the old socket's close event, however the new stream is cut: the next
      call can only get the bytes the old connection left, `left`, and its own reply behind
      them; every other call can only get its own. */
  lemma NewCallsGet(env: Env, acts: seq<Action>, more: seq<Act>) returns (left: seq<Byte>)
    requires env.Valid() && Sequential(env, START, acts) && SocketClosed in acts
    requires !After(env, START, acts).client.desynchronized && AllAwait(env, Asked(env, acts), more)
    ensures Reads(env, After(env, START, acts).client.buffer, left)
    ensures var n := Calls(After(env, START, acts));
      var settled := DoAll(env, Asked(env, acts), more).client.settled;
      && DoAll(env, Asked(env, acts), more).struck == {}
      && n < |settled|
      && (forall k :: 0 <= k < |settled| && k != n ==> RightReply(env, settled[k], k))
      && (settled[n].Some? && (settled[n].value.Resolved? || settled[n].value.BadReply?) ==>
            Reads(env, settled[n].value.line, left + env.replies(n)))
  {
    var n := Calls(After(env, START, acts));
    var u := Asked(env, acts);
    var pieces := Leftover(env, acts);
    left := Flatten(pieces);
    var f := AskedStreams(env, acts, pieces);
    PrefixedIsValid(env, n, left);
    SameRun(env, n, left, u, more);
    GoneRun(f, u, more, n, pieces);
    RunKeepsCalls(env, u, more);
    var settled := DoAll(env, u, more).client.settled;
    forall k | 0 <= k < |settled| && k != n
      ensures RightReply(env, settled[k], k)
    {
      assert RightReply(f, settled[k], k);
      SameRight(env, n, left, settled[k], k);
    }
    assert RightReply(f, settled[n], n);
    if settled[n].Some? && (settled[n].value.Resolved? || settled[n].value.BadReply?) {
      SameReads(env, n, left, settled[n].value.line, left + env.replies(n));
    }
  }

  lemma {:induction false} RunKeepsCalls(env: Env, t: Two, more: seq<Act>)
    ensures |DoAll(env, t, more).client.settled| >= |t.client.settled|
    decreases |more|
  {
    if more != [] {
      DoKeepsCalls(env, t, more[0]);
      RunKeepsCalls(env, Do(env, t, more[0]), more[1..]);
    }
  }

  // ---------------------------------------------------------------- when new calls are harmed

  lemma CleanStart(env: Env, acts: seq<Action>, more: seq<Act>)
    requires env.Valid() && Sequential(env, START, acts) && SocketClosed in acts
    requires !After(env, START, acts).client.desynchronized && After(env, START, acts).client.buffer == []
    requires AllAwait(env, Asked(env, acts), more)
    ensures !Harmed(env, DoAll(env, Asked(env, acts), more), Calls(After(env, START, acts)))
  {
    var c := After(env, START, acts).client;
    var leftover := Leftover(env, acts);
    AskedIs(env, acts);
    NothingLeft(env, c);
    GoneRun(env, Asked(env, acts), more, |c.settled|, []);
  }

  lemma NothingLeft(env: Env, c: Client)
    requires Off(c) && !c.desynchronized && c.buffer == []
    requires Correlated(env, c) && forall k :: 0 <= k < |c.settled| ==> c.settled[k] != None
    ensures Inv(env, World(Sent(env, c), env.replies(|c.settled|) + [NEWLINE]), |c.settled|, [])
  {
    var n := |c.settled|;
    assert Rest(env, n + 1, n + 1) == [];
    assert Rest(env, n, n + 1) == env.replies(n) + [NEWLINE] + [];
    assert Flatten([]) + (env.replies(n) + [NEWLINE]) == env.replies(n) + [NEWLINE];
    var d := Sent(env, c);
    forall k | 0 <= k < |d.settled|
      ensures RightReply(env, d.settled[k], k)
    {
      if k < n {
        assert RightReply(env, c.settled[k], k);
      }
    }
  }

  /** Calls on a desynchronized client are refused, so there are none. */
  predicate Refuses(t: Two, n: nat) {
    t.client.desynchronized && |t.client.settled| == n && (t.client.pending.Some? ==> t.client.pending.value < n)
  }

  lemma {:induction false} ProcessRefuses(c: Client, json: string -> bool)
    ensures c.Process(json).desynchronized == c.desynchronized && |c.Process(json).settled| == |c.settled|
    ensures c.Process(json).pending == c.pending || c.Process(json).pending == None
    decreases |c.buffer|
  {
    var i := Position(c.buffer);
    if i.Some? {
      ProcessRefuses(c.(buffer := c.buffer[i.value + 1..]).Line(c.buffer[..i.value], json), json);
    }
  }

  lemma DoRefuses(env: Env, t: Two, a: Act, n: nat)
    requires Refuses(t, n)
    ensures Refuses(Do(env, t, a), n)
  {
    if a.OldData? && t.former.Some? && a.n <= |t.former.value| {
      ProcessRefuses(t.client.(buffer := t.client.buffer + env.decode(t.former.value[..a.n])), env.json);
    }
    if a.Does? && a.a.Data? && a.a.n <= |t.latter| {
      ProcessRefuses(t.client.(buffer := t.client.buffer + env.decode(t.latter[..a.a.n])), env.json);
    }
  }

  lemma {:induction false} RefusedRun(env: Env, t: Two, more: seq<Act>, n: nat)
    requires Refuses(t, n)
    ensures !Harmed(env, DoAll(env, t, more), n)
    decreases |more|
  {
    if more != [] {
      DoRefuses(env, t, more[0], n);
      RefusedRun(env, Do(env, t, more[0]), more[1..], n);
    }
  }

  lemma OneAct(env: Env, t: Two, a: Act, u: Two)
    requires u == Do(env, t, a) && (a.Does? ==> Awaits(World(t.client, t.latter), a.a))
    ensures AllAwait(env, t, [a]) && DoAll(env, t, [a]) == u
  {
    assert [a][0] == a && [a][1..] == [];
    assert AllAwait(env, u, []) && DoAll(env, u, []) == u;
    assert DoAll(env, t, [a]) == DoAll(env, Do(env, t, [a][0]), [a][1..]);
  }

  /** While the old socket has not closed, its close event can fail the new call. */
  lemma OldSocketHarms(env: Env, acts: seq<Action>)
    requires !After(env, START, acts).client.desynchronized && SocketClosed !in acts
    ensures HarmsNewCalls(env, acts)
  {
    var n := Calls(After(env, START, acts));
    var u := Asked(env, acts);
    var v := Do(env, u, OldCloses);
    OneAct(env, u, OldCloses, v);
    assert n in v.struck && n < |v.client.settled|;
    assert Harmed(env, v, n);
    assert AllAwait(env, Asked(env, acts), [OldCloses]);
  }

  lemma SentTakes(env: Env, c: Client, reply: seq<Byte>)
    requires env.Valid() && NEWLINE !in reply && '\n' !in c.buffer
    ensures Sent(env, c).Data(env.decode(reply + [NEWLINE]), env.json).settled ==
      c.settled + [Some(Taken(c.buffer + env.decode(reply), env.json))]
  {
    TakesWholeLine(env, Sent(env, c), reply);
    SettlesLast(c.settled, c.buffer + env.decode(reply), env.json);
  }

  lemma NextCallTakes(env: Env, acts: seq<Action>) returns (line: string, v: Two)
    requires env.Valid() && Sequential(env, START, acts) && SocketClosed in acts
    requires !After(env, START, acts).client.desynchronized
    ensures var w := After(env, START, acts);
      var u := Asked(env, acts);
      && line == w.client.buffer + env.decode(env.replies(Calls(w)))
      && v == Do(env, u, Does(Data(|u.latter|)))
      && v.client.settled == w.client.settled + [Some(Taken(line, env.json))]
  {
    var c := After(env, START, acts).client;
    var n := |c.settled|;
    var u := Asked(env, acts);
    var pieces := Leftover(env, acts);
    TextHasNoNewline(env, pieces);
    AskedIs(env, acts);
    line := c.buffer + env.decode(env.replies(n));
    v := Do(env, u, Does(Data(|u.latter|)));
    assert u.latter[..|u.latter|] == u.latter;
    SentTakes(env, c, env.replies(n));
  }

  lemma LeftoverHarms(env: Env, acts: seq<Action>)
    requires env.Valid() && Unglued(env) && Sequential(env, START, acts) && SocketClosed in acts
    requires !After(env, START, acts).client.desynchronized && After(env, START, acts).client.buffer != []
    ensures HarmsNewCalls(env, acts)
  {
    var n := Calls(After(env, START, acts));
    var u := Asked(env, acts);
    var line, v := NextCallTakes(env, acts);
    OneAct(env, u, Does(Data(|u.latter|)), v);
    WholeReads(env, env.replies(n));
    GotTheWrongLine(env, v.client, n, line);
    assert Harmed(env, v, n) by { assert !RightReply(env, v.client.settled[n], n); }
    assert AllAwait(env, Asked(env, acts), [Does(Data(|u.latter|))]);
  }

  lemma WholeReads(env: Env, reply: seq<Byte>)
    ensures Reads(env, env.decode(reply), reply)
  {
    PiecesMore(env, [], reply);
    assert [] + reply == reply && [] + env.decode(reply) == env.decode(reply);
  }

  /** The exact condition for a client that is connected again after any run of a caller that
      awaits its calls: some run fails a new call through the old socket's close event, or
      hands it a line that is not its reply, if and only if no request has timed out - else
      every call is refused - and the old socket has not closed yet or the buffer is not empty. */
  lemma HarmsNewCallsIff(env: Env, acts: seq<Action>)
    requires env.Valid() && Unglued(env) && Sequential(env, START, acts)
    ensures var c := After(env, START, acts).client;
      HarmsNewCalls(env, acts) <==> !c.desynchronized && (SocketClosed !in acts || c.buffer != [])
  {
    var c := After(env, START, acts).client;
    var n := |c.settled|;
    if c.desynchronized {
      var answered, pieces := RunKeepsInv(env, START, acts, 0, []);
      forall more
        ensures !Harmed(env, DoAll(env, Asked(env, acts), more), n)
      {
        RefusedRun(env, Asked(env, acts), more, n);
      }
    } else if SocketClosed !in acts {
      OldSocketHarms(env, acts);
    } else if c.buffer != [] {
      LeftoverHarms(env, acts);
    } else {
      forall more | AllAwait(env, Asked(env, acts), more)
        ensures !Harmed(env, DoAll(env, Asked(env, acts), more), n)
      {
        CleanStart(env, acts, more);
      }
    }
  }

  lemma SameAsOverlap(env: Env, acts: seq<Action>)
    requires SocketClosed !in acts
    ensures var w := After(env, START, acts);
      Do(env, Asked(env, acts), OldData(|w.undelivered|)).client ==
      Step(env, Step(env, World(w.client.Connect(), w.undelivered), Send), Data(|w.undelivered|)).client
  {
    var w := After(env, START, acts);
    var asked := Step(env, World(w.client.Connect(), w.undelivered), Send);
    assert asked.client == Asked(env, acts).client && Asked(env, acts).former == Some(w.undelivered);
    assert w.undelivered[..|w.undelivered|] == w.undelivered;
    assert asked.undelivered[..|w.undelivered|] == w.undelivered;
  }

  lemma StillWaits(env: Env, w: World, k: nat, pieces: seq<seq<Byte>>)
    requires Inv(env, w, k, pieces) && w.client.pending == Some(k)
    ensures Inv(env, World(w.client.Connect(), w.undelivered), k, pieces)
  {
    forall j | 0 <= j < |w.client.settled|
      ensures RightReply(env, w.client.settled[j], j)
    {
    }
  }

  /** While a call waits, the old socket can hand its reply to the new call. */
  lemma WaitingReplyGoesAstray(env: Env, acts: seq<Action>, k: nat)
    requires env.Valid() && Distinct(env) && Sequential(env, START, acts)
    requires var c := After(env, START, acts).client; c.pending == Some(k) && !c.desynchronized
    ensures SocketClosed !in acts
    ensures var t := Do(env, Asked(env, acts), OldData(|After(env, START, acts).undelivered|));
      |t.client.settled| == k + 2 && !RightReply(env, t.client.settled[k + 1], k + 1)
  {
    if SocketClosed in acts {
      OffAfterClose(env, START, acts);
    }
    var w := After(env, START, acts);
    var answered, pieces := RunKeepsInv(env, START, acts, 0, []);
    StillWaits(env, w, k, pieces);
    var line, u := SecondCallGetsIt(env, World(w.client.Connect(), w.undelivered), k, pieces);
    NotItsOwn(env, k, line);
    SameAsOverlap(env, acts);
  }
}
