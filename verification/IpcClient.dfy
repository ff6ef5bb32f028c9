/**
 The SDK's connection to the daemon: one socket, one waiting call, replies split at
 newlines. `Client` is its state as a value; the class does in place what its functions say.
 */
module IpcClient {
  import opened Wrappers

  /** How the promise of a call was settled, if it was. */
  datatype Settled = Resolved(line: string) | BadReply(line: string) | Closed | TimedOut

  function Taken(line: string, json: string -> bool): Settled { if json(line) then Resolved(line) else BadReply(line) }

  datatype Refusal = NotConnected | Abandoned

  /** Calls that got to write a request are numbered in the order of writing. */
  datatype Client = Client(
    open: bool, buffer: string, pending: Option<nat>, desynchronized: bool, settled: seq<Option<Settled>>)
  {
    function Alive(): bool { open && !desynchronized }

    /** A promise keeps its first outcome. */
    function Settle(call: nat, outcome: Settled): Client {
      if call < |settled| && settled[call] == None then this.(settled := settled[call := Some(outcome)]) else this
    }

    /** Writes a request and waits for it, in the place of any call that was waiting. */
    function Send(): (Client, Option<Refusal>) {
      if !open then (this, Some(NotConnected))
      else if desynchronized then (this, Some(Abandoned))
      else (this.(pending := Some(|settled|), settled := settled + [None]), None)
    }

    function Line(line: string, json: string -> bool): Client {
      match pending
      case None => this
      case Some(call) => this.(pending := None).Settle(call, Taken(line, json))
    }

    /** Takes every complete line out of the buffer. */
    function Process(json: string -> bool): Client
      decreases |buffer|
    {
      match Position(buffer)
      case None => this
      case Some(i) => this.(buffer := buffer[i + 1..]).Line(buffer[..i], json).Process(json)
    }

    function Data(text: string, json: string -> bool): Client { this.(buffer := buffer + text).Process(json) }

    /** The timer of a call; it was cancelled if the call is settled. */
    function Timeout(call: nat): Client {
      if call >= |settled| || settled[call] != None then this
      else this.(pending := None, desynchronized := true, open := false).Settle(call, TimedOut)
    }

    /** The socket went away. */
    function OnClose(): Client {
      match pending
      case None => this.(open := false)
      case Some(call) => this.(open := false, pending := None).Settle(call, Closed)
    }

    function Close(): Client { this.(open := false) }

    /** Connecting, the first time or again, replaces the socket and nothing else. */
    function Connect(): Client { this.(open := true) }
  }

  function Position(s: string): (r: Option<nat>)
    ensures r == None <==> '\n' !in s
    ensures r.Some? ==> r.value < |s| && s[r.value] == '\n' && '\n' !in s[..r.value]
  {
    if s == [] then None
    else if s[0] == '\n' then Some(0)
    else
      match Position(s[1..])
      case None => None
      case Some(i) =>
        assert s[..i + 1] == [s[0]] + s[1..][..i];
        Some(i + 1)
  }

  const FRESH := Client(true, [], None, false, [])

  class IpcClient {
    var open: bool
    var buffer: string
    var pending: Option<nat>
    var desynchronized: bool
    var settled: seq<Option<Settled>>

    function State(): Client reads this { Client(open, buffer, pending, desynchronized, settled) }

    /** Connected, with nothing sent. */
    constructor ()
      ensures State() == FRESH
    {
      open, buffer, pending, desynchronized, settled := true, [], None, false, [];
    }

    method Settle(call: nat, outcome: Settled)
      modifies this`settled
      ensures State() == old(State()).Settle(call, outcome)
    {
      if call < |settled| && settled[call] == None {
        settled := settled[call := Some(outcome)];
      }
    }

    method Send() returns (refused: Option<Refusal>)
      modifies this
      ensures (State(), refused) == old(State()).Send()
    {
      if !open {
        return Some(NotConnected);
      }
      if desynchronized {
        return Some(Abandoned);
      }
      pending := Some(|settled|);
      settled := settled + [None];
      refused := None;
    }

    method ProcessBuffer(json: string -> bool)
      modifies this
      ensures State() == old(State()).Process(json)
      decreases |buffer|
    {
      var i := Position(buffer);
      if i == None {
        return;
      }
      var line := buffer[..i.value];
      buffer := buffer[i.value + 1..];
      if pending.Some? {
        Settle(pending.value, Taken(line, json));
        pending := None;
      }
      ProcessBuffer(json);
    }

    method OnData(text: string, json: string -> bool)
      modifies this
      ensures State() == old(State()).Data(text, json)
    {
      buffer := buffer + text;
      ProcessBuffer(json);
    }

    method OnTimeout(call: nat)
      requires call < |settled| && settled[call] == None
      modifies this
      ensures State() == old(State()).Timeout(call)
    {
      pending := None;
      desynchronized := true;
      open := false;
      Settle(call, TimedOut);
    }

    method OnClose()
      modifies this
      ensures State() == old(State()).OnClose()
    {
      open := false;
      if pending.Some? {
        Settle(pending.value, Closed);
        pending := None;
      }
    }

    method Connect()
      modifies this`open
      ensures State() == old(State()).Connect()
    {
      open := true;
    }

    method Close()
      modifies this`open
      ensures State() == old(State()).Close()
    {
      open := false;
    }
  }
}
