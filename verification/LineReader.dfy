/**
 Reading one line of the daemon's protocol from a stream that arrives in pieces, with a
 bound on its length.
 */
module LineReader {
  import opened Wrappers
  import opened Bytes
  import opened Utf8

  datatype ReadError = Io | TooLong | NotUtf8

  // ---------------------------------------------------------------- the stream

  /** A buffered reader: pieces still to arrive, and whether the stream ends or breaks after them. */
  class BufReader {
    var pieces: seq<seq<Byte>>
    const breaks: bool

    ghost predicate Valid() reads this { forall i :: 0 <= i < |pieces| ==> pieces[i] != [] }

    constructor (pieces: seq<seq<Byte>>, breaks: bool)
      requires forall i :: 0 <= i < |pieces| ==> pieces[i] != []
      ensures Valid() && this.pieces == pieces && this.breaks == breaks
    {
      this.pieces := pieces;
      this.breaks := breaks;
    }

    function Remaining(): seq<Byte> reads this { Flatten(pieces) }

    /** What is there without waiting again; nothing at the end of the stream. */
    method FillBuf() returns (r: Result<seq<Byte>, ReadError>)
      requires Valid()
      ensures pieces != [] ==> r == Ok(pieces[0]) && pieces[0] != []
      ensures pieces == [] ==> r == if breaks then Err(Io) else Ok([])
    {
      if pieces != [] {
        return Ok(pieces[0]);
      }
      r := if breaks then Err(Io) else Ok([]);
    }

    method Consume(n: nat)
      requires Valid() && pieces != [] && n <= |pieces[0]|
      modifies this`pieces
      ensures Valid() && Remaining() == old(Remaining())[n..]
      ensures n == |old(pieces[0])| ==> pieces == old(pieces[1..])
    {
      Consumed(pieces, n);
      pieces := if n == |pieces[0]| then pieces[1..] else [pieces[0][n..]] + pieces[1..];
    }
  }

  function Flatten(pieces: seq<seq<Byte>>): seq<Byte> {
    if pieces == [] then [] else pieces[0] + Flatten(pieces[1..])
  }

  /** The length of the longest piece. */
  function Longest(pieces: seq<seq<Byte>>): nat {
    if pieces == [] then 0
    else if |pieces[0]| > Longest(pieces[1..]) then |pieces[0]|
    else Longest(pieces[1..])
  }

  predicate NoneLonger(pieces: seq<seq<Byte>>, n: nat) { forall i :: 0 <= i < |pieces| ==> |pieces[i]| <= n }

  lemma {:induction false} LongestIs(pieces: seq<seq<Byte>>)
    ensures NoneLonger(pieces, Longest(pieces))
  {
    if pieces != [] {
      LongestIs(pieces[1..]);
      assert forall i :: 0 < i < |pieces| ==> pieces[i] == pieces[1..][i - 1];
    }
  }

  lemma Consumed(pieces: seq<seq<Byte>>, n: nat)
    requires pieces != [] && n <= |pieces[0]|
    ensures Flatten([pieces[0][n..]] + pieces[1..]) == Flatten(pieces)[n..]
    ensures n == |pieces[0]| ==> Flatten(pieces[1..]) == Flatten(pieces)[n..]
  {
    assert ([pieces[0][n..]] + pieces[1..])[1..] == pieces[1..];
  }

  // ---------------------------------------------------------------- the first line

  /** The first line, with its newline if it has one. */
  function FirstLine(stream: seq<Byte>): (line: seq<Byte>)
    ensures line <= stream
  {
    if stream == [] then []
    else if stream[0] == NEWLINE then [NEWLINE]
    else [stream[0]] + FirstLine(stream[1..])
  }

  /** Ended by its only newline. */
  predicate EndsLine(line: seq<Byte>) { line != [] && line[|line| - 1] == NEWLINE && NEWLINE !in line[..|line| - 1] }

  lemma EndsLineAfter(b: Byte, line: seq<Byte>)
    requires EndsLine(line) && b != NEWLINE
    ensures EndsLine([b] + line)
  {
    assert ([b] + line)[..|line|] == [b] + line[..|line| - 1];
  }

  /** It is the shortest start of the stream that ends in a newline, or all of a stream without one. */
  lemma {:induction false} FirstLineIs(stream: seq<Byte>)
    ensures NEWLINE in stream ==> EndsLine(FirstLine(stream))
    ensures NEWLINE !in stream ==> FirstLine(stream) == stream
  {
    if stream != [] && stream[0] != NEWLINE {
      FirstLineIs(stream[1..]);
      assert stream == [stream[0]] + stream[1..];
      if NEWLINE in stream {
        EndsLineAfter(stream[0], FirstLine(stream[1..]));
      }
    }
  }

  lemma {:induction false} FirstLineSkips(head: seq<Byte>, tail: seq<Byte>)
    ensures NEWLINE !in head ==> FirstLine(head + tail) == head + FirstLine(tail)
    ensures NEWLINE in head ==> FirstLine(head + tail) == FirstLine(head)
  {
    if head == [] {
      assert head + tail == tail;
    } else {
      assert (head + tail)[1..] == head[1..] + tail;
      assert head == [head[0]] + head[1..];
      FirstLineSkips(head[1..], tail);
    }
  }

  // ---------------------------------------------------------------- reading it

  /** What reading a line comes to, in terms of the bytes alone. */
  function Outcome(stream: seq<Byte>, breaks: bool, cap: nat): Result<seq<Byte>, ReadError> {
    var line := FirstLine(stream);
    if |line| > cap then Err(TooLong)
    else if NEWLINE !in stream && breaks then Err(Io)
    else if !WellFormed(line) then Err(NotUtf8)
    else Ok(line)
  }

  function Position(s: seq<Byte>, b: Byte): (r: Option<nat>)
    ensures r == None <==> b !in s
    ensures r.Some? ==> r.value < |s| && s[r.value] == b && b !in s[..r.value]
  {
    if s == [] then None
    else if s[0] == b then Some(0)
    else
      match Position(s[1..], b)
      case None => None
      case Some(i) =>
        assert s[..i + 1] == [s[0]] + s[1..][..i];
        Some(i + 1)
  }

  lemma Found(stream: seq<Byte>, line: seq<Byte>, rest: seq<Byte>)
    requires EndsLine(line) && stream == line + rest
    ensures FirstLine(stream) == line && NEWLINE in stream && rest == stream[|line|..]
  {
    var n := |line| - 1;
    FirstLineSkips(line[..n], [NEWLINE] + rest);
    assert stream == line[..n] + ([NEWLINE] + rest);
    assert ([NEWLINE] + rest)[0] == NEWLINE;
  }

  lemma Ended(buf: seq<Byte>)
    requires NEWLINE !in buf
    ensures FirstLine(buf) == buf
  {
    FirstLineIs(buf);
  }

  lemma Overrun(stream: seq<Byte>, buf: seq<Byte>, rest: seq<Byte>)
    requires NEWLINE !in buf && stream == buf + rest
    ensures |FirstLine(stream)| >= |buf| && rest == stream[|buf|..]
  {
    FirstLineSkips(buf, rest);
  }

  lemma TakeLine(buf: seq<Byte>, piece: seq<Byte>, tail: seq<Byte>, i: nat)
    requires NEWLINE !in buf && i < |piece| && piece[i] == NEWLINE && NEWLINE !in piece[..i]
    ensures EndsLine(buf + piece[..i + 1])
    ensures buf + (piece + tail) == (buf + piece[..i + 1]) + (piece + tail)[i + 1..]
  {
    var line := buf + piece[..i + 1];
    assert line[..|line| - 1] == buf + piece[..i];
  }

  lemma TakePiece(buf: seq<Byte>, piece: seq<Byte>, tail: seq<Byte>)
    requires NEWLINE !in buf && NEWLINE !in piece
    ensures NEWLINE !in buf + piece
    ensures buf + (piece + tail) == (buf + piece) + (piece + tail)[|piece|..]
  {
  }

  lemma AtEnd(stream: seq<Byte>, buf: seq<Byte>, reader: BufReader)
    requires NEWLINE !in buf && reader.pieces == [] && stream == buf + reader.Remaining()
    ensures stream == buf && FirstLine(stream) == buf && reader.Remaining() == stream[|buf|..]
  {
    Ended(buf);
  }

  /** The first line of the stream, whatever its bytes are. */
  method GatherLine(reader: BufReader, cap: nat) returns (r: Result<seq<Byte>, ReadError>)
    requires reader.Valid()
    modifies reader
    ensures reader.Valid()
    ensures var stream, line := old(reader.Remaining()), FirstLine(old(reader.Remaining()));
      && r == (if |line| > cap then Err(TooLong) else if NEWLINE !in stream && reader.breaks then Err(Io) else Ok(line))
      && (r != Err(TooLong) ==> reader.Remaining() == stream[|line|..])
      && (r == Err(TooLong) ==>
           var taken := |stream| - |reader.Remaining()|;
           && cap < taken <= |line| && taken <= cap + Longest(old(reader.pieces))
           && reader.Remaining() == stream[taken..])
  {
    ghost var stream, longest := reader.Remaining(), Longest(reader.pieces);
    LongestIs(reader.pieces);
    var buf: seq<Byte> := [];
    while true
      invariant reader.Valid() && stream == buf + reader.Remaining()
      invariant |buf| <= cap && NEWLINE !in buf
      invariant NoneLonger(reader.pieces, longest)
      decreases |reader.pieces|
    {
      var available := reader.FillBuf();
      if available.Err? {
        AtEnd(stream, buf, reader);
        return Err(available.error);
      }
      if available.value == [] {
        AtEnd(stream, buf, reader);
        break;
      }
      ghost var piece, tail := reader.pieces[0], Flatten(reader.pieces[1..]);
      var pos := Position(available.value, NEWLINE);
      if pos.Some? {
        TakeLine(buf, piece, tail, pos.value);
        buf := buf + available.value[..pos.value + 1];
        reader.Consume(pos.value + 1);
        Found(stream, buf, reader.Remaining());
        break;
      }
      TakePiece(buf, piece, tail);
      buf := buf + available.value;
      reader.Consume(|available.value|);
      if |buf| > cap {
        Overrun(stream, buf, reader.Remaining());
        return Err(TooLong);
      }
    }
    assert |buf| <= cap + longest;
    r := if |buf| > cap then Err(TooLong) else Ok(buf);
  }

  /** Reads one line of at most `cap` bytes, its newline included. However the stream was
      cut into pieces the outcome is the same, and unless the line is too long the reader
      is left exactly behind it; behind part of it longer than `cap` if it is, but by no
      more than the longest piece: no more than that is ever held in memory. */
  method ReadLineCapped(reader: BufReader, cap: nat) returns (r: Result<seq<Byte>, ReadError>)
    requires reader.Valid()
    modifies reader
    ensures reader.Valid()
    ensures r == Outcome(old(reader.Remaining()), reader.breaks, cap)
    ensures var stream, line := old(reader.Remaining()), FirstLine(old(reader.Remaining()));
      && (r == Err(TooLong) <==> |line| > cap)
      && (r == Err(Io) <==> |line| <= cap && NEWLINE !in stream && reader.breaks)
      && (r == Err(NotUtf8) <==> |line| <= cap && (NEWLINE in stream || !reader.breaks) && !WellFormed(line))
      && (r.Ok? <==> |line| <= cap && (NEWLINE in stream || !reader.breaks) && WellFormed(line))
      && (r.Ok? ==> r.value == line)
    ensures r != Err(TooLong) ==> reader.Remaining() == old(reader.Remaining())[|FirstLine(old(reader.Remaining()))|..]
    ensures r == Err(TooLong) ==>
      var taken := |old(reader.Remaining())| - |reader.Remaining()|;
      && cap < taken <= |FirstLine(old(reader.Remaining()))|
      && taken <= cap + Longest(old(reader.pieces))
      && reader.Remaining() == old(reader.Remaining())[taken..]
  {
    r := GatherLine(reader, cap);
    if r.Ok? && !WellFormed(r.value) {
      r := Err(NotUtf8);
    }
  }

  // ---------------------------------------------------------------- messages in turn

  function Framed(messages: seq<seq<Byte>>): seq<Byte> {
    if messages == [] then [] else messages[0] + [NEWLINE] + Framed(messages[1..])
  }

  /** The lines that successive reads find. */
  function Lines(stream: seq<Byte>): seq<seq<Byte>>
    decreases |stream|
  {
    if stream == [] then [] else [FirstLine(stream)] + Lines(stream[|FirstLine(stream)|..])
  }

  /** Messages written one per line are read back one by one, whatever the pieces. */
  lemma {:induction false} LinesOfFramed(messages: seq<seq<Byte>>)
    requires forall i :: 0 <= i < |messages| ==> NEWLINE !in messages[i]
    ensures |Lines(Framed(messages))| == |messages|
    ensures forall i :: 0 <= i < |messages| ==> Lines(Framed(messages))[i] == messages[i] + [NEWLINE]
  {
    if messages != [] {
      var stream, rest := Framed(messages), Framed(messages[1..]);
      assert (messages[0] + [NEWLINE])[..|messages[0]|] == messages[0];
      Found(stream, messages[0] + [NEWLINE], rest);
      assert FirstLine(stream) == messages[0] + [NEWLINE];
      assert stream[|messages[0]| + 1..] == rest;
      LinesOfFramed(messages[1..]);
    }
  }

  /** Reading line by line loses nothing of any stream. */
  lemma {:induction false} LinesAreAll(stream: seq<Byte>)
    ensures Flatten(Lines(stream)) == stream
    decreases |stream|
  {
    if stream != [] {
      var line := FirstLine(stream);
      LinesAreAll(stream[|line|..]);
      assert Lines(stream)[1..] == Lines(stream[|line|..]);
      assert stream == stream[..|line|] + stream[|line|..];
    }
  }
}
