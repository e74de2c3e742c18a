/**
 Newline framing between rbw and rbw-unlockd (`read_line` and `encode_line` in
 `src/unlockd.rs`). The JSON inside a line is its raw bytes: it never contains a
 newline.
 */
module Unlockd {
  import opened Wrappers
  import opened Bytes

  const MAX_LINE := 16 * 1024

  datatype LineError = TooLong | ReadFailed

  /** A buffered stream; each fill shows a nonempty prefix of any size until the end, or fails. */
  class BufReader {
    var pending: seq<byte>
    var failed: bool

    constructor (stream: seq<byte>)
      ensures pending == stream && !failed
    {
      pending, failed := stream, false;
    }

    method FillBuf() returns (r: Result<seq<byte>, LineError>)
      modifies this`failed
      ensures r.Err? ==> failed && r.error == ReadFailed
      ensures r.Ok? ==> failed == old(failed) && r.value <= pending
      ensures r.Ok? ==> (r.value == [] <==> pending == [])
    {
      var fails: bool := *;
      if fails {
        failed := true;
        return Err(ReadFailed);
      }
      var size: int := *;
      r := Ok(if 1 <= size <= |pending| then pending[..size] else pending);
    }

    method Consume(n: nat)
      requires n <= |pending|
      modifies this`pending
      ensures pending == old(pending)[n..]
    {
      pending := pending[n..];
    }
  }

  /** The next line of a stream, and the stream after it. */
  function NextLine(stream: seq<byte>): Result<(Option<seq<byte>>, seq<byte>), LineError> {
    var end := IndexOf(stream, NEWLINE);
    if stream == [] then Ok((None, []))
    else if end > MAX_LINE then Err(TooLong)
    else Ok((Some(stream[..end]), if end < |stream| then stream[end + 1..] else []))
  }

  /** What the bytes in view say about the line. */
  lemma LineInView(line: seq<byte>, available: seq<byte>, rest: seq<byte>)
    requires NEWLINE !in line && available != []
    ensures var end, next := IndexOf(available, NEWLINE), NextLine(line + (available + rest));
            && (|line| + end > MAX_LINE ==> next == Err(TooLong))
            && (|line| + end <= MAX_LINE && end < |available| ==>
                  next == Ok((Some(line + available[..end]), (available + rest)[end + 1..])))
            && (end == |available| ==> NEWLINE !in available)
  {
    hide IndexOf, NextLine;
    FirstEndIn(line, available, rest);
    SlicesOfSum(line, available, rest, IndexOf(available, NEWLINE));
    EndsLine(line + (available + rest), IndexOf(line + (available + rest), NEWLINE));
  }

  lemma EndsLine(stream: seq<byte>, end: nat)
    requires stream != [] && end == IndexOf(stream, NEWLINE)
    ensures end > MAX_LINE ==> NextLine(stream) == Err(TooLong)
    ensures end < |stream| && end <= MAX_LINE ==> NextLine(stream) == Ok((Some(stream[..end]), stream[end + 1..]))
  {
    hide IndexOf;
  }

  lemma FirstEndIn(line: seq<byte>, available: seq<byte>, rest: seq<byte>)
    requires NEWLINE !in line
    ensures var end, first := IndexOf(available, NEWLINE), IndexOf(line + (available + rest), NEWLINE);
            && first >= |line| + end
            && (end < |available| ==> first == |line| + end)
            && (end == |available| ==> NEWLINE !in available)
  {
    hide IndexOf;
    SameFirstNewline(available, rest);
    IndexOfSkips(line, available + rest, NEWLINE);
  }

  lemma SlicesOfSum(a: seq<byte>, b: seq<byte>, c: seq<byte>, n: nat)
    requires n <= |b|
    ensures (a + (b + c))[..|a| + n] == a + b[..n]
    ensures n < |b| ==> (a + (b + c))[|a| + n + 1..] == (b + c)[n + 1..]
  {
  }

  /** At the end of the stream the line is whatever was read. */
  lemma LineAtEnd(line: seq<byte>)
    requires NEWLINE !in line && |line| <= MAX_LINE
    ensures NextLine(line) == Ok((if line == [] then None else Some(line), []))
  {
    IndexOfSkips(line, [], NEWLINE);
    assert line + [] == line && line[..|line|] == line;
  }

  /** The line, its rejection and the stream after it do not depend on how the stream was cut up. */
  method ReadLine(reader: BufReader) returns (r: Result<Option<seq<byte>>, LineError>)
    requires !reader.failed
    modifies reader
    ensures reader.failed ==> r == Err(ReadFailed)
    ensures !reader.failed && r.Err? ==> NextLine(old(reader.pending)) == Err(r.error)
    ensures r.Ok? ==> !reader.failed && NextLine(old(reader.pending)) == Ok((r.value, reader.pending))
  {
    hide IndexOf, NextLine;
    ghost var stream := reader.pending;
    var line: seq<byte> := [];
    while true
      invariant line + reader.pending == stream && NEWLINE !in line && |line| <= MAX_LINE && !reader.failed
      decreases |reader.pending|
    {
      var available :- reader.FillBuf();
      if available == [] {
        assert line == stream;
        LineAtEnd(line);
        return Ok(if line == [] then None else Some(line));
      }
      assert reader.pending == available + reader.pending[|available|..];
      LineInView(line, available, reader.pending[|available|..]);
      var end := IndexOf(available, NEWLINE);
      var chunk := available[..end];
      if |line| + |chunk| > MAX_LINE {
        return Err(TooLong);
      }
      line := line + chunk;
      if end < |available| {
        reader.Consume(end + 1);
        return Ok(Some(line));
      }
      reader.Consume(|available|);
    }
  }

  /** One framed message. */
  function EncodeLine(message: seq<byte>): seq<byte> {
    message + [NEWLINE]
  }

  function Frame(messages: seq<seq<byte>>): seq<byte> {
    if |messages| == 0 then [] else EncodeLine(messages[0]) + Frame(messages[1..])
  }

  /** Reading to the end of the stream. */
  function ReadAll(stream: seq<byte>): Result<seq<seq<byte>>, LineError>
    decreases |stream|
  {
    match NextLine(stream)
    case Err(e) => Err(e)
    case Ok((None, _)) => Ok([])
    case Ok((Some(line), rest)) =>
      var lines :- ReadAll(rest);
      Ok([line] + lines)
  }

  lemma NextOfFramed(message: seq<byte>, rest: seq<byte>)
    requires NEWLINE !in message
    ensures NextLine(EncodeLine(message) + rest)
         == if |message| > MAX_LINE then Err(TooLong) else Ok((Some(message), rest))
  {
    var stream := EncodeLine(message) + rest;
    IndexOfFirst(message, rest);
    assert stream[..|message|] == message && stream[|message| + 1..] == rest;
  }

  /** Framed messages are read back exactly when none is over-long; otherwise the first over-long one is rejected. */
  lemma {:induction false} FramingRoundTrip(messages: seq<seq<byte>>)
    requires forall m :: m in messages ==> NEWLINE !in m
    ensures ReadAll(Frame(messages)) ==
      if forall m :: m in messages ==> |m| <= MAX_LINE then Ok(messages) else Err(TooLong)
  {
    if |messages| > 0 {
      assert messages[0] in messages;
      NextOfFramed(messages[0], Frame(messages[1..]));
      FramingRoundTrip(messages[1..]);
      assert messages == [messages[0]] + messages[1..];
    }
  }

  /** The converse: whatever is read without an error is the framing of the lines, up to the last newline. */
  lemma {:induction false} ReadIsFramed(stream: seq<byte>)
    requires ReadAll(stream).Ok?
    ensures forall line :: line in ReadAll(stream).value ==> |line| <= MAX_LINE && NEWLINE !in line
    ensures var framed := Frame(ReadAll(stream).value);
            framed == stream || (framed == stream + [NEWLINE] && stream[|stream| - 1] != NEWLINE)
    decreases |stream|
  {
    hide IndexOf;
    if stream != [] {
      var line, rest := LineParts(stream);
      ReadIsFramed(rest);
      var lines := ReadAll(rest).value;
      assert Frame([line] + lines) == EncodeLine(line) + Frame(lines) by { assert ([line] + lines)[1..] == lines; }
      if stream == line {
        assert lines == [] && Frame(lines) == [];
      } else if Frame(lines) == rest + [NEWLINE] {
        assert EncodeLine(line) + (rest + [NEWLINE]) == stream + [NEWLINE];
      }
    }
  }

  /** A line with its newline and the rest, or a last line without one. */
  lemma LineParts(stream: seq<byte>) returns (line: seq<byte>, rest: seq<byte>)
    requires stream != [] && NextLine(stream).Ok?
    ensures NextLine(stream) == Ok((Some(line), rest))
    ensures |line| <= MAX_LINE && NEWLINE !in line && |rest| < |stream|
    ensures stream == EncodeLine(line) + rest || (stream == line && rest == [])
    ensures stream == line ==> stream[|stream| - 1] != NEWLINE
    ensures stream != line && rest != [] ==> stream[|stream| - 1] == rest[|rest| - 1]
  {
    var end := IndexOf(stream, NEWLINE);
    line, rest := stream[..end], if end < |stream| then stream[end + 1..] else [];
    if end < |stream| {
      assert stream == EncodeLine(line) + rest;
    } else {
      assert stream == line && stream[|stream| - 1] in line;
    }
  }

  /** Any splitting: reading lines until there are none gives the lines of the whole stream, and leaves nothing. */
  method ReadLines(reader: BufReader) returns (r: Result<seq<seq<byte>>, LineError>)
    requires !reader.failed
    modifies reader
    ensures reader.failed ==> r == Err(ReadFailed)
    ensures !reader.failed ==> r == ReadAll(old(reader.pending))
    ensures r.Ok? ==> reader.pending == []
  {
    hide NextLine, ReadAll;
    ghost var stream := reader.pending;
    var lines: seq<seq<byte>> := [];
    ExtendedByNothing(ReadAll(stream));
    while true
      invariant !reader.failed
      invariant ReadAll(stream) == Extended(lines, ReadAll(reader.pending))
      decreases |reader.pending|
    {
      ReadAllUnfolds(lines, reader.pending);
      var line :- ReadLine(reader);
      if line.None? {
        return Ok(lines);
      }
      lines := lines + [line.value];
    }
  }

  /** What is read after some lines. */
  function Extended(lines: seq<seq<byte>>, r: Result<seq<seq<byte>>, LineError>): Result<seq<seq<byte>>, LineError> {
    match r
    case Ok(more) => Ok(lines + more)
    case Err(e) => Err(e)
  }

  lemma ExtendedByNothing(r: Result<seq<seq<byte>>, LineError>)
    ensures Extended([], r) == r
  {
    if r.Ok? { assert [] + r.value == r.value; }
  }

  lemma ReadAllUnfolds(lines: seq<seq<byte>>, stream: seq<byte>)
    ensures match NextLine(stream)
            case Ok((None, rest)) => rest == [] && Extended(lines, ReadAll(stream)) == Ok(lines)
            case Ok((Some(line), rest)) =>
              |rest| < |stream| && Extended(lines, ReadAll(stream)) == Extended(lines + [line], ReadAll(rest))
            case Err(e) => Extended(lines, ReadAll(stream)) == Err(e)
  {
    match NextLine(stream)
    case Ok((Some(line), rest)) =>
      if ReadAll(rest).Ok? { assert lines + ([line] + ReadAll(rest).value) == lines + [line] + ReadAll(rest).value; }
    case Ok((None, _)) => assert lines + [] == lines;
    case Err(_) =>
  }

  /** So unless a read fails, what was framed is what is read, and nothing is left. */
  method ReadFramed(reader: BufReader, ghost messages: seq<seq<byte>>) returns (r: Result<seq<seq<byte>>, LineError>)
    requires !reader.failed && reader.pending == Frame(messages)
    requires forall m :: m in messages ==> NEWLINE !in m
    modifies reader
    ensures reader.failed ==> r == Err(ReadFailed)
    ensures !reader.failed ==>
              r == if forall m :: m in messages ==> |m| <= MAX_LINE then Ok(messages) else Err(TooLong)
    ensures r.Ok? ==> reader.pending == []
  {
    FramingRoundTrip(messages);
    r := ReadLines(reader);
  }
}
