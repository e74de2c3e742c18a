/**
 Reading a password from pinentry (`src/pinentry.rs`): the answer arrives in
 arbitrary pieces, is parsed in the buffer it was read into, and is
 percent-decoded there.
 */
module Pinentry {
  import opened Wrappers
  import opened Bytes
  import opened Locked
  import CipherStrings

  // ---- percent-decoding ------------------------------------------------------------

  const PERCENT: byte := 37
  const SPACE: byte := 32

  function HexDigit(b: byte): (r: Option<nat>)
    ensures r.Some? ==> r.value < 16
  {
    if 48 <= b <= 57 then Some(b - 48)
    else if 65 <= b <= 70 then Some(b - 55)
    else if 97 <= b <= 102 then Some(b - 87)
    else None
  }

  /** The sixteen digits, the letters in either case. */
  lemma HexDigitExactly(b: byte, n: nat)
    ensures HexDigit(b) == Some(n) <==>
              || (n < 10 && b == '0' as int + n)
              || (10 <= n < 16 && (b == 'A' as int + n - 10 || b == 'a' as int + n - 10))
  {
  }

  /** Whether an escape starts here: a percent sign and two hexadecimal digits. */
  predicate IsEscape(s: seq<byte>) {
    |s| > 2 && s[0] == PERCENT && HexDigit(s[1]).Some? && HexDigit(s[2]).Some?
  }

  function EscapedByte(s: seq<byte>): byte
    requires IsEscape(s)
  {
    HexDigit(s[1]).value * 16 + HexDigit(s[2]).value
  }

  function PercentDecode(s: seq<byte>): (r: seq<byte>)
    ensures |r| <= |s|
  {
    if |s| == 0 then []
    else if IsEscape(s) then [EscapedByte(s)] + PercentDecode(s[3..])
    else [s[0]] + PercentDecode(s[1..])
  }

  /** The byte decoded at `read`, and how many bytes of input it takes. */
  method DecodeAt(buf: array<byte>, read: nat, len: nat) returns (c: byte, width: nat)
    requires read < len <= buf.Length
    ensures read + width <= len && width >= 1
    ensures PercentDecode(buf[read..len]) == [c] + PercentDecode(buf[read..len][width..])
  {
    ghost var rest := buf[read..len];
    c, width := buf[read], 1;
    if c == PERCENT && read + 2 < len {
      var h, l := HexDigit(buf[read + 1]), HexDigit(buf[read + 2]);
      assert rest[1] == buf[read + 1] && rest[2] == buf[read + 2];
      if h.Some? && l.Some? {
        c, width := h.value * 16 + l.value, 3;
      }
    }
  }

  /** The two-index pass: `write` never overtakes `read`, so no input is lost. */
  method PercentDecodeInPlace(buf: array<byte>, len: nat) returns (write: nat)
    requires len <= buf.Length
    modifies buf
    ensures write <= len
    ensures buf[..write] == PercentDecode(old(buf[..len]))
    ensures forall i :: len <= i < buf.Length ==> buf[i] == old(buf[i])
  {
    hide PercentDecode;
    ghost var input, decoded: seq<byte> := buf[..len], [];
    var read: nat := 0;
    write := 0;
    while read < len
      invariant write <= read <= len
      invariant forall i :: read <= i < buf.Length ==> buf[i] == old(buf[i])
      invariant buf[..write] == decoded
      invariant PercentDecode(input) == decoded + PercentDecode(input[read..])
    {
      assert buf[read..len] == input[read..];
      var c, width := DecodeAt(buf, read, len);
      assert input[read..][width..] == input[read + width..];
      Extend(decoded, c, PercentDecode(input[read + width..]));
      buf[write] := c;
      decoded := decoded + [c];
      read := read + width;
      write := write + 1;
    }
    NothingLeft(input[len..]);
  }

  lemma NothingLeft(s: seq<byte>)
    requires |s| == 0
    ensures PercentDecode(s) == []
  {
  }

  lemma Extend(decoded: seq<byte>, c: byte, rest: seq<byte>)
    ensures decoded + ([c] + rest) == decoded + [c] + rest
  {
  }

  /** Text without a percent sign that starts an escape is its own decoding. */
  lemma {:induction false} UnescapedStays(s: seq<byte>)
    requires forall i :: 0 <= i < |s| ==> !IsEscape(s[i..])
    ensures PercentDecode(s) == s
  {
    if |s| > 0 {
      assert s[0..] == s;
      forall i | 0 <= i < |s| - 1 ensures !IsEscape(s[1..][i..]) { assert s[1..][i..] == s[i + 1..]; }
      UnescapedStays(s[1..]);
    }
  }

  /** `t` writes `s` with every percent sign, and any other bytes, escaped in either case of digits. */
  predicate Encodes(t: seq<byte>, s: seq<byte>)
    decreases |s|
  {
    if |s| == 0 then t == []
    else
      || (t != [] && t[0] == s[0] != PERCENT && Encodes(t[1..], s[1..]))
      || (IsEscape(t) && EscapedByte(t) == s[0] && Encodes(t[3..], s[1..]))
  }

  /** Decoding undoes every such encoding. */
  lemma {:induction false} DecodesEncoded(t: seq<byte>, s: seq<byte>)
    requires Encodes(t, s)
    ensures PercentDecode(t) == s
    decreases |s|
  {
    if |s| > 0 {
      if t[0] == s[0] != PERCENT && Encodes(t[1..], s[1..]) {
        DecodesEncoded(t[1..], s[1..]);
      } else {
        DecodesEncoded(t[3..], s[1..]);
      }
    }
  }

  function Digit(n: nat): byte
    requires n < 16
  {
    if n < 10 then n + 48 else n + 55
  }

  function PercentEncode(s: seq<byte>, chosen: set<byte>): seq<byte> {
    if |s| == 0 then []
    else if s[0] == PERCENT || s[0] in chosen
    then [PERCENT, Digit(s[0] / 16), Digit(s[0] % 16)] + PercentEncode(s[1..], chosen)
    else [s[0]] + PercentEncode(s[1..], chosen)
  }

  lemma {:induction false} EncodesItself(s: seq<byte>, chosen: set<byte>)
    ensures Encodes(PercentEncode(s, chosen), s)
  {
    if |s| > 0 {
      EncodesItself(s[1..], chosen);
      var t, rest := PercentEncode(s, chosen), PercentEncode(s[1..], chosen);
      if s[0] == PERCENT || s[0] in chosen {
        assert t == [PERCENT, Digit(s[0] / 16), Digit(s[0] % 16)] + rest;
        assert HexDigit(t[1]) == Some(s[0] / 16) && HexDigit(t[2]) == Some(s[0] % 16);
        assert t[3..] == rest;
      } else {
        assert t == [s[0]] + rest && t[1..] == rest;
      }
    }
  }

  lemma {:induction false} NoRawNewline(s: seq<byte>, chosen: set<byte>)
    requires NEWLINE in chosen
    ensures NEWLINE !in PercentEncode(s, chosen)
  {
    if |s| > 0 { NoRawNewline(s[1..], chosen); }
  }

  /** The round trip, for any choice of further bytes to escape; an escaped newline never appears raw. */
  lemma EncodedDecodes(s: seq<byte>, chosen: set<byte>)
    ensures PercentDecode(PercentEncode(s, chosen)) == s
    ensures NEWLINE in chosen ==> NEWLINE !in PercentEncode(s, chosen)
  {
    hide PercentDecode, PercentEncode, Encodes;
    EncodesItself(s, chosen);
    DecodesEncoded(PercentEncode(s, chosen), s);
    if NEWLINE in chosen { NoRawNewline(s, chosen); }
  }

  // ---- the protocol, line by line -------------------------------------------------------

  datatype PinError =
    | Cancelled
    | Message(text: seq<byte>)
    | UnknownError(code: seq<byte>)
    | Unparsable
    | UnexpectedEof
    | ReadFailed
    | CountUnderflow

  const OK_: seq<byte> := [79, 75]
  const DATA: seq<byte> := [68, 32]
  const STATUS: seq<byte> := [83, 32]
  const ERR_: seq<byte> := [69, 82, 82, 32]
  const CANCELLED_CODE: seq<byte> := [56, 51, 56, 56, 54, 49, 55, 57]

  /** `ERR <code> <message>`; the code always exists, since the prefix ends in a space. */
  function ErrorOf(line: seq<byte>): PinError
    requires ERR_ <= line
  {
    var rest := line[|ERR_|..];
    var end := IndexOf(rest, SPACE);
    if rest[..end] == CANCELLED_CODE then Cancelled
    else if end < |rest| then Message(rest[end + 1..])
    else UnknownError(rest)
  }

  /** A code alone is unknown; followed by a text it is reported with the text, or is a cancellation. */
  lemma ErrorReports(code: seq<byte>, text: seq<byte>)
    requires SPACE !in code
    ensures ErrorOf(ERR_ + code) == if code == CANCELLED_CODE then Cancelled else UnknownError(code)
    ensures ErrorOf(ERR_ + (code + ([SPACE] + text))) == if code == CANCELLED_CODE then Cancelled else Message(text)
  {
    hide IndexOf;
    IndexOfSkips(code, [], SPACE);
    IndexOfSkips(code, [SPACE] + text, SPACE);
    assert code + [] == code && code[..|code|] == code;
    var rest := code + ([SPACE] + text);
    assert (ERR_ + code)[|ERR_|..] == code && (ERR_ + rest)[|ERR_|..] == rest;
    assert IndexOf([SPACE] + text, SPACE) == 0 && IndexOf([], SPACE) == 0 by { SpaceFirst(text); }
    assert rest[..|code|] == code && rest[|code| + 1..] == text;
  }

  lemma SpaceFirst(text: seq<byte>)
    ensures IndexOf([SPACE] + text, SPACE) == 0 && IndexOf([], SPACE) == 0
  {
  }

  datatype LineKind = Acknowledged | Password | StatusLine | Failure | Unknown

  /** The first prefix that matches decides. */
  function KindOf(line: seq<byte>): LineKind {
    if OK_ <= line then Acknowledged
    else if DATA <= line then Password
    else if STATUS <= line then StatusLine
    else if ERR_ <= line then Failure
    else Unknown
  }

  /** The bytes of ASCII text. */
  function Ascii(text: string): seq<byte> {
    seq(|text|, i requires 0 <= i < |text| => Code(text[i]))
  }

  function Code(c: char): byte {
    c as int % 128
  }

  /** The kind of a line, by the text it starts with; no line starts with two of them. */
  lemma KindsExactly(line: seq<byte>)
    ensures KindOf(line) == Acknowledged <==> Ascii("OK") <= line
    ensures KindOf(line) == Password <==> Ascii("D ") <= line
    ensures KindOf(line) == StatusLine <==> Ascii("S ") <= line
    ensures KindOf(line) == Failure <==> Ascii("ERR ") <= line
    ensures CANCELLED_CODE == Ascii("83886179") && [NEWLINE] == Ascii("\n") && [PERCENT] == Ascii("%")
  {
    assert OK_ == Ascii("OK") && DATA == Ascii("D ") && STATUS == Ascii("S ") && ERR_ == Ascii("ERR ");
    assert OK_ <= line ==> line[0] == 79;
    assert DATA <= line ==> line[0] == 68;
    assert STATUS <= line ==> line[0] == 83;
    assert ERR_ <= line ==> line[0] == 69;
  }

  /**
   What the whole stream answers to `n` commands when a line, newline included,
   may take at most `cap` bytes. No mention of how the stream is cut into reads.
   */
  function Answer(n: nat, stream: seq<byte>, cap: nat): Result<seq<byte>, PinError>
    decreases |stream|
  {
    var nl := IndexOf(stream, NEWLINE);
    if nl == |stream| || nl >= cap then Err(UnexpectedEof)
    else
      var line, rest := stream[..nl], stream[nl + 1..];
      match KindOf(line)
      case Acknowledged =>
        if n == 0 then Err(CountUnderflow)
        else if n == 1 then Ok([])
        else Answer(n - 1, rest, cap)
      case Password => Ok(PercentDecode(line[2..]))
      case StatusLine => Answer(n, rest, cap)
      case Failure => Err(ErrorOf(line))
      case Unknown => Err(Unparsable)
  }

  /** The definition, for proofs that must not unfold it further. */
  lemma Unfold(n: nat, stream: seq<byte>, cap: nat)
    ensures var nl := IndexOf(stream, NEWLINE);
            Answer(n, stream, cap) ==
              if nl == |stream| || nl >= cap then Err(UnexpectedEof)
              else
                match KindOf(stream[..nl])
                case Acknowledged =>
                  if n == 0 then Err(CountUnderflow)
                  else if n == 1 then Ok([])
                  else Answer(n - 1, stream[nl + 1..], cap)
                case Password => Ok(PercentDecode(stream[..nl][2..]))
                case StatusLine => Answer(n, stream[nl + 1..], cap)
                case Failure => Err(ErrorOf(stream[..nl]))
                case Unknown => Err(Unparsable)
  {
  }

  /** With at least one command outstanding the counter never underflows. */
  lemma {:induction false} CountNeverUnderflows(n: nat, stream: seq<byte>, cap: nat)
    requires n >= 1
    ensures Answer(n, stream, cap) != Err(CountUnderflow)
    decreases |stream|
  {
    var nl := IndexOf(stream, NEWLINE);
    if nl < |stream| && nl < cap {
      var line, rest := stream[..nl], stream[nl + 1..];
      if n > 1 { CountNeverUnderflows(n - 1, rest, cap); }
      CountNeverUnderflows(n, rest, cap);
    }
  }

  function Lines(lines: seq<seq<byte>>): seq<byte> {
    if |lines| == 0 then [] else lines[0] + [NEWLINE] + Lines(lines[1..])
  }

  function CountOk(lines: seq<seq<byte>>): nat {
    if |lines| == 0 then 0 else (if KindOf(lines[0]) == Acknowledged then 1 else 0) + CountOk(lines[1..])
  }

  /** An acknowledgement or a status line that fits. */
  predicate IsPreamble(line: seq<byte>, cap: nat) {
    (KindOf(line) == Acknowledged || KindOf(line) == StatusLine) && NEWLINE !in line && |line| < cap
  }

  lemma LineFirst(line: seq<byte>, rest: seq<byte>)
    requires NEWLINE !in line
    ensures var stream := line + [NEWLINE] + rest;
            IndexOf(stream, NEWLINE) == |line| && stream[..|line|] == line && stream[|line| + 1..] == rest
  {
    IndexOfFirst(line, rest);
  }

  /** Lines that decide nothing: they fit, and an acknowledgement is never the last one awaited. */
  predicate Skips(n: nat, preamble: seq<seq<byte>>, cap: nat) {
    (forall line :: line in preamble ==> IsPreamble(line, cap)) && (CountOk(preamble) == 0 || CountOk(preamble) < n)
  }

  /** The outcome that the first line of this stream brings, with `n` acknowledgements awaited. */
  predicate Brings(n: nat, stream: seq<byte>, cap: nat, r: Result<seq<byte>, PinError>) {
    var nl := IndexOf(stream, NEWLINE);
    if nl == |stream| || nl >= cap then r == Err(UnexpectedEof)
    else
      match KindOf(stream[..nl])
      case Acknowledged => n <= 1 && r == if n == 0 then Err(CountUnderflow) else Ok([])
      case Password => r == Ok(PercentDecode(stream[2..nl]))
      case StatusLine => false
      case Failure => r == Err(ErrorOf(stream[..nl]))
      case Unknown => r == Err(Unparsable)
  }

  lemma {:induction false} SkipsPreamble(n: nat, preamble: seq<seq<byte>>, tail: seq<byte>, cap: nat)
    requires Skips(n, preamble, cap)
    ensures Answer(n, Lines(preamble) + tail, cap) == Answer(n - CountOk(preamble), tail, cap)
    decreases |preamble|
  {
    hide Answer, KindOf;
    if |preamble| == 0 {
      assert Lines(preamble) + tail == tail;
    } else {
      var line, rest := preamble[0], Lines(preamble[1..]) + tail;
      assert line in preamble;
      assert Lines(preamble) + tail == line + [NEWLINE] + rest;
      LineFirst(line, rest);
      Unfold(n, line + [NEWLINE] + rest, cap);
      SkipsPreamble(if KindOf(line) == Acknowledged then n - 1 else n, preamble[1..], tail, cap);
    }
  }

  lemma BringsAnswer(n: nat, stream: seq<byte>, cap: nat, r: Result<seq<byte>, PinError>)
    requires Brings(n, stream, cap, r)
    ensures Answer(n, stream, cap) == r
  {
    hide PercentDecode, ErrorOf, IndexOf;
    Unfold(n, stream, cap);
    var nl := IndexOf(stream, NEWLINE);
    if nl >= 2 { assert stream[..nl][2..] == stream[2..nl]; }
  }

  /** Whether the first line of this stream decides nothing. */
  predicate Continues(n: nat, stream: seq<byte>, cap: nat) {
    var nl := IndexOf(stream, NEWLINE);
    && nl < |stream| && nl < cap
    && (KindOf(stream[..nl]) == StatusLine || (KindOf(stream[..nl]) == Acknowledged && n > 1))
  }

  lemma OrBrings(n: nat, stream: seq<byte>, cap: nat)
    ensures Continues(n, stream, cap) || Brings(n, stream, cap, Answer(n, stream, cap))
  {
    hide Answer, PercentDecode, ErrorOf, IndexOf;
    Unfold(n, stream, cap);
    var nl := IndexOf(stream, NEWLINE);
    if nl >= 2 { assert stream[..nl][2..] == stream[2..nl]; }
  }

  lemma Prepend(line: seq<byte>, preamble: seq<byte>, tail: seq<byte>, stream: seq<byte>)
    requires |line| < |stream| && stream[..|line|] == line && stream[|line|] == NEWLINE
    requires stream[|line| + 1..] == preamble + tail
    ensures stream == line + [NEWLINE] + preamble + tail
  {
    assert stream == line + [NEWLINE] + stream[|line| + 1..];
  }

  /** Where the lines that decide nothing end. */
  lemma {:induction false} FindPreamble(n: nat, stream: seq<byte>, cap: nat)
    returns (preamble: seq<seq<byte>>, tail: seq<byte>)
    ensures stream == Lines(preamble) + tail && Skips(n, preamble, cap)
    ensures Brings(n - CountOk(preamble), tail, cap, Answer(n, stream, cap))
    decreases |stream|
  {
    if Continues(n, stream, cap) {
      hide Answer, KindOf, IndexOf, Brings, Lines, Skips;
      var nl := IndexOf(stream, NEWLINE);
      var line := stream[..nl];
      Unfold(n, stream, cap);
      preamble, tail := FindPreamble(if KindOf(line) == StatusLine then n else n - 1, stream[nl + 1..], cap);
      MorePreamble(n, line, preamble, cap);
      Prepend(line, Lines(preamble), tail, stream);
      preamble := [line] + preamble;
    } else {
      OrBrings(n, stream, cap);
      preamble, tail := [], stream;
      assert Lines([]) + stream == stream;
    }
  }

  lemma MorePreamble(n: nat, line: seq<byte>, preamble: seq<seq<byte>>, cap: nat)
    requires NEWLINE !in line && |line| < cap
    requires KindOf(line) == StatusLine || (KindOf(line) == Acknowledged && n > 1)
    requires Skips(if KindOf(line) == StatusLine then n else n - 1, preamble, cap)
    ensures Skips(n, [line] + preamble, cap)
    ensures CountOk([line] + preamble) == CountOk(preamble) + if KindOf(line) == StatusLine then 0 else 1
    ensures Lines([line] + preamble) == line + [NEWLINE] + Lines(preamble)
  {
    hide KindOf;
    assert ([line] + preamble)[1..] == preamble;
  }

  /**
   The answer without recursion, for every stream and every outcome: after some lines
   that decide nothing, the next one brings it.
   */
  lemma AnswerExactly(n: nat, stream: seq<byte>, cap: nat, r: Result<seq<byte>, PinError>)
    ensures Answer(n, stream, cap) == r <==>
              exists preamble, tail ::
                && stream == Lines(preamble) + tail && Skips(n, preamble, cap)
                && Brings(n - CountOk(preamble), tail, cap, r)
  {
    hide Answer, Brings, Lines;
    var first, last := FindPreamble(n, stream, cap);
    forall preamble, tail |
      stream == Lines(preamble) + tail && Skips(n, preamble, cap) && Brings(n - CountOk(preamble), tail, cap, r)
      ensures Answer(n, stream, cap) == r
    {
      SkipsPreamble(n, preamble, tail, cap);
      BringsAnswer(n - CountOk(preamble), tail, cap, r);
    }
  }

  /**
   The whole exchange: after acknowledgements and status lines, with fewer
   acknowledgements than commands, the password that was escaped into the data
   line comes back.
   */
  lemma PasswordRoundTrip(
    n: nat, preamble: seq<seq<byte>>, encoded: seq<byte>, password: seq<byte>, rest: seq<byte>, cap: nat)
    requires forall line :: line in preamble ==> IsPreamble(line, cap)
    requires CountOk(preamble) < n
    requires Encodes(encoded, password) && NEWLINE !in encoded && |DATA + encoded| < cap
    ensures Answer(n, Lines(preamble) + (DATA + encoded + [NEWLINE] + rest), cap) == Ok(password)
  {
    hide Answer, PercentDecode, IndexOf;
    var line := DATA + encoded;
    assert line[0] == DATA[0] && line[..2] == DATA && line[2..] == encoded;
    LineFirst(line, rest);
    SkipsPreamble(n, preamble, line + [NEWLINE] + rest, cap);
    DecodesEncoded(encoded, password);
    Unfold(n - CountOk(preamble), line + [NEWLINE] + rest, cap);
  }

  // ---- reading it ----------------------------------------------------------------------

  /** A byte stream whose reads return pieces of any size, and may fail. */
  class Reader {
    var pending: seq<byte>
    var failed: bool

    constructor (stream: seq<byte>)
      ensures pending == stream && !failed
    {
      pending, failed := stream, false;
    }

    /** Fills some of `buf[start..]`; nothing only at the end of the stream or when there is no room. */
    method Read(buf: array<byte>, start: nat) returns (r: Result<nat, PinError>)
      requires start <= buf.Length
      modifies this, buf
      ensures r.Err? ==> failed && r.error == ReadFailed
      ensures r.Ok? ==> failed == old(failed)
      ensures r.Ok? ==> r.value <= |old(pending)| && start + r.value <= buf.Length
      ensures r.Ok? ==> (r.value == 0 <==> old(pending) == [] || start == buf.Length)
      ensures r.Ok? ==> pending == old(pending)[r.value..]
      ensures r.Ok? ==> buf[..start + r.value] == old(buf[..start]) + old(pending)[..r.value]
    {
      var fails: bool := *;
      if fails {
        failed := true;
        return Err(ReadFailed);
      }
      var most := if |pending| < buf.Length - start then |pending| else buf.Length - start;
      var size: int := *;
      var n: nat := if 1 <= size <= most then size else most;
      var piece := pending[..n];
      pending := pending[n..];
      forall i | 0 <= i < n {
        buf[start + i] := piece[i];
      }
      r := Ok(n);
    }
  }

  /** `buf.copy_within(from..until, 0)`. */
  method CopyToFront(buf: array<byte>, from: nat, until: nat)
    requires from <= until <= buf.Length
    modifies buf
    ensures buf[..until - from] == old(buf[from..until])
    ensures buf[until - from..] == old(buf[until - from..])
  {
    forall i | 0 <= i < until - from {
      buf[i] := buf[from + i];
    }
  }

  /** Drops the line that ends at `nl`, and everything stale moves along with what is left. */
  method DropLine(buf: array<byte>, len: nat, nl: nat) returns (left: nat)
    requires nl < len <= buf.Length
    modifies buf
    ensures left == len - (nl + 1)
    ensures buf[..left] == old(buf[nl + 1..len])
  {
    ghost var before := buf[..];
    CopyToFront(buf, nl + 1, buf.Length);
    left := len - (nl + 1);
    assert buf[..buf.Length - (nl + 1)] == before[nl + 1..buf.Length];
    assert buf[..left] == buf[..buf.Length - (nl + 1)][..left];
    assert before[nl + 1..buf.Length][..left] == before[nl + 1..len];
    assert before[nl + 1..len] == old(buf[nl + 1..len]);
  }

  lemma StalePrefix(buf: seq<byte>, nl: nat, prefix: seq<byte>)
    requires nl < |buf| && buf[nl] == NEWLINE && NEWLINE !in prefix
    ensures prefix <= buf <==> prefix <= buf[..nl]
  {
    if |prefix| <= nl {
      PrefixOfTake(prefix, buf, nl);
    } else {
      assert prefix[nl] in prefix && |buf[..nl]| < |prefix|;
      NotPrefix(prefix, buf, nl);
    }
  }

  lemma NotPrefix(prefix: seq<byte>, s: seq<byte>, i: nat)
    requires i < |prefix| && i < |s| && prefix[i] != s[i]
    ensures !(prefix <= s)
  {
  }

  lemma PrefixOfTake(prefix: seq<byte>, s: seq<byte>, n: nat)
    requires |prefix| <= n <= |s|
    ensures prefix <= s <==> prefix <= s[..n]
  {
    if forall i :: 0 <= i < |prefix| ==> prefix[i] == s[i] {
      assert prefix == s[..|prefix|] == s[..n][..|prefix|];
    } else {
      var i :| 0 <= i < |prefix| && prefix[i] != s[i];
      assert s[..n][i] == s[i];
    }
  }

  /** Testing prefixes of the whole buffer, stale bytes included, sees only the current line. */
  lemma StaleBytesDontMatter(buf: seq<byte>, nl: nat)
    requires nl < |buf| && buf[nl] == NEWLINE
    ensures KindOf(buf) == KindOf(buf[..nl])
    ensures KindOf(buf) == Password ==> nl >= 2
    ensures KindOf(buf) == Failure ==> ERR_ <= buf[..nl]
  {
    StalePrefix(buf, nl, OK_);
    StalePrefix(buf, nl, DATA);
    StalePrefix(buf, nl, STATUS);
    StalePrefix(buf, nl, ERR_);
  }

  /** The outcome agrees with what the stream answers. */
  ghost predicate Agrees(res: Result<nat, PinError>, data: seq<byte>, answer: Result<seq<byte>, PinError>) {
    match res
    case Ok(n) => n <= |data| && answer == Ok(data[..n])
    case Err(e) => answer == Err(e)
  }

  /** The current line and what comes after it, in the buffer and in the stream. */
  lemma LineInBuffer(buf: seq<byte>, len: nat, rest: seq<byte>, nl: nat)
    requires nl < len <= |buf|
    ensures (buf[..len] + rest)[..nl] == buf[..nl] && buf[..len][nl] == buf[nl]
    ensures (buf[..len] + rest)[nl + 1..] == buf[nl + 1..len] + rest
  {
  }

  method ReadPassword(commands: nat, data: array<byte>, r: Reader) returns (res: Result<nat, PinError>)
    requires !r.failed
    modifies data, r
    ensures r.failed ==> res == Err(ReadFailed)
    ensures !r.failed ==> Agrees(res, data[..], Answer(commands, old(r.pending), data.Length))
  {
    hide Answer, KindOf, PercentDecode, IndexOf, ErrorOf;
    ghost var answer := Answer(commands, r.pending, data.Length);
    var ncommands := commands;
    var len: nat := 0;
    assert data[..len] + r.pending == r.pending;
    while true
      invariant len <= data.Length && !r.failed
      invariant Answer(ncommands, data[..len] + r.pending, data.Length) == answer
      decreases |r.pending| + len, |r.pending|
    {
      ghost var stream := data[..len] + r.pending;
      Unfold(ncommands, stream, data.Length);
      var nl := IndexOf(data[..len], NEWLINE);
      SameFirstNewline(data[..len], r.pending);
      if nl < len {
        ghost var line, rest := data[..nl], data[nl + 1..len] + r.pending;
        LineInBuffer(data[..], len, r.pending, nl);
        assert data[..][..len] == data[..len] && data[..][nl + 1..len] == data[nl + 1..len];
        StaleBytesDontMatter(data[..], nl);
        assert data[..][..nl] == line;
        match KindOf(data[..]) {
          case Acknowledged =>
            if ncommands == 0 {
              return Err(CountUnderflow);
            }
            if ncommands == 1 {
              len := 0;
              break;
            }
            len := DropLine(data, len, nl);
            ncommands := ncommands - 1;
          case Password =>
            CopyToFront(data, 2, nl);
            len := nl - 2;
            assert data[..len] == line[2..];
            break;
          case StatusLine =>
            len := DropLine(data, len, nl);
          case Failure =>
            return Err(ErrorOf(data[..nl]));
          case Unknown =>
            return Err(Unparsable);
        }
      } else {
        var n :- r.Read(data, len);
        if n == 0 {
          return Err(UnexpectedEof);
        }
        len := len + n;
        assert data[..len] + r.pending == stream;
      }
    }
    assert answer == Ok(PercentDecode(data[..len]));
    len := PercentDecodeInPlace(data, len);
    res := Ok(len);
  }

  /** Commands sent before the answer is read: the greeting, three settings, an optional error, and `GETPIN`. */
  function Commands(withError: bool): nat {
    if withError then 6 else 5
  }

  /** The lines `getpin` sends. */
  function Sent(prompt: string, description: string, error: Option<string>): seq<string> {
    ["SETTITLE rbw", "SETPROMPT " + prompt, "SETDESC " + description]
    + (if error.Some? then ["SETERROR " + error.value] else [])
    + ["GETPIN"]
  }

  /** One acknowledgement is awaited for each line sent, and one for the greeting. */
  lemma CommandsExactly(prompt: string, description: string, error: Option<string>)
    ensures Commands(error.Some?) == |Sent(prompt, description, error)| + 1
  {
  }

  /**
   The buffer handling of `getpin`. Losing the client while waiting is a
   nondeterministic cancellation.
   */
  method GetPin(r: Reader, withError: bool) returns (res: Result<LockedVec, PinError>)
    requires !r.failed
    modifies r
    ensures res.Ok? ==> fresh(res.value) && res.value.Valid()
    ensures res.Ok? ==> Answer(Commands(withError), old(r.pending), CipherStrings.CAPACITY) == Ok(res.value.Contents())
    ensures res.Ok? ==> forall i :: res.value.len <= i < CipherStrings.CAPACITY ==> res.value.cells[i] == 0
    ensures res.Err? ==>
              || res.error == Cancelled
              || (res.error == ReadFailed && r.failed)
              || Answer(Commands(withError), old(r.pending), CipherStrings.CAPACITY) == Err(res.error)
  {
    var buf := new LockedVec();
    buf.Zero();
    var disconnected: bool := *;
    if disconnected {
      return Err(Cancelled);
    }
    var len :- ReadPassword(Commands(withError), buf.cells, r);
    assert buf.Contents() == buf.cells[..];
    buf.Truncate(len);
    res := Ok(buf);
  }
}
