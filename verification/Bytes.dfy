/** Raw bytes, splitting on a delimiter as `str::split` does, and the search for a byte. */
module Bytes {
  type byte = x: nat | x < 256

  /** `n` copies of `b`. */
  function Repeat(b: byte, n: nat): (r: seq<byte>)
    ensures |r| == n
    ensures forall i :: 0 <= i < n ==> r[i] == b
  {
    seq(n, _ => b)
  }

  function Split(s: string, d: char): (parts: seq<string>)
    ensures |parts| >= 1
  {
    if s == "" then
      [""]
    else
      var rest := Split(s[1..], d);
      if s[0] == d then [""] + rest else [[s[0]] + rest[0]] + rest[1..]
  }

  function Join(parts: seq<string>, d: char): string {
    if |parts| == 0 then ""
    else if |parts| == 1 then parts[0]
    else parts[0] + [d] + Join(parts[1..], d)
  }

  /** The first part ends at the first delimiter. */
  lemma {:induction false} SplitFirst(text: string, tail: string, d: char)
    requires d !in text && (tail != "" ==> tail[0] == d)
    ensures Split(text + tail, d)[0] == text
  {
    if text == "" {
      assert text + tail == tail;
    } else {
      SplitFirst(text[1..], tail, d);
      assert (text + tail)[1..] == text[1..] + tail;
      assert [text[0]] + text[1..] == text;
    }
  }

  /** Splitting loses nothing, and no part keeps a delimiter. */
  lemma {:induction false} JoinSplit(s: string, d: char)
    ensures Join(Split(s, d), d) == s
    ensures forall part :: part in Split(s, d) ==> d !in part
  {
    if s != "" {
      JoinSplit(s[1..], d);
      var rest := Split(s[1..], d);
      if s[0] == d {
        assert ([""] + rest)[1..] == rest;
      } else {
        var parts := [[s[0]] + rest[0]] + rest[1..];
        assert parts[1..] == rest[1..];
        if |rest| > 1 {
          assert parts[0] + [d] + Join(rest[1..], d) == [s[0]] + Join(rest, d);
        }
      }
    }
  }

  /** What follows the first part starts with the delimiter. */
  lemma SplitHead(s: string, d: char) returns (tail: string)
    ensures s == Split(s, d)[0] + tail
    ensures tail != "" ==> tail[0] == d
  {
    JoinSplit(s, d);
    var parts := Split(s, d);
    tail := if |parts| == 1 then "" else [d] + Join(parts[1..], d);
    assert |parts| > 1 ==> parts[0] + [d] + Join(parts[1..], d) == parts[0] + tail;
  }

  /** A delimiter-free text is its own only part. */
  lemma {:induction false} SplitWithout(s: string, d: char)
    requires d !in s
    ensures Split(s, d) == [s]
  {
    if s != "" {
      SplitWithout(s[1..], d);
      assert [s[0]] + s[1..] == s;
    }
  }

  /** Parts that contain no delimiter are exactly what splitting gives back. */
  lemma {:induction false} SplitJoin(parts: seq<string>, d: char)
    requires |parts| >= 1
    requires forall part :: part in parts ==> d !in part
    ensures Split(Join(parts, d), d) == parts
    decreases |parts|, |parts[0]|
  {
    if |parts| == 1 {
      SplitWithout(parts[0], d);
    } else if parts[0] == "" {
      SplitJoin(parts[1..], d);
      assert Join(parts, d)[1..] == Join(parts[1..], d);
      assert [""] + parts[1..] == parts;
    } else {
      var shorter := [parts[0][1..]] + parts[1..];
      assert shorter[1..] == parts[1..];
      assert d !in parts[0];
      SplitJoin(shorter, d);
      assert Join(parts, d)[1..] == Join(shorter, d);
      assert Join(parts, d)[0] == parts[0][0] != d;
      assert [parts[0][0]] + shorter[0] == parts[0];
    }
  }

  /** Two parts: the text is the first, the delimiter and the second. */
  lemma SplitInTwo(a: string, b: string, d: char)
    requires d !in a && d !in b
    ensures Split(a + [d] + b, d) == [a, b]
  {
    assert Join([a, b], d) == a + [d] + b by { assert [a, b][1..] == [b]; }
    SplitJoin([a, b], d);
  }

  const NEWLINE: byte := 10

  /** The index of the first `b`, or the length. */
  function IndexOf(s: seq<byte>, b: byte): (i: nat)
    ensures i <= |s|
    ensures b !in s[..i]
    ensures i < |s| ==> s[i] == b
  {
    if |s| == 0 || s[0] == b then 0
    else
      var i := 1 + IndexOf(s[1..], b);
      assert s[..i] == [s[0]] + s[1..][..i - 1];
      i
  }

  /** Bytes without a `b` only shift the first `b` of what follows. */
  lemma {:induction false} IndexOfSkips(read: seq<byte>, rest: seq<byte>, b: byte)
    requires b !in read
    ensures IndexOf(read + rest, b) == |read| + IndexOf(rest, b)
  {
    if read == [] {
      assert read + rest == rest;
    } else {
      IndexOfSkips(read[1..], rest, b);
      assert (read + rest)[1..] == read[1..] + rest;
    }
  }

  lemma IndexOfFirst(line: seq<byte>, rest: seq<byte>)
    requires NEWLINE !in line
    ensures IndexOf(line + [NEWLINE] + rest, NEWLINE) == |line|
  {
    IndexOfSkips(line, [NEWLINE] + rest, NEWLINE);
    assert line + [NEWLINE] + rest == line + ([NEWLINE] + rest);
  }

  /** A newline in the part read so far is the stream's first newline. */
  lemma SameFirstNewline(read: seq<byte>, rest: seq<byte>)
    ensures IndexOf(read, NEWLINE) < |read| ==> IndexOf(read + rest, NEWLINE) == IndexOf(read, NEWLINE)
    ensures IndexOf(read, NEWLINE) == |read| ==> IndexOf(read + rest, NEWLINE) == |read| + IndexOf(rest, NEWLINE)
  {
    var i := IndexOf(read, NEWLINE);
    if i < |read| {
      assert read + rest == read[..i] + [NEWLINE] + (read[i + 1..] + rest);
      IndexOfFirst(read[..i], read[i + 1..] + rest);
    } else {
      IndexOfSkips(read, rest, NEWLINE);
    }
  }
}
