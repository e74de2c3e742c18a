/**
 PKCS#7 padding to a 16-byte block: section 6.3 of RFC 5652.

 Two removers exist in the source: the block cipher library's, which inspects
 only the last block, and rbw's own `pkcs7_unpad`, which accepts any pad length
 up to 255 anywhere in the buffer.
 */
module Padding {
  import opened Wrappers
  import opened Bytes

  const BLOCK := 16

  function PadLength(n: nat): (k: byte)
    ensures 1 <= k <= BLOCK && (n + k) % BLOCK == 0
  {
    BLOCK - n % BLOCK
  }

  function Pad(data: seq<byte>): (r: seq<byte>)
    ensures |r| % BLOCK == 0 && |r| > 0
  {
    data + Repeat(PadLength(|data|), PadLength(|data|))
  }

  /** Whether `b` ends in `n` bytes of value `n`. */
  predicate EndsInPad(b: seq<byte>, n: byte) {
    && 1 <= n <= |b|
    && forall i :: |b| - n <= i < |b| ==> b[i] == n
  }

  /** The block cipher library's remover, given whole blocks. */
  function UnpadBlocks(b: seq<byte>): Option<seq<byte>> {
    if |b| == 0 || |b| % BLOCK != 0 then None
    else
      var n := b[|b| - 1];
      if n <= BLOCK && EndsInPad(b, n) then Some(b[..|b| - n]) else None
  }

  /** rbw's own remover. */
  function Pkcs7Unpad(b: seq<byte>): Option<seq<byte>> {
    if |b| == 0 then None
    else
      var n := b[|b| - 1];
      if n == 0 then None
      else if n > |b| then None
      else if exists i :: |b| - n <= i < |b| && b[i] != n then None
      else Some(b[..|b| - n])
  }

  /** The library accepts exactly the padded buffers, and only their own data. */
  lemma UnpadsExactly(b: seq<byte>, data: seq<byte>)
    ensures UnpadBlocks(b) == Some(data) <==> b == Pad(data)
  {
    if UnpadBlocks(b) == Some(data) {
      var n := b[|b| - 1];
      assert |data| == |b| - n && PadLength(|data|) == n;
      assert b == data + b[|data|..];
      assert b[|data|..] == Repeat(n, n);
    }
    if b == Pad(data) {
      var n := PadLength(|data|);
      assert b[..|b| - n] == data;
      assert forall i :: |b| - n <= i < |b| ==> b[i] == Repeat(n, n)[i - |data|];
    }
  }

  /** rbw's remover accepts exactly data followed by one of the 255 pads. */
  lemma Pkcs7UnpadsExactly(b: seq<byte>, data: seq<byte>)
    ensures Pkcs7Unpad(b) == Some(data) <==> exists n: byte | n > 0 :: b == data + Repeat(n, n)
  {
    if Pkcs7Unpad(b) == Some(data) {
      var n := b[|b| - 1];
      assert b == data + b[|data|..];
      assert b[|data|..] == Repeat(n, n);
    }
    if n: byte :| n > 0 && b == data + Repeat(n, n) {
      assert forall i :: |data| <= i < |b| ==> b[i] == Repeat(n, n)[i - |data|];
      assert b[..|b| - n] == data;
    }
  }

  /** So rbw's remover undoes every padding the library can have left in place. */
  lemma Pkcs7UndoesPad(data: seq<byte>)
    ensures Pkcs7Unpad(Pad(data)) == Some(data)
  {
    Pkcs7UnpadsExactly(Pad(data), data);
  }
}
