/**
 Standard base64 with padding: section 4 of RFC 4648.

 The decoder is the strict one the source configures: padding must be present
 and the unused bits of a padded group must be zero.
 */
module Base64 {
  import opened Wrappers
  import opened Bytes

  function SextetChar(i: nat): char
    requires i < 64
  {
    if i < 26 then (i + 65) as char
    else if i < 52 then (i + 71) as char
    else if i < 62 then (i - 4) as char
    else if i == 62 then '+'
    else '/'
  }

  function CharSextet(c: char): Option<nat> {
    if 'A' <= c <= 'Z' then Some(c as int - 65)
    else if 'a' <= c <= 'z' then Some(c as int - 71)
    else if '0' <= c <= '9' then Some(c as int + 4)
    else if c == '+' then Some(62)
    else if c == '/' then Some(63)
    else None
  }

  /** The alphabet is a bijection onto the 64 sextets, and avoids every delimiter. */
  lemma AlphabetBijection()
    ensures forall i: nat | i < 64 :: CharSextet(SextetChar(i)) == Some(i)
    ensures forall c: char :: CharSextet(c).Some? ==> CharSextet(c).value < 64 && SextetChar(CharSextet(c).value) == c
    ensures forall i: nat | i < 64 :: SextetChar(i) !in "=.|"
  {
    forall i: nat | i < 64 ensures CharSextet(SextetChar(i)) == Some(i) && SextetChar(i) !in "=.|" {
      SextetHasChar(i);
      SextetAvoids(i);
    }
    forall c: char | CharSextet(c).Some?
      ensures CharSextet(c).value < 64 && SextetChar(CharSextet(c).value) == c
    {
      CharHasSextet(c);
    }
  }

  lemma SextetHasChar(i: nat)
    requires i < 64
    ensures CharSextet(SextetChar(i)) == Some(i)
  {
  }

  lemma CharHasSextet(c: char)
    requires CharSextet(c).Some?
    ensures CharSextet(c).value < 64 && SextetChar(CharSextet(c).value) == c
  {
  }

  lemma SextetAvoids(i: nat)
    requires i < 64
    ensures SextetChar(i) !in "=.|"
  {
  }

  /** The four characters of a three-byte group. */
  function Quad(a: byte, b: byte, c: byte): (q: string)
    ensures |q| == 4
  {
    [SextetChar(a / 4),
     SextetChar(a % 4 * 16 + b / 16),
     SextetChar(b % 16 * 4 + c / 64),
     SextetChar(c % 64)]
  }

  function Encode(data: seq<byte>): string {
    if |data| == 0 then ""
    else if |data| == 1 then Quad(data[0], 0, 0)[..2] + "=="
    else if |data| == 2 then Quad(data[0], data[1], 0)[..3] + "="
    else Quad(data[0], data[1], data[2]) + Encode(data[3..])
  }

  /** The bytes of one group of four characters; only the last may be padded. */
  function Group(q: string, last: bool): Option<seq<byte>>
    requires |q| == 4
  {
    match (CharSextet(q[0]), CharSextet(q[1]), CharSextet(q[2]), CharSextet(q[3])) {
      case (Some(w), Some(x), Some(y), Some(z)) =>
        AlphabetBijection();
        Some([w * 4 + x / 16, x % 16 * 16 + y / 4, y % 4 * 64 + z])
      case (Some(w), Some(x), Some(y), None) =>
        AlphabetBijection();
        if q[3] == '=' && last && y % 4 == 0 then Some([w * 4 + x / 16, x % 16 * 16 + y / 4]) else None
      case (Some(w), Some(x), None, None) =>
        AlphabetBijection();
        if q[2..] == "==" && last && x % 16 == 0 then Some([w * 4 + x / 16]) else None
      case _ => None
    }
  }

  function Decode(text: string): Option<seq<byte>> {
    if |text| == 0 then Some([])
    else if |text| < 4 then None
    else
      match (Group(text[..4], |text| == 4), Decode(text[4..])) {
        case (Some(head), Some(tail)) => Some(head + tail)
        case _ => None
      }
  }

  lemma GroupOfQuad(a: byte, b: byte, c: byte, last: bool)
    ensures Group(Quad(a, b, c), last) == Some([a, b, c])
  {
    AlphabetBijection();
    var w, x, y, z := a / 4, a % 4 * 16 + b / 16, b % 16 * 4 + c / 64, c % 64;
    assert x / 16 == a % 4 && x % 16 == b / 16;
    assert y / 4 == b % 16 && y % 4 == c / 64;
    assert w * 4 + x / 16 == a && x % 16 * 16 + y / 4 == b && y % 4 * 64 + z == c;
  }

  lemma GroupOfTwo(a: byte, b: byte)
    ensures Group(Quad(a, b, 0)[..3] + "=", true) == Some([a, b])
  {
    AlphabetBijection();
    var x, y := a % 4 * 16 + b / 16, b % 16 * 4;
    assert x / 16 == a % 4 && x % 16 == b / 16 && y / 4 == b % 16 && y % 4 == 0;
    var q := Quad(a, b, 0)[..3] + "=";
    assert q == [SextetChar(a / 4), SextetChar(x), SextetChar(y), '='];
    assert CharSextet('=').None?;
  }

  lemma GroupOfOne(a: byte)
    ensures Group(Quad(a, 0, 0)[..2] + "==", true) == Some([a])
  {
    AlphabetBijection();
    var x := a % 4 * 16;
    assert x / 16 == a % 4 && x % 16 == 0;
    var q := Quad(a, 0, 0)[..2] + "==";
    assert q == [SextetChar(a / 4), SextetChar(x), '=', '='];
    assert CharSextet('=').None? && q[2..] == "==";
  }

  lemma QuadOfGroup(q: string, last: bool)
    requires |q| == 4 && Group(q, last).Some?
    ensures var g := Group(q, last).value;
            && 1 <= |g| <= 3
            && Encode(g) == q
            && (|g| < 3 ==> last)
  {
    AlphabetBijection();
    var g := Group(q, last).value;
    if |g| == 3 {
      assert Encode(g) == Quad(g[0], g[1], g[2]) + Encode(g[3..]);
      assert Encode(g[3..]) == "";
      var w, x, y, z := CharSextet(q[0]).value, CharSextet(q[1]).value, CharSextet(q[2]).value, CharSextet(q[3]).value;
      assert g[0] / 4 == w && g[0] % 4 * 16 + g[1] / 16 == x;
      assert g[1] % 16 * 4 + g[2] / 64 == y && g[2] % 64 == z;
      assert Encode(g) == q;
    } else if |g| == 2 {
      var w, x, y := CharSextet(q[0]).value, CharSextet(q[1]).value, CharSextet(q[2]).value;
      assert g[0] / 4 == w && g[0] % 4 * 16 + g[1] / 16 == x && g[1] % 16 * 4 == y;
      assert Encode(g) == q;
    } else {
      var w, x := CharSextet(q[0]).value, CharSextet(q[1]).value;
      assert g[0] / 4 == w && g[0] % 4 * 16 == x;
      assert q == [q[0], q[1]] + q[2..];
      assert Encode(g) == q;
    }
  }

  /** Decoding what was encoded gives the bytes back. */
  lemma {:induction false} DecodeEncode(data: seq<byte>)
    ensures Decode(Encode(data)) == Some(data)
  {
    hide SextetChar, CharSextet, Group, Quad;
    if |data| == 0 {
    } else if |data| == 1 {
      GroupOfOne(data[0]);
      assert data == [data[0]];
      DecodeLast(Encode(data));
    } else if |data| == 2 {
      GroupOfTwo(data[0], data[1]);
      assert data == [data[0], data[1]];
      DecodeLast(Encode(data));
    } else {
      DecodeEncode(data[3..]);
      GroupOfQuad(data[0], data[1], data[2], |data| == 3);
      assert Encode(data)[..4] == Quad(data[0], data[1], data[2]);
      assert Encode(data)[4..] == Encode(data[3..]);
      assert |data| > 3 ==> |Encode(data)| > 4 by { NonEmpty(data[3..]); }
      assert data == [data[0], data[1], data[2]] + data[3..];
    }
  }

  lemma DecodeLast(q: string)
    requires |q| == 4
    ensures Decode(q) == Group(q, true)
  {
    assert q[..4] == q && q[4..] == "" && Decode("") == Some([]);
    if Group(q, true).Some? { assert Group(q, true).value + [] == Group(q, true).value; }
  }

  lemma NonEmpty(data: seq<byte>)
    ensures (Encode(data) == "") == (data == [])
  {
  }

  /** Only the canonical encoding is accepted: whatever decodes, encodes back to itself. */
  lemma {:induction false} EncodeDecode(text: string)
    requires Decode(text).Some?
    ensures Encode(Decode(text).value) == text
  {
    if |text| > 0 {
      EncodeDecode(text[4..]);
      QuadOfGroup(text[..4], |text| == 4);
      var head, tail := Group(text[..4], |text| == 4).value, Decode(text[4..]).value;
      if |head| == 3 {
        assert (head + tail)[3..] == tail;
        assert Encode(head) == Quad(head[0], head[1], head[2]) + Encode(head[3..]);
        assert Encode(head[3..]) == "";
      } else {
        assert tail == [] && head + tail == head;
      }
      assert text == text[..4] + text[4..];
    }
  }

  /** The decoder accepts exactly the image of the encoder. */
  lemma DecodesExactly(text: string, data: seq<byte>)
    ensures Decode(text) == Some(data) <==> text == Encode(data)
  {
    DecodeEncode(data);
    if Decode(text) == Some(data) { EncodeDecode(text); }
  }

  /** No encoding contains a cipherstring delimiter. */
  lemma {:induction false} NoDelimiters(data: seq<byte>)
    ensures '.' !in Encode(data) && '|' !in Encode(data)
  {
    AlphabetBijection();
    if |data| > 2 {
      NoDelimiters(data[3..]);
    }
  }

  /** The alphabet of table 1 of RFC 4648: `A` to `Z`, `a` to `z`, `0` to `9`, then `+` and `/`. */
  lemma AlphabetExactly()
    ensures SextetChar(0) == 'A' && SextetChar(25) == 'Z' && SextetChar(26) == 'a' && SextetChar(51) == 'z'
    ensures SextetChar(52) == '0' && SextetChar(61) == '9' && SextetChar(62) == '+' && SextetChar(63) == '/'
    ensures forall i: nat :: i < 61 && i != 25 && i != 51 ==> SextetChar(i + 1) as int == SextetChar(i) as int + 1
  {
  }

  lemma SextetBits(a: byte, b: byte, c: byte)
    ensures var w, x, y, z := a / 4, a % 4 * 16 + b / 16, b % 16 * 4 + c / 64, c % 64;
            && w < 64 && x < 64 && y < 64 && (a * 256 + b) * 256 + c == ((w * 64 + x) * 64 + y) * 64 + z
  {
  }

  /** A group of three bytes is its 24 bits, six at a time, the highest first. */
  lemma QuadBits(a: byte, b: byte, c: byte) returns (w: nat, x: nat, y: nat, z: nat)
    ensures w < 64 && x < 64 && y < 64 && z < 64
    ensures Quad(a, b, c) == [SextetChar(w), SextetChar(x), SextetChar(y), SextetChar(z)]
    ensures (a * 256 + b) * 256 + c == ((w * 64 + x) * 64 + y) * 64 + z
  {
    hide SextetChar;
    w, x, y, z := a / 4, a % 4 * 16 + b / 16, b % 16 * 4 + c / 64, c % 64;
    SextetBits(a, b, c);
  }

  /** Every full group of bytes becomes its four characters in place; a last short one is padded. */
  lemma {:induction false} EncodesByGroup(data: seq<byte>, k: nat)
    requires 3 * k < |data|
    ensures |Encode(data)| == (|data| + 2) / 3 * 4
    ensures var left := data[3 * k..];
            Encode(data)[4 * k..4 * k + 4] ==
              if |left| == 1 then Quad(left[0], 0, 0)[..2] + "=="
              else if |left| == 2 then Quad(left[0], left[1], 0)[..3] + "="
              else Quad(left[0], left[1], left[2])
  {
    hide Quad;
    if |data| > 3 {
      EncodesByGroup(data[3..], if k == 0 then 0 else k - 1);
      if k > 0 {
        assert data[3 * k..] == data[3..][3 * (k - 1)..];
        assert Encode(data)[4 * k..4 * k + 4] == Encode(data[3..])[4 * (k - 1)..4 * (k - 1) + 4];
      }
    } else {
      assert k == 0 && data[0..] == data;
      assert |data| == 3 ==> data[3..] == [];
    }
  }
}
