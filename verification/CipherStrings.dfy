/**
 Cipherstrings: Bitwarden's textual form of one encrypted value
 (`src/cipherstring.rs`).

 AES-CBC, HMAC and RSA are parameters with stated laws; base64 and the padding
 are concrete.
 */
module CipherStrings {
  import opened Wrappers
  import opened Bytes
  import Base64
  import Padding

  datatype Error =
    | InvalidCipherString
    | UnimplementedType
    | TooOldType
    | InvalidBase64
    | InvalidMac
    | CreateBlockMode
    | Decrypt
    | BadPadding
    | Rsa
    | IncorrectPassword
    | KeyRotation
    | Panic // a slice or capacity panic in the source

  /** Block data under AES-256-CBC, HMAC-SHA256, and RSA-OAEP decryption. */
  datatype Crypto = Crypto(
    aesEncrypt: (seq<byte>, seq<byte>, seq<byte>) -> seq<byte>,
    aesDecrypt: (seq<byte>, seq<byte>, seq<byte>) -> seq<byte>,
    hmac: (seq<byte>, seq<byte>) -> seq<byte>,
    rsaDecrypt: (seq<byte>, seq<byte>) -> Option<seq<byte>>)
  {
    /** CBC keeps the length, and decrypting under the same key and IV gives the data back. */
    ghost predicate Lawful() {
      forall key, iv, data: seq<byte> ::
        |key| == 32 && |iv| == 16 && |data| % 16 == 0 ==>
          && |aesEncrypt(key, iv, data)| == |data|
          && |aesDecrypt(key, iv, data)| == |data|
          && aesDecrypt(key, iv, aesEncrypt(key, iv, data)) == data
    }
  }

  /** The laws are consistent: the identity cipher has them. */
  lemma LawsAreConsistent() returns (c: Crypto)
    ensures c.Lawful()
  {
    c := Crypto((k, iv, d) => d, (k, iv, d) => d, (k, m) => [], (k, d) => None);
  }

  type Iv = s: seq<byte> | |s| == 16 witness Repeat(0, 16)

  /** A key buffer; a buffer shorter than 64 bytes makes the accessors panic. */
  datatype Keys = Keys(data: seq<byte>) {
    predicate Usable() {
      |data| >= 64
    }

    function EncKey(): seq<byte>
      requires |data| >= 32
    {
      data[0..32]
    }

    function MacKey(): seq<byte>
      requires Usable()
    {
      data[32..64]
    }
  }

  datatype CipherString =
    | Symmetric(iv: seq<byte>, ciphertext: seq<byte>, mac: Option<seq<byte>>)
    | Asymmetric(ciphertext: seq<byte>)

  // ---- text ------------------------------------------------------------------

  function DecodePart(text: string): Result<seq<byte>, Error> {
    match Base64.Decode(text)
    case Some(data) => Ok(data)
    case None => Err(InvalidBase64)
  }

  /**
   A type that is one non-ASCII character is several bytes long in the source,
   and here a number above 6: both are the same error.
   */
  function Parse(s: string): Result<CipherString, Error> {
    var parts := Split(s, '.');
    if |parts| != 2 then Err(InvalidCipherString) else ParseTyped(parts[0], parts[1])
  }

  function ParseTyped(ty: string, contents: string): Result<CipherString, Error> {
    if |ty| != 1 || ty[0] < '0' then Err(UnimplementedType)
    else
      match ty[0] as int - '0' as int
      case 2 => ParseSymmetric(Split(contents, '|'))
      case 4 | 6 =>
        var ciphertext :- DecodePart(Split(contents, '|')[0]);
        Ok(Asymmetric(ciphertext))
      case n => Err(if n < 6 then TooOldType else UnimplementedType)
  }

  function ParseSymmetric(parts: seq<string>): Result<CipherString, Error> {
    if |parts| < 2 || |parts| > 3 then Err(InvalidCipherString)
    else
      var iv :- DecodePart(parts[0]);
      var ciphertext :- DecodePart(parts[1]);
      if |parts| > 2 then
        var mac :- DecodePart(parts[2]);
        Ok(Symmetric(iv, ciphertext, Some(mac)))
      else
        Ok(Symmetric(iv, ciphertext, None))
  }

  function Print(c: CipherString): string {
    match c
    case Symmetric(iv, ciphertext, Some(mac)) =>
      "2." + Base64.Encode(iv) + "|" + Base64.Encode(ciphertext) + "|" + Base64.Encode(mac)
    case Symmetric(iv, ciphertext, None) =>
      "2." + Base64.Encode(iv) + "|" + Base64.Encode(ciphertext)
    case Asymmetric(ciphertext) =>
      "4." + Base64.Encode(ciphertext)
  }

  /** What may follow the ciphertext of a type 4 or 6 string: nothing, or a part that is ignored. */
  predicate IgnoredTail(tail: string) {
    (tail != "" ==> tail[0] == '|') && '.' !in tail
  }

  /** The language of the parser, with the value each text denotes. */
  ghost predicate Denotes(s: string, c: CipherString) {
    match c
    case Symmetric(_, _, _) => s == Print(c)
    case Asymmetric(ciphertext) =>
      exists ty: char, tail: string ::
        ty in "46" && IgnoredTail(tail) && s == [ty] + "." + Base64.Encode(ciphertext) + tail
  }

  /** Base64 parts joined by bars split back into themselves, and hide no dot. */
  lemma BarsSplit(datas: seq<seq<byte>>, texts: seq<string>)
    requires |datas| == |texts| >= 1
    requires forall i :: 0 <= i < |datas| ==> texts[i] == Base64.Encode(datas[i])
    ensures Split(Join(texts, '|'), '|') == texts
    ensures '.' !in Join(texts, '|')
    decreases |texts|
  {
    forall i | 0 <= i < |texts| ensures '|' !in texts[i] && '.' !in texts[i] {
      Base64.NoDelimiters(datas[i]);
    }
    SplitJoin(texts, '|');
    if |texts| > 1 { BarsSplit(datas[1..], texts[1..]); }
  }

  /** The parts of a symmetric cipherstring, as printed. */
  ghost function Texts(c: CipherString): (texts: seq<string>)
    requires c.Symmetric?
    ensures Print(c) == "2" + ['.'] + Join(texts, '|')
  {
    var two := [Base64.Encode(c.iv), Base64.Encode(c.ciphertext)];
    assert two[1..] == [two[1]];
    match c.mac
    case None => two
    case Some(mac) =>
      var three := two + [Base64.Encode(mac)];
      assert three[1..] == [three[1], three[2]] && three[1..][1..] == [three[2]];
      assert Join(three[1..], '|') == three[1] + ['|'] + three[2];
      assert three[0] + ['|'] + (three[1] + ['|'] + three[2]) == three[0] + "|" + three[1] + "|" + three[2];
      three
  }

  /** Parsing what was printed gives the value back, for all byte strings. */
  lemma ParsePrint(c: CipherString)
    ensures Parse(Print(c)) == Ok(c)
  {
    hide Base64.Encode, Base64.Decode;
    match c
    case Asymmetric(ciphertext) =>
      AsymmetricParses('4', ciphertext, "");
      assert Print(c) == ['4'] + "." + Base64.Encode(ciphertext) + "";
    case Symmetric(iv, ciphertext, mac) =>
      var datas := [iv, ciphertext] + if mac.Some? then [mac.value] else [];
      BarsSplit(datas, Texts(c));
      SplitInTwo("2", Join(Texts(c), '|'), '.');
      Base64.DecodeEncode(iv);
      Base64.DecodeEncode(ciphertext);
      if mac.Some? { Base64.DecodeEncode(mac.value); }
  }

  /** A printed cipherstring starts with its type. */
  lemma PrintStarts(c: CipherString)
    ensures |Print(c)| >= 2 && Print(c)[..2] == if c.Symmetric? then "2." else "4."
  {
  }

  /** An accepted text is its type, a dot and dot-free contents. */
  lemma ParsedParts(s: string) returns (ty: char, contents: string)
    requires Parse(s).Ok?
    ensures s == [ty] + "." + contents && '.' !in contents
    ensures ty in "246" && Parse(s) == ParseTyped([ty], contents)
  {
    var parts := Split(s, '.');
    JoinSplit(s, '.');
    assert parts[1..] == [parts[1]] && s == parts[0] + ['.'] + parts[1];
    ty, contents := parts[0][0], parts[1];
    assert parts[0] == [ty];
  }

  /** Every field is the encoding of the bytes it decodes to. */
  lemma FieldsEncode(fields: seq<string>)
    ensures forall i :: 0 <= i < |fields| && Base64.Decode(fields[i]).Some? ==>
                          Base64.Encode(Base64.Decode(fields[i]).value) == fields[i]
  {
    forall i | 0 <= i < |fields| && Base64.Decode(fields[i]).Some?
      ensures Base64.Encode(Base64.Decode(fields[i]).value) == fields[i]
    {
      Base64.EncodeDecode(fields[i]);
    }
  }

  lemma ParsedSymmetric(s: string)
    requires Parse(s).Ok? && Parse(s).value.Symmetric?
    ensures Print(Parse(s).value) == s
  {
    var ty, contents := ParsedParts(s);
    var fields := Split(contents, '|');
    JoinSplit(contents, '|');
    FieldsEncode(fields);
    assert Texts(Parse(s).value) == fields;
  }

  lemma ParsedAsymmetric(s: string)
    requires Parse(s).Ok? && Parse(s).value.Asymmetric?
    ensures Denotes(s, Parse(s).value)
  {
    var ty, contents := ParsedParts(s);
    var tail := SplitHead(contents, '|');
    Base64.EncodeDecode(Split(contents, '|')[0]);
    var text := Base64.Encode(Parse(s).value.ciphertext);
    assert text == Split(contents, '|')[0];
    assert IgnoredTail(tail);
    assert s == [ty] + "." + text + tail;
  }

  lemma AsymmetricParses(ty: char, ciphertext: seq<byte>, tail: string)
    requires ty in "46" && IgnoredTail(tail)
    ensures Parse([ty] + "." + Base64.Encode(ciphertext) + tail) == Ok(Asymmetric(ciphertext))
  {
    var text := Base64.Encode(ciphertext);
    Base64.NoDelimiters(ciphertext);
    Base64.DecodeEncode(ciphertext);
    SplitInTwo([ty], text + tail, '.');
    assert [ty] + "." + text + tail == [ty] + ['.'] + (text + tail);
    SplitFirst(text, tail, '|');
  }

  /** The parser accepts exactly the texts that denote a value, and returns that value. */
  lemma ParsesExactly(s: string, c: CipherString)
    ensures Parse(s) == Ok(c) <==> Denotes(s, c)
  {
    if Parse(s) == Ok(c) {
      if c.Symmetric? { ParsedSymmetric(s); } else { ParsedAsymmetric(s); }
    }
    if Denotes(s, c) {
      if c.Symmetric? {
        ParsePrint(c);
      } else {
        var ty: char, tail: string :|
          ty in "46" && IgnoredTail(tail) && s == [ty] + "." + Base64.Encode(c.ciphertext) + tail;
        AsymmetricParses(ty, c.ciphertext, tail);
      }
    }
  }

  /** Printing normalises: an accepted type-2 text is unchanged, types 4 and 6 become type 4, the value stays. */
  lemma Normalises(s: string)
    requires Parse(s).Ok?
    ensures Parse(Print(Parse(s).value)) == Parse(s)
    ensures s[0] == '2' <==> Parse(s).value.Symmetric?
    ensures s[0] == '2' ==> Print(Parse(s).value) == s
    ensures s[0] != '2' ==> s[0] in "46" && Print(Parse(s).value)[0] == '4'
  {
    var c := Parse(s).value;
    ParsePrint(c);
    ParsesExactly(s, c);
    PrintStarts(c);
  }

  // ---- encryption ------------------------------------------------------------

  function Seal(c: Crypto, keys: Keys, iv: Iv, plaintext: seq<byte>): CipherString
    requires keys.Usable()
  {
    var ciphertext := c.aesEncrypt(keys.EncKey(), iv, Padding.Pad(plaintext));
    Symmetric(iv, ciphertext, Some(c.hmac(keys.MacKey(), iv + ciphertext)))
  }

  /** The MAC check, when there is a MAC, and the setup of the decryptor. */
  function CheckSealed(c: Crypto, keys: Keys, cs: CipherString): Result<(), Error> {
    match cs
    case Asymmetric(_) => Err(InvalidCipherString)
    case Symmetric(iv, ciphertext, mac) =>
      if mac.Some? && !keys.Usable() then Err(Panic)
      else if mac.Some? && c.hmac(keys.MacKey(), iv + ciphertext) != mac.value then Err(InvalidMac)
      else if |keys.data| < 32 then Err(Panic)
      else if |iv| != 16 then Err(CreateBlockMode)
      else Ok(())
  }

  /** All blocks of a checked cipherstring, padding included. */
  function OpenBlocks(c: Crypto, keys: Keys, cs: CipherString): Result<seq<byte>, Error> {
    var _ :- CheckSealed(c, keys, cs);
    if |cs.ciphertext| % 16 != 0 then Err(Decrypt)
    else
      var blocks := c.aesDecrypt(keys.EncKey(), cs.iv, cs.ciphertext);
      if Padding.UnpadBlocks(blocks).None? then Err(Decrypt) else Ok(blocks)
  }

  function DecryptSymmetric(c: Crypto, keys: Keys, cs: CipherString): Result<seq<byte>, Error> {
    var blocks :- OpenBlocks(c, keys, cs);
    Ok(Padding.UnpadBlocks(blocks).value)
  }

  const CAPACITY := 4096

  /** The in-place variant: the locked buffer keeps the padding. */
  function DecryptLockedSymmetric(c: Crypto, keys: Keys, cs: CipherString): Result<seq<byte>, Error> {
    if cs.Symmetric? && |cs.ciphertext| > CAPACITY then Err(Panic)
    else OpenBlocks(c, keys, cs)
  }

  /** Decrypting under the sealing key returns the plaintext. */
  lemma OpenSealed(c: Crypto, keys: Keys, iv: Iv, plaintext: seq<byte>)
    requires c.Lawful() && keys.Usable()
    ensures OpenBlocks(c, keys, Seal(c, keys, iv, plaintext)) == Ok(Padding.Pad(plaintext))
    ensures DecryptSymmetric(c, keys, Seal(c, keys, iv, plaintext)) == Ok(plaintext)
    ensures |Seal(c, keys, iv, plaintext).ciphertext| == |Padding.Pad(plaintext)|
  {
    Padding.UnpadsExactly(Padding.Pad(plaintext), plaintext);
  }

  /** A buffer that decrypted is the padding of its plaintext, nothing else. */
  lemma BlocksArePadded(c: Crypto, keys: Keys, cs: CipherString)
    requires OpenBlocks(c, keys, cs).Ok?
    ensures DecryptSymmetric(c, keys, cs).Ok?
    ensures OpenBlocks(c, keys, cs).value == Padding.Pad(DecryptSymmetric(c, keys, cs).value)
  {
    var blocks := OpenBlocks(c, keys, cs).value;
    Padding.UnpadsExactly(blocks, Padding.UnpadBlocks(blocks).value);
  }

  /** The MAC of a cipherstring, from the second half of the key. */
  function MacOf(c: Crypto, keys: Keys, iv: seq<byte>, ciphertext: seq<byte>): seq<byte>
    requires keys.Usable()
  {
    c.hmac(keys.data[32..64], iv + ciphertext)
  }

  /**
   Exactly when a type-2 cipherstring decrypts, and to what: the MAC, if there is one,
   is right, the vector is 16 bytes, and the blocks decrypt to the padded data. It is
   rejected for its MAC exactly if that is there and wrong.
   */
  lemma DecryptsExactly(
    c: Crypto, keys: Keys, iv: seq<byte>, ciphertext: seq<byte>, mac: Option<seq<byte>>, data: seq<byte>)
    requires keys.Usable()
    ensures DecryptSymmetric(c, keys, Symmetric(iv, ciphertext, mac)) == Ok(data) <==>
              && (mac.Some? ==> mac.value == MacOf(c, keys, iv, ciphertext))
              && |iv| == 16 && |ciphertext| % 16 == 0
              && c.aesDecrypt(keys.data[0..32], iv, ciphertext) == Padding.Pad(data)
    ensures DecryptSymmetric(c, keys, Symmetric(iv, ciphertext, mac)) == Err(InvalidMac) <==>
              mac.Some? && mac.value != MacOf(c, keys, iv, ciphertext)
  {
    var blocks := c.aesDecrypt(keys.data[0..32], iv, ciphertext);
    Padding.UnpadsExactly(blocks, data);
  }

  /** The same for the locked buffer, which must have room and keeps the padding. */
  lemma DecryptsLockedExactly(
    c: Crypto, keys: Keys, iv: seq<byte>, ciphertext: seq<byte>, mac: Option<seq<byte>>, blocks: seq<byte>)
    requires keys.Usable()
    ensures DecryptLockedSymmetric(c, keys, Symmetric(iv, ciphertext, mac)) == Ok(blocks) <==>
              && |ciphertext| <= CAPACITY && (mac.Some? ==> mac.value == MacOf(c, keys, iv, ciphertext))
              && |iv| == 16 && |ciphertext| % 16 == 0
              && c.aesDecrypt(keys.data[0..32], iv, ciphertext) == blocks
              && exists data :: blocks == Padding.Pad(data)
    ensures DecryptLockedSymmetric(c, keys, Symmetric(iv, ciphertext, mac)) == Err(InvalidMac) <==>
              |ciphertext| <= CAPACITY && mac.Some? && mac.value != MacOf(c, keys, iv, ciphertext)
  {
    if data :| blocks == Padding.Pad(data) {
      Padding.UnpadsExactly(blocks, data);
    }
    if Padding.UnpadBlocks(blocks).Some? {
      Padding.UnpadsExactly(blocks, Padding.UnpadBlocks(blocks).value);
    }
  }

  /** A fresh sealing: the padded plaintext under the first half of the key, with a MAC under the second. */
  lemma SealsWithMac(c: Crypto, keys: Keys, iv: Iv, plaintext: seq<byte>)
    requires keys.Usable()
    ensures var ciphertext := c.aesEncrypt(keys.data[0..32], iv, Padding.Pad(plaintext));
            Seal(c, keys, iv, plaintext) == Symmetric(iv, ciphertext, Some(MacOf(c, keys, iv, ciphertext)))
  {
  }
}
