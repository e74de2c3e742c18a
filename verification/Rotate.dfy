/**
 Account key rotation (`src/rotate.rs`): every value of a personal vault that is
 encrypted with the user key is decrypted with the old key and sealed with the
 new one.

 The methods return a fresh tree where the source rewrites a private clone in
 place. Errors carry no text.
 */
module Rotate {
  import opened Wrappers
  import opened Bytes
  import opened CipherStrings
  import opened JsonValues

  // ---- one string --------------------------------------------------------------

  predicate IsDigits(s: string) {
    forall ch :: ch in s ==> '0' <= ch <= '9'
  }

  /** A nonempty run of digits, the first dot, and a bar somewhere after it. */
  predicate LooksEncrypted(s: string) {
    var parts := Split(s, '.');
    && |parts| >= 2
    && parts[0] != ""
    && IsDigits(parts[0])
    && '|' in Join(parts[1..], '.')
  }

  /** The plaintext of a string that rotation can re-key: a type-2 cipherstring that decrypts. */
  function Open(c: Crypto, keys: Keys, s: string): Result<seq<byte>, Error> {
    if !("2." <= s) then Err(KeyRotation)
    else
      var cs :- Parse(s);
      DecryptSymmetric(c, keys, cs)
  }

  /** The shape that is taken for encrypted: digits, a dot, and a bar somewhere after it. */
  lemma LooksEncryptedExactly(s: string)
    ensures LooksEncrypted(s) <==>
              exists digits, rest ::
                s == digits + "." + rest && digits != "" && (forall d :: d in digits ==> '0' <= d <= '9') && '|' in rest
  {
    var parts := Split(s, '.');
    JoinSplit(s, '.');
    if LooksEncrypted(s) {
      assert s == parts[0] + "." + Join(parts[1..], '.');
    }
    if digits, rest :|
      s == digits + "." + rest && digits != "" && (forall d :: d in digits ==> '0' <= d <= '9') && '|' in rest
    {
      SplitFirst(digits, "." + rest, '.');
      assert s == digits + ("." + rest);
      assert |parts| >= 2 && s == parts[0] + ['.'] + Join(parts[1..], '.');
      assert Join(parts[1..], '.') == s[|digits| + 1..] == rest;
    }
  }

  /** A string opens exactly if it is the print of a type-2 cipherstring that decrypts; any other is an error. */
  lemma OpensExactly(c: Crypto, keys: Keys, s: string, data: seq<byte>)
    ensures Open(c, keys, s) == Ok(data) <==>
              exists iv, ciphertext, mac ::
                && s == Print(Symmetric(iv, ciphertext, mac))
                && DecryptSymmetric(c, keys, Symmetric(iv, ciphertext, mac)) == Ok(data)
    ensures !("2." <= s) ==> Open(c, keys, s) == Err(KeyRotation)
  {
    hide DecryptSymmetric;
    if Open(c, keys, s) == Ok(data) {
      var cs := Parse(s).value;
      ParsesExactly(s, cs);
      OnlySymmetricDecrypts(c, keys, cs);
      assert s == Print(Symmetric(cs.iv, cs.ciphertext, cs.mac));
    }
    if iv, ciphertext, mac :|
      && s == Print(Symmetric(iv, ciphertext, mac))
      && DecryptSymmetric(c, keys, Symmetric(iv, ciphertext, mac)) == Ok(data)
    {
      ParsePrint(Symmetric(iv, ciphertext, mac));
      PrintStarts(Symmetric(iv, ciphertext, mac));
    }
  }

  lemma OnlySymmetricDecrypts(c: Crypto, keys: Keys, cs: CipherString)
    ensures DecryptSymmetric(c, keys, cs).Ok? ==> cs.Symmetric?
  {
  }

  /** `t` is a fresh sealing under `newKey` of what `s` holds under `oldKey`. */
  ghost predicate StringRekeyed(c: Crypto, oldKey: Keys, newKey: Keys, s: string, t: string)
    requires newKey.Usable()
  {
    && Open(c, oldKey, s).Ok?
    && exists iv: Iv :: t == Print(Seal(c, newKey, iv, Open(c, oldKey, s).value))
  }

  /** The random initialization vector of one encryption: any 16 bytes. */
  method RandomIv() returns (iv: Iv) {
    var bytes: seq<byte> := [];
    while |bytes| < 16
      invariant |bytes| <= 16
    {
      var b: int := *;
      bytes := bytes + [b % 256];
    }
    iv := bytes;
  }

  method ReencryptStr(c: Crypto, s: string, oldKey: Keys, newKey: Keys) returns (r: Result<string, Error>)
    requires newKey.Usable()
    ensures r.Ok? <==> Open(c, oldKey, s).Ok?
    ensures r.Ok? ==> StringRekeyed(c, oldKey, newKey, s, r.value)
    ensures r.Err? ==> r.error == Open(c, oldKey, s).error
  {
    if !("2." <= s) {
      return Err(KeyRotation);
    }
    var cs :- Parse(s);
    var plaintext :- DecryptSymmetric(c, oldKey, cs);
    var iv := RandomIv();
    r := Ok(Print(Seal(c, newKey, iv, plaintext)));
  }

  lemma SealedLooksEncrypted(c: Crypto, newKey: Keys, iv: Iv, plaintext: seq<byte>)
    requires newKey.Usable()
    ensures var t := Print(Seal(c, newKey, iv, plaintext)); LooksEncrypted(t) && "2." <= t
  {
    var sealed := Seal(c, newKey, iv, plaintext);
    PrintStarts(sealed);
    var texts := Texts(sealed);
    BarsSplit([sealed.iv, sealed.ciphertext, sealed.mac.value], texts);
    SplitInTwo("2", Join(texts, '|'), '.');
    hide Base64.Encode, Split;
    assert Split(Print(sealed), '.')[1..] == [Join(texts, '|')];
    assert Join(texts, '|') == texts[0] + ['|'] + Join(texts[1..], '|');
    assert IsDigits("2");
  }

  /** A re-keyed string opens under the new key to the same plaintext, and still looks encrypted. */
  lemma RekeyedString(c: Crypto, oldKey: Keys, newKey: Keys, s: string, t: string)
    requires c.Lawful() && newKey.Usable() && StringRekeyed(c, oldKey, newKey, s, t)
    ensures Open(c, newKey, t) == Open(c, oldKey, s)
    ensures LooksEncrypted(t)
  {
    hide LooksEncrypted, Parse, Print, DecryptSymmetric;
    var plaintext := Open(c, oldKey, s).value;
    var iv: Iv :| t == Print(Seal(c, newKey, iv, plaintext));
    ParsePrint(Seal(c, newKey, iv, plaintext));
    OpenSealed(c, newKey, iv, plaintext);
    SealedLooksEncrypted(c, newKey, iv, plaintext);
  }

  // ---- one tree ----------------------------------------------------------------

  /** Every string that looks encrypted, anywhere in the tree, opens under `keys`. */
  predicate Rotatable(c: Crypto, keys: Keys, v: Json) {
    match v
    case Str(s) => LooksEncrypted(s) ==> Open(c, keys, s).Ok?
    case Arr(items) => forall i :: 0 <= i < |items| ==> Rotatable(c, keys, items[i])
    case Obj(fields) => forall k :: k in fields ==> Rotatable(c, keys, fields[k])
    case _ => true
  }

  /** `w` is `v` with exactly the encrypted-looking strings re-keyed. */
  ghost predicate Rekeyed(c: Crypto, oldKey: Keys, newKey: Keys, v: Json, w: Json)
    requires newKey.Usable()
  {
    match v
    case Str(s) => if LooksEncrypted(s) then w.Str? && StringRekeyed(c, oldKey, newKey, s, w.s) else w == v
    case Arr(items) =>
      && w.Arr? && |w.items| == |items|
      && forall i :: 0 <= i < |items| ==> Rekeyed(c, oldKey, newKey, items[i], w.items[i])
    case Obj(fields) =>
      && w.Obj? && w.fields.Keys == fields.Keys
      && forall k :: k in fields ==> Rekeyed(c, oldKey, newKey, fields[k], w.fields[k])
    case _ => w == v
  }

  method ReencryptValue(c: Crypto, value: Json, oldKey: Keys, newKey: Keys) returns (r: Result<Json, Error>)
    requires newKey.Usable()
    ensures r.Ok? <==> Rotatable(c, oldKey, value)
    ensures r.Ok? ==> Rekeyed(c, oldKey, newKey, value, r.value)
    decreases value
  {
    match value
    case Str(s) =>
      if LooksEncrypted(s) {
        var t :- ReencryptStr(c, s, oldKey, newKey);
        return Ok(Str(t));
      }
      r := Ok(value);
    case Arr(items) =>
      var done: seq<Json> := [];
      for i := 0 to |items|
        invariant |done| == i
        invariant forall j :: 0 <= j < i ==>
                                Rotatable(c, oldKey, items[j]) && Rekeyed(c, oldKey, newKey, items[j], done[j])
      {
        var item :- ReencryptValue(c, items[i], oldKey, newKey);
        done := done + [item];
      }
      r := Ok(Arr(done));
    case Obj(fields) =>
      var done: map<string, Json> := map[];
      var todo := fields.Keys;
      while todo != {}
        invariant todo <= fields.Keys && done.Keys == fields.Keys - todo
        invariant forall k :: k in done ==>
                                Rotatable(c, oldKey, fields[k]) && Rekeyed(c, oldKey, newKey, fields[k], done[k])
        decreases |todo|
      {
        var k :| k in todo;
        var field :- ReencryptValue(c, fields[k], oldKey, newKey);
        done := done[k := field];
        todo := todo - {k};
      }
      r := Ok(Obj(done));
    case _ => r := Ok(value);
  }

  // ---- position by position --------------------------------------------------------

  /** One step into a tree. */
  datatype Branch = Index(i: nat) | Member(name: string)

  /** What stands at a position of a tree, if there is one. */
  function At(v: Json, path: seq<Branch>): Option<Json>
    decreases |path|
  {
    if |path| == 0 then Some(v)
    else
      match path[0]
      case Index(i) => if v.Arr? && i < |v.items| then At(v.items[i], path[1..]) else None
      case Member(name) => if v.Obj? && name in v.fields then At(v.fields[name], path[1..]) else None
  }

  /** At this position stands no string that looks encrypted and does not open. */
  ghost predicate OpensAt(c: Crypto, keys: Keys, v: Json, path: seq<Branch>) {
    match At(v, path)
    case Some(Str(s)) => LooksEncrypted(s) ==> Open(c, keys, s).Ok?
    case _ => true
  }

  lemma {:induction false} RotatableAt(c: Crypto, keys: Keys, v: Json, path: seq<Branch>)
    requires Rotatable(c, keys, v)
    ensures OpensAt(c, keys, v, path)
    decreases |path|
  {
    hide LooksEncrypted, Open;
    if |path| > 0 {
      match path[0]
      case Index(i) =>
        if v.Arr? && i < |v.items| { RotatableAt(c, keys, v.items[i], path[1..]); }
      case Member(name) =>
        if v.Obj? && name in v.fields { RotatableAt(c, keys, v.fields[name], path[1..]); }
    }
  }

  lemma {:induction false} RotatableIfEverywhere(c: Crypto, keys: Keys, v: Json)
    requires forall path :: OpensAt(c, keys, v, path)
    ensures Rotatable(c, keys, v)
    decreases v
  {
    hide LooksEncrypted, Open;
    match v
    case Str(_) => assert OpensAt(c, keys, v, []);
    case Arr(items) =>
      forall i | 0 <= i < |items| ensures Rotatable(c, keys, items[i]) {
        forall path ensures OpensAt(c, keys, items[i], path) {
          assert ([Index(i)] + path)[1..] == path;
          assert OpensAt(c, keys, v, [Index(i)] + path);
        }
        RotatableIfEverywhere(c, keys, items[i]);
      }
    case Obj(fields) =>
      forall k | k in fields ensures Rotatable(c, keys, fields[k]) {
        forall path ensures OpensAt(c, keys, fields[k], path) {
          assert ([Member(k)] + path)[1..] == path;
          assert OpensAt(c, keys, v, [Member(k)] + path);
        }
        RotatableIfEverywhere(c, keys, fields[k]);
      }
    case _ =>
  }

  /** A tree can be re-keyed exactly if at no position a string looks encrypted and does not open. */
  lemma RotatableExactly(c: Crypto, keys: Keys, v: Json)
    ensures Rotatable(c, keys, v) <==> forall path :: OpensAt(c, keys, v, path)
  {
    hide Rotatable, OpensAt;
    if Rotatable(c, keys, v) {
      forall path ensures OpensAt(c, keys, v, path) { RotatableAt(c, keys, v, path); }
    }
    if forall path :: OpensAt(c, keys, v, path) { RotatableIfEverywhere(c, keys, v); }
  }

  /** How what stands at one position of a re-keyed tree relates to what stood there. */
  ghost predicate SameAfter(c: Crypto, oldKey: Keys, newKey: Keys, before: Option<Json>, after: Option<Json>) {
    match before
    case Some(Str(s)) =>
      if LooksEncrypted(s)
      then
        && Open(c, oldKey, s).Ok? && after.Some? && after.value.Str? && LooksEncrypted(after.value.s)
        && Open(c, newKey, after.value.s) == Open(c, oldKey, s)
      else after == before
    case Some(Arr(items)) => after.Some? && after.value.Arr? && |after.value.items| == |items|
    case Some(Obj(fields)) => after.Some? && after.value.Obj? && after.value.fields.Keys == fields.Keys
    case _ => after == before
  }

  /**
   Position by position: an encrypted string is replaced by one that looks encrypted
   and opens under the new key to what the old one held, and nothing else changes.
   */
  lemma {:induction false} RekeyedAt(c: Crypto, oldKey: Keys, newKey: Keys, v: Json, w: Json, path: seq<Branch>)
    requires c.Lawful() && newKey.Usable() && Rekeyed(c, oldKey, newKey, v, w)
    ensures SameAfter(c, oldKey, newKey, At(v, path), At(w, path))
    decreases |path|
  {
    hide LooksEncrypted, Open, StringRekeyed;
    if |path| == 0 {
      RekeyedHere(c, oldKey, newKey, v, w);
    } else {
      match path[0]
      case Index(i) =>
        if v.Arr? && i < |v.items| { RekeyedAt(c, oldKey, newKey, v.items[i], w.items[i], path[1..]); }
      case Member(name) =>
        if v.Obj? && name in v.fields { RekeyedAt(c, oldKey, newKey, v.fields[name], w.fields[name], path[1..]); }
    }
  }

  lemma RekeyedHere(c: Crypto, oldKey: Keys, newKey: Keys, v: Json, w: Json)
    requires c.Lawful() && newKey.Usable() && Rekeyed(c, oldKey, newKey, v, w)
    ensures SameAfter(c, oldKey, newKey, Some(v), Some(w))
  {
    hide LooksEncrypted;
    if v.Str? && LooksEncrypted(v.s) { RekeyedString(c, oldKey, newKey, v.s, w.s); }
  }

  // ---- what a tree means ---------------------------------------------------------

  /** A tree as its reader sees it: encrypted-looking strings are their plaintexts. */
  datatype View =
    | Plain(value: Json)
    | Secret(plaintext: Result<seq<byte>, Error>)
    | Items(views: seq<View>)
    | Fields(members: map<string, View>)

  function ViewOf(c: Crypto, keys: Keys, v: Json): View {
    match v
    case Str(s) => if LooksEncrypted(s) then Secret(Open(c, keys, s)) else Plain(v)
    case Arr(items) => Items(seq(|items|, i requires 0 <= i < |items| => ViewOf(c, keys, items[i])))
    case Obj(fields) => Fields(map k | k in fields :: ViewOf(c, keys, fields[k]))
    case _ => Plain(v)
  }

  /** Re-keying a tree keeps its view: same shape, same plain values, same plaintexts in the same places. */
  lemma {:induction false} RekeyedSameView(c: Crypto, oldKey: Keys, newKey: Keys, v: Json, w: Json)
    requires c.Lawful() && newKey.Usable() && Rekeyed(c, oldKey, newKey, v, w)
    ensures ViewOf(c, newKey, w) == ViewOf(c, oldKey, v)
    decreases v
  {
    match v
    case Str(s) => if LooksEncrypted(s) { RekeyedString(c, oldKey, newKey, s, w.s); }
    case Arr(items) =>
      forall i | 0 <= i < |items| ensures ViewOf(c, newKey, w.items[i]) == ViewOf(c, oldKey, items[i]) {
        RekeyedSameView(c, oldKey, newKey, items[i], w.items[i]);
      }
      assert ViewOf(c, newKey, w).views == ViewOf(c, oldKey, v).views;
    case Obj(fields) =>
      forall k | k in fields ensures ViewOf(c, newKey, w.fields[k]) == ViewOf(c, oldKey, fields[k]) {
        RekeyedSameView(c, oldKey, newKey, fields[k], w.fields[k]);
      }
      assert ViewOf(c, newKey, w).members == ViewOf(c, oldKey, v).members;
    case _ =>
  }

  /** A re-keyed tree can be re-keyed again: the encrypted positions are the same, and all open. */
  lemma {:induction false} RekeyedRotatable(c: Crypto, oldKey: Keys, newKey: Keys, v: Json, w: Json)
    requires c.Lawful() && newKey.Usable() && Rekeyed(c, oldKey, newKey, v, w)
    ensures Rotatable(c, oldKey, v) && Rotatable(c, newKey, w)
    decreases v
  {
    match v
    case Str(s) => if LooksEncrypted(s) { RekeyedString(c, oldKey, newKey, s, w.s); }
    case Arr(items) =>
      forall i | 0 <= i < |items| ensures Rotatable(c, oldKey, items[i]) && Rotatable(c, newKey, w.items[i]) {
        RekeyedRotatable(c, oldKey, newKey, items[i], w.items[i]);
      }
    case Obj(fields) =>
      forall k | k in fields ensures Rotatable(c, oldKey, fields[k]) && Rotatable(c, newKey, w.fields[k]) {
        RekeyedRotatable(c, oldKey, newKey, fields[k], w.fields[k]);
      }
    case _ =>
  }

  /** Two rotations are one: `oldKey` to `mid` to `newKey` is a rotation from `oldKey` to `newKey`. */
  lemma {:induction false} RekeyedTwice(c: Crypto, oldKey: Keys, mid: Keys, newKey: Keys, u: Json, v: Json, w: Json)
    requires c.Lawful() && mid.Usable() && newKey.Usable()
    requires Rekeyed(c, oldKey, mid, u, v) && Rekeyed(c, mid, newKey, v, w)
    ensures Rekeyed(c, oldKey, newKey, u, w)
    decreases u
  {
    match u
    case Str(s) => if LooksEncrypted(s) { RekeyedString(c, oldKey, mid, s, v.s); }
    case Arr(items) =>
      forall i | 0 <= i < |items| ensures Rekeyed(c, oldKey, newKey, items[i], w.items[i]) {
        RekeyedTwice(c, oldKey, mid, newKey, items[i], v.items[i], w.items[i]);
      }
    case Obj(fields) =>
      forall k | k in fields ensures Rekeyed(c, oldKey, newKey, fields[k], w.fields[k]) {
        RekeyedTwice(c, oldKey, mid, newKey, fields[k], v.fields[k], w.fields[k]);
      }
    case _ =>
  }
}
