/**
 Rotation of a whole vault (`rotate_vault` and `rotate_cipher` in
 `src/rotate.rs`), on the `/sync` answer of the server.
 */
module Vault {
  import opened Wrappers
  import opened CipherStrings
  import opened JsonValues
  import opened Rotate

  datatype RotatedVault = RotatedVault(
    ciphers: seq<Json>,
    folders: seq<Json>,
    sends: seq<Json>,
    privateKey: string)

  // ---- reading the answer --------------------------------------------------------

  function ListField(sync: Json, field: string): Result<seq<Json>, Error> {
    match sync.Get(field)
    case Null => Ok([])
    case Arr(items) => Ok(items)
    case _ => Err(KeyRotation)
  }

  function StrField(value: Json, field: string): Result<string, Error> {
    match value.Get(field)
    case Str(s) => Ok(s)
    case _ => Err(KeyRotation)
  }

  /** The ciphers with no organization, in order. */
  function Personal(ciphers: seq<Json>): seq<Json> {
    if |ciphers| == 0 then []
    else
      var rest := Personal(ciphers[..|ciphers| - 1]);
      var last := ciphers[|ciphers| - 1];
      if last.Get("organizationId").Null? then rest + [last] else rest
  }

  // ---- what must hold for a rotation ------------------------------------------------

  predicate StrFieldOpens(c: Crypto, keys: Keys, value: Json, field: string) {
    value.Get(field).Str? && Open(c, keys, value.Get(field).s).Ok?
  }

  predicate AttachmentsHaveKeys(cipher: Json) {
    forall a :: a in cipher.Get("attachments").Elements() ==> a.Get("key").Str?
  }

  predicate CipherRotatable(c: Crypto, keys: Keys, cipher: Json) {
    && cipher.Get("id").Str?
    && if cipher.Get("key").Str? then StrFieldOpens(c, keys, cipher, "key")
       else AttachmentsHaveKeys(cipher) && Rotatable(c, keys, cipher)
  }

  predicate IsList(v: Json) {
    v.Null? || v.Arr?
  }

  predicate VaultRotatable(c: Crypto, keys: Keys, sync: Json) {
    && sync.Get("profile").Get("id").Str?
    && StrFieldOpens(c, keys, sync.Get("profile"), "privateKey")
    && IsList(sync.Get("ciphers")) && IsList(sync.Get("folders")) && IsList(sync.Get("sends"))
    && (forall v :: v in Personal(sync.Get("ciphers").Elements()) ==> CipherRotatable(c, keys, v))
    && (forall v :: v in sync.Get("folders").Elements() ==> StrFieldOpens(c, keys, v, "name"))
    && (forall v :: v in sync.Get("sends").Elements() ==> StrFieldOpens(c, keys, v, "key"))
  }

  // ---- what a rotation produces ------------------------------------------------------

  /** The `attachments2` object: the last attachment with a given id wins. */
  function Attachments2(items: seq<Json>): map<string, Json> {
    if |items| == 0 then map[]
    else
      var last := items[|items| - 1];
      var rest := Attachments2(items[..|items| - 1]);
      if last.Get("id").Str?
      then rest[last.Get("id").s := Obj(map["fileName" := last.Get("fileName"), "key" := last.Get("key")])]
      else rest
  }

  const REPLACED: set<string> := {"attachments2", "encryptedFor", "lastKnownRevisionDate"}

  /** The three fields that every rotated cipher gets. */
  function Annotate(cipher: Json, userId: string): Json
    requires cipher.Obj?
  {
    cipher
    .Set("attachments2", Obj(Attachments2(cipher.Get("attachments").Elements())))
    .Set("encryptedFor", Str(userId))
    .Set("lastKnownRevisionDate", cipher.Get("revisionDate"))
  }

  ghost predicate FieldRekeyed(c: Crypto, oldKey: Keys, newKey: Keys, v: Json, w: Json, field: string)
    requires newKey.Usable()
  {
    && v.Get(field).Str? && w.Get(field).Str?
    && StringRekeyed(c, oldKey, newKey, v.Get(field).s, w.Get(field).s)
  }

  /** A keyed cipher changes only in `key`; a keyless one is re-keyed throughout. */
  ghost predicate BodyRekeyed(c: Crypto, oldKey: Keys, newKey: Keys, v: Json, w: Json)
    requires newKey.Usable()
  {
    && v.Obj? && w.Obj?
    && if v.Get("key").Str?
       then FieldRekeyed(c, oldKey, newKey, v, w, "key") && w == v.Set("key", w.Get("key"))
       else Rekeyed(c, oldKey, newKey, v, w)
  }

  ghost predicate CipherRekeyed(c: Crypto, oldKey: Keys, newKey: Keys, userId: string, v: Json, w: Json)
    requires newKey.Usable()
  {
    exists body: Json :: BodyRekeyed(c, oldKey, newKey, v, body) && w == Annotate(body, userId)
  }

  ghost predicate FolderRekeyed(c: Crypto, oldKey: Keys, newKey: Keys, v: Json, w: Json)
    requires newKey.Usable()
  {
    FieldRekeyed(c, oldKey, newKey, v, w, "name") && w == Obj(map["id" := v.Get("id"), "name" := w.Get("name")])
  }

  ghost predicate SendRekeyed(c: Crypto, oldKey: Keys, newKey: Keys, v: Json, w: Json)
    requires newKey.Usable()
  {
    FieldRekeyed(c, oldKey, newKey, v, w, "key") && v.Obj? && w == v.Set("key", w.Get("key"))
  }

  ghost predicate CiphersRekeyed(
    c: Crypto, oldKey: Keys, newKey: Keys, userId: string, vs: seq<Json>, ws: seq<Json>)
    requires newKey.Usable()
  {
    |ws| == |vs| && forall i :: 0 <= i < |vs| ==> CipherRekeyed(c, oldKey, newKey, userId, vs[i], ws[i])
  }

  ghost predicate FoldersRekeyed(c: Crypto, oldKey: Keys, newKey: Keys, vs: seq<Json>, ws: seq<Json>)
    requires newKey.Usable()
  {
    |ws| == |vs| && forall i :: 0 <= i < |vs| ==> FolderRekeyed(c, oldKey, newKey, vs[i], ws[i])
  }

  ghost predicate SendsRekeyed(c: Crypto, oldKey: Keys, newKey: Keys, vs: seq<Json>, ws: seq<Json>)
    requires newKey.Usable()
  {
    |ws| == |vs| && forall i :: 0 <= i < |vs| ==> SendRekeyed(c, oldKey, newKey, vs[i], ws[i])
  }

  ghost predicate VaultRekeyed(c: Crypto, oldKey: Keys, newKey: Keys, sync: Json, vault: RotatedVault)
    requires newKey.Usable()
  {
    var profile := sync.Get("profile");
    && profile.Get("id").Str? && profile.Get("privateKey").Str?
    && CiphersRekeyed(c, oldKey, newKey, profile.Get("id").s, Personal(sync.Get("ciphers").Elements()), vault.ciphers)
    && FoldersRekeyed(c, oldKey, newKey, sync.Get("folders").Elements(), vault.folders)
    && SendsRekeyed(c, oldKey, newKey, sync.Get("sends").Elements(), vault.sends)
    && StringRekeyed(c, oldKey, newKey, profile.Get("privateKey").s, vault.privateKey)
  }

  method CheckAttachments(cipher: Json) returns (ok: bool)
    ensures ok <==> AttachmentsHaveKeys(cipher)
  {
    var attachments := cipher.Get("attachments").Elements();
    for i := 0 to |attachments|
      invariant forall j :: 0 <= j < i ==> attachments[j].Get("key").Str?
    {
      if !attachments[i].Get("key").Str? {
        return false;
      }
    }
    ok := true;
  }

  method RotateBody(c: Crypto, cipher: Json, oldKey: Keys, newKey: Keys) returns (r: Result<Json, Error>)
    requires newKey.Usable() && cipher.Get("id").Str?
    ensures r.Ok? <==> CipherRotatable(c, oldKey, cipher)
    ensures r.Ok? ==> BodyRekeyed(c, oldKey, newKey, cipher, r.value)
  {
    if cipher.Get("key").Str? {
      var key :- ReencryptStr(c, cipher.Get("key").s, oldKey, newKey);
      r := Ok(cipher.Set("key", Str(key)));
    } else {
      var ok := CheckAttachments(cipher);
      if !ok {
        return Err(KeyRotation);
      }
      r := ReencryptValue(c, cipher, oldKey, newKey);
    }
  }

  method RotateCipher(c: Crypto, value: Json, userId: string, oldKey: Keys, newKey: Keys)
    returns (r: Result<Json, Error>)
    requires newKey.Usable()
    ensures r.Ok? <==> CipherRotatable(c, oldKey, value)
    ensures r.Ok? ==> CipherRekeyed(c, oldKey, newKey, userId, value, r.value)
  {
    var _ :- StrField(value, "id");
    var body :- RotateBody(c, value, oldKey, newKey);
    var cipher := body;
    cipher := cipher.Set("attachments2", Obj(Attachments2(cipher.Get("attachments").Elements())));
    cipher := cipher.Set("encryptedFor", Str(userId));
    cipher := cipher.Set("lastKnownRevisionDate", cipher.Get("revisionDate"));
    assert cipher == Annotate(body, userId);
    r := Ok(cipher);
  }

  method RotateCiphers(c: Crypto, input: seq<Json>, userId: string, oldKey: Keys, newKey: Keys)
    returns (r: Result<seq<Json>, Error>)
    requires newKey.Usable()
    ensures r.Ok? <==> forall v :: v in Personal(input) ==> CipherRotatable(c, oldKey, v)
    ensures r.Ok? ==> CiphersRekeyed(c, oldKey, newKey, userId, Personal(input), r.value)
    ensures r.Ok? && input == [] ==> r.value == []
  {
    var ciphers: seq<Json> := [];
    for i := 0 to |input|
      invariant forall v :: v in Personal(input[..i]) ==> CipherRotatable(c, oldKey, v)
      invariant CiphersRekeyed(c, oldKey, newKey, userId, Personal(input[..i]), ciphers)
    {
      assert input[..i + 1][..i] == input[..i];
      if !input[i].Get("organizationId").Null? {
        continue;
      }
      assert Personal(input[..i + 1]) == Personal(input[..i]) + [input[i]];
      var cipher := RotateCipher(c, input[i], userId, oldKey, newKey);
      if cipher.Err? {
        PersonalPrefix(input, i + 1);
        assert input[i] == Personal(input)[|Personal(input[..i])|];
        return Err(cipher.error);
      }
      ciphers := ciphers + [cipher.value];
    }
    assert input[..|input|] == input;
    r := Ok(ciphers);
  }

  method RotateFolder(c: Crypto, folder: Json, oldKey: Keys, newKey: Keys) returns (r: Result<Json, Error>)
    requires newKey.Usable()
    ensures r.Ok? <==> StrFieldOpens(c, oldKey, folder, "name")
    ensures r.Ok? ==> FolderRekeyed(c, oldKey, newKey, folder, r.value)
  {
    var name :- StrField(folder, "name");
    name :- ReencryptStr(c, name, oldKey, newKey);
    r := Ok(Obj(map["id" := folder.Get("id"), "name" := Str(name)]));
  }

  method RotateFolders(c: Crypto, input: seq<Json>, oldKey: Keys, newKey: Keys) returns (r: Result<seq<Json>, Error>)
    requires newKey.Usable()
    ensures r.Ok? <==> forall v :: v in input ==> StrFieldOpens(c, oldKey, v, "name")
    ensures r.Ok? ==> FoldersRekeyed(c, oldKey, newKey, input, r.value)
  {
    hide StrFieldOpens, FolderRekeyed;
    var folders: seq<Json> := [];
    for i := 0 to |input|
      invariant |folders| == i
      invariant forall j :: 0 <= j < i ==>
                  && StrFieldOpens(c, oldKey, input[j], "name")
                  && FolderRekeyed(c, oldKey, newKey, input[j], folders[j])
    {
      var folder := RotateFolder(c, input[i], oldKey, newKey);
      if folder.Err? {
        assert input[i] in input;
        return Err(folder.error);
      }
      folders := folders + [folder.value];
    }
    r := Ok(folders);
  }

  method RotateSend(c: Crypto, send: Json, oldKey: Keys, newKey: Keys) returns (r: Result<Json, Error>)
    requires newKey.Usable()
    ensures r.Ok? <==> StrFieldOpens(c, oldKey, send, "key")
    ensures r.Ok? ==> SendRekeyed(c, oldKey, newKey, send, r.value)
  {
    var key :- StrField(send, "key");
    key :- ReencryptStr(c, key, oldKey, newKey);
    r := Ok(send.Set("key", Str(key)));
  }

  method RotateSends(c: Crypto, input: seq<Json>, oldKey: Keys, newKey: Keys) returns (r: Result<seq<Json>, Error>)
    requires newKey.Usable()
    ensures r.Ok? <==> forall v :: v in input ==> StrFieldOpens(c, oldKey, v, "key")
    ensures r.Ok? ==> SendsRekeyed(c, oldKey, newKey, input, r.value)
  {
    hide Open;
    var sends: seq<Json> := [];
    for i := 0 to |input|
      invariant |sends| == i
      invariant forall j :: 0 <= j < i ==>
                  && StrFieldOpens(c, oldKey, input[j], "key")
                  && SendRekeyed(c, oldKey, newKey, input[j], sends[j])
    {
      var send := RotateSend(c, input[i], oldKey, newKey);
      if send.Err? {
        assert input[i] in input;
        return Err(send.error);
      }
      sends := sends + [send.value];
    }
    r := Ok(sends);
  }

  // ---- position by position ------------------------------------------------------------

  predicate IsPersonal(cipher: Json) {
    cipher.Get("organizationId") == Null
  }

  /** The places of a list at which an item of no organization stands, in order. */
  ghost predicate PicksPersonal(ciphers: seq<Json>, picks: seq<nat>) {
    && (forall i, j :: 0 <= i < j < |picks| ==> picks[i] < picks[j])
    && (forall i: nat :: i in picks <==> i < |ciphers| && IsPersonal(ciphers[i]))
  }

  lemma PersonalUnfolds(ciphers: seq<Json>)
    requires |ciphers| > 0
    ensures var init, last := ciphers[..|ciphers| - 1], ciphers[|ciphers| - 1];
            Personal(ciphers) == Personal(init) + if IsPersonal(last) then [last] else []
  {
  }

  /** `Personal` takes exactly the items of no organization, each once and in order. */
  lemma {:induction false} PersonalPicks(ciphers: seq<Json>) returns (picks: seq<nat>)
    ensures PicksPersonal(ciphers, picks) && |Personal(ciphers)| == |picks|
    ensures forall k :: 0 <= k < |picks| ==> picks[k] < |ciphers| && Personal(ciphers)[k] == ciphers[picks[k]]
  {
    picks := [];
    if |ciphers| > 0 {
      hide Personal, IsPersonal, PicksPersonal;
      var n := |ciphers| - 1;
      picks := PersonalPicks(ciphers[..n]);
      PersonalUnfolds(ciphers);
      PickMore(ciphers, picks);
      if IsPersonal(ciphers[n]) {
        picks := picks + [n];
      }
    }
  }

  lemma PickMore(ciphers: seq<Json>, picks: seq<nat>)
    requires |ciphers| > 0 && PicksPersonal(ciphers[..|ciphers| - 1], picks)
    ensures var n := |ciphers| - 1;
            PicksPersonal(ciphers, if IsPersonal(ciphers[n]) then picks + [n] else picks)
  {
    hide IsPersonal;
    var init, n := ciphers[..|ciphers| - 1], |ciphers| - 1;
    forall k | 0 <= k < |picks| ensures picks[k] < n { assert picks[k] in picks; }
    assert forall i: nat :: i < n ==> init[i] == ciphers[i];
    assert forall i: nat :: i in picks + [n] <==> i in picks || i == n;
  }

  lemma PersonalHas(ciphers: seq<Json>)
    ensures forall v :: v in Personal(ciphers) <==> v in ciphers && v.Get("organizationId") == Null
  {
    var picks := PersonalPicks(ciphers);
    forall v | v in ciphers && v.Get("organizationId") == Null ensures v in Personal(ciphers) {
      var i: nat :| i < |ciphers| && ciphers[i] == v;
      assert i in picks;
      var k :| 0 <= k < |picks| && picks[k] == i;
      assert Personal(ciphers)[k] == v;
    }
    forall v | v in Personal(ciphers) ensures v in ciphers && v.Get("organizationId") == Null {
      var k :| 0 <= k < |picks| && Personal(ciphers)[k] == v;
      assert picks[k] in picks;
    }
  }

  /** Exactly the items of no organization are re-keyed, in their order; the others are left out. */
  ghost predicate PersonalRekeyed(
    c: Crypto, oldKey: Keys, newKey: Keys, userId: string, ciphers: seq<Json>, rotated: seq<Json>)
    requires newKey.Usable()
  {
    exists picks ::
      && PicksPersonal(ciphers, picks) && |rotated| == |picks|
      && forall k :: 0 <= k < |picks| ==>
                       picks[k] < |ciphers| && CipherRekeyed(c, oldKey, newKey, userId, ciphers[picks[k]], rotated[k])
  }

  lemma RekeyedPersonal(c: Crypto, oldKey: Keys, newKey: Keys, userId: string, ciphers: seq<Json>, rotated: seq<Json>)
    requires newKey.Usable() && CiphersRekeyed(c, oldKey, newKey, userId, Personal(ciphers), rotated)
    ensures PersonalRekeyed(c, oldKey, newKey, userId, ciphers, rotated)
  {
    hide CipherRekeyed;
    var picks := PersonalPicks(ciphers);
    hide Personal, PicksPersonal;
  }

  /** A folder keeps its id and has nothing else but its name, re-keyed. */
  lemma RotatedFolderSays(c: Crypto, oldKey: Keys, newKey: Keys, v: Json, w: Json)
    requires c.Lawful() && newKey.Usable() && FolderRekeyed(c, oldKey, newKey, v, w)
    ensures w.Obj? && w.fields.Keys == {"id", "name"} && w.fields["id"] == v.Get("id")
    ensures v.Get("name").Str? && w.fields["name"].Str? && Open(c, oldKey, v.Get("name").s).Ok?
    ensures Open(c, newKey, w.fields["name"].s) == Open(c, oldKey, v.Get("name").s)
  {
    hide Open, LooksEncrypted;
    RekeyedString(c, oldKey, newKey, v.Get("name").s, w.Get("name").s);
  }

  /** A send changes only in its key. */
  lemma RotatedSendSays(c: Crypto, oldKey: Keys, newKey: Keys, v: Json, w: Json)
    requires c.Lawful() && newKey.Usable() && SendRekeyed(c, oldKey, newKey, v, w)
    ensures v.Obj? && w.Obj? && w.fields.Keys == v.fields.Keys
    ensures forall k :: k in v.fields && k != "key" ==> w.fields[k] == v.fields[k]
    ensures "key" in v.fields && v.fields["key"].Str? && w.fields["key"].Str? && Open(c, oldKey, v.fields["key"].s).Ok?
    ensures Open(c, newKey, w.fields["key"].s) == Open(c, oldKey, v.fields["key"].s)
  {
    hide Open, LooksEncrypted;
    RekeyedString(c, oldKey, newKey, v.Get("key").s, w.Get("key").s);
  }

  /** A keyed cipher differs in its key, which opens to what it held. */
  lemma RotatedKeyHolds(c: Crypto, oldKey: Keys, newKey: Keys, userId: string, v: Json, w: Json)
    requires c.Lawful() && newKey.Usable() && CipherRekeyed(c, oldKey, newKey, userId, v, w) && v.Get("key").Str?
    ensures w.Get("key").Str? && Open(c, oldKey, v.Get("key").s).Ok?
    ensures Open(c, newKey, w.Get("key").s) == Open(c, oldKey, v.Get("key").s)
  {
    assert "key" !in REPLACED;
    hide Open, LooksEncrypted, BodyRekeyed, StringRekeyed, Annotate, REPLACED;
    var body: Json :| BodyRekeyed(c, oldKey, newKey, v, body) && w == Annotate(body, userId);
    RekeyedKey(c, oldKey, newKey, v, body);
    AnnotateSays(body, userId);
    RekeyedString(c, oldKey, newKey, v.Get("key").s, body.Get("key").s);
  }

  lemma RekeyedKey(c: Crypto, oldKey: Keys, newKey: Keys, v: Json, body: Json)
    requires newKey.Usable() && BodyRekeyed(c, oldKey, newKey, v, body) && v.Get("key").Str?
    ensures body.Obj? && body.Get("key").Str?
    ensures StringRekeyed(c, oldKey, newKey, v.Get("key").s, body.Get("key").s)
  {
  }

  /** A keyless one is as `SameAfter` says at every position, but for the three fields it gains. */
  lemma RotatedCipherHolds(
    c: Crypto, oldKey: Keys, newKey: Keys, userId: string, v: Json, w: Json, name: string, path: seq<Branch>)
    requires c.Lawful() && newKey.Usable() && CipherRekeyed(c, oldKey, newKey, userId, v, w)
    requires !v.Get("key").Str? && name !in REPLACED
    ensures SameAfter(c, oldKey, newKey, At(v, [Member(name)] + path), At(w, [Member(name)] + path))
  {
    hide Rekeyed, SameAfter, Annotate, At, FieldRekeyed;
    var body: Json :| BodyRekeyed(c, oldKey, newKey, v, body) && w == Annotate(body, userId);
    AnnotateSays(body, userId);
    RekeyedAt(c, oldKey, newKey, v, body, [Member(name)] + path);
    SameMember(body, w, name, path);
  }

  lemma SameMember(v: Json, w: Json, name: string, path: seq<Branch>)
    requires v.Obj? && w.Obj? && v.Get(name) == w.Get(name) && (name in v.fields <==> name in w.fields)
    ensures At(v, [Member(name)] + path) == At(w, [Member(name)] + path)
  {
  }

  /** The vault that can be rotated, field by field. */
  lemma VaultRotatesExactly(c: Crypto, keys: Keys, sync: Json)
    ensures VaultRotatable(c, keys, sync) <==>
              && sync.Get("profile").Get("id").Str?
              && sync.Get("profile").Get("privateKey").Str?
              && Open(c, keys, sync.Get("profile").Get("privateKey").s).Ok?
              && (match sync.Get("ciphers")
                  case Null => true
                  case Arr(items) => forall i :: 0 <= i < |items| && items[i].Get("organizationId") == Null ==>
                                                   CipherRotatable(c, keys, items[i])
                  case _ => false)
              && (match sync.Get("folders")
                  case Null => true
                  case Arr(items) => forall i :: 0 <= i < |items| ==>
                                                   && items[i].Get("name").Str?
                                                   && Open(c, keys, items[i].Get("name").s).Ok?
                  case _ => false)
              && (match sync.Get("sends")
                  case Null => true
                  case Arr(items) => forall i :: 0 <= i < |items| ==>
                                                   && items[i].Get("key").Str?
                                                   && Open(c, keys, items[i].Get("key").s).Ok?
                  case _ => false)
  {
    EachPersonal(c, keys, sync.Get("ciphers").Elements());
    EachOpens(c, keys, sync.Get("folders").Elements(), "name");
    EachOpens(c, keys, sync.Get("sends").Elements(), "key");
    hide Open, CipherRotatable, Personal;
  }

  lemma EachOpens(c: Crypto, keys: Keys, items: seq<Json>, field: string)
    ensures (forall v :: v in items ==> StrFieldOpens(c, keys, v, field)) <==>
              forall i :: 0 <= i < |items| ==> items[i].Get(field).Str? && Open(c, keys, items[i].Get(field).s).Ok?
  {
    hide Open;
    assert forall i :: 0 <= i < |items| ==> items[i] in items;
  }

  lemma EachPersonal(c: Crypto, keys: Keys, items: seq<Json>)
    ensures (forall v :: v in Personal(items) ==> CipherRotatable(c, keys, v)) <==>
              forall i :: 0 <= i < |items| && items[i].Get("organizationId") == Null ==>
                            CipherRotatable(c, keys, items[i])
  {
    PersonalHas(items);
    hide CipherRotatable, Personal;
    assert forall i :: 0 <= i < |items| ==> items[i] in items;
  }

  /**
   The cipher that can be rotated: it has an id, and a key that opens, or else no
   attachment without a key and nothing that looks encrypted and does not open.
   */
  lemma CipherRotatesExactly(c: Crypto, keys: Keys, cipher: Json)
    ensures CipherRotatable(c, keys, cipher) <==>
              && cipher.Get("id").Str?
              && (match cipher.Get("key")
                  case Str(key) => Open(c, keys, key).Ok?
                  case _ =>
                    && (match cipher.Get("attachments")
                        case Arr(items) => forall i :: 0 <= i < |items| ==> items[i].Get("key").Str?
                        case _ => true)
                    && forall path :: OpensAt(c, keys, cipher, path))
  {
    RotatableExactly(c, keys, cipher);
    hide Open, Rotatable, OpensAt;
    var attachments := cipher.Get("attachments").Elements();
    assert forall i :: 0 <= i < |attachments| ==> attachments[i] in attachments;
  }

  method RotateVault(c: Crypto, sync: Json, oldKey: Keys, newKey: Keys) returns (r: Result<RotatedVault, Error>)
    requires newKey.Usable()
    ensures r.Ok? <==> VaultRotatable(c, oldKey, sync)
    ensures r.Ok? ==> VaultRekeyed(c, oldKey, newKey, sync, r.value)
    ensures r.Ok? ==>
              match sync.Get("ciphers")
              case Arr(items) =>
                PersonalRekeyed(c, oldKey, newKey, sync.Get("profile").Get("id").s, items, r.value.ciphers)
              case _ => r.value.ciphers == []
  {
    hide Open, StringRekeyed, CipherRotatable, CiphersRekeyed, FoldersRekeyed, SendsRekeyed, Personal, PersonalRekeyed;
    var userId :- StrField(sync.Get("profile"), "id");
    var privateKey :- StrField(sync.Get("profile"), "privateKey");
    var input :- ListField(sync, "ciphers");
    var ciphers :- RotateCiphers(c, input, userId, oldKey, newKey);
    RekeyedPersonal(c, oldKey, newKey, userId, input, ciphers);
    input :- ListField(sync, "folders");
    var folders :- RotateFolders(c, input, oldKey, newKey);
    input :- ListField(sync, "sends");
    var sends :- RotateSends(c, input, oldKey, newKey);
    privateKey :- ReencryptStr(c, privateKey, oldKey, newKey);
    r := Ok(RotatedVault(ciphers, folders, sends, privateKey));
  }

  lemma {:induction false} PersonalPrefix(ciphers: seq<Json>, n: nat)
    requires n <= |ciphers|
    ensures Personal(ciphers[..n]) <= Personal(ciphers)
    decreases |ciphers| - n
  {
    if n == |ciphers| {
      assert ciphers[..n] == ciphers;
    } else {
      PersonalPrefix(ciphers, n + 1);
      assert ciphers[..n + 1][..n] == ciphers[..n];
    }
  }

  /** Every attachment with an id is listed under it with its name and key; of two with one id the later counts. */
  lemma {:induction false} Attachments2Has(items: seq<Json>, i: nat, id: string)
    requires i < |items| && items[i].Get("id") == Str(id)
    requires forall j :: i < j < |items| ==> items[j].Get("id") != Str(id)
    ensures id in Attachments2(items)
    ensures Attachments2(items)[id] == Obj(map["fileName" := items[i].Get("fileName"), "key" := items[i].Get("key")])
  {
    if i < |items| - 1 {
      Attachments2Has(items[..|items| - 1], i, id);
    }
  }

  /** Nothing else is listed. */
  lemma {:induction false} Attachments2Only(items: seq<Json>, id: string)
    requires id in Attachments2(items)
    ensures exists i :: 0 <= i < |items| && items[i].Get("id") == Str(id)
  {
    var last := items[|items| - 1];
    if last.Get("id") != Str(id) {
      Attachments2Only(items[..|items| - 1], id);
      var i :| 0 <= i < |items| - 1 && items[..|items| - 1][i].Get("id") == Str(id);
      assert items[i].Get("id") == Str(id);
    }
  }

  lemma AnnotateSays(body: Json, userId: string)
    requires body.Obj?
    ensures var w := Annotate(body, userId);
            && w.Get("encryptedFor") == Str(userId)
            && w.Get("attachments2") == Obj(Attachments2(w.Get("attachments").Elements()))
            && w.Get("lastKnownRevisionDate") == w.Get("revisionDate")
            && w.Obj? && w.fields.Keys == body.fields.Keys + REPLACED
            && forall k :: k !in REPLACED ==> w.Get(k) == body.Get(k)
  {
    hide Attachments2;
    assert "attachments" !in REPLACED && "revisionDate" !in REPLACED;
  }

  lemma BodyKeeps(c: Crypto, oldKey: Keys, newKey: Keys, v: Json, body: Json)
    requires newKey.Usable() && BodyRekeyed(c, oldKey, newKey, v, body)
    ensures body.Obj? && v.Obj? && body.fields.Keys == v.fields.Keys
    ensures v.Get("key").Str? ==> forall k :: k != "key" ==> body.Get(k) == v.Get(k)
  {
    hide StringRekeyed;
  }

  /**
   What a rotated cipher says of itself: the attachments it now has, the user it is
   for, the revision it started from; and a keyed cipher differs in nothing else but its key.
   */
  lemma RotatedCipherSays(c: Crypto, oldKey: Keys, newKey: Keys, userId: string, v: Json, w: Json)
    requires newKey.Usable() && CipherRekeyed(c, oldKey, newKey, userId, v, w)
    ensures w.Get("encryptedFor") == Str(userId)
    ensures w.Get("attachments2") == Obj(Attachments2(w.Get("attachments").Elements()))
    ensures w.Get("lastKnownRevisionDate") == w.Get("revisionDate")
    ensures v.Get("key").Str? ==> forall k :: k != "key" && k !in REPLACED ==> w.Get(k) == v.Get(k)
    ensures v.Obj? && w.Obj? && w.fields.Keys == v.fields.Keys + REPLACED
  {
    var body: Json :| BodyRekeyed(c, oldKey, newKey, v, body) && w == Annotate(body, userId);
    hide BodyRekeyed, Annotate, Attachments2;
    BodyKeeps(c, oldKey, newKey, v, body);
    AnnotateSays(body, userId);
  }
}
