/**
 What a vault means to its owner, and that rotating the key does not change it
 (the promise of `src/rotate.rs`).
 */
module VaultMeaning {
  import opened Wrappers
  import opened Bytes
  import opened CipherStrings
  import opened JsonValues
  import opened Rotate
  import opened Vault

  /**
   A keyed item keeps its own key and everything encrypted under that key; a
   keyless one is read with the user key throughout.
   */
  datatype CipherMeaning =
    | Keyed(itemKey: Result<seq<byte>, Error>, rest: map<string, Json>)
    | Keyless(members: map<string, View>)

  datatype Meaning = Meaning(
    ciphers: seq<CipherMeaning>,
    folders: seq<(Json, Result<seq<byte>, Error>)>,
    sends: seq<(map<string, Json>, Result<seq<byte>, Error>)>,
    privateKey: Result<seq<byte>, Error>)

  function OpenField(c: Crypto, keys: Keys, v: Json, field: string): Result<seq<byte>, Error> {
    if v.Get(field).Str? then Open(c, keys, v.Get(field).s) else Err(KeyRotation)
  }

  function FieldsOf(v: Json): map<string, Json> {
    if v.Obj? then v.fields else map[]
  }

  /** The fields that a rotation overwrites are no part of what an item means. */
  function CipherMeaningOf(c: Crypto, keys: Keys, v: Json): CipherMeaning {
    var fields := FieldsOf(v) - REPLACED;
    if v.Get("key").Str? then Keyed(OpenField(c, keys, v, "key"), fields - {"key"})
    else Keyless(map k | k in fields :: ViewOf(c, keys, fields[k]))
  }

  function FolderMeaningOf(c: Crypto, keys: Keys, v: Json): (Json, Result<seq<byte>, Error>) {
    (v.Get("id"), OpenField(c, keys, v, "name"))
  }

  function SendMeaningOf(c: Crypto, keys: Keys, v: Json): (map<string, Json>, Result<seq<byte>, Error>) {
    (FieldsOf(v) - {"key"}, OpenField(c, keys, v, "key"))
  }

  function CipherMeanings(c: Crypto, keys: Keys, vs: seq<Json>): seq<CipherMeaning> {
    seq(|vs|, i requires 0 <= i < |vs| => CipherMeaningOf(c, keys, vs[i]))
  }

  function FolderMeanings(c: Crypto, keys: Keys, vs: seq<Json>): seq<(Json, Result<seq<byte>, Error>)> {
    seq(|vs|, i requires 0 <= i < |vs| => FolderMeaningOf(c, keys, vs[i]))
  }

  function SendMeanings(c: Crypto, keys: Keys, vs: seq<Json>): seq<(map<string, Json>, Result<seq<byte>, Error>)> {
    seq(|vs|, i requires 0 <= i < |vs| => SendMeaningOf(c, keys, vs[i]))
  }

  function MeaningOf(
    c: Crypto, keys: Keys, ciphers: seq<Json>, folders: seq<Json>, sends: seq<Json>, privateKey: string): Meaning
  {
    Meaning(
      CipherMeanings(c, keys, ciphers),
      FolderMeanings(c, keys, folders),
      SendMeanings(c, keys, sends),
      Open(c, keys, privateKey))
  }

  function SyncMeaning(c: Crypto, keys: Keys, sync: Json): Meaning
    requires sync.Get("profile").Get("privateKey").Str?
  {
    MeaningOf(c, keys, Personal(sync.Get("ciphers").Elements()), sync.Get("folders").Elements(),
              sync.Get("sends").Elements(), sync.Get("profile").Get("privateKey").s)
  }

  function RotatedMeaning(c: Crypto, keys: Keys, vault: RotatedVault): Meaning {
    MeaningOf(c, keys, vault.ciphers, vault.folders, vault.sends, vault.privateKey)
  }

  lemma FieldSameMeaning(c: Crypto, oldKey: Keys, newKey: Keys, v: Json, w: Json, field: string)
    requires c.Lawful() && newKey.Usable() && FieldRekeyed(c, oldKey, newKey, v, w, field)
    ensures OpenField(c, newKey, w, field) == OpenField(c, oldKey, v, field)
  {
    RekeyedString(c, oldKey, newKey, v.Get(field).s, w.Get(field).s);
  }

  lemma BodySameMeaning(c: Crypto, oldKey: Keys, newKey: Keys, v: Json, w: Json)
    requires c.Lawful() && newKey.Usable() && BodyRekeyed(c, oldKey, newKey, v, w)
    ensures CipherMeaningOf(c, newKey, w) == CipherMeaningOf(c, oldKey, v)
  {
    if v.Get("key").Str? {
      FieldSameMeaning(c, oldKey, newKey, v, w, "key");
      assert w.fields - REPLACED - {"key"} == v.fields - REPLACED - {"key"};
    } else {
      KindKept(c, oldKey, newKey, v, w, "key");
      RekeyedSameView(c, oldKey, newKey, v, w);
      var views := ViewOf(c, oldKey, v).members;
      assert views == ViewOf(c, newKey, w).members;
      forall k | k in v.fields - REPLACED
        ensures k in w.fields - REPLACED
        ensures ViewOf(c, newKey, w.fields[k]) == ViewOf(c, oldKey, v.fields[k])
      {
        assert views[k] == ViewOf(c, oldKey, v.fields[k]);
      }
    }
  }

  /** Re-keying never makes a string of anything else, nor anything else of a string or a null. */
  lemma KindKept(c: Crypto, oldKey: Keys, newKey: Keys, v: Json, w: Json, field: string)
    requires newKey.Usable() && Rekeyed(c, oldKey, newKey, v, w) && v.Obj?
    ensures w.Get(field).Str? <==> v.Get(field).Str?
    ensures w.Get(field).Null? <==> v.Get(field).Null?
    ensures field in v.fields ==> Rekeyed(c, oldKey, newKey, v.Get(field), w.Get(field))
  {
  }

  lemma AnnotateSameMeaning(c: Crypto, keys: Keys, body: Json, userId: string)
    requires body.Obj?
    ensures CipherMeaningOf(c, keys, Annotate(body, userId)) == CipherMeaningOf(c, keys, body)
  {
    assert Annotate(body, userId).fields - REPLACED == body.fields - REPLACED;
  }

  lemma CipherSameMeaning(c: Crypto, oldKey: Keys, newKey: Keys, userId: string, v: Json, w: Json)
    requires c.Lawful() && newKey.Usable() && CipherRekeyed(c, oldKey, newKey, userId, v, w)
    ensures CipherMeaningOf(c, newKey, w) == CipherMeaningOf(c, oldKey, v)
  {
    var body: Json :| BodyRekeyed(c, oldKey, newKey, v, body) && w == Annotate(body, userId);
    BodySameMeaning(c, oldKey, newKey, v, body);
    AnnotateSameMeaning(c, newKey, body, userId);
  }

  lemma FolderSameMeaning(c: Crypto, oldKey: Keys, newKey: Keys, v: Json, w: Json)
    requires c.Lawful() && newKey.Usable() && FolderRekeyed(c, oldKey, newKey, v, w)
    ensures FolderMeaningOf(c, newKey, w) == FolderMeaningOf(c, oldKey, v)
    ensures StrFieldOpens(c, newKey, w, "name")
  {
    FieldSameMeaning(c, oldKey, newKey, v, w, "name");
  }

  lemma SendSameMeaning(c: Crypto, oldKey: Keys, newKey: Keys, v: Json, w: Json)
    requires c.Lawful() && newKey.Usable() && SendRekeyed(c, oldKey, newKey, v, w)
    ensures SendMeaningOf(c, newKey, w) == SendMeaningOf(c, oldKey, v)
    ensures StrFieldOpens(c, newKey, w, "key")
  {
    FieldSameMeaning(c, oldKey, newKey, v, w, "key");
    assert FieldsOf(w) - {"key"} == FieldsOf(v) - {"key"};
  }

  lemma CiphersSameMeaning(c: Crypto, oldKey: Keys, newKey: Keys, userId: string, vs: seq<Json>, ws: seq<Json>)
    requires c.Lawful() && newKey.Usable() && CiphersRekeyed(c, oldKey, newKey, userId, vs, ws)
    ensures CipherMeanings(c, newKey, ws) == CipherMeanings(c, oldKey, vs)
  {
    forall i | 0 <= i < |vs| ensures CipherMeaningOf(c, newKey, ws[i]) == CipherMeaningOf(c, oldKey, vs[i]) {
      CipherSameMeaning(c, oldKey, newKey, userId, vs[i], ws[i]);
    }
  }

  lemma FoldersSameMeaning(c: Crypto, oldKey: Keys, newKey: Keys, vs: seq<Json>, ws: seq<Json>)
    requires c.Lawful() && newKey.Usable() && FoldersRekeyed(c, oldKey, newKey, vs, ws)
    ensures FolderMeanings(c, newKey, ws) == FolderMeanings(c, oldKey, vs)
    ensures forall w :: w in ws ==> StrFieldOpens(c, newKey, w, "name")
  {
    forall i | 0 <= i < |vs|
      ensures FolderMeaningOf(c, newKey, ws[i]) == FolderMeaningOf(c, oldKey, vs[i])
      ensures StrFieldOpens(c, newKey, ws[i], "name")
    {
      FolderSameMeaning(c, oldKey, newKey, vs[i], ws[i]);
    }
  }

  lemma SendsSameMeaning(c: Crypto, oldKey: Keys, newKey: Keys, vs: seq<Json>, ws: seq<Json>)
    requires c.Lawful() && newKey.Usable() && SendsRekeyed(c, oldKey, newKey, vs, ws)
    ensures SendMeanings(c, newKey, ws) == SendMeanings(c, oldKey, vs)
    ensures forall w :: w in ws ==> StrFieldOpens(c, newKey, w, "key")
  {
    forall i | 0 <= i < |vs|
      ensures SendMeaningOf(c, newKey, ws[i]) == SendMeaningOf(c, oldKey, vs[i])
      ensures StrFieldOpens(c, newKey, ws[i], "key")
    {
      SendSameMeaning(c, oldKey, newKey, vs[i], ws[i]);
    }
  }

  /** The main result: under the new key the rotated vault means what the old vault means under the old key. */
  lemma RotationKeepsMeaning(c: Crypto, oldKey: Keys, newKey: Keys, sync: Json, vault: RotatedVault)
    requires c.Lawful() && newKey.Usable() && VaultRekeyed(c, oldKey, newKey, sync, vault)
    ensures RotatedMeaning(c, newKey, vault) == SyncMeaning(c, oldKey, sync)
  {
    CiphersSameMeaning(
      c, oldKey, newKey, sync.Get("profile").Get("id").s, Personal(sync.Get("ciphers").Elements()), vault.ciphers);
    FoldersSameMeaning(c, oldKey, newKey, sync.Get("folders").Elements(), vault.folders);
    SendsSameMeaning(c, oldKey, newKey, sync.Get("sends").Elements(), vault.sends);
    RekeyedString(c, oldKey, newKey, sync.Get("profile").Get("privateKey").s, vault.privateKey);
  }

  // ---- rotating again ------------------------------------------------------------------

  /** Whenever a rotation succeeds, the vault means what it meant, now under the new key. */
  method RotateKeepingMeaning(c: Crypto, sync: Json, oldKey: Keys, newKey: Keys)
    returns (r: Result<RotatedVault, Error>)
    requires c.Lawful() && newKey.Usable()
    ensures r.Ok? <==> VaultRotatable(c, oldKey, sync)
    ensures r.Ok? ==> RotatedMeaning(c, newKey, r.value) == SyncMeaning(c, oldKey, sync)
  {
    r := RotateVault(c, sync, oldKey, newKey);
    if r.Ok? {
      RotationKeepsMeaning(c, oldKey, newKey, sync, r.value);
    }
  }

  /** The answer the server gives once it has stored a rotated vault. */
  function Resync(vault: RotatedVault, userId: string): Json {
    Obj(map[
      "profile" := Obj(map["id" := Str(userId), "privateKey" := Str(vault.privateKey)]),
      "ciphers" := Arr(vault.ciphers),
      "folders" := Arr(vault.folders),
      "sends" := Arr(vault.sends)])
  }

  lemma ResyncFields(vault: RotatedVault, userId: string)
    ensures Resync(vault, userId).Get("profile").Get("id") == Str(userId)
    ensures Resync(vault, userId).Get("profile").Get("privateKey") == Str(vault.privateKey)
    ensures Resync(vault, userId).Get("ciphers") == Arr(vault.ciphers)
    ensures Resync(vault, userId).Get("folders") == Arr(vault.folders)
    ensures Resync(vault, userId).Get("sends") == Arr(vault.sends)
  {
    assert "id"[0] != "privateKey"[0];
  }

  lemma {:induction false} Attachments2Rotatable(c: Crypto, keys: Keys, items: seq<Json>)
    requires forall a :: a in items ==> Rotatable(c, keys, a)
    ensures Rotatable(c, keys, Obj(Attachments2(items)))
  {
    if |items| > 0 {
      Attachments2Rotatable(c, keys, items[..|items| - 1]);
      var last := items[|items| - 1];
      assert last in items;
    }
  }

  lemma AnnotateKeeps(body: Json, userId: string, field: string)
    requires body.Obj? && field !in REPLACED
    ensures Annotate(body, userId).Get(field) == body.Get(field)
  {
  }

  lemma AnnotatedTree(c: Crypto, keys: Keys, body: Json, userId: string)
    requires body.Obj? && Rotatable(c, keys, body) && Rotatable(c, keys, Str(userId))
    ensures Rotatable(c, keys, Annotate(body, userId))
  {
    hide Open;
    var attachments := body.Get("attachments").Elements();
    forall a | a in attachments ensures Rotatable(c, keys, a) {
    }
    Attachments2Rotatable(c, keys, attachments);
    assert Rotatable(c, keys, body.Get("revisionDate"));
  }

  lemma AnnotatedRotatable(c: Crypto, keys: Keys, body: Json, userId: string)
    requires body.Obj? && CipherRotatable(c, keys, body) && Rotatable(c, keys, Str(userId))
    ensures CipherRotatable(c, keys, Annotate(body, userId))
  {
    hide Open, Annotate, Rotatable;
    AnnotateKeeps(body, userId, "id");
    AnnotateKeeps(body, userId, "key");
    AnnotateKeeps(body, userId, "attachments");
    if !body.Get("key").Str? { AnnotatedTree(c, keys, body, userId); }
  }

  lemma KeyedAnnotated(c: Crypto, keys: Keys, body: Json, userId: string)
    requires body.Obj? && CipherRotatable(c, keys, body) && body.Get("key").Str?
    ensures CipherRotatable(c, keys, Annotate(body, userId))
  {
    hide Open, Annotate, Rotatable;
    AnnotateKeeps(body, userId, "id");
    AnnotateKeeps(body, userId, "key");
  }

  lemma AttachmentKeysKept(c: Crypto, oldKey: Keys, newKey: Keys, v: Json, w: Json)
    requires newKey.Usable() && Rekeyed(c, oldKey, newKey, v, w) && v.Obj? && AttachmentsHaveKeys(v)
    ensures AttachmentsHaveKeys(w)
  {
    var before, after := v.Get("attachments").Elements(), w.Get("attachments").Elements();
    assert |after| == |before|;
    forall i | 0 <= i < |after| ensures after[i].Get("key").Str? {
      assert before[i] in before;
      assert Rekeyed(c, oldKey, newKey, before[i], after[i]);
    }
  }

  lemma KeyedRotatableAgain(c: Crypto, oldKey: Keys, newKey: Keys, v: Json, w: Json)
    requires c.Lawful() && newKey.Usable() && BodyRekeyed(c, oldKey, newKey, v, w)
    requires v.Get("id").Str? && v.Get("key").Str?
    ensures CipherRotatable(c, newKey, w) && w.Get("key").Str?
  {
    FieldSameMeaning(c, oldKey, newKey, v, w, "key");
  }

  lemma KeylessRotatableAgain(c: Crypto, oldKey: Keys, newKey: Keys, v: Json, w: Json)
    requires c.Lawful() && newKey.Usable() && BodyRekeyed(c, oldKey, newKey, v, w)
    requires v.Get("id").Str? && !v.Get("key").Str? && AttachmentsHaveKeys(v)
    ensures CipherRotatable(c, newKey, w) && !w.Get("key").Str?
  {
    KindKept(c, oldKey, newKey, v, w, "id");
    KindKept(c, oldKey, newKey, v, w, "key");
    RekeyedRotatable(c, oldKey, newKey, v, w);
    AttachmentKeysKept(c, oldKey, newKey, v, w);
  }

  /** A rotated cipher belongs to an organization exactly when the cipher did. */
  lemma OrganizationKept(c: Crypto, oldKey: Keys, newKey: Keys, userId: string, v: Json, w: Json)
    requires newKey.Usable() && CipherRekeyed(c, oldKey, newKey, userId, v, w)
    ensures w.Get("organizationId").Null? <==> v.Get("organizationId").Null?
  {
    hide StringRekeyed, Annotate, Rekeyed;
    var body: Json :| BodyRekeyed(c, oldKey, newKey, v, body) && w == Annotate(body, userId);
    AnnotateKeeps(body, userId, "organizationId");
    if !v.Get("key").Str? { KindKept(c, oldKey, newKey, v, body, "organizationId"); }
  }

  lemma RotatedArePersonal(c: Crypto, oldKey: Keys, newKey: Keys, sync: Json, vault: RotatedVault)
    requires newKey.Usable() && VaultRekeyed(c, oldKey, newKey, sync, vault)
    ensures forall w :: w in vault.ciphers ==> w.Get("organizationId").Null?
  {
    hide CipherRekeyed, Personal, FoldersRekeyed, SendsRekeyed, StringRekeyed;
    var ciphers, userId := Personal(sync.Get("ciphers").Elements()), sync.Get("profile").Get("id").s;
    PersonalHasNoOrganization(sync.Get("ciphers").Elements());
    forall w | w in vault.ciphers ensures w.Get("organizationId").Null? {
      var i :| 0 <= i < |vault.ciphers| && vault.ciphers[i] == w;
      assert ciphers[i] in ciphers;
      OrganizationKept(c, oldKey, newKey, userId, ciphers[i], w);
    }
  }

  /** A tree that holds a string which looks encrypted but does not open cannot be re-keyed. */
  lemma ForeignStringRefused(c: Crypto, keys: Keys, body: Json, userId: string)
    requires body.Obj? && !body.Get("key").Str? && !Rotatable(c, keys, Str(userId))
    ensures !CipherRotatable(c, keys, Annotate(body, userId))
  {
    hide Attachments2;
    AnnotateSays(body, userId);
    hide Annotate;
    var w := Annotate(body, userId);
    assert "encryptedFor" in w.fields && w.fields["encryptedFor"] == Str(userId);
    assert w.Get("key") == body.Get("key");
  }

  /** What can stop a second rotation: a user id, written into a keyless cipher, that is taken for a cipherstring. */
  lemma CipherRotatableAgain(c: Crypto, oldKey: Keys, newKey: Keys, userId: string, v: Json, w: Json)
    requires c.Lawful() && newKey.Usable()
    requires CipherRotatable(c, oldKey, v) && CipherRekeyed(c, oldKey, newKey, userId, v, w)
    ensures CipherRotatable(c, newKey, w) <==> v.Get("key").Str? || Rotatable(c, newKey, Str(userId))
  {
    hide Open, StringRekeyed, Annotate, Rotatable, Rekeyed;
    var body: Json :| BodyRekeyed(c, oldKey, newKey, v, body) && w == Annotate(body, userId);
    if v.Get("key").Str? {
      KeyedRotatableAgain(c, oldKey, newKey, v, body);
      KeyedAnnotated(c, newKey, body, userId);
    } else {
      KeylessRotatableAgain(c, oldKey, newKey, v, body);
      if Rotatable(c, newKey, Str(userId)) {
        AnnotatedRotatable(c, newKey, body, userId);
      } else {
        ForeignStringRefused(c, newKey, body, userId);
      }
    }
  }

  /** Whether every one of the ciphers can be rotated again. */
  lemma CiphersRotatableAgain(c: Crypto, oldKey: Keys, newKey: Keys, userId: string, vs: seq<Json>, ws: seq<Json>)
    requires c.Lawful() && newKey.Usable()
    requires forall v :: v in vs ==> CipherRotatable(c, oldKey, v)
    requires CiphersRekeyed(c, oldKey, newKey, userId, vs, ws)
    ensures (forall w :: w in ws ==> CipherRotatable(c, newKey, w))
       <==> Rotatable(c, newKey, Str(userId)) || forall v :: v in vs ==> v.Get("key").Str?
  {
    hide CipherRotatable, CipherRekeyed, Rotatable;
    forall i | 0 <= i < |vs|
      ensures CipherRotatable(c, newKey, ws[i]) <==> vs[i].Get("key").Str? || Rotatable(c, newKey, Str(userId))
    {
      assert vs[i] in vs;
      CipherRotatableAgain(c, oldKey, newKey, userId, vs[i], ws[i]);
    }
    if v :| v in vs && !v.Get("key").Str? {
      var i :| 0 <= i < |vs| && vs[i] == v;
      assert ws[i] in ws;
    }
  }

  lemma {:induction false} AllPersonal(ciphers: seq<Json>)
    requires forall v :: v in ciphers ==> v.Get("organizationId").Null?
    ensures Personal(ciphers) == ciphers
  {
    if |ciphers| > 0 {
      AllPersonal(ciphers[..|ciphers| - 1]);
    }
  }

  lemma {:induction false} PersonalHasNoOrganization(ciphers: seq<Json>)
    ensures forall v :: v in Personal(ciphers) ==> v.Get("organizationId").Null?
  {
    if |ciphers| > 0 {
      PersonalHasNoOrganization(ciphers[..|ciphers| - 1]);
    }
  }

  lemma ResyncSameMeaning(c: Crypto, keys: Keys, vault: RotatedVault, userId: string)
    requires forall v :: v in vault.ciphers ==> v.Get("organizationId").Null?
    ensures Resync(vault, userId).Get("profile").Get("privateKey").Str?
    ensures SyncMeaning(c, keys, Resync(vault, userId)) == RotatedMeaning(c, keys, vault)
  {
    hide Resync, MeaningOf;
    ResyncFields(vault, userId);
    AllPersonal(vault.ciphers);
  }

  /** What the server answers after a rotation means what the rotated vault means. */
  lemma ResyncedMeaning(c: Crypto, oldKey: Keys, newKey: Keys, sync: Json, vault: RotatedVault, userId: string)
    requires newKey.Usable() && VaultRekeyed(c, oldKey, newKey, sync, vault)
    ensures Resync(vault, userId).Get("profile").Get("privateKey").Str?
    ensures SyncMeaning(c, newKey, Resync(vault, userId)) == RotatedMeaning(c, newKey, vault)
  {
    hide VaultRekeyed, SyncMeaning, RotatedMeaning, Resync;
    RotatedArePersonal(c, oldKey, newKey, sync, vault);
    ResyncSameMeaning(c, newKey, vault, userId);
  }

  /** The guard of a second rotation: the user id is not taken for a cipherstring, or there is no keyless cipher. */
  predicate RotatesAgain(c: Crypto, newKey: Keys, sync: Json, userId: string) {
    Rotatable(c, newKey, Str(userId)) || forall v :: v in Personal(sync.Get("ciphers").Elements()) ==> v.Get("key").Str?
  }

  /** A rotated vault can be rotated again exactly under that guard: nothing was left under the old key. */
  lemma RotatedIsRotatable(c: Crypto, oldKey: Keys, newKey: Keys, sync: Json, vault: RotatedVault, userId: string)
    requires c.Lawful() && newKey.Usable() && sync.Get("profile").Get("id") == Str(userId)
    requires VaultRotatable(c, oldKey, sync) && VaultRekeyed(c, oldKey, newKey, sync, vault)
    ensures VaultRotatable(c, newKey, Resync(vault, userId)) <==> RotatesAgain(c, newKey, sync, userId)
  {
    hide Open, CipherRekeyed, CipherRotatable, FolderRekeyed, SendRekeyed, StrFieldOpens, Resync, Personal, Rotatable;
    var ciphers := Personal(sync.Get("ciphers").Elements());
    CiphersRotatableAgain(c, oldKey, newKey, userId, ciphers, vault.ciphers);
    RotatedArePersonal(c, oldKey, newKey, sync, vault);
    AllPersonal(vault.ciphers);
    FoldersSameMeaning(c, oldKey, newKey, sync.Get("folders").Elements(), vault.folders);
    SendsSameMeaning(c, oldKey, newKey, sync.Get("sends").Elements(), vault.sends);
    ResyncFields(vault, userId);
    PrivateKeyOpens(c, oldKey, newKey, sync.Get("profile"), vault.privateKey, Resync(vault, userId).Get("profile"));
  }

  lemma PrivateKeyOpens(c: Crypto, oldKey: Keys, newKey: Keys, v: Json, t: string, w: Json)
    requires c.Lawful() && newKey.Usable() && v.Get("privateKey").Str? && w.Get("privateKey") == Str(t)
    requires StringRekeyed(c, oldKey, newKey, v.Get("privateKey").s, t)
    ensures StrFieldOpens(c, newKey, w, "privateKey")
  {
    RekeyedString(c, oldKey, newKey, v.Get("privateKey").s, t);
  }

  /** Rotating by way of a middle key ends in the same meaning as rotating directly. */
  lemma RotationsCompose(
    c: Crypto, oldKey: Keys, midKey: Keys, newKey: Keys, sync: Json, userId: string,
    first: RotatedVault, second: RotatedVault, direct: RotatedVault)
    requires c.Lawful() && midKey.Usable() && newKey.Usable()
    requires VaultRekeyed(c, oldKey, midKey, sync, first)
    requires VaultRekeyed(c, midKey, newKey, Resync(first, userId), second)
    requires VaultRekeyed(c, oldKey, newKey, sync, direct)
    ensures RotatedMeaning(c, newKey, second) == RotatedMeaning(c, newKey, direct)
  {
    hide VaultRekeyed, SyncMeaning, RotatedMeaning, Resync;
    ResyncedMeaning(c, oldKey, midKey, sync, first, userId);
    RotationKeepsMeaning(c, oldKey, midKey, sync, first);
    RotationKeepsMeaning(c, midKey, newKey, Resync(first, userId), second);
    RotationKeepsMeaning(c, oldKey, newKey, sync, direct);
  }

  /** After a first rotation a second one succeeds exactly under the guard, and then keeps the original meaning. */
  method RotateTwice(c: Crypto, sync: Json, oldKey: Keys, midKey: Keys, newKey: Keys)
    returns (first: Result<RotatedVault, Error>, second: Result<RotatedVault, Error>)
    requires c.Lawful() && midKey.Usable() && newKey.Usable()
    ensures first.Ok? <==> VaultRotatable(c, oldKey, sync)
    ensures first.Ok? ==> (second.Ok? <==> RotatesAgain(c, midKey, sync, sync.Get("profile").Get("id").s))
    ensures first.Ok? && second.Ok? ==> RotatedMeaning(c, newKey, second.value) == SyncMeaning(c, oldKey, sync)
  {
    hide VaultRekeyed, SyncMeaning, RotatedMeaning, Resync, RotatesAgain;
    first := RotateVault(c, sync, oldKey, midKey);
    second := first;
    if first.Ok? {
      var userId := sync.Get("profile").Get("id").s;
      RotatedIsRotatable(c, oldKey, midKey, sync, first.value, userId);
      ResyncedMeaning(c, oldKey, midKey, sync, first.value, userId);
      RotationKeepsMeaning(c, oldKey, midKey, sync, first.value);
      second := RotateKeepingMeaning(c, Resync(first.value, userId), midKey, newKey);
    }
  }

  const STRANGE_ID := "2.x|y"

  /** A vault of one keyless cipher whose owner has that id. */
  function StrangeVault(privateKey: string): Json {
    Obj(map[
      "profile" := Obj(map["id" := Str(STRANGE_ID), "privateKey" := Str(privateKey)]),
      "ciphers" := Arr([Obj(map["id" := Str("a")])])])
  }

  lemma StrangeIdLooksEncrypted()
    ensures Split(STRANGE_ID, '.') == ["2", "x|y"] && LooksEncrypted(STRANGE_ID)
  {
    SplitInTwo("2", "x|y", '.');
    assert STRANGE_ID == "2" + ['.'] + "x|y";
    hide Split;
    assert Split(STRANGE_ID, '.')[1..] == ["x|y"];
    assert Join(["x|y"], '.') == "x|y" && "x|y"[1] == '|';
  }

  lemma StrangeIdIsRefused(c: Crypto, keys: Keys)
    ensures !Rotatable(c, keys, Str(STRANGE_ID))
  {
    StrangeIdLooksEncrypted();
    SplitInTwo("x", "y", '|');
    assert "x|y" == "x" + ['|'] + "y";
    hide Split, LooksEncrypted, DecryptSymmetric;
    assert Parse(STRANGE_ID) == ParseTyped("2", "x|y");
  }

  /** The guard is needed: this vault rotates, and then never again. */
  lemma StrangeIdRotatesOnce(c: Crypto, oldKey: Keys, newKey: Keys, iv: Iv, vault: RotatedVault)
    requires c.Lawful() && oldKey.Usable() && newKey.Usable()
    ensures var sync := StrangeVault(Print(Seal(c, oldKey, iv, [])));
            && VaultRotatable(c, oldKey, sync)
            && (VaultRekeyed(c, oldKey, newKey, sync, vault) ==>
                  !VaultRotatable(c, newKey, Resync(vault, STRANGE_ID)))
  {
    var text := Print(Seal(c, oldKey, iv, []));
    var sync := StrangeVault(text);
    StrangeVaultRotatable(c, oldKey, iv);
    StrangeVaultGuarded(c, newKey, text);
    StrangeCipher(text);
    hide VaultRotatable, VaultRekeyed, Resync, Print, Seal, RotatesAgain, StrangeVault;
    if VaultRekeyed(c, oldKey, newKey, sync, vault) {
      RotatedIsRotatable(c, oldKey, newKey, sync, vault, STRANGE_ID);
    }
  }

  lemma StrangeVaultGuarded(c: Crypto, keys: Keys, text: string)
    ensures !RotatesAgain(c, keys, StrangeVault(text), STRANGE_ID)
  {
    StrangeIdIsRefused(c, keys);
    StrangeCipher(text);
    hide StrangeVault, Rotatable, Personal;
    var cipher := Obj(map["id" := Str("a")]);
    assert cipher in [cipher] && !cipher.Get("key").Str?;
  }

  lemma StrangeCipher(text: string)
    ensures StrangeVault(text).Get("profile").Get("id") == Str(STRANGE_ID)
    ensures StrangeVault(text).Get("profile").Get("privateKey") == Str(text)
    ensures Personal(StrangeVault(text).Get("ciphers").Elements()) == [Obj(map["id" := Str("a")])]
    ensures StrangeVault(text).Get("folders").Null? && StrangeVault(text).Get("sends").Null?
  {
    var cipher := Obj(map["id" := Str("a")]);
    assert [cipher][..0] == [];
    assert "id"[0] != "privateKey"[0] && "id" != "organizationId";
  }

  lemma StrangeVaultRotatable(c: Crypto, oldKey: Keys, iv: Iv)
    requires c.Lawful() && oldKey.Usable()
    ensures VaultRotatable(c, oldKey, StrangeVault(Print(Seal(c, oldKey, iv, []))))
  {
    var text := Print(Seal(c, oldKey, iv, []));
    StrangeCipher(text);
    SealedLooksEncrypted(c, oldKey, iv, []);
    ParsePrint(Seal(c, oldKey, iv, []));
    OpenSealed(c, oldKey, iv, []);
    assert Open(c, oldKey, text) == Ok([]);
    PlainCipherRotatable(c, oldKey);
    hide Open, Print, CipherRotatable, Personal;
  }

  lemma PlainCipherRotatable(c: Crypto, keys: Keys)
    ensures CipherRotatable(c, keys, Obj(map["id" := Str("a")]))
  {
    SplitWithout("a", '.');
    assert !LooksEncrypted("a");
    assert "id" != "key" && "id" != "attachments";
  }
}
