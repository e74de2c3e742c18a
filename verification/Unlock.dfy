/**
 Unlocking an account (`unlock` and `decrypt_org_keys` in `src/actions.rs`), and
 that it recovers the same secrets after a key rotation. The key derivation from
 the master password is a parameter: its result is `master`.
 */
module Unlock {
  import opened Wrappers
  import opened Bytes
  import opened CipherStrings
  import opened Rotate
  import Padding

  /** The bytes a locked decryption leaves in its buffer, padding included. */
  function OpenLocked(c: Crypto, keys: Keys, text: string): Result<seq<byte>, Error> {
    var cs :- Parse(text);
    DecryptLockedSymmetric(c, keys, cs)
  }

  function OpenOrgKey(c: Crypto, privateKey: seq<byte>, text: string): Result<seq<byte>, Error> {
    var cs :- Parse(text);
    if cs.Symmetric? then Err(InvalidCipherString)
    else
      match Padding.Pkcs7Unpad(privateKey)
      case None => Err(BadPadding)
      case Some(der) =>
        match c.rsaDecrypt(der, cs.ciphertext)
        case None => Err(Rsa)
        case Some(key) => if |key| > CAPACITY then Err(Panic) else Ok(key)
  }

  predicate OrgKeysOpen(c: Crypto, privateKey: seq<byte>, protectedKeys: map<string, string>) {
    forall id :: id in protectedKeys ==> OpenOrgKey(c, privateKey, protectedKeys[id]).Ok?
  }

  function OrgKeys(c: Crypto, privateKey: seq<byte>, protectedKeys: map<string, string>): map<string, Keys>
    requires OrgKeysOpen(c, privateKey, protectedKeys)
  {
    map id | id in protectedKeys :: Keys(OpenOrgKey(c, privateKey, protectedKeys[id]).value)
  }

  method DecryptOrgKeys(c: Crypto, privateKey: seq<byte>, protectedKeys: map<string, string>)
    returns (r: Result<map<string, Keys>, Error>)
    ensures r.Ok? <==> OrgKeysOpen(c, privateKey, protectedKeys)
    ensures r.Ok? ==> r.value == OrgKeys(c, privateKey, protectedKeys)
    ensures r != Err(IncorrectPassword)
  {
    var orgKeys: map<string, Keys> := map[];
    var todo := protectedKeys.Keys;
    while todo != {}
      invariant todo <= protectedKeys.Keys && orgKeys.Keys == protectedKeys.Keys - todo
      invariant forall id :: id in orgKeys ==> OpenOrgKey(c, privateKey, protectedKeys[id]) == Ok(orgKeys[id].data)
      decreases |todo|
    {
      var id :| id in todo;
      var key :- OpenOrgKey(c, privateKey, protectedKeys[id]);
      orgKeys := orgKeys[id := Keys(key)];
      todo := todo - {id};
    }
    r := Ok(orgKeys);
  }

  datatype Secrets = Secrets(key: Keys, orgKeys: map<string, Keys>, privateKey: seq<byte>)

  /** What an unlock yields, when every step of it decrypts. */
  function Recovered(
    c: Crypto, master: Keys, protectedKey: string, protectedPrivateKey: string, protectedOrgKeys: map<string, string>)
    : Option<Secrets>
  {
    match OpenLocked(c, master, protectedKey)
    case Err(_) => None
    case Ok(key) =>
      match OpenLocked(c, Keys(key), protectedPrivateKey)
      case Err(_) => None
      case Ok(privateKey) =>
        if OrgKeysOpen(c, privateKey, protectedOrgKeys)
        then Some(Secrets(Keys(key), OrgKeys(c, privateKey, protectedOrgKeys), privateKey))
        else None
  }

  /** The text is a cipherstring that fits the buffer and whose MAC is not the one under these keys. */
  ghost predicate HasWrongMac(c: Crypto, keys: Keys, text: string) {
    exists iv, ciphertext, mac ::
      && text == Print(Symmetric(iv, ciphertext, Some(mac)))
      && keys.Usable() && |ciphertext| <= CAPACITY && mac != MacOf(c, keys, iv, ciphertext)
  }

  /** A locked decryption is rejected for its MAC exactly then. */
  lemma WrongMacExactly(c: Crypto, keys: Keys, text: string)
    ensures OpenLocked(c, keys, text) == Err(InvalidMac) <==> HasWrongMac(c, keys, text)
  {
    if OpenLocked(c, keys, text) == Err(InvalidMac) {
      var cs := Parse(text).value;
      ParsesExactly(text, cs);
      DecryptsLockedExactly(c, keys, cs.iv, cs.ciphertext, cs.mac, []);
      assert text == Print(Symmetric(cs.iv, cs.ciphertext, Some(cs.mac.value)));
    }
    if HasWrongMac(c, keys, text) {
      var iv, ciphertext, mac :|
        && text == Print(Symmetric(iv, ciphertext, Some(mac)))
        && keys.Usable() && |ciphertext| <= CAPACITY && mac != MacOf(c, keys, iv, ciphertext);
      ParsePrint(Symmetric(iv, ciphertext, Some(mac)));
      DecryptsLockedExactly(c, keys, iv, ciphertext, Some(mac), []);
    }
  }

  /** What an unlock recovers: the user key under the master key, the private key under that, the rest under it. */
  lemma RecoversExactly(
    c: Crypto, master: Keys, protectedKey: string, protectedPrivateKey: string, protectedOrgKeys: map<string, string>,
    s: Secrets)
    ensures Recovered(c, master, protectedKey, protectedPrivateKey, protectedOrgKeys) == Some(s) <==>
              && OpenLocked(c, master, protectedKey) == Ok(s.key.data)
              && OpenLocked(c, s.key, protectedPrivateKey) == Ok(s.privateKey)
              && s.orgKeys.Keys == protectedOrgKeys.Keys
              && forall id :: id in protectedOrgKeys ==>
                                OpenOrgKey(c, s.privateKey, protectedOrgKeys[id]) == Ok(s.orgKeys[id].data)
  {
    hide OpenLocked, OpenOrgKey;
    if OpenLocked(c, master, protectedKey) == Ok(s.key.data)
       && OpenLocked(c, s.key, protectedPrivateKey) == Ok(s.privateKey)
       && OrgKeysOpen(c, s.privateKey, protectedOrgKeys) && s.orgKeys.Keys == protectedOrgKeys.Keys
    {
      assert s.key == Keys(s.key.data);
      var orgKeys := OrgKeys(c, s.privateKey, protectedOrgKeys);
      if forall id :: id in protectedOrgKeys ==>
                        OpenOrgKey(c, s.privateKey, protectedOrgKeys[id]) == Ok(s.orgKeys[id].data)
      {
        assert forall id :: id in protectedOrgKeys ==> orgKeys[id] == s.orgKeys[id];
        assert orgKeys == s.orgKeys;
      }
    }
  }

  /** An organization key is what RSA gives for the ciphertext under the private key with its padding taken off. */
  lemma OrgKeyExactly(c: Crypto, privateKey: seq<byte>, text: string, key: seq<byte>)
    ensures OpenOrgKey(c, privateKey, text) == Ok(key) <==>
              |key| <= CAPACITY && exists ciphertext, der, n: byte ::
                && Denotes(text, Asymmetric(ciphertext))
                && n > 0 && privateKey == der + Repeat(n, n)
                && c.rsaDecrypt(der, ciphertext) == Some(key)
  {
    if OpenOrgKey(c, privateKey, text) == Ok(key) {
      var cs := Parse(text).value;
      ParsesExactly(text, cs);
      var der := Padding.Pkcs7Unpad(privateKey).value;
      Padding.Pkcs7UnpadsExactly(privateKey, der);
      var n: byte :| n > 0 && privateKey == der + Repeat(n, n);
      assert Denotes(text, Asymmetric(cs.ciphertext)) && c.rsaDecrypt(der, cs.ciphertext) == Some(key);
    }
    if ciphertext, der, n: byte :|
      && Denotes(text, Asymmetric(ciphertext)) && n > 0 && privateKey == der + Repeat(n, n)
      && c.rsaDecrypt(der, ciphertext) == Some(key) && |key| <= CAPACITY
    {
      ParsesExactly(text, Asymmetric(ciphertext));
      Padding.Pkcs7UnpadsExactly(privateKey, der);
    }
  }

  method UnlockAccount(
    c: Crypto, master: Keys, protectedKey: string, protectedPrivateKey: string, protectedOrgKeys: map<string, string>)
    returns (r: Result<Secrets, Error>)
    ensures r.Ok? <==> Recovered(c, master, protectedKey, protectedPrivateKey, protectedOrgKeys).Some?
    ensures r.Ok? ==> Recovered(c, master, protectedKey, protectedPrivateKey, protectedOrgKeys) == Some(r.value)
    ensures r == Err(IncorrectPassword) <==> HasWrongMac(c, master, protectedKey)
  {
    WrongMacExactly(c, master, protectedKey);
    var sealed :- Parse(protectedKey);
    var blocks := DecryptLockedSymmetric(c, master, sealed);
    if blocks == Err(InvalidMac) {
      return Err(IncorrectPassword);
    }
    var key :- blocks;
    var sealedPrivate :- Parse(protectedPrivateKey);
    var privateKey :- DecryptLockedSymmetric(c, Keys(key), sealedPrivate);
    var orgKeys :- DecryptOrgKeys(c, privateKey, protectedOrgKeys);
    r := Ok(Secrets(Keys(key), orgKeys, privateKey));
  }

  // ---- after a rotation ----------------------------------------------------------------

  /** Two buffers that agree on 64 bytes are the same keys. */
  lemma KeysReadPrefix(c: Crypto, a: Keys, b: Keys, text: string)
    requires a.Usable() && b.Usable() && a.data[..64] == b.data[..64]
    ensures a.EncKey() == b.EncKey() && a.MacKey() == b.MacKey()
    ensures OpenLocked(c, a, text) == OpenLocked(c, b, text)
    ensures Open(c, a, text) == Open(c, b, text)
  {
    assert a.data[0..32] == a.data[..64][0..32] && b.data[0..32] == b.data[..64][0..32];
    assert a.data[32..64] == a.data[..64][32..64] && b.data[32..64] == b.data[..64][32..64];
  }

  /** A locked decryption leaves the padded plaintext, which rbw's own remover strips again. */
  lemma LockedIsPadded(c: Crypto, keys: Keys, text: string)
    requires Open(c, keys, text).Ok? && OpenLocked(c, keys, text).Ok?
    ensures OpenLocked(c, keys, text).value == Padding.Pad(Open(c, keys, text).value)
    ensures Padding.Pkcs7Unpad(OpenLocked(c, keys, text).value) == Some(Open(c, keys, text).value)
  {
    BlocksArePadded(c, keys, Parse(text).value);
    Padding.Pkcs7UndoesPad(Open(c, keys, text).value);
  }

  /** What was just sealed, and fits the buffer, is recovered with its padding. */
  lemma LockedOfSealed(c: Crypto, keys: Keys, iv: Iv, plaintext: seq<byte>)
    requires c.Lawful() && keys.Usable() && |Padding.Pad(plaintext)| <= CAPACITY
    ensures OpenLocked(c, keys, Print(Seal(c, keys, iv, plaintext))) == Ok(Padding.Pad(plaintext))
  {
    ParsePrint(Seal(c, keys, iv, plaintext));
    OpenSealed(c, keys, iv, plaintext);
  }

  /** Re-keying the private key keeps the very bytes an unlock puts in its buffer. */
  lemma RekeyedLocked(c: Crypto, oldKey: Keys, newKey: Keys, s: string, t: string)
    requires c.Lawful() && newKey.Usable() && StringRekeyed(c, oldKey, newKey, s, t)
    requires OpenLocked(c, oldKey, s).Ok?
    ensures OpenLocked(c, newKey, t) == OpenLocked(c, oldKey, s)
  {
    LockedIsPadded(c, oldKey, s);
    var plaintext := Open(c, oldKey, s).value;
    var iv: Iv :| t == Print(Seal(c, newKey, iv, plaintext));
    var cs := Parse(s).value;
    assert |Padding.Pad(plaintext)| == |cs.ciphertext| <= CAPACITY;
    LockedOfSealed(c, newKey, iv, plaintext);
  }

  /**
   The main result: with the 64 bytes of the new user key wrapped under the (new)
   master key and the re-keyed private key stored, an unlock yields the new key,
   the identical private key buffer and the identical organization keys.
   */
  lemma UnlockAfterRotation(
    c: Crypto, oldMaster: Keys, newMaster: Keys, protectedKey: string, privateText: string,
    orgTexts: map<string, string>, newKey: Keys, iv: Iv, rotatedText: string)
    requires c.Lawful() && newMaster.Usable() && |newKey.data| == 64
    requires Recovered(c, oldMaster, protectedKey, privateText, orgTexts).Some?
    requires StringRekeyed(c, Recovered(c, oldMaster, protectedKey, privateText, orgTexts).value.key, newKey,
                           privateText, rotatedText)
    ensures var before := Recovered(c, oldMaster, protectedKey, privateText, orgTexts);
            var after := Recovered(c, newMaster, Print(Seal(c, newMaster, iv, newKey.data)), rotatedText, orgTexts);
            && after.Some? && after.value.key.Usable()
            && after.value.key.EncKey() == newKey.EncKey() && after.value.key.MacKey() == newKey.MacKey()
            && after.value.privateKey == before.value.privateKey
            && after.value.orgKeys == before.value.orgKeys
            && Padding.Pkcs7Unpad(after.value.privateKey) == Some(Open(c, before.value.key, privateText).value)
  {
    var before := Recovered(c, oldMaster, protectedKey, privateText, orgTexts).value;
    LockedOfSealed(c, newMaster, iv, newKey.data);
    var buffer := Keys(Padding.Pad(newKey.data));
    assert buffer.data[..64] == newKey.data[..64];
    KeysReadPrefix(c, buffer, newKey, rotatedText);
    RekeyedLocked(c, before.key, newKey, privateText, rotatedText);
    LockedIsPadded(c, before.key, privateText);
  }

  /** A private key that unlocks can always be re-keyed. */
  lemma LockedOpens(c: Crypto, keys: Keys, text: string)
    requires OpenLocked(c, keys, text).Ok?
    ensures Open(c, keys, text).Ok?
  {
    var cs := Parse(text).value;
    BlocksArePadded(c, keys, cs);
    ParsesExactly(text, cs);
    assert "2." <= text;
  }

  /**
   Both unlocks around a rotation: if the first succeeds, re-keying the private key
   cannot fail, and the second unlock succeeds with the same secrets under the new key.
   */
  method UnlockRotateUnlock(
    c: Crypto, oldMaster: Keys, newMaster: Keys, protectedKey: string, privateText: string,
    orgTexts: map<string, string>, newKey: Keys)
    returns (before: Result<Secrets, Error>, after: Result<Secrets, Error>)
    requires c.Lawful() && newMaster.Usable() && |newKey.data| == 64
    ensures before.Ok? <==> Recovered(c, oldMaster, protectedKey, privateText, orgTexts).Some?
    ensures before.Ok? ==>
              && after.Ok? && after.value.key.Usable()
              && after.value.key.EncKey() == newKey.EncKey() && after.value.key.MacKey() == newKey.MacKey()
              && after.value.privateKey == before.value.privateKey
              && after.value.orgKeys == before.value.orgKeys
  {
    before := UnlockAccount(c, oldMaster, protectedKey, privateText, orgTexts);
    after := before;
    if before.Ok? {
      LockedOpens(c, before.value.key, privateText);
      hide OpenLocked, Open, StringRekeyed;
      var rotated := ReencryptStr(c, privateText, before.value.key, newKey);
      var iv := RandomIv();
      UnlockAfterRotation(c, oldMaster, newMaster, protectedKey, privateText, orgTexts, newKey, iv, rotated.value);
      after := UnlockAccount(c, newMaster, Print(Seal(c, newMaster, iv, newKey.data)), rotated.value, orgTexts);
    }
  }
}
