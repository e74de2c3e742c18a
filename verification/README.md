# A verified model of rbw's vault, store and protocol logic

rbw is a Bitwarden client. This project models the parts of it that carry
properties over unbounded inputs or whole runs, and proves them in Dafny:

* **Cipherstrings and account key rotation** (`Base64`, `Padding`, `CipherStrings`,
  `Rotate`, `Vault`, `VaultMeaning`, `Unlock`). Base64 and PKCS#7 are concrete.
  AES-CBC, HMAC and RSA are the fields of a value of type `Crypto`; all that is
  assumed is that AES keeps the length of whole blocks and decrypts what it
  encrypted under the same key and vector; nothing is assumed of HMAC and RSA. This
  law is a hypothesis of the theorems that need it, and `LawsAreConsistent` gives
  functions that satisfy it. Whether a rotation succeeds, what it changes
  and what the result means are three separate statements, joined by
  `VaultRotatable` and `VaultRekeyed`.
* **The remote API's authorization store and certificate directory**
  (`ClientPolicies`, `PolicyStore`, `Pki`). The first is a class whose methods are
  proved against functions, which are proved to refine two independent sets. The
  other two are state machines whose steps are single file operations of any
  number of processes; a process may stop between any two steps, and leave
  anything in its own temporary file. The store's updates are those of
  `ClientPolicies`, so what is proved of one policy holds of every store any
  reader sees.
* **Streaming in-place parsers** (`Pinentry`, `Unlockd`, `Locked`). The methods work
  on arrays, with stale bytes past the valid part. The specification reads the
  whole stream; a read hands out a piece of any size.
* **The fingerprint protocol and the unlock race** (`Fingerprint`, `UnlockRace`).
  State machines over calls, replies, polls, timeouts and cancellations.
* **The audit log** (`AuditLog`, `AuditText`, `AuditReading`, `AuditQueries`). Two backward scans
  against declarative specifications, and the textual prefilter on lines as the
  writer serializes them.
* **The credential-source graph** (`CredentialGraph`).

`Bytes`, `StringOrder`, `JsonValues` and `Wrappers` hold what several modules share.
`dafny verify dfyconfig.toml` checks everything.

Each function that a method is proved against is also given a meaning of its own:
`Chain` by the four `…Exactly` lemmas, `Answer` by `AnswerExactly` and `PasswordRoundTrip`,
`NextLine` by `FramingRoundTrip` and `ReadIsFramed`, `LastLockOf` by
`ReportsTrueCause`, `Parse` by `ParsesExactly`, `Perform` by `PerformMeans`, `Rotatable`
and `Rekeyed` by `RotatableExactly` and `RekeyedAt`, and so on.

## Edge cases of the code

* A stored policy with `status` set, no status accounts and no account at all is the
  one case in which granting item fields also grants status, because the new
  account then counts as the legacy status scope. The program never writes such a
  policy. `StatusWithoutAccountLeaks` states exactly when the two kinds of grant are
  independent.
* The `chain.len() > max_depth` guard of `credential_source_chain` never decides
  anything: `GuardNeverDecides`.
* `decrypt_locked_symmetric` leaves the padding in its buffer. `UnlockAfterRotation`
  shows why that does no harm.
* `read_password` with no command outstanding and an `OK` line subtracts from zero.
  The model answers `CountUnderflow` there, and `CountNeverUnderflows` shows that a
  count of at least one never gets there.
* A rotation writes the user id into every cipher. In a keyless one it is a string
  like any other, so an id that looks like a cipherstring stops the next rotation:
  `RotatedIsRotatable` and `RotateTwice` give the exact condition, and
  `StrangeIdRotatesOnce` an id that does it. Ids are UUIDs.
* When retention removes the stop that explains a restart but not the start itself,
  `last_lock_in` reports the restart as unexplained: `PrunedStopMisleads`.
* Day files are read by day, so after the clock was set back over midnight records are
  read in another order than they were made: stably sorted by day, `AppendedLines`.
  The cause reported may then be the wrong one: `ClockSetBackMisleads`. For every
  clock and retention, `LastLockAfterAppends` says exactly when it is the true one.
* `recent_events_in` shows events of no account only if some account is allowed:
  `RecentEventsExact` and `AccountlessIsHidden`.
* A temporary file or directory of a process that was killed stops a later process
  of the same number that has to write it: `CallInstalls`, `Recovers` and `Installs`
  say exactly when a call goes through.

## Model

| member | source | states |
|---|---|---|
| Base64.DecodesExactly | src/base64.rs:3-15 | a text decodes to some bytes if and only if it is their encoding; nothing non-canonical is accepted (section 4 of RFC 4648) |
| Base64.AlphabetExactly | src/base64.rs:3-15 | the alphabet of table 1 of RFC 4648 |
| Base64.QuadBits | src/base64.rs:3-15 | three bytes become their 24 bits, six at a time, the highest first |
| Base64.EncodesByGroup | src/base64.rs:3-15 | every group of three bytes stands in its place in the text, a short last one padded |
| Base64.NoDelimiters | src/base64.rs:3-15 | encoded text never contains the delimiters of a cipherstring |
| Padding.UnpadsExactly | src/cipherstring.rs:142-158 | the library's unpadding of AES blocks gives some data if and only if the blocks are that data, padded |
| Padding.Pkcs7UnpadsExactly | src/cipherstring.rs:393-415 | the remover accepts exactly data followed by n bytes n, for any n from 1 to 255, longer than a block included |
| Padding.Pkcs7UndoesPad | src/cipherstring.rs:393-415 | it strips every valid padding |
| CipherStrings.ParsePrint | src/cipherstring.rs:29-102 | parsing a printed cipherstring gives it back, for all byte strings |
| CipherStrings.ParsesExactly | src/cipherstring.rs:29-102 | which strings parse, and to what: both directions, against a description by shape |
| CipherStrings.Normalises | src/cipherstring.rs:359-382 | an accepted type-2 string prints back to itself; a type 4 or 6 string prints as a type-4 string that parses to the same value |
| CipherStrings.OpenSealed | src/cipherstring.rs:104-159 | what was sealed under a key decrypts under it to the plaintext, and to the padded plaintext in a locked buffer |
| CipherStrings.DecryptsExactly | src/cipherstring.rs:132-159 | a cipherstring decrypts to some data if and only if its MAC, where there is one, is right, its vector is 16 bytes and its blocks decrypt to the padded data; it is rejected for its MAC if and only if that is wrong |
| CipherStrings.DecryptsLockedExactly | src/cipherstring.rs:161-190 | the same for the locked buffer, which must have room and keeps the padding |
| CipherStrings.SealsWithMac | src/cipherstring.rs:104-130 | a fresh sealing holds the padded plaintext under the first half of the key and a MAC of vector and ciphertext under the second |
| CipherStrings.BlocksArePadded | src/cipherstring.rs:132-190 | whatever decrypts, its blocks are its plaintext, padded |
| CipherStrings.LawsAreConsistent | src/cipherstring.rs:337-357 | some functions satisfy the law assumed of AES |
| Rotate.LooksEncryptedExactly | src/rotate.rs:184-190 | a string looks encrypted if and only if it is digits, a dot and something with a bar |
| Rotate.OpensExactly | src/rotate.rs:192-209 | a string can be re-keyed if and only if it is the print of a type-2 cipherstring that decrypts; any other type is an error |
| Rotate.ReencryptStr | src/rotate.rs:192-209 | succeeds exactly on a type-2 cipherstring that decrypts under the old key, with a fresh sealing of the same plaintext under the new one; otherwise reports that failure |
| Rotate.RekeyedString | src/rotate.rs:184-209 | a re-keyed string opens under the new key to the old plaintext, and still looks encrypted |
| Rotate.ReencryptValue | src/rotate.rs:160-182 | succeeds exactly when every encrypted-looking string anywhere in the tree opens, and re-keys exactly those |
| Rotate.RotatableExactly | src/rotate.rs:160-182 | a tree can be re-keyed if and only if at no position a string looks encrypted and does not open |
| Rotate.RekeyedAt | src/rotate.rs:160-182 | position by position: an encrypted string becomes one that looks encrypted and opens under the new key to what the old one held, and nothing else changes |
| Rotate.RekeyedSameView | src/rotate.rs:160-190 | the decrypted view of a re-keyed tree under the new key is the old view under the old key, shape included |
| Rotate.RekeyedRotatable | src/rotate.rs:160-190 | a re-keyed tree can be re-keyed again: no encrypted string in it was left under the old key |
| Rotate.RekeyedTwice | src/rotate.rs:160-190 | re-keying to a middle key and then to the new one is re-keying from old to new |
| Vault.CheckAttachments | src/rotate.rs:115-128 | accepts exactly ciphers all of whose attachments have a key of their own |
| Vault.RotateCipher | src/rotate.rs:106-153 | succeeds exactly when the cipher can be rotated; a keyed cipher changes only in its key, a keyless one everywhere it looks encrypted, and both gain attachments2, encryptedFor and lastKnownRevisionDate |
| Vault.RotatedCipherSays | src/rotate.rs:135-152 | a rotated cipher names its user, its revision and its attachments as re-keyed; a keyed one differs in nothing else but the key, and no other field appears or disappears |
| Vault.Attachments2Has | src/rotate.rs:135-149 | an attachment is listed under its id with its name and key, the last one of an id counting |
| Vault.Attachments2Only | src/rotate.rs:135-149 | nothing but attachments with an id is listed |
| Vault.RotatedKeyHolds | src/rotate.rs:115-116 | the key of a rotated keyed cipher opens under the new key to what it held |
| Vault.RotatedCipherHolds | src/rotate.rs:117-133 | a rotated keyless cipher, position by position, but for the three fields it gains |
| Vault.RotatedFolderSays | src/rotate.rs:51-57 | a rotated folder has its id, its name re-keyed, and nothing else |
| Vault.RotatedSendSays | src/rotate.rs:59-67 | a rotated send differs in its key alone, which opens to what it held |
| Vault.PersonalPicks | src/rotate.rs:43-49 | the ciphers taken are exactly those of no organization, each once and in order |
| Vault.CipherRotatesExactly | src/rotate.rs:106-133 | a cipher can be rotated if and only if it has an id and a key that opens, or no attachment without a key and nothing encrypted that does not open |
| Vault.VaultRotatesExactly | src/rotate.rs:31-102 | a vault can be rotated, field by field |
| Vault.RotateCiphers | src/rotate.rs:43-49 | succeeds exactly when every personal cipher can be rotated, organization ciphers left out, in order |
| Vault.RotateFolders | src/rotate.rs:51-57 | succeeds exactly when every folder's name opens; ids kept, names re-keyed, in order |
| Vault.RotateSends | src/rotate.rs:59-67 | succeeds exactly when every send's key opens; only the keys change, in order |
| Vault.RotateVault | src/rotate.rs:31-75 | all or nothing: succeeds exactly when the vault can be rotated; the result is then re-keyed throughout, and its ciphers are those of no organization and no others, one for one in their order |
| VaultMeaning.RotationKeepsMeaning | src/rotate.rs:31-153 | under the new key a rotated vault means exactly what the vault means under the old key |
| VaultMeaning.RotatedIsRotatable | src/rotate.rs:31-153 | a rotated vault, synced back, can be rotated from the new key if and only if the user id is not taken for an unopenable cipherstring or every personal cipher is keyed: nothing else is left that does not open |
| VaultMeaning.ResyncedMeaning | src/rotate.rs:31-75 | synced back, a rotated vault means what it meant, whatever the user id |
| VaultMeaning.StrangeIdRotatesOnce | src/rotate.rs:149-190 | a vault with one keyless cipher and a user id in the shape of a cipherstring rotates, and then never again |
| VaultMeaning.RotationsCompose | src/rotate.rs:31-153 | rotating by way of a middle key ends in the same meaning as rotating directly, for every vault and every user id |
| VaultMeaning.RotateKeepingMeaning | src/rotate.rs:31-75 | whenever the rotation succeeds its result means under the new key what the vault meant under the old one |
| VaultMeaning.RotateTwice | src/rotate.rs:31-153 | after a rotation a second one succeeds if and only if that condition on the user id and the ciphers holds, and the meaning is then still the original one |
| Locked.LockedVec.Extend | src/locked.rs:150-152 | appends within the capacity, touching no other cell |
| Locked.LockedVec.Truncate | src/locked.rs:154-159 | keeps a prefix and zeroes every cell that was cut off |
| Locked.LockedVec.Zero | src/locked.rs:145-148 | the buffer becomes zeros over its whole capacity |
| Locked.DecryptInPlace | src/cipherstring.rs:161-190 | decrypting in the buffer that held the ciphertext leaves exactly what the specification says, padding included |
| Unlock.DecryptOrgKeys | src/actions.rs:139-153 | succeeds exactly when every organization key decrypts, with exactly those keys, in any order of iteration |
| Unlock.WrongMacExactly | src/cipherstring.rs:343-352 | a text is rejected for its MAC if and only if it is a cipherstring that fits the buffer and whose MAC is not the one under the key |
| Unlock.RecoversExactly | src/actions.rs:86-131 | what an unlock recovers: the user key under the master key, the private key under the user key, each organization key under the private key, and nothing else |
| Unlock.OrgKeyExactly | src/cipherstring.rs:202-231 | an organization key is what RSA gives for the ciphertext under the private key without its padding |
| Unlock.UnlockAccount | src/actions.rs:86-131 | succeeds exactly when every step decrypts, with what is recovered; reports a wrong password if and only if the MAC of the protected key is not the one under the master key |
| Unlock.KeysReadPrefix | src/locked.rs:197-209 | keys read 64 bytes only, so whatever follows them never matters |
| Unlock.LockedIsPadded | src/cipherstring.rs:161-216 | a locked decryption is the padded plaintext, which the remover strips again |
| Unlock.RekeyedLocked | src/rotate.rs:69-74 | a re-keyed private key fills the locked buffer with the same bytes |
| Unlock.UnlockAfterRotation | src/bin/rbw-agent/actions.rs:1039-1050 | with the new key wrapped under the master key and the rotated private key stored, unlocking yields the new key, the identical private key and the identical organization keys |
| Unlock.UnlockRotateUnlock | src/actions.rs:86-153 | if an account unlocks, re-keying its private key cannot fail, and the unlock after it succeeds with the same secrets under the new key |
| Pinentry.PercentDecodeInPlace | src/pinentry.rs:253-279 | the two-index pass computes the recursive decoder and leaves the rest of the buffer alone |
| Pinentry.HexDigitExactly | src/pinentry.rs:253-279 | the sixteen digits, the letters in either case |
| Pinentry.UnescapedStays | src/pinentry.rs:253-279 | text without an escape is its own decoding |
| Pinentry.DecodesEncoded | src/pinentry.rs:253-279 | decoding undoes any encoding that escapes every percent sign and any other bytes, with digits in either case |
| Pinentry.EncodedDecodes | src/pinentry.rs:253-279 | such an encoding exists for any choice of further bytes, and one that escapes newlines has none |
| Pinentry.StaleBytesDontMatter | src/pinentry.rs:176-226 | testing prefixes of the whole buffer sees only the current line, and cutting two bytes off a password line never underflows |
| Pinentry.KindsExactly | src/pinentry.rs:179-226 | a line is an acknowledgement, a password, a status or an error if and only if it starts with that word |
| Pinentry.ReadPassword | src/pinentry.rs:167-247 | however reads split the stream, the outcome and the password are those of the line-by-line specification of the whole stream; the buffer is exhausted exactly when the current line does not fit |
| Pinentry.CountNeverUnderflows | src/pinentry.rs:179-187 | with at least one command outstanding the count never goes below zero |
| Pinentry.AnswerExactly | src/pinentry.rs:167-247 | every outcome, success and each failure, if and only if after some fitting status lines and not-yet-final acknowledgements the next line, its end or its excess length brings it |
| Pinentry.ErrorReports | src/pinentry.rs:194-219 | an error line is a cancellation exactly for that code, and otherwise reports its text, or its code when it has none |
| Pinentry.PasswordRoundTrip | src/pinentry.rs:167-247 | after any status lines and fewer acknowledgements than commands, a password sent in any valid encoding is returned exactly |
| Pinentry.CommandsExactly | src/pinentry.rs:76-104 | one acknowledgement is awaited for each line sent and one for the greeting |
| Pinentry.GetPin | src/pinentry.rs:106-136 | on success the locked buffer holds exactly the decoded password and zeros in every cell past it |
| Unlockd.ReadLine | src/unlockd.rs:117-143 | unless a read fails, the line, its rejection and what is left of the stream do not depend on how the stream was cut up |
| Unlockd.FramingRoundTrip | src/unlockd.rs:106-143 | framed messages are read back exactly when none is over-long, and otherwise the stream is rejected |
| Unlockd.ReadIsFramed | src/unlockd.rs:106-143 | whatever is read without an error is the framing of the lines read, none over-long, up to a missing last newline |
| Unlockd.ReadLines | src/unlockd.rs:117-143 | repeated reading of any stream, however cut up, gives the lines of the whole stream or its rejection, unless a read fails |
| Unlockd.ReadFramed | src/unlockd.rs:106-143 | of framed messages it returns exactly the list when none is over-long, with nothing left, and a rejection otherwise |
| CredentialGraph.AccountsExactly | src/config.rs:1126-1149 | the accounts configured, and if there are none, one named default for the legacy fields |
| CredentialGraph.CredentialSourceChain | src/config.rs:1292-1326 | the loop terminates on every configuration, and computes the verdict on the longest trail from the start |
| CredentialGraph.OkExactly | src/config.rs:1292-1326 | Ok if and only if it is the duplicate-free walk along sources from the start to a configured account without one |
| CredentialGraph.UnknownExactly | src/config.rs:1302-1307 | unknown account if and only if the walk reaches that unconfigured name |
| CredentialGraph.SelfReferenceExactly | src/config.rs:1311-1315 | self-reference if and only if the walk reaches an account naming itself |
| CredentialGraph.CycleExactly | src/config.rs:1316-1320 | a cycle, named by the start, if and only if the walk returns into itself in more than one step |
| CredentialGraph.GuardNeverDecides | src/config.rs:1316-1320 | the depth guard never fires by itself, by a pigeonhole argument |
| CredentialGraph.FollowersExactly | src/config.rs:1266-1277 | exactly the accounts whose source is that account and whose policy is not never |
| CredentialGraph.FollowerStep | src/config.rs:1266-1277 | one step of followers is one step of a source chain taken backwards, past `never` |
| CredentialGraph.FollowersMatchChains | src/config.rs:1266-1326 | closing the followers of an account transitively reaches exactly the accounts whose chain passes through it with no `never` before it |
| Fingerprint.StepKeepsInv | src/desktop.rs:756-909 | every step, with a timeout or a cancellation at any await, keeps calls, flags, queue and device in agreement |
| Fingerprint.VerifyingImpliesStarted | src/desktop.rs:833-909 | in every run a device in verification is one the client knows it started |
| Fingerprint.OutcomeExactly | src/desktop.rs:639-649 | a match, a failed try and a retry each by their own statuses and no others |
| Fingerprint.StatusLeads | src/desktop.rs:871-887 | a match or an invalid status ends the verification, a failed try stops it, a retry keeps the scan going |
| Fingerprint.StopLeads | src/desktop.rs:900-908 | a stopped failed try is followed by the next, up to the third |
| Fingerprint.CleanupLeads | src/desktop.rs:803-826 | a cleanup call counts as done exactly if it was answered well in time |
| Fingerprint.FailureLeads | src/desktop.rs:793-909 | a failed claim, subscription, start or stop, a stream that ends, and an interruption at any await end the verification in vain and leave exactly the cleanup that is due |
| Fingerprint.DeviceLeads | src/desktop.rs:799-827 | a call acts on the device even when nobody waits for it any more, a failed call does nothing, and the last call issued is the one answered |
| Fingerprint.InterruptReturns | src/desktop.rs:793-827 | interrupted at any await, with a device that never answers again, the client issues the stop and the release that are due and returns unverified |
| Fingerprint.ThreeTries | src/desktop.rs:833-909 | a match is accepted at the first, second and third try, and three failed tries fail |
| Fingerprint.ReturnIsClean | src/desktop.rs:756-831 | on return VerifyStop was issued if started and then Release if claimed, there were at most three VerifyStarts, and the verification succeeded if and only if a terminal verify-match was the last status |
| Fingerprint.AtMostThreeStarts | src/desktop.rs:854-908 | the calls of a verification hold at most three VerifyStarts |
| UnlockRace.StepKeepsInv | src/desktop.rs:540-600 | every step keeps polls, done flags, stop senders and the result in agreement |
| UnlockRace.NeverPollsFinished | src/desktop.rs:559-600 | in every interleaving a finished attempt is never polled and no stop signal is sent twice |
| UnlockRace.ExitIsClean | src/desktop.rs:540-600 | on every exit each attempt is finished or was signalled to stop; a password is returned if and only if it is the first success and the race was not cancelled |
| UnlockRace.PollsExactly | src/desktop.rs:559-600 | while both race exactly the unfinished attempts are polled, then exactly the one whose cleanup is awaited |
| UnlockRace.SignalsExactly | src/desktop.rs:540-600 | exactly the loser is signalled to stop, or both on a cancellation, or neither |
| UnlockRace.ExitWaits | src/desktop.rs:540-556 | the race returns only once both attempts are finished, unless a cleanup ran out of its time |
| UnlockRace.GoesOn | src/desktop.rs:540-600 | in every run: which attempts may finish, that a poll in vain changes nothing, and when a cancellation and a cleanup's timeout are heeded |
| UnlockRace.EndsSoon | src/desktop.rs:540-600 | whatever happens, the race is over after three steps that are not polls in vain |
| AuditText.SerializedIsPrintable | src/audit.rs:309-310 | a serialized event holds no raw control character, whatever its fields contain |
| AuditText.OneRecordOneLine | src/audit.rs:309-312 | cut at its newlines, the text of a day file is its serialized events again, one a line |
| AuditReading.ReadsEvent | src/audit.rs:13-35 | every event reads back from its line |
| AuditText.SkipValue | src/audit.rs:530-534 | a quoted value, whatever it contains, never holds the mark the prefilter looks for |
| AuditText.FindsTheOperation | src/audit.rs:530-534 | on a line the writer serialized the mark found is the operation's own |
| AuditText.PrefilterAgrees | src/audit.rs:524-534 | the raw text is notable if and only if the operation is, whatever the other fields contain |
| AuditLog.SortDays | src/audit.rs:431-444 | exactly the days that have files, strictly descending |
| AuditLog.RecentLinesAre | src/audit.rs:580-588 | the two newest days are the newest file and the newest before it, the older first |
| AuditLog.AppendAddsLast | src/audit.rs:283-317 | a record adds one line after those of its day and all days before it among what survives pruning, and last of all unless there is a later day |
| AuditLog.PrunesExactly | src/audit.rs:639-669 | exactly the days within the retention survive, at least today, unchanged |
| AuditLog.PruneKeepsSuffix | src/audit.rs:639-669 | pruning removes whole days from the old end |
| AuditLog.SortByDayIs | src/audit.rs:444 | sorting by day gives the same records with ascending days |
| AuditLog.SortByDayStable | src/audit.rs:307-312 | and keeps the records of each day in the order they were made |
| AuditLog.AppendedLines | src/audit.rs:283-317 | however records split into day files, and whatever the clock does, reading back gives the surviving records stably sorted by day; on ascending days the newest records in order |
| AuditLog.ReadBackWasAppended | src/audit.rs:283-317 | nothing is read back but what was appended |
| AuditQueries.RelevantExactly | src/audit.rs:416-422 | a line counts if and only if it parses to a success of a start, a stop or one of the lock operations |
| AuditQueries.ScanRecordFits | src/audit.rs:455-485 | the scan stops only when no older record can change the answer |
| AuditQueries.LastLockIn | src/audit.rs:430-488 | the backward scan over files answers as the specification does on all the records in order |
| AuditQueries.ReportsTrueCause | src/audit.rs:430-488 | for every lifecycle of starts, locks, stops and crashes the answer is the true cause |
| AuditQueries.SuffixDecides | src/audit.rs:430-488 | the newest records give the answer of all of them if and only if there are two, or all, or a single one that is no start whose explaining stop was dropped |
| AuditQueries.FiledRightDecides | src/audit.rs:430-488 | some record is the answer if and only if it stands last among the relevant ones, and is then no start right after a stop, or is the stop right before a last start |
| AuditQueries.LastLockAfterAppends | src/audit.rs:283-488 | with any clock, any splitting into days and any retention, what is scanned are the surviving records stably sorted by day, and the true cause is reported if and only if it is filed in that place; on ascending days, if and only if the retained records decide it |
| AuditQueries.PrunedStopMisleads | src/audit.rs:639-669 | for any parser, lines, days and retention: a restart whose explaining stop was pruned with its day is reported as the cause |
| AuditQueries.ClockSetBackMisleads | src/audit.rs:283-488 | for any parser, lines, days and retention: with the clock set back to an earlier day between a start and a lock, the start is reported and not the lock |
| AuditQueries.EntryExactly | src/audit.rs:594-612 | a line contributes an event if and only if it parses to a notable one of no account or an allowed one, shown with the actor's known name |
| AuditQueries.AnswerIsAllowed | src/audit.rs:556-621 | on any log, every event of the answer comes from such a line of the two newest days, and belongs to no account or an allowed one |
| AuditQueries.RecentEventsShown | src/audit.rs:556-621 | on what rbw appended, the answer is the newest `limit` of the lines that show something, each once and in order |
| AuditQueries.RecentEventsIn | src/audit.rs:556-621 | the newest `limit` entries of the two newest day files in chronological order, and nothing for a limit of zero or without allowed accounts |
| AuditQueries.PrefilterChangesNothing | src/audit.rs:589-600 | on a serialized line the prefilter never changes what the line contributes |
| AuditQueries.RecentEventsExact | src/audit.rs:556-621 | on whatever rbw appended the answer is the newest `limit` notable events with an allowed or absent account, prefilter or not, if and only if an account is allowed, the limit is zero or no event without an account is there |
| AuditQueries.AccountlessIsHidden | src/audit.rs:562-564 | without any allowed account, a notable event of no account is not shown |
| StringOrder.SortDedupIs | src/remote_api.rs:873-875 | sorting and deduplicating gives the same names, sorted, each once |
| ClientPolicies.Client.Granted | src/remote_api.rs:861-876 | the accounts whose status the client may read, a legacy grant honoured |
| ClientPolicies.Client.GrantFieldsPolicy | src/remote_api.rs:815-836 | the new state of every field; on failure nothing changes |
| ClientPolicies.Client.GrantStatusPolicy | src/remote_api.rs:878-891 | the new state of every field |
| ClientPolicies.Client.RevokeStatusPolicy | src/remote_api.rs:909-920 | the new state of every field |
| ClientPolicies.Client.RevokeFieldsPolicy | src/remote_api.rs:938-965 | the new state of every field; on failure nothing changes |
| ClientPolicies.GrantedIs | src/remote_api.rs:861-876 | exactly the granted accounts, sorted, each once |
| ClientPolicies.GrantFieldsRefines | src/remote_api.rs:815-836 | fails exactly without fields or for another account; otherwise adds exactly those fields of that item and no status |
| ClientPolicies.GrantStatusRefines | src/remote_api.rs:878-891 | adds exactly that account's status and leaves every field grant alone; the scope of an item-less legacy client goes |
| ClientPolicies.RevokeStatusRefines | src/remote_api.rs:909-920 | removes exactly that account's status, or all of them, and leaves every field grant alone; with the last grant of any kind the scope goes |
| ClientPolicies.RevokeFieldsRefines | src/remote_api.rs:938-965 | fails exactly without a grant on the item; otherwise removes exactly those fields, or the whole item, and no status; with the last grant of any kind the scope goes |
| ClientPolicies.LegacyIsWellFormed | src/remote_api.rs:249-257 | a policy file from before status accounts is well formed as it stands |
| ClientPolicies.RunsAreSound | src/remote_api.rs:815-965 | from a fresh or legacy client every run keeps status true only with a granted account, lists without duplicates, item lists nonempty, and every readable field granted under the current account |
| ClientPolicies.StatusWithoutAccountLeaks | src/remote_api.rs:861-876 | granting fields leaves the status accounts alone if and only if status was not set without any account |
| PolicyStore.StepKeepsInv | src/remote_api.rs:374-420 | every step keeps the file whole and serial, sightings committed, commits in lock order, and the holder's snapshot current |
| PolicyStore.RunKeepsInv | src/remote_api.rs:356-420 | linearizability: in every interleaving with crashes the file is the committed updates applied in lock order, and every reader saw such a store, none older than an earlier reader's |
| PolicyStore.NothingBringsBack | src/remote_api.rs:969-978 | after a revocation no update but a new creation of that id brings the client back |
| PolicyStore.RevocationIsFinal | src/remote_api.rs:371-395 | once a revocation is committed the client is absent from the file and from every later sighting, whatever was loaded before |
| PolicyStore.PerformKeepsWellFormed | src/remote_api.rs:772-978 | an update changes no client but its own and keeps every client well formed |
| PolicyStore.SightingsAreWellFormed | src/remote_api.rs:356-420 | no interleaving and no crash ever shows a reader a policy that is not well formed |
| PolicyStore.SucceedsExactly | src/remote_api.rs:798-978 | when an update succeeds, by what the client may do before it |
| PolicyStore.PerformMeans | src/remote_api.rs:772-978 | after an update any client may read and see exactly what it could before, with what the update grants and without what it takes away; a fresh client nothing |
| PolicyStore.PerformScope | src/remote_api.rs:815-965 | the account a client's items are scoped to after an update |
| PolicyStore.FieldStaysRevoked | src/remote_api.rs:938-965 | a field taken away stays away through every later update that does not grant it |
| PolicyStore.StatusStaysRevoked | src/remote_api.rs:909-920 | and so does the status of an account |
| PolicyStore.RevokedGrantsStayAway | src/remote_api.rs:356-420 | once such an update is committed, no later sighting in any interleaving shows the client what it took away |
| PolicyStore.ReadLeads | src/remote_api.rs:356-369 | a reader never waits, and is given the store with every update committed so far |
| PolicyStore.StopLeads | src/remote_api.rs:374-420 | a process may stop anywhere: the store is as it was, the lock is free, and at most the temporary file of its own step is left |
| PolicyStore.CallInstalls | src/remote_api.rs:374-420 | an uninterrupted update goes through if and only if no temporary file of an earlier process of its number is left, and then installs exactly what its closure makes of the current store and frees the lock |
| PolicyStore.FailedCallWritesNothing | src/remote_api.rs:374-395 | an update whose closure fails writes nothing and frees the lock |
| Pki.StepKeepsInv | src/remote_api.rs:489-605 | every step keeps what the lock holder has written or replaced in place, and nobody else past the lock |
| Pki.CallbackSeesMatched | src/remote_api.rs:489-510 | from any directory contents and in every run, while a callback runs the server certificate belongs to the private key and carries the identifier of the CA's key |
| Pki.KeepsExactly | src/remote_api.rs:536-558 | the files are kept without a rotation if and only if they match, the CA has an identifier, its key is there and the hostname is the same |
| Pki.HalfRotatedMismatches | src/remote_api.rs:597-602 | between the first two replacements the files do not match, unless the keys happen to be equal |
| Pki.RunKeepsLasting | src/remote_api.rs:582-605 | once installed, no run changes the CA files, nor a client's file that is not issued or discarded itself |
| Pki.RunKeepsComplete | src/remote_api.rs:560-605 | crashes never leave an installed directory with a missing or half-written file |
| Pki.CallbackSeesIdentifier | src/remote_api.rs:546-701 | from nothing, or a complete directory, the CA has an identifier and the callback's certificate carries it |
| Pki.BlankExactly | src/remote_api.rs:496 | a hostname is refused as empty if and only if it consists of Unicode white space |
| Pki.StopLeads | src/remote_api.rs:497-533 | a process may stop anywhere: the lock is free, the others go on, and of an installation only its own directory may be left |
| Pki.StopLeaves | src/remote_api.rs:703-712 | a rotation that stops leaves at most the temporary file of its own step, and never alters one left by an earlier process |
| Pki.ClientFileLeads | src/remote_api.rs:716-756 | client files come and go without the lock, each alone, and no other file does |
| Pki.Recovers | src/remote_api.rs:512-605 | whatever mix of old and new server files a crash left, a call reaches its callback if and only if nothing has to be rotated or no temporary file of an earlier process of its number is left; then with matching files, which the same request afterwards keeps |
| Pki.Installs | src/remote_api.rs:512-580 | with nothing installed a call installs a complete, matching directory, which the same request afterwards keeps, if and only if no directory of an earlier process of its number is left |

## Left out

* The HTTP calls, request and response types and error classification of `src/api.rs`, and the token-refresh wrappers of `src/actions.rs`: field copying.
* The internals of AES, HMAC, RSA, HKDF, Argon2, PBKDF2 and of the certificate libraries: parameters with stated laws. The result of the key derivation in `unlock` is a parameter.
* Memory locking, page alignment and unsafe allocation in `src/locked.rs`: only length, contents and wiping are modelled.
* D-Bus transport, notifications, the keyring, process spawning and `src/pinentry.rs:7-105`: each is a step that may succeed, fail or be cancelled; the lines sent to pinentry only enter as their number.
* File permissions, symbolic links and fsync: a file is a named value with atomic rename, exclusive creation and an exclusive lock.
* Browser, Home Assistant and unlock UI code, `src/pwgen.rs`, `src/wordlist.rs`, `src/protocol.rs`, URL helpers, config defaults, and the `FieldRef` parser and printer: a field is its token.
* The wording of error messages, and which of two failures in one vault is reported first.
* JSON text: values are trees, numbers are opaque, and parsing an audit line is a parameter tied to the serializer by a hypothesis. Strings are sequences of characters.
- Rotate.ReencryptValue: builds a new tree where the source overwrites a private clone in place, so what the clone holds after an error, which no caller sees, is not captured; the random vector is any 16 bytes.
- Unlock.UnlockAfterRotation: the new key is 64 bytes long, as the generator of such keys makes it.
- UnlockRace.ExitIsClean: what an attempt does after its stop signal, beyond finishing or not, is not modelled.
- Fingerprint.ReturnIsClean: the device itself is known to be released only if both cleanup calls were answered; a cleanup that timed out has been issued, no more.
- Pinentry.GetPin: sending the commands may fail with any pinentry error before the answer is read; that part is not modelled.
- Pinentry.ReadPassword: a failed read is only known to be reported as such.
- AuditQueries.RecentEventsExact: lines that rbw did not write itself are outside the statement, and so is a parser that does not give an event back from its own serialization; `ReadsEvent` gives one that does.
- AuditLog.AppendAddsLast: file errors while pruning or appending are not modelled.
- AuditLog.SortDays: a log is a map from day numbers; file names that are not audit days, and a last line torn by a crash, are not part of the model.
- PolicyStore.RunKeepsInv: starts from a missing or whole file; a file damaged by something else makes every load fail and is never written.
- PolicyStore.RevocationIsFinal: client ids are fresh random ids, so it assumes the same id is not created again; deleting the revoked client's certificate files afterwards is not modelled.
- Pki.CallbackSeesMatched: says nothing of the identifier when the CA certificate of a foreign directory has none; the program itself never makes such a CA. The name in the hostname file is not tied to the certificate's name.
- Pki.StepKeepsInv: an inspection reads its files in one step; the lock makes that no restriction, as only the holder writes them. Client files are issued and discarded in one step each.
