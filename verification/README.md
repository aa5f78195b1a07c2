# DFC core in Dafny

DFC core is a DESFire card engine written in C: a credential model whose keys, key-set
metadata and file data live in compacting pools, a DER codec for that model, and an
emulator with transactions, authentication, response chaining and secure dynamic
messaging (SDM). This project models the parts with the most state and arithmetic and
proves what they promise. `dafny verify dfyconfig.toml` checks all of it.

The model follows the C code's own form. What the code updates in place is a class or an
array with methods and loop invariants; each such method is proved against a function, and
what the code promises is proved about that function.

| part | files |
|---|---|
| shared | `Bytes`, `Limits`, `Arithmetic` |
| pools, credential, key sets | `SlicePools`, `PoolValidation`, `CredentialStore`, `KeyBlockRotation`, `KeySets`, `CredentialCommands`, `CredentialMaps`, `KeyChecks`, `Credentials`, `ModelValidation` |
| DER codec | `DerTlv`, `DerInteger`, `DerWriter`, `DerFields`, `DerRecords`, `DerSchema`, `DerEncoder`, `DerDecoder`, `DerNormalForm`, `DerRoundTrip`, `DerAccepted`, `DerLayout`, `DerRules`, `DerCanonical`, `DerReader`, `DerUnreadable` |
| transactions | `ValueFiles`, `TwoCopies`, `TransactionJournal`, `JournaledCard`, `FileRuns` |
| CMAC and diversification | `Cmac`, `CmacSubkeys`, `An10922` |
| response chaining | `ResponseChaining` |
| authentication | `Authentication`, `AuthenticationRuns` |
| SDM | `SdmRendering`, `SdmReader`, `SdmRuns` |

The main results:

- **Pools.** Which commands of a run from a cleared credential are accepted is determined by
  the run and the pool sizes: a command is refused exactly when it is not allowed or when the
  octets then stored leave no room. Every run of create, delete, resize, write, roll, release
  and format acts as the named update on maps keyed by AID and by (owner, file number). Slices
  always tile the used part of the pool, what lies above it is zero, and a refused operation
  changes nothing (`Credentials.RunFromCleared`). A key-set resize is refused only for
  key-pool room, never for metadata room (`Credentials.Credential.KeySetsResize`). The
  validator accepts any pools, well formed or not, exactly when every used octet of each
  belongs to one record and every record's key bookkeeping suits the octets it owns
  (`ModelValidation.PoolsAreValid`); for a credential made by its own operations the first
  half always holds (`ModelValidation.CredentialVerdict`), and over every run the second
  holds after each command if and only if every accepted command meets a condition on its
  arguments: a new application names a key type, a resize gives keys of the type's length,
  a roll goes to an initialized set (`KeyChecks.RunValidated`).
- **Key-set rolling.** After rolling by r, set j is what set (j + r) mod s was: keys, key
  versions, set version, type and initialized bit. The keys move by an in-place cycle walk
  that visits each block once (`Credentials.Credential.RollKeySet`,
  `KeyBlockRotation.RotateKeyBlocksLeft`). Rolling by r and then by s - r restores every set.
  It restores the whole credential if and only if the application's key length and type bits
  were those of its active set (`Credentials.Credential.RollAndBack`): a roll takes them from
  that set. `dfc_credential_key_sets_resize` leaves every set with type 0 whatever length it
  is given, so sets made for 24-octet keys come back with a key length of 16
  (`KeySets.FreshSetsNotRestored`). The CreateApplication command stores each set's type
  afterwards (src/dfc_emulator_commands_lifecycle.c:844-860). The validator asks for that
  agreement, so a validated application always comes back whole
  (`KeyChecks.ValidatedRollsBack`); a roll keeps it validated if and only if the set it makes
  active was initialized (`KeyChecks.RollKeepsValidated`).
- **DER.** Every element, integer and SEQUENCE body has exactly one accepted encoding, and
  back-patched writing produces it at every depth. A valid credential that is encoded is
  decoded to its normal form if and only if no file stores more than 2048 octets
  (`DerRoundTrip.RoundTrip`); otherwise decoding answers *capacity*. The model check does
  not bound a file's stored octets, so such a credential can be written and never read
  (`DerUnreadable.OneFileReads`). `dfc_file_resize` refuses more than 2048 octets
  (src/dfc_credential.c:524), so only a credential filled by hand can hold such a file
  (`CredentialCommands.RunKeepsSmall`). The decoder fills a credential in place, whatever it
  held before, and leaves it cleared on every failure (`DerReader.Store.Decode`). Whatever it
  accepts, from whatever writer, passes the model check, is in normal form and is read back as it is when saved again
  (`DerAccepted.AcceptedIsNormal`, `DerAccepted.AcceptedSavesAlike`). The octets written are
  those of the tables in docs/credential-schema-v6.md, stated apart from the encoder
  (`DerLayout.EncodingIsLaidOut`), and the octets accepted are those tables too, but for two
  spellings the decoder tolerates: a key set may leave keys out at its end, and a value file
  may spell out a limit of zero (`DerCanonical.AcceptedIsLaidOut`,
  `DerCanonical.ZeroLimitSpelledTwice`). The code writes and reads a value-file field `84`,
  the limit left for limited credits (src/dfc_der.c:363-364), which those tables do not list;
  the model follows the code.
- **Transactions.** A journal that captures preimages lazily behaves, over every run, as a
  card that keeps a second copy of every file (`JournaledCard.RunCard`). The branch that
  wipes files because a preimage is unusable is unreachable, and capturing never runs out
  of journal room. A value file's committed value is what it started with plus credits minus
  debits, and its limited credits never exceed its debits, over every run of the whole card
  (`FileRuns.BooksOverRun`). What any file holds after a run is what its own writes, the
  commits and the aborts give it, wherever creations and deletions have moved it
  (`FileRuns.RunWrites`), and a card that is not marked dirty holds the files it started with
  (`FileRuns.CleanIsUnchanged`).
- **CMAC.** The buffered loop over any list of segments gives the CMAC of their
  concatenation, for any block size. That value is written out apart from the code: plain
  chaining, then the last block masked by the first subkey, or what is left filled up with a
  one bit and zeros and masked by the second (`Cmac.MacOfWholeBlocks`,
  `Cmac.MacOfPartialBlock`). Subkeys are products by x in the field of section 6.1 of NIST
  SP 800-38B; AES diversification of 16 to 31 octets is the plain CMAC of 01 and the input.
- **Response chaining.** The frames of a response join to it exactly when it is secured or
  what follows the first frame fits the 2080-octet buffer; a longer clear response loses
  its end without an error (`ResponseChaining.ResponseJoins`,
  `ResponseChaining.LongResponseLosesItsEnd`). ReadData outside a session sends one when a
  plain file stores that much: every part of a file is read as it is if and only if the file
  stores at most one frame and 2080 octets (`ResponseChaining.ReadDataArrives`). Every file
  the card itself has sized does, because `dfc_file_resize` refuses more than 2048; the
  3000-octet file of a credential filled by hand does not.
- **Authentication.** In every run at most one handshake is in progress, at most one
  session is open, never both; each session is traced to the handshake completed last,
  whose challenge the reader returned, its keys to the card key of the request that started
  or completed that handshake, and each start and completion to the request that caused it
  (`AuthenticationRuns.ServeAll`). With ciphers that take whole blocks only, and as long as
  no step of the card itself fails, a reader that knows the key completes a native, a First
  and a NonFirst handshake: it learns the card's challenge, finds its own one rotated in the
  answer, and derives the very keys the card holds (`AuthenticationRuns.HonestNative`,
  `AuthenticationRuns.HonestEv2`).
- **SDM.** A read renders every mirror and steps the counter, or changes nothing. Over every
  run of reads of any files through the one cache, a counter counts exactly the new views of
  its file, no two of which share a value, and passes neither its limit nor 0xFFFFFF
  (`SdmRuns.ReadMany`). A read answered from the cache shows the last new view of its file,
  with the counter the file still has (`SdmRuns.HitShowsLastView`). A verifier reads
  identity, counter, PICC data, enciphered part and code back from a view, each as long as
  no mirror written later lies over it.

## Model

| member | source | states |
|---|---|---|
| `SlicePools.CompactionKeepsContents` | src/dfc_credential.c:289-309 | closing the hole of a released slice and moving the later offsets keeps every other record's octets and keeps the slices tiling the used part |
| `SlicePools.SlicePool.CompactAfterRelease` | src/dfc_credential.c:289-309 | the tail slides down, the freed end is wiped, and every later offset moves by the freed length |
| `SlicePools.SlicePool.Release` | src/dfc_credential.c:570-581 | the record owns nothing afterwards; every other record's octets survive |
| `SlicePools.SlicePool.Resize` | src/dfc_credential.c:522-568 | the same footprint keeps the octets, any other size is zero-filled, and a refused resize changes no octet, offset or count |
| `SlicePools.SlicePool.GrowInPlace` | src/dfc_credential.c:1077-1087 | the last slice gains zeros behind its octets and nothing else moves |
| `PoolValidation.TilingIsExactCover` | src/dfc_der.c:729-743 | in-bounds, pairwise apart and lengths summing to the used size hold exactly when each octet below it belongs to exactly one slice |
| `PoolValidation.PoolIsValid` | src/dfc_der.c:860-882 | the loops over one list of slices accept it exactly when it covers the used part exactly and stays within the capacity |
| `ModelValidation.PoolsAreValid` | src/dfc_der.c:807-882 | the validator accepts the key, metadata and file pools of any credential exactly when each is within its capacity and covered exactly once, and every record suits the octets it owns |
| `ModelValidation.CredentialVerdict` | src/dfc_der.c:807-882 | a credential made by its own operations always passes the cover tests, so its verdict is that of its records alone, the condition `KeyChecks` follows over runs |
| `KeyChecks.ValidatedRollsBack` | src/dfc_der.c:771-792 | an application record the validator accepts is restored by rolling its key sets all the way round |
| `KeyChecks.RollKeepsValidated` | src/dfc_credential.c:954-976 | rolling to a set leaves a validated record valid if and only if that set was initialized |
| `KeyChecks.CreatedSuits` | src/dfc_credential.c:1189-1199 | a new application has 24-octet keys for 3K3DES and 16-octet ones otherwise, all zero, with the authentication command of its type, and passes the record test if and only if its type bits name a type |
| `KeyChecks.ClearedSuits` | src/dfc_credential.c:1126-1146 | a cleared credential has one zero DES key for the PICC, nothing else, and passes |
| `KeyChecks.ResizedSuits` | src/dfc_credential.c:720-783 | a resized record passes if and only if the new length is one its key type allows; the same footprint keeps the key octets |
| `KeyChecks.FreshSetsSuit` | src/dfc_credential.c:804-831 | fresh key sets pass if and only if they are for active keys of 16 octets, a maximum of 16 or 24 and DES settings |
| `KeyChecks.StepValidated` | src/dfc_der.c:745-805 | each command keeps a validated credential validated if and only if it meets its condition |
| `KeyChecks.RunValidated` | src/dfc_der.c:745-805 | a run leaves the credential validated after every command if and only if every command it accepts meets its condition |
| `CredentialStore.MetadataRatio` | src/dfc_common.h:371-378 | metadata of a key-set application is at most 7/32 of its key storage |
| `CredentialStore.CapacityRatio` | src/dfc_common.h:371-378 | the metadata pool is seven thirty-seconds of the key pool, rounded up |
| `CredentialStore.MetadataFits` | src/dfc_credential.c:397-416 | whenever keys of a key-set resize fit the key pool, its metadata fits the metadata pool |
| `CredentialCommands.EffectKeepsOk` | src/dfc_credential.c:137-259 | every allowed operation keeps AIDs distinct, files named once, owners within the applications and each record in step with its octets |
| `CredentialStore.MaterializedAppendsZeros` | src/dfc_credential.c:1046-1100 | each file keeps its octets or gets zeros appended up to its declared size; the result is complete exactly when no sized file is left short |
| `CredentialStore.MaterializedOne` | src/dfc_credential.c:1046-1100 | a data file grows to its declared size and a record file to its records, with zeros, exactly when the scratch holds what is known, 2048 octets suffice and there is room; only a whole file is marked complete |
| `CredentialCommands.RunKeepsSmall` | src/dfc_credential.c:522-568 | whatever a run does, there are at most 28 applications and 32 files, none of more than 2048 octets |
| `CredentialMaps.EffectIsNamed` | src/dfc_credential.c:175-214 | an operation on records and indices is the named update on maps keyed by AID and by owner and number, renumbering included |
| `CredentialMaps.RunIsNamed` | src/dfc_credential.c:137-259 | over a run, the maps change by the named updates of the accepted operations only |
| `KeyBlockRotation.RotateKeyBlocksLeft` | src/dfc_credential.c:933-952 | the in-place cycle walk leaves the blocks rotated left by the shift and every octet outside them alone |
| `KeyBlockRotation.PosFacts` | src/dfc_credential.c:938-950 | a block of a walk determines the step that meets it, so no block is met twice, and walks from different starts never meet |
| `KeyBlockRotation.CycleCloses` | src/dfc_credential.c:938-950 | a walk is back at its start after total/gcd steps and not before |
| `Arithmetic.GreatestCommonDivisor` | src/dfc_credential.c:922-929 | the loop computes the greatest common divisor |
| `KeySets.RotatedMaskBits` | src/dfc_credential.c:883-920 | the initialized bits rotate by one set |
| `KeySets.InPlaceRotation` | src/dfc_credential.c:883-920 | the moves within the packed metadata, in their order, give the packed form of the rotated metadata |
| `KeySets.RotationMovesSets` | src/dfc_credential.c:883-920 | one metadata rotation gives each set the version, type, initialized bit and key versions of the next |
| `KeySets.WholeSetsRotate` | src/dfc_credential.c:954-976 | rotating metadata by r sets and key blocks by r times the key count rotates whole sets by r |
| `KeySets.SetsDetermine` | src/dfc_credential.c:883-976 | the list of sets determines a record's key octets, packed metadata and key versions |
| `KeySets.RollUnique` | src/dfc_credential.c:954-976 | rotated sets, with key length and type bits taken from the new set zero, describe one record only |
| `KeySets.RollBackRestores` | src/dfc_credential.c:954-976 | rolling by r and by s - r gives the record with key length and type bits of its active set, hence the record itself if and only if they agreed before |
| `KeySets.FreshSetsFollow` | src/dfc_credential.c:804-831 | new key sets meet that condition if and only if they were made for 16-octet keys and DES settings |
| `KeySets.FreshSetsNotRestored` | src/dfc_credential.c:804-831 | two sets made for 24-octet keys come back from a full turn with a key length of 16 |
| `Credentials.Credential.RotateKeySetMetadata` | src/dfc_credential.c:883-920 | the metadata pool and the inline versions hold the sets moved by one; no other record changes |
| `Credentials.Credential.RollKeySet` | src/dfc_credential.c:954-976 | refused exactly for a missing or out-of-range set; otherwise set j is what set (j + r) mod s was, and the active key length and type follow the new set zero |
| `Credentials.Credential.RollAndBack` | src/dfc_credential.c:954-976 | a roll and the rest of the turn restore every set, and the whole credential if and only if key length and type bits were those of the active set |
| `Credentials.Credential.constructor` | src/dfc_credential.c:1126-1146 | a cleared credential holds one PICC key slot and nothing else |
| `Credentials.Credential.KeysRelease` | src/dfc_credential.c:979-996 | a record loses its keys and metadata, every other record keeps its own |
| `Credentials.Credential.KeysResizeTotal` | src/dfc_credential.c:720-783 | accepted exactly within the count, length and pool limits; the same footprint keeps keys and metadata, any other clears them |
| `Credentials.Credential.KeysResize` | src/dfc_credential.c:785-802 | the named key resize on success, no change on refusal |
| `Credentials.Credential.KeySetsResize` | src/dfc_credential.c:804-831 | a well-formed key-set resize is refused exactly when the key pool lacks room, and is all or nothing |
| `Credentials.Credential.FindFileIndex` | src/dfc_credential.c:1004-1006 | the first file with the owner and number |
| `Credentials.Credential.AddFile` | src/dfc_credential.c:275-287 | an empty file record is appended |
| `Credentials.Credential.RemoveFileAt` | src/dfc_credential.c:1004-1020 | exactly one file goes; the others keep record and octets |
| `Credentials.Credential.FileResize` | src/dfc_credential.c:522-581 | accepted exactly within the file and pool limits; refusal changes nothing |
| `Credentials.Credential.MaterializeFile` | src/dfc_credential.c:1046-1100 | growing in place and copying through scratch have the same effect; a false result loses no octets |
| `Credentials.Credential.MaterializeContents` | src/dfc_credential.c:1046-1100 | the loop over all files has the effect of materializing each in turn with the room then left |
| `Credentials.Credential.DeleteApplicationAt` | src/dfc_credential.c:175-214 | the application, its keys and its files go; later applications and their files are renumbered and keep their octets |
| `Credentials.Credential.CreateApplicationRecord` | src/dfc_credential.c:137-173 | refused exactly for a duplicate, no slot, a bad key count or no room; otherwise one application with its settings and zero keys is added, 24 octets each for 3K3DES and 16 otherwise, which passes the validator's record test if and only if its type bits name a type |
| `Credentials.Credential.FormatCard` | src/dfc_credential.c:216-259 | only the PICC record and its keys remain |
| `Credentials.Credential.Execute` | src/dfc_credential.c:137-259 | each operation is accepted exactly when allowed and when the stored octets leave room, has its named effect, and otherwise none; a validated credential stays validated exactly under the command's condition |
| `Credentials.RunFromCleared` | src/dfc_credential.c:1126-1146 | over every run from a cleared credential the pools stay tiled, acceptance and contents are those the run and the pool sizes determine, and the maps by AID and file name are those the accepted operations name; it ends validated if every command meets its condition, and with at most 28 applications and 32 files of at most 2048 octets |
| `DerTlv.WrittenIsRead` | src/dfc_der.c:228-248 | an element of any length up to 65535 is read back whatever follows it |
| `DerTlv.TlvCanonical` | src/dfc_der.c:1207-1231 | the reader accepts exactly what the writer writes |
| `DerTlv.ReadTlv` | src/dfc_der.c:1207-1231 | the cursor reader accepts the shortest definite lengths with low tags, and only within bounds |
| `DerInteger.IntBody` | src/dfc_der.c:250-265 | trimming eight octets gives the shortest two's-complement form of the value |
| `DerInteger.IntegerCanonical` | src/dfc_der.c:1317-1335 | a body is read as a 64-bit value exactly when it is the body written for it |
| `DerInteger.ReadInt` | src/dfc_der.c:1317-1335 | accumulation modulo 2^64 from the sign extension returns the encoded value and accepts canonical bodies only |
| `DerWriter.Writer.Raw` | src/dfc_der.c:210-222 | octets are appended or the writer overflows, exactly when they do not fit |
| `DerWriter.Writer.Primitive` | src/dfc_der.c:228-248 | tag, shortest length and body are appended |
| `DerWriter.Writer.Constructed` | src/dfc_der.c:277-314 | reserving two octets, writing the body and moving it up gives tag, shortest length and body at every depth |
| `DerWriter.EncodedSize` | src/dfc_der.c:1156-1172 | the counting pass gives the length the writing pass would have |
| `DerWriter.Encode` | src/dfc_der.c:1174-1188 | writing into a buffer of at least the computed size never overflows and produces exactly that many octets |
| `DerWriter.EncodingLength` | src/dfc_der.c:1233-1240 | the length of the encoding at the front of the data, zero when there is none |
| `DerWriter.LengthOfPadded` | src/dfc_der.c:1233-1240 | an encoding followed by any padding has its own size as length |
| `DerFields.FieldsCanonical` | src/dfc_der.c:1261-1291 | a body is accepted exactly when it is the writing of a record: well-formed elements whose tags are an increasing selection of the declared ones |
| `DerFields.IndexFields` | src/dfc_der.c:1261-1291 | the index is built exactly for accepted bodies and describes what was read |
| `DerFields.FieldBody` | src/dfc_der.c:1303-1315 | re-deriving a body from a stored offset gives the validated body |
| `DerFields.GetField` | src/dfc_der.c:1293-1301 | looking a tag up returns precisely the validated body, or nothing when the component is absent |
| `DerEncoder.EncodeCredential` | src/dfc_der.c:710-716 | an invalid model is refused untouched; a valid one is encoded exactly when every length can be stated and the total fits |
| `DerRoundTrip.KeysRead` | src/dfc_der.c:1684-1732 | an encoded key list is decoded to the same keys when the key pool has room |
| `DerRoundTrip.SetsRead` | src/dfc_der.c:1463-1552 | encoded key sets are decoded to the same sets |
| `DerRoundTrip.FileReads` | src/dfc_der.c:1734-1937 | an encoded file is decoded to the same file without unwritten records, or refused for capacity exactly when it cannot be stored |
| `DerRoundTrip.AppReads` | src/dfc_der.c:2185-2280 | an encoded application is decoded to the same application with its authentication mask spelled out |
| `DerRoundTrip.PiccReads` | src/dfc_der.c:2046-2163 | an encoded PICC record is decoded to the same record with its mask spelled out |
| `DerRoundTrip.RoundTrip` | src/dfc_der.c:1953-2300 | what the encoder produced for a valid credential is decoded to its normal form if and only if each file stores at most 2048 octets, and otherwise refused for capacity |
| `DerRoundTrip.OwnersKeepNormalFiles` | src/dfc_der.c:463-471 | after the round trip each owner has its files, in their order |
| `DerRoundTrip.NormalEncodesAlike` | src/dfc_der.c:710-716 | the normal form has the same encoding, so decoding and encoding again changes no octet |
| `DerNormalForm.RegroupedPermutes` | src/dfc_der.c:463-471 | grouping files by owner is a permutation |
| `DerNormalForm.NormalValid` | src/dfc_der.c:886-1146 | the normal form of a valid model passes the model check |
| `DerReader.Store.FillCard` | src/dfc_der.c:1977-2044 | the card record is filled field by field, optional ones only when present; from a cleared record the result is the decoded card |
| `DerReader.Store.FillFiles` | src/dfc_der.c:1939-1948 | the loop appends to the credential what the recursive decoder specifies |
| `DerReader.Store.FillApps` | src/dfc_der.c:2165-2288 | the loop appends each application and then its files, in order |
| `DerReader.Store.Fill` | src/dfc_der.c:1953-2300 | filling in place from any earlier contents, with its early exits, gives the decoded credential or the decoder's status |
| `DerAccepted.AcceptedIsNormal` | src/dfc_der.c:1953-2300 | whatever octets the decoder accepts, the credential passes the model check, is in normal form and has only files that can be stored |
| `DerAccepted.AcceptedSavesAlike` | src/dfc_der.c:1953-2300 | an accepted credential that is encoded again is decoded to itself |
| `DerAccepted.UnlistedKeysAreZero` | src/dfc_der.c:1463-1552 | the keys a set lists come first and the others are zero keys of version zero, of the set's length |
| `DerLayout.EncodingIsLaidOut` | docs/credential-schema-v6.md:44-195 | the encoder's octets are the documented tables: tags, order, optional fields and bodies, nested to every depth |
| `DerRules.CheckedIsDocumented` | src/dfc_der.c:886-1110 | the model check accepts exactly the credentials that meet the rules written out one by one |
| `DerCanonical.AcceptedIsLaidOut` | src/dfc_der.c:1953-2300 | accepted octets of a credential without key sets and without a zero limit are its documented tables, so it has no other spelling |
| `DerCanonical.FileBack` | src/dfc_der.c:1734-1937 | an accepted file body is the documented one, unless it is a value file with a zero limit |
| `DerCanonical.SetBack` | src/dfc_der.c:1463-1552 | an accepted key set that lists all its keys has the documented body |
| `DerCanonical.ValueBack` | src/dfc_der.c:1811-1838 | an accepted value-file body is the documented one or the one that spells out a zero limit |
| `DerCanonical.ZeroLimitSpelledTwice` | src/dfc_der.c:1811-1838 | every value file with a zero limit has two accepted bodies, decoded alike |
| `DerReader.Store.Decode` | src/dfc_der.c:2302-2309 | whatever the credential held, a decode leaves the decoded one, which passes the model check, is in normal form and can be stored, or on any failure a cleared one, never a partly filled one |
| `DerReader.LoadAndSave` | src/dfc_der.c:2302-2309 | decoding, saving and decoding again gives the same credential, whoever wrote the first octets |
| `DerReader.SaveAndLoad` | src/dfc_der.c:2302-2309 | saving and loading gives the normal form exactly when the files can be stored |
| `DerUnreadable.OneFileReads` | src/dfc_der.c:1734-1937 | a cleared credential with one file is valid and encoded for any data the pool holds, and is read back if and only if that is at most 2048 octets |
| `DerUnreadable.SavedAndNeverLoaded` | src/dfc_der.c:710-716 | a credential with 3000 zero octets in one file is encoded and refused for capacity |
| `ValueFiles.LimitedCreditsAreCovered` | src/dfc_emulator_commands_transactions.c:289-510 | over every run of value commands, commits and aborts the value is its start plus credits minus debits, stays within its bounds, and limited credits never exceed debits |
| `ValueFiles.StepBalances` | src/dfc_emulator.c:514-535 | each command, commit or abort keeps the books balanced, the open transaction's included, down to the exact value and limit they determine |
| `ValueFiles.AnswerLaw` | src/dfc_emulator_commands_transactions.c:289-510 | a change is accepted exactly when its amount is not negative, the balance stays within the bounds, and a limited credit is enabled, the first of its transaction and within the allowance |
| `ValueFiles.CommitLaw` | src/dfc_emulator.c:514-535 | a commit makes the staged value final and leaves for limited credits nothing after one, else the transaction's debits, else what was left before; an abort leaves both as they were |
| `FileRuns.PublishedFiles` | src/dfc_emulator.c:514-552 | a commit leaves every file, in both copies, with the octets and count it had been given and its pending value as its value |
| `FileRuns.RunFollows` | src/dfc_emulator.c:292-552 | over every run a surviving file has the value its own changes, the commits and the aborts give it |
| `FileRuns.BooksOverRun` | src/dfc_emulator_commands_transactions.c:289-510 | over every run of the card a value file's committed value is its start plus credits minus debits, within its bounds, and limited credits never exceed debits |
| `FileRuns.RunWrites` | src/dfc_emulator.c:220-552 | over every run what a file holds and what readers see of it are given by its own writes, the commits and the aborts alone |
| `FileRuns.CreatedFile` | src/dfc_emulator_commands_lifecycle.c:949-962 | a new file is the last in both copies, of the selected application, zeroed |
| `FileRuns.CleanIsUnchanged` | src/dfc_emulator.c:514-552 | over every run a card not marked dirty and without an open transaction holds the files it started with |
| `TwoCopies.AbortUndoesStaging` | src/dfc_emulator.c:292-357 | aborting after any run leaves exactly what the persistent commands alone would have left |
| `TwoCopies.AbortRestoresStart` | src/dfc_emulator.c:292-357 | after any interleaving of staged writes, value changes, creations and deletions, an abort gives each surviving backup, record or value file what it had committed at the start, and files made since what they were made with |
| `TransactionJournal.CaptureKeeps` | src/dfc_emulator.c:190-218 | a preimage still fits the journal, does not overlap another, and lets the file be restored |
| `TransactionJournal.RemoveKeeps` | src/dfc_emulator.c:154-188 | deleting a file wipes only its own preimage and shifts the others with their files |
| `TransactionJournal.RestoredIsBase` | src/dfc_emulator.c:333-352 | what abort writes back is the committed file |
| `JournaledCard.Card.Begin` | src/dfc_emulator_commands_transactions.c:664-706 | opening a transaction fails only for want of memory and reserves room for every file it may capture |
| `JournaledCard.Card.Capture` | src/dfc_emulator.c:190-218 | refused only for a file the transaction does not cover; nothing visible changes |
| `JournaledCard.Card.Stage` | src/dfc_emulator_commands_data.c:636-682 | a staged write changes the live copy only |
| `JournaledCard.Card.ChangeValue` | src/dfc_emulator_commands_transactions.c:289-510 | a credit or debit is answered by its checks in order and, if accepted, changes the live copy only |
| `JournaledCard.Card.WriteThrough` | src/dfc_emulator.c:265-290 | a write to a standard file changes both copies at once |
| `JournaledCard.Card.InsertSlot` | src/dfc_emulator.c:118-152 | the slots above the new file move up by one |
| `JournaledCard.Card.RemoveSlot` | src/dfc_emulator.c:154-188 | the slots above the deleted file move down by one and the last is cleared |
| `JournaledCard.Card.Create` | src/dfc_emulator_commands_lifecycle.c:949-962 | a new file is in both copies, empty; a transaction-MAC file ends the transaction first |
| `JournaledCard.Card.Delete` | src/dfc_emulator_commands_lifecycle.c:1218-1243 | a deleted file leaves both copies; deleting a transaction-MAC file ends the transaction first |
| `JournaledCard.Card.PreimagesUsable` | src/dfc_emulator.c:295-314 | the usability test passes in every reachable state, so the wiping fallback is never taken |
| `JournaledCard.Card.Abort` | src/dfc_emulator.c:292-512 | the live copy becomes the committed one, pending values and the dirty flag included; a change is reported exactly when a transaction was open or a value pending |
| `JournaledCard.Card.Publish` | src/dfc_emulator.c:514-552 | every file of both copies has the octets and count it had been given and its pending value as its value, with nothing pending |
| `JournaledCard.Card.Select` | src/dfc_emulator.c:635-646 | selecting an application aborts first |
| `JournaledCard.Card.CommittedData` | src/dfc_emulator.c:220-244 | readers are shown the committed octets, whatever is staged |
| `JournaledCard.Card.CommittedCount` | src/dfc_emulator.c:246-259 | readers are shown the committed record count |
| `JournaledCard.RunCard` | src/dfc_emulator.c:118-357 | every run of the journaled card is a run of the two-copy card, a value file that is still there has the value its own accepted changes give, and every file the octets its own writes, the commits and the aborts give |
| `CmacSubkeys.ShiftLeft` | src/aes_cmac.c:23-32 | shifting octets shifts the whole bit string by one |
| `CmacSubkeys.Double` | src/aes_cmac.c:34-54 | shift and conditional feedback multiply by x in the field |
| `CmacSubkeys.Init` | src/aes_cmac.c:56-66 | the two subkeys are the doubled and twice doubled encryption of zero, unless the cipher fails |
| `CmacSubkeys.SubkeysUnique` | src/des_cmac.c:39-56 | a cipher has one pair of subkeys |
| `Cmac.Feed` | src/aes_cmac.c:135-158 | a pass over one segment leaves the value owed for the whole message unchanged |
| `Cmac.Compute` | src/aes_cmac.c:105-177 | CMAC over any list of segments, empty ones included, is CMAC over their concatenation, the value the next two rows write out; a failure gives a zero value |
| `Cmac.MacOfWholeBlocks` | src/aes_cmac.c:160-171 | a message of whole blocks has as value the cipher of the chained blocks in front, xor the last block, xor the first subkey; the second if it was padded beforehand |
| `Cmac.MacOfPartialBlock` | src/aes_cmac.c:165-171 | any other message has what is left filled up with 80 and zeros and masked by the second subkey |
| `Cmac.PrePaddedIsStandard` | src/aes_cmac.c:160-171 | a message padded beforehand has the standard value of the bare one, unless that is a positive multiple of the block |
| `An10922.PartIsCmac` | src/dfc_an10922.c:67-111 | with at least a block of input a diversified block is the plain CMAC of the constant and the input |
| `An10922.AesDiversificationIsCmac` | src/dfc_an10922.c:28-65 | AES diversification of 16 to 31 octets is the CMAC of 01 and the input |
| `An10922.TdeaPartIsCmac` | src/dfc_an10922.c:67-111 | each block of a TDEA key diversified from 8 to 15 octets is the plain CMAC of its constant and the input |
| `An10922.PartIsChained` | src/dfc_an10922.c:28-111 | a part of any input is two blocks, the first chained, the second masked by the second subkey exactly when padding was needed |
| `An10922.TwoKeyTdea` | src/dfc_an10922.c:67-111 | a two-key TDEA key comes from the constants 21 and 22 |
| `An10922.ThreeKeyTdea` | src/dfc_an10922.c:67-111 | a three-key TDEA key comes from the constants 31, 32 and 33 |
| `An10922.VersionBits` | src/dfc_an10922.c:67-111 | the low bit of each octet is the master key's and the other seven are the block's |
| `An10922.DiversifyParts` | src/dfc_an10922.c:67-111 | each block comes from its own constant and the first carries the master key's version bits |
| `An10922.Diversify` | src/dfc_an10922.c:113-146 | inputs outside 1 to 31 octets for AES or 1 to 15 for TDEA, wrong master keys and failures leave a zero key; otherwise the key is the one the master key determines |
| `ResponseChaining.SplitJoins` | src/dfc_emulator_commands.c:524-567 | the frames still owed join to the octets still owed |
| `ResponseChaining.FramesHoldWholeUnits` | src/dfc_emulator_commands.c:291-301 | an intermediate frame is the largest whole number of entries or blocks within 58 octets on EV3 and 59 on EV1, 54 for a list of file identifiers on EV3, and empty only when not even one fits |
| `ResponseChaining.Chain.Continue` | src/dfc_emulator_commands.c:524-567 | each request returns the next frame, with status AF while more follow; without a chain it is refused |
| `ResponseChaining.Chain.Emit` | src/dfc_emulator_commands.c:422-471 | the first frame and the stored rest are the frames of the response |
| `ResponseChaining.Chain.EmitZeros` | src/dfc_emulator_commands.c:494-522 | zeros that fit the buffer are sent like any response; longer ones without storing them, exactly for a plain native read outside a session on EV3, and a refusal for the session leaves the chain alone |
| `ResponseChaining.ZerosArrive` | src/dfc_emulator_commands.c:494-522 | the frames of a long response of zeros join to it, every one but the last full |
| `ResponseChaining.Chain.EmitRecords` | src/dfc_emulator_commands_lifecycle.c:209-268 | a secured listing is sent one record to a frame, the last carrying the code |
| `ResponseChaining.ResponseJoins` | src/dfc_emulator_commands.c:440-471 | the frames join to the response exactly when it is secured or its rest fits the buffer, and otherwise to its beginning |
| `ResponseChaining.LongResponseLosesItsEnd` | src/dfc_emulator_commands.c:454-471 | 2140 clear octets sent on EV1 arrive as 2139 |
| `ResponseChaining.ReadDataArrives` | src/dfc_emulator_commands_data.c:387-466 | every part of a plain file read outside a session arrives as it is if and only if the file stores at most one frame and 2080 octets, and so for every file of at most 2048 |
| `ResponseChaining.ResponseFramed` | src/dfc_emulator_commands.c:422-471 | no frame exceeds the generation's limit; every frame but the last is the same whole number of units; the last is not empty |
| `ResponseChaining.Fetch` | src/dfc_emulator_commands.c:524-567 | a reader that keeps asking receives every frame once, AF on all but the last, and the run ends |
| `Authentication.Authenticator.Step1` | src/dfc_emulator_commands_auth.c:368-436 | a challenge is sent and the handshake recorded exactly when key, command and randomness allow it and the cipher works, with every session ended; a refusal ends sessions too, except a retryable lack of randomness |
| `Authentication.Authenticator.Step2` | src/dfc_emulator_commands_auth.c:438-580 | a session opens exactly when the token decrypts to the rotated challenge and no later step fails, with the derived key and the reader's challenge returned; every other outcome ends handshake and session |
| `Authentication.Authenticator.StartEv2` | src/dfc_emulator_commands_auth.c:56-177 | a challenge is sent exactly when every check passes; a First draws a new transaction identifier, a NonFirst is possible only in an EV2 session and keeps its context |
| `Authentication.Authenticator.ContinueEv2` | src/dfc_emulator_commands_auth.c:179-300 | an EV2 session opens exactly for a token that returns the rotated challenge, with a zero command counter |
| `Authentication.Authenticator.AbortPending` | src/dfc_emulator_commands_auth.c:340-366 | another command ends a pending handshake and, only then, the session |
| `Authentication.Authenticator.Fail` | src/dfc_emulator_commands_auth.c:315-318 | handshake and sessions are gone and their secrets wiped |
| `Authentication.TracedToHandshake` | src/dfc_emulator_commands_auth.c:438-580 | each open session comes from the handshake completed last, for its key number, with a matching echo and the session keys derived from the master key recorded for it |
| `AuthenticationRuns.Serve` | src/dfc_emulator_commands_auth.c:56-580 | one request starts or completes at most one handshake, exactly under its condition, and is the cause of that event |
| `AuthenticationRuns.ServeAll` | src/dfc_emulator.c:571-633 | over every run: one handshake, one session family, never both, every session traced, and every event of the log caused by its own request, in order; an EV2 session key comes from the card key of the start request, a native one from that of the completing request |
| `AuthenticationRuns.HonestNative` | src/dfc_emulator_commands_auth.c:368-580 | with ciphers that take whole blocks and a card none of whose own steps fails, a reader that knows the key learns the challenge the card drew, gets its own one back rotated, and derives the session key the card then holds |
| `AuthenticationRuns.HonestEv2` | src/dfc_emulator_commands_auth.c:56-300 | the same of a First or NonFirst: challenge learnt, own challenge rotated in the answer, both session keys derived; a First's answer carries the new transaction identifier and both capabilities, a NonFirst keeps those of the session it replaces |
| `SdmRendering.HexRoundTrip` | src/dfc_emulator_commands_data.c:12-18 | a mirror is read back from its digits |
| `SdmRendering.RenderedAuthenticates` | src/dfc_emulator_commands_data.c:255-281 | the code in a rendered view is the code over the view in front of it |
| `SdmRendering.UidReadsBack` | src/dfc_emulator_commands_data.c:147-158 | the identity mirror reads back as the identity, or as zeros on a card with a random one, if no later mirror lies over it |
| `SdmRendering.CounterReadsBack` | src/dfc_emulator_commands_data.c:159-169 | the counter mirror reads back as the counter of the view, if no later mirror lies over it |
| `SdmRendering.PiccRoundTrip` | src/dfc_emulator_commands_data.c:174-200 | identity and counter are read back from the PICC data block through its tag, in both layouts and whatever the padding |
| `SdmRendering.PiccReadsBack` | src/dfc_emulator_commands_data.c:170-210 | a verifier with key 0 reads identity and counter from the PICC mirror, if no later mirror lies over it |
| `SdmRendering.FileReadsBack` | src/dfc_emulator_commands_data.c:211-254 | a verifier that derives the session key reads the first half of the enciphered range back in clear, if the code does not lie over it |
| `SdmRendering.FitsWithin` | src/dfc_emulator_commands_data.c:58-128 | the mirrors fit exactly when each ends inside the file, the code does not start before what it covers, and the enciphered part is from 32 to 384 digits in steps of 32 |
| `SdmReader.WriteHex` | src/dfc_emulator_commands_data.c:12-18 | the digits are written at their place and nowhere else |
| `SdmReader.WriteFile` | src/dfc_emulator_commands_data.c:211-254 | enciphering uses only the first octets of the shared buffer and leaves exactly those zero; without a session key the buffer is untouched |
| `SdmReader.Reader.RenderInPlace` | src/dfc_emulator_commands_data.c:58-303 | a hit changes nothing; a rendering succeeds exactly when every check and cipher does, lacks randomness exactly when its first checks pass and random octets are needed and missing, steps the counter once and leaves the rollback copy alone |
| `SdmReader.Reader.Render` | src/dfc_emulator_commands_data.c:305-337 | any failure leaves counter, cache and tags unchanged, lack of randomness is reported exactly when it is the cause, success is a hit or one counter step with the specified view; an empty or too long file, or a counter at its limit without a matching cache, is answered Failed; the rollback copy is wiped and every octet of the shared buffer is zero or as it was |
| `SdmRuns.CountersCount` | src/dfc_emulator_commands_data.c:129-134 | over every run a file's counter counts exactly the requests that rendered a new view of it |
| `SdmRuns.RenderedWithItsCounter` | src/dfc_emulator_commands_data.c:305-337 | each new view is the specified one for the counter value its predecessors left |
| `SdmRuns.NewViewsAreNumbered` | src/dfc_emulator_commands_data.c:129-134 | of two new views of a file the later has the larger counter |
| `SdmRuns.HitShowsLastView` | src/dfc_emulator_commands_data.c:49-56 | with distinct file numbers, a read answered from the cache shows the last new view of its file, made for the same command family and with the counter the file still has |
| `SdmRuns.CountersBounded` | src/dfc_emulator_commands_data.c:131-134 | over every run a counter passes neither its limit nor 0xFFFFFF |
| `SdmRuns.ReadMany` | src/dfc_emulator_commands_data.c:305-337 | reads of several files through the shared cache and buffer are answered as specified, hits, new views and refusals alike |

## Left out

- Block ciphers, random numbers and allocation are parameters that may fail; no property of AES or DES beyond what a statement asks for is used.
- Secure messaging: a secured response is an arbitrary octet string already in the chain buffer, and the cases that reject an oversized response before securing it are not modelled.
- ISO-DEP variants of reads, ISO 7816 authentication, the reader side, the text codec and the virtual PICC.
- Preprocessor profiles: one build with every authentication command compiled in; pool sizes are parameters of the pool model and the default sizes in the schema.
- DerEncoder.EncodeCredential: sub-records for SDM, virtual card, proximity, DAM, delegation, capability data, EV2 capabilities, signatures and transaction MAC are not part of the schema; the decoder answers *unsupported* for them, as a build without these features does.
- DerRoundTrip.FileReads: transaction-MAC files and SDM settings are outside the schema.
- DerRoundTrip.AppReads: capability data and delegation are outside the schema.
- DerRoundTrip.PiccReads: EV2 capabilities, proximity, virtual card and DAM are outside the schema.
- DerRoundTrip.RoundTrip: the optional sub-records named above are outside the schema, only the current format 6 is decoded and formats 4 and 5 are refused, and a DES key length of 8 and one of 16 are not told apart, because both store 16 octets and the C decoder always answers 16.
- DerReader.Store.Fill: applications and files are decoded one record at a time and then appended; key-pool and file-pool room is checked by totals, and that metadata room never runs out is proved in `Credentials.Credential.KeySetsResize`.
- KeyChecks.ValidatedRollsBack: asks, besides the verdict, that the mask names no set beyond the last, which the validator does not test.
- DerCanonical.AcceptedIsLaidOut: credentials with key sets or a value file with a zero limit are left out, because keys missing at a set's end and a zero limit have two accepted spellings each (`DerAccepted.UnlistedKeysAreZero`, `DerCanonical.ZeroLimitSpelledTwice`).
- The pools: a record's offset and length live in the pool object beside its bytes, not in the record, and the key, metadata and file pools share one class. AIDs are kept in the order the command sends them.
- Credentials.RunFromCleared: runs contain no materializing of contents, because no command of the run gives a file a declared size and which files grow when room is short depends on their order; `Credentials.Credential.MaterializeContents` states its effect in every state.
- The journal's parallel arrays and bitmaps are one array of slots; the record operation marks are not modelled, and a record command is any change of a record file's octets and count within its size.
- JournaledCard.Card.ChangeValue: access rights and the unwrapping of secured amounts are outside the model.
- JournaledCard.Card.Abort: the fallback that wipes staged files is not written out, because it is unreachable; the transaction-MAC accumulator is outside the model.
- JournaledCard.Card.Publish: the transaction-MAC accumulator is outside the model.
- Application deletion under a transaction: it selects the PICC first, which aborts.
- Cmac.Compute: null pointers and lengths near the largest `size_t` are not modelled.
- SdmRuns.ReadMany: settings and file contents stay as they are during the run.
- Command chaining of long writes, access rights, status choices beyond those stated, GetVersion, and wiping as a secrecy claim.
