# Verified model of wolfHSM: hash offload, user database, request resources

A Dafny 4.11 model of three parts of wolfHSM, a client/server library for hardware
security modules, and proofs about them.

**Streaming hashes.** The client keeps a partial block, sends whole blocks to a stateless
server, inline or through a DMA mapping, and gets the chaining state back. `HashSpec`
states what a digest is (FIPS 180-4 and FIPS 202, compression left uninterpreted),
`HashStandard` says it a second time, byte by byte and block by block, and `HashServer` is what
a handler computes. `HashClient`, `HashCalls` and `HashDma` hold the client code, `HashHistory`
the theorems over whole histories. One generic context covers all ten variants; the SHA-224,
SHA-384, SHA-512 and SHA-3 functions of the source are copies of the SHA-256 ones with other
constants, which `Variant` carries.

**Users.** A table of five slots in RAM mirrors an index object and one credential object
per user. `AuthDb` gives each operation as a function on the database value, and `AuthRules`
says of each in elementary terms who may do it and what it stores. `AuthStore` has the
objects, the reload and the write sequences, `AuthBase` the imperative backend proved against
both, `AuthHistory` agreement and crash atomicity, `AuthMap` the map of users. `AuthTable` is
the whole database as one abstract machine on that map, and `TableRuns` shows that both kinds
of storage run it. The theorems hold for every layout of the index records that reads back
what it wrote; `NativeLayout` is the one of the C structs. `AuthManager` is the per-connection
manager; `AuthRuns` holds the theorems over runs of many connections, `AuthGate` those behind
the request gate.

**Resources.** `Comm` is the client end of the link, with transport outcomes given by
schedules; `Dma` the ledger of mappings; `KeyDma` and `GcmDma` requests that hold mappings until
the response, `SlotRuns` what the hash and GCM slots hold over whole runs; `Rng` the random
fill; `Ecdh` temporary keys; `CallbackTable` and `CallbackRuns` the callback table all client
contexts of a process share. `Codes`, `Permissions` and `Blocks` are shared.

`dafny verify dfyconfig.toml` checks everything.

## Where the code falls short of what one would expect

Each of these is a lemma, with the exact condition where there is one.

- A user added without a credential takes over a blob left under its id by an add that power
  cut short (`AuthHistory.OrphanComesBack`; exact in `AuthHistory.CallKeepsAgreement` and
  `AuthHistory.PowerCutIsAtomic`).
- A delete whose blob cannot be destroyed and whose index entry cannot be restored leaves RAM
  and NVM apart (`AuthHistory.CallKeepsAgreement`).
- User names are compared as given but stored cut to 31 characters, so two long names can
  become one (`AuthMap.LongNamesCollide`; exact in `AuthMap.AddKeepsNamesUnique`). A remote
  client cannot reach this: the message layer cuts the name to 31 characters before
  wh_Auth_UserAdd sees it (src/wh_message_auth.c:71-74, 241-244, 295-297). A direct call on the
  server side can.
- SHA-384 and SHA-512 length counters travel as 32-bit numbers, so the length field of a
  message with 4 GiB of whole blocks or more is wrong (`HashHistory.RefinementIsExact`). This
  takes wolfCrypt's SHA-512 counters to be two 64-bit words.
- A request accepted by the transport whose response timer does not start, and two receive
  errors that leave a request pending, release a DMA buffer the server may still use
  (`KeyDma.CoveredThroughout` for key requests, `SlotRuns.CoveredThroughout` for hashes and
  AES-GCM).
- An address that the mapping callback maps and the allow list then refuses is reported as a
  failure, and no caller ever asks for its release (`Dma.DmaPort.Acquire`).
- A lost import response, or an eviction the transport refuses, strands a temporary key in
  the server cache (`Ecdh.Conservation`).
- A comment at src/wh_server_crypto.c:4942-4945 says the client reports an error when a server
  without SHA-512/t answers with plain SHA-512; the client accepts it and truncates, and
  `HashServer.TruncationByClient` shows the bytes taken are those of the state folded.

## Model

| member | source | states |
|---|---|---|
| Permissions.WordTestIsBitwise | src/wh_auth.c:377-383 | the mask test `(p & ~q) == 0` on a word holds exactly when each of the 32 bits of p is a bit of q |
| Permissions.WithinIsAuthority | src/wh_auth.c:358-414 | the group, word and key loops together decide inclusion of authority: no admin flag, and every group, action bit and key of p is one of q; both directions |
| Permissions.WithinIsTransitive | src/wh_auth.c:358-414 | the subset relation composes, so authority cannot grow along a chain of creators |
| Permissions.PermitsIsMonotone | src/wh_auth.c:236-275 | joins the subset test to the word/bit lookup of the request gate: whatever a smaller record is let through for, the larger is too |
| Permissions.ClampKeepsAuthority | src/wh_auth_base.c:753-764 | clamping the key count and zeroing unused key ids changes no comparison |
| Permissions.ClampKeepsPermits | src/wh_auth_base.c:753-764 | clamping changes no permitted request and no admin flag |
| Permissions.BitAddress | wolfhsm/wh_auth.h:79-84 | the word index and bit mask of an action address exactly that bit |
| Permissions.KeyListIs | src/wh_auth.c:386-414 | the keys of a record are its first keyIdCount ids, two at most |
| Permissions.ClampIs | src/wh_auth_base.c:753-764 | what is stored of a record, field by field |
| AuthStore.AgreeSplits | src/wh_auth_base.c:325-437 | a reload rebuilds a given database exactly when the index holds its records, each user has its own blob or none, and the values are storable |
| AuthStore.StartRefuses | src/wh_auth_base.c:325-437 | exactly when a start is refused (size, magic, or a record out of order), and what it takes from an index it accepts |
| AuthStore.RecordIs | src/wh_auth_base.c:123-173 | what is kept of a slot: never the session, and zeros for an empty one |
| AuthStore.WritesGoTo | src/wh_auth_base.c:63-95 | under which id each write goes, with which bytes and which method number, and that nothing else moves |
| NativeLayout.RecordRoundTrip | wolfhsm/wh_auth.h:127-149 | a record laid out as the C struct, little-endian and padded, is read back unchanged: every field at its offset |
| NativeLayout.NativeIsSound | src/wh_auth_base.c:63-79 | five such records meet all that the backend asks of the index layout, so the theorems over layouts speak of at least this one |
| AuthHistory.IndexWriteAgrees | src/wh_auth_base.c:123-173 | after an index write NVM agrees with the database exactly when the credential blobs already do |
| AuthHistory.CredWriteAgrees | src/wh_auth_base.c:177-221 | writing or destroying one blob moves agreement to the database with that credential, leaving every other user alone |
| AuthHistory.CommitTwoUndone | src/wh_auth_base.c:813-841 | the four ways a two-write call with a rollback can end, with every intermediate store |
| AuthHistory.AddWritesCred | src/wh_auth_base.c:806-841 | blob first, index second, blob dropped if the index fails: old or new database in NVM, at every point |
| AuthHistory.AddWritesNoCred | src/wh_auth_base.c:806-841 | an add without credential agrees after success exactly when no blob lies under the new id |
| AuthHistory.DeleteWritesAgree | src/wh_auth_base.c:866-894 | index first, blob second, index restored if the blob stays: old or new database, and which one |
| AuthHistory.SetPermissionsWriteAgrees | src/wh_auth_base.c:922-945 | one index write: new permissions on success, old ones on failure |
| AuthHistory.SetCredentialsWriteAgrees | src/wh_auth_base.c:1130-1151 | one blob write: new credential on success, old one on failure, index untouched |
| AuthHistory.CallKeepsAgreement | src/wh_auth_base.c:706-1155 | RAM and NVM agree after any call with any storage failures, with the two exceptions as exact conditions (orphan blob under a credential-less add; delete whose undo fails too) |
| AuthHistory.PowerCutIsAtomic | src/wh_auth_base.c:813-890 | power lost after any write of a call: every next start rebuilds the database before or after the call, exactly unless the call is a bare add over a blob left under its id and its index write succeeds |
| AuthHistory.OrphanIsNeitherSide | src/wh_auth_base.c:813-841 | in the excepted case what the restart rebuilds is neither the database before nor the one after |
| AuthHistory.EventKeepsAgreement | src/wh_auth_base.c:325-437 | one call or one power cut with restart keeps RAM and NVM in agreement |
| AuthHistory.HistoryAgrees | src/wh_auth_base.c:325-1155 | agreement over every history of calls, failures and power cuts clear of the two exceptions |
| AuthHistory.CallKeepsTidy | src/wh_auth_base.c:813-890 | unless an undoing write fails, no call leaves a blob under a free slot |
| AuthHistory.OrderlyHistoryAgrees | src/wh_auth_base.c:325-1155 | with arbitrary failures other than of the undoing writes, from blank storage, agreement always holds: the exceptions cannot be entered |
| AuthHistory.CredentialledHistoryAgrees | src/wh_auth_base.c:325-1155 | when every add carries a credential, power cuts anywhere do no harm |
| AuthHistory.OrphanComesBack | src/wh_auth_base.c:813-841 | concrete run: power cut inside an add, then an add without credential; after restart that user has the credential of the unfinished add |
| AuthHistory.BlankStorage | src/wh_auth_base.c:325-345 | storage without an index object is the empty database |
| AuthBase.Nvm.AddObject | src/wh_auth_base.c:155-171 | storage contract: an add takes full effect or none; the latest object wins |
| AuthBase.Nvm.DestroyObject | src/wh_auth_base.c:300-320 | storage contract: a destroy takes full effect or none |
| AuthBase.Backend.constructor | src/wh_auth_base.c:439-463 | a new backend is the empty database |
| AuthBase.Backend.Init | src/wh_auth_base.c:439-463 | starting succeeds (when reads do) exactly when a reload does, and leaves exactly the reloaded database, otherwise the empty one, whatever the storage holds |
| AuthBase.Backend.LoadFromNvm | src/wh_auth_base.c:325-437 | refines Reload on every storage: same database, same refusals; a refused load leaves the table empty |
| AuthBase.Backend.LoadRecords | src/wh_auth_base.c:370-437 | the slot loop stops at the first bad slot and clears the table |
| AuthBase.Backend.LoadSlot | src/wh_auth_base.c:376-432 | one slot is accepted exactly when Restore accepts it, and stands for the same entry |
| AuthBase.Backend.LoadCredHeader | src/wh_auth_base.c:272-295 | method byte and length of a blob; NotFound only for a missing blob |
| AuthBase.Backend.PersistIndex | src/wh_auth_base.c:123-173 | writes the records of the given database, or nothing; sessions are not persisted |
| AuthBase.Backend.PersistCred | src/wh_auth_base.c:177-221 | stores one blob with its method, in NVM or the RAM fallback, and no other |
| AuthBase.Backend.DestroyCred | src/wh_auth_base.c:300-320 | removes one blob and no other |
| AuthBase.Backend.LoadCred | src/wh_auth_base.c:227-268 | the credential as stored, or exactly which error: not found without a credential, aborted for a blob of impossible size, else the storage error |
| AuthBase.Backend.AllocateSlot | src/wh_auth_base.c:732-746 | the code of the duplicate, full-table and free-slot cases |
| AuthBase.Backend.ScanSlots | src/wh_auth_base.c:732-746 | one pass finds a slot of that name, or that there is none and which slot is the first free one |
| AuthBase.Backend.BuildCred | src/wh_auth_base.c:770-804 | the processed credential: hashed PIN or copied bytes, with its errors |
| AuthBase.Backend.FindUser | src/wh_auth_base.c:479-488 | the first slot carrying the name |
| AuthBase.Backend.WriteAdd | src/wh_auth_base.c:813-841 | the writes of an add, in order, with rollback: exactly AddSteps |
| AuthBase.Backend.CommitAdd | src/wh_auth_base.c:806-841 | slot filled and written, or emptied again |
| AuthBase.Backend.CommitBareAdd | src/wh_auth_base.c:806-841 | the same with only an index write |
| AuthBase.Backend.CommitSlot | src/wh_auth_base.c:806-841 | the slot of an accepted add, with a credential or without |
| AuthBase.Backend.ClampKeyIds | src/wh_auth_base.c:753-764 | the loop computes Clamp |
| AuthBase.Backend.FormSlot | src/wh_auth_base.c:749-804 | the record and credential of an accepted add, or the refusal of its credential |
| AuthBase.Backend.PrepareAdd | src/wh_auth_base.c:706-804 | every refusal of an add, and the slot and blob of an accepted one, before anything is written |
| AuthBase.Backend.UserAdd | src/wh_auth_base.c:706-842 | whole result, database and NVM writes of an add, refusals included, with or without NVM |
| AuthBase.Backend.WriteDelete | src/wh_auth_base.c:866-894 | the writes of a delete, in order, with rollback: exactly DeleteSteps |
| AuthBase.Backend.CommitDelete | src/wh_auth_base.c:862-894 | slot emptied and written, or restored from the backup |
| AuthBase.Backend.CheckDelete | src/wh_auth_base.c:844-867 | the refusals of a delete, in order: unknown user, bad caller, not an admin, no such user |
| AuthBase.Backend.BringBack | src/wh_auth_base.c:884-889 | the rollback of a delete: record back in RAM, index written best-effort |
| AuthBase.Backend.DropOrBringBack | src/wh_auth_base.c:870-894 | the second half of a delete: blob destroyed, or index and record restored |
| AuthBase.Backend.UserDelete | src/wh_auth_base.c:844-894 | whole result, database and NVM writes of a delete |
| AuthBase.Backend.CommitPermissions | src/wh_auth_base.c:922-945 | new permissions written, or the old ones back in RAM |
| AuthBase.Backend.CheckSetPermissions | src/wh_auth_base.c:896-921 | the refusals of a permission change |
| AuthBase.Backend.UserSetPermissions | src/wh_auth_base.c:896-945 | whole result, database and NVM writes of a permission change |
| AuthBase.Backend.UserGet | src/wh_auth_base.c:948-981 | admin sees all, others only themselves, with the error codes of each case |
| AuthBase.Backend.VerifyCurrent | src/wh_auth_base.c:1038-1106 | the current credential must match before it is replaced, with the code of each mismatch; a read error counts as a mismatch |
| AuthBase.Backend.CommitPut | src/wh_auth_base.c:1130-1151 | a new credential in one write; cached method and length follow only on success |
| AuthBase.Backend.CommitDrop | src/wh_auth_base.c:1130-1151 | clearing a credential destroys its object |
| AuthBase.Backend.CommitClear | src/wh_auth_base.c:1141-1150 | an empty new credential destroys the old one, or does nothing when there is none |
| AuthBase.Backend.CheckSetCredentials | src/wh_auth_base.c:984-1032 | the refusals that come before the current credential is looked at |
| AuthBase.Backend.PrepareCredential | src/wh_auth_base.c:1038-1130 | every refusal after the early ones, the failed read included, and the credential to be stored, before anything is written |
| AuthBase.Backend.ReplaceCredential | src/wh_auth_base.c:1038-1155 | current credential verified, new one processed and committed |
| AuthBase.Backend.UserSetCredentials | src/wh_auth_base.c:984-1155 | whole result, database and NVM writes of a credential change, a failed read of the old credential included |
| AuthBase.Backend.ComparePin | src/wh_auth_base.c:528-560 | a user is found exactly when name, method, length and processed PIN match; the storage error is returned exactly when the comparison needed the failing read |
| AuthBase.Backend.CheckPin | src/wh_auth_base.c:514-560 | the same from the PIN as presented, a failure of the hash included |
| AuthBase.Backend.CheckCertificate | src/wh_auth_base.c:591-624 | as for a PIN, with certificate verification left uninterpreted |
| AuthBase.Backend.Login | src/wh_auth_base.c:627-677 | the login of the database value with its code, or the storage error when the comparison needed a failing read |
| AuthBase.Backend.CheckLogout | src/wh_auth_base.c:679-694 | the refusals of a logout: oneself, or anybody when an admin |
| AuthBase.Backend.Logout | src/wh_auth_base.c:679-703 | who may log whom out, and the flag it clears |
| AuthHistory.WritesKeepIndexClean | src/wh_auth_base.c:123-173 | one write of an index: records without a user are all zero |
| AuthHistory.CommitKeepsIndexClean | src/wh_auth_base.c:123-173 | so do the writes of a call, with any failures and rollbacks |
| AuthHistory.HistoryKeepsIndexClean | src/wh_auth_base.c:123-437 | over every history of calls and power cuts the index stays clean, so a restart inside it finds a storage it can validate |
| AuthMap.FindIsLookup | src/wh_auth_base.c:479-488 | the scan by name is the lookup in the map of users |
| AuthMap.AddIsInsert | src/wh_auth_base.c:706-842 | an accepted add inserts the stored name, with clamped permissions, the processed credential and no session; for a name that fits its field the call has checked that it is absent |
| AuthMap.AddKeepsNamesUnique | src/wh_auth_base.c:732-767 | names stay unique exactly when the name as stored (31 characters) is new |
| AuthMap.LongNamesCollide | src/wh_auth_base.c:732-767 | two long names with a common 31-character prefix become two users of one name |
| AuthMap.DeleteIsRemove | src/wh_auth_base.c:844-894 | an accepted delete removes exactly that name |
| AuthMap.SetPermissionsIsUpdate | src/wh_auth_base.c:896-945 | updates exactly that user’s permissions |
| AuthMap.SetCredentialsIsUpdate | src/wh_auth_base.c:984-1155 | updates exactly that user’s credential to the processed new one, or to none |
| AuthMap.PinOpensExactly | src/wh_auth_base.c:627-677 | a PIN login succeeds exactly when the user exists, is inactive and stores the processed PIN |
| AuthMap.SignOutThenIn | src/wh_auth_base.c:627-703 | logging out undoes a login; a second login of the same user does not open a session |
| AuthTable.LeastFreeIsFirst | src/wh_auth_base.c:732-746 | the first free slot is the least id no user of the map has |
| AuthTable.AddRefines | src/wh_auth_base.c:706-842 | every add, accepted or refused: reply and next map are those of the abstract machine, exactly unless the cut name collides |
| AuthTable.DeleteRefines | src/wh_auth_base.c:844-894 | every delete, refusals included, is the abstract machine’s |
| AuthTable.SetPermissionsRefines | src/wh_auth_base.c:896-945 | every permission change, refusals included |
| AuthTable.SetCredentialsRefines | src/wh_auth_base.c:984-1155 | every credential change, refusals included |
| AuthTable.SignInRefines | src/wh_auth_base.c:627-677 | every login, refusals and the one-session rule included, with the id and permissions handed out |
| AuthTable.SignOutRefines | src/wh_auth_base.c:679-703 | every logout, refusals included |
| AuthTable.GetRefines | src/wh_auth_base.c:948-981 | every lookup: id and permissions, or the code that hides them |
| AuthTable.StepRefines | src/wh_auth_base.c:627-1155 | one request on the slots is one step of a map from name to user that knows nothing of slots: same reply, same next map, names still unique; exactly unless a cut name collides |
| TableRuns.RunRefines | src/wh_auth_base.c:627-1155 | the same over every list of requests: all replies and the last map |
| TableRuns.FittingNamesNeverCollide | src/wh_auth_base.c:732-767 | names of at most 31 characters never collide, so for them the refinement needs no condition |
| TableRuns.QuietHistory | src/wh_auth_base.c:123-1155 | a history in NVM without storage failures has the databases and codes of the slots alone |
| TableRuns.QuietHistoryRefines | src/wh_auth_base.c:123-1155 | and so the maps and codes of the abstract machine |
| TableRuns.AnswerAll | src/wh_auth_base.c:627-1155 | the backend methods called one after another, on NVM or RAM, compute that run |
| TableRuns.SameAnswers | src/wh_auth_base.c:101-116 | a RAM-only back end and one on blank NVM, started and given the same requests: equal replies, equal users, and those of the abstract machine from the empty map |
| TableRuns.NativeAnswers | src/wh_auth_base.c:101-116 | the same from nothing, on the native layout: two new back ends, one on blank NVM, agree on every list of requests, with no assumption but the 32 bytes of SHA-256 |
| AuthRules.AddRule | src/wh_auth_base.c:706-842 | exactly when an add is accepted, and the code of each refusal, from the slots and bytes alone |
| AuthRules.AddStores | src/wh_auth_base.c:749-804 | the lowest free slot gets the name cut to 31 characters, the permissions, no session, and the PIN hash or the data |
| AuthRules.DeleteRule | src/wh_auth_base.c:844-867 | an admin, and an existing user; only that slot changes; the code of each refusal |
| AuthRules.SetPermissionsRule | src/wh_auth_base.c:896-921 | an admin, and an existing user; only the permissions change; the code of each refusal |
| AuthRules.SetCredentialsRule | src/wh_auth_base.c:984-1155 | exactly when a credential change is accepted: oneself or an admin, and the current credential proved against what is stored (hash of a PIN under crypto, else the bytes; nothing when there is none); what is kept |
| AuthRules.SetCredentialsRefusals | src/wh_auth_base.c:984-1128 | the code of each refusal in the order of the checks, a wrong or missing proof included |
| AuthRules.MapSetCredentialsRule | src/wh_auth_base.c:984-1155 | the abstract machine too accepts a change only from the user or an admin, and only against the credential in place |
| AuthRules.MapSetCredentialsAccepts | src/wh_auth_base.c:984-1155 | and conversely, given that proof, it changes that credential and nothing else |
| AuthRules.LoginRule | src/wh_auth_base.c:514-677 | who is logged in: an existing user of that name without a session whose stored credential the data opens, and otherwise nobody; the codes |
| AuthRules.LogoutRule | src/wh_auth_base.c:679-703 | oneself, or anybody when an admin; only the flag of that slot; the codes |
| AuthRules.GetRule | src/wh_auth_base.c:948-981 | an admin finds everybody, anybody else only themselves and cannot tell who exists |
| AuthManager.AuthContext.CheckRequestAuthorization | src/wh_auth.c:208-286 | without a session exactly the comm group and the login; with one exactly logging out, and what group byte and action bit both allow |
| AuthManager.AuthContext.CheckKeyAuthorization | src/wh_auth.c:290-330 | exactly the keys among the first keyIdCount ids of a session’s record |
| AuthManager.AuthContext.ActionsWithin | src/wh_auth.c:369-386 | the nested loops decide the group and word conditions |
| AuthManager.AuthContext.KeysWithin | src/wh_auth.c:386-414 | the nested loops decide inclusion of the key lists |
| AuthManager.AuthContext.Subset | src/wh_auth.c:358-414 | the whole test decides Within |
| AuthManager.AuthContext.OpenSession | src/wh_auth.c:134-158 | the login of a context without a session: database, session and code of every outcome |
| AuthManager.AuthContext.Login | src/wh_auth.c:119-158 | one user per context; the session caches what the backend returned; the code of every refusal |
| AuthManager.AuthContext.Logout | src/wh_auth.c:161-184 | the session ends exactly when its own user is logged out |
| AuthManager.AuthContext.UserAdd | src/wh_auth.c:344-437 | a non-admin adds only within its own permissions and only with a credential; refusal touches nothing; the code of every refusal |
| AuthManager.AuthContext.UserDelete | src/wh_auth.c:440-457 | moves database and session as the specification says |
| AuthManager.AuthContext.UserSetPermissions | src/wh_auth.c:460-487 | a user changing its own record keeps its cached session in step |
| AuthManager.AuthContext.UserGet | src/wh_auth.c:489-507 | as the backend, for the session’s user |
| AuthManager.AuthContext.UserSetCredentials | src/wh_auth.c:509-533 | as the backend, for the session’s user, codes included |
| AuthRuns.OnlyAddsGrant | src/wh_auth.c:344-487 | without an admin session only an add touches permissions, and caches stay in step |
| AuthRuns.AddGrantsWithin | src/wh_auth.c:344-437 | an add by a non-admin adds one account, within its caller’s permissions |
| AuthRuns.TurnKeepsInv | src/wh_auth.c:119-533 | every operation on every context keeps caches in step and each user within its root creator |
| AuthRuns.RunKeepsInv | src/wh_auth.c:119-533 | the same over whole runs |
| AuthRuns.NoEscalation | src/wh_auth.c:344-437 | in a run without an admin session nobody gains permissions, no created user is an admin, and each created user has a subset of the authority of the user at the head of its chain of creators |
| AuthRuns.RequestsComeFromTheRoot | src/wh_auth.c:208-286 | every request a created user is let through for, its root would have been |
| AuthRuns.KeysComeFromTheRoot | src/wh_auth.c:290-330 | the same for key use |
| AuthGate.WithoutSession | src/wh_auth.c:225-235 | the same of the specification: no session, no action but login |
| AuthGate.WithSession | src/wh_auth.c:236-275 | and with a session, group byte and action bit |
| AuthGate.WhoMayAdd | src/wh_auth.c:344-437 | an admin, or anybody handing out a credential and no more authority than their own |
| AuthGate.OnlyLogInWithoutSession | src/wh_server.c:603-631 | a connection without a session gets no operation on users through the gate but logging in |
| AuthGate.ChangesArePermitted | src/wh_server.c:603-631 | every other change came from a session whose group byte and action bit allow it |
| AuthGate.SilentWithoutLogIn | src/wh_server.c:603-631 | over any run of many connections, one that never logs in might as well not be there: users and sessions end the same |
| HashSpec.CapacityIsAligned | wolfhsm/wh_message_crypto.h:820-836 | the inline capacity is a multiple of the block size and, when nonzero, at least one block |
| HashStandard.CapacityIsLargest | wolfhsm/wh_message_crypto.h:820-836 | the inline capacity is the largest number of whole blocks that fits the buffer behind the fixed fields |
| HashSpec.PaddingCompletesBlock | src/wh_server_crypto.c:4669-4699 | FIPS 180-4 section 5.1 and FIPS 202 padding fills one or two blocks exactly |
| HashSpec.AbsorbAppend | src/wh_client_crypto.c:6659-6693 | feeding two pieces is feeding their concatenation: chaining state, counters and pending bytes |
| HashSpec.FinishOfAbsorb | src/wh_client_crypto.c:6844-6899 | finishing a stream gives the digest of the whole message, with the streamed count in its length field |
| HashSpec.StreamedPadding | wolfhsm/wh_message_crypto.h:806-818 | the padding is the standard’s exactly when the counters on the wire suffice |
| HashStandard.SizesAreStandard | src/wh_server_crypto.c:4623-4699 | block, state and digest sizes as FIPS 180-4 and FIPS 202 relate them |
| HashStandard.ValueOfBigEndian | src/wh_server_crypto.c:4669-4699 | the length field read as a big-endian number is the number written |
| HashStandard.PaddingIsStandard | src/wh_server_crypto.c:4669-4699 | byte by byte, for SHA-2 (0x80, the fewest zeros, the bit length) and for SHA-3 (0x06, zeros, 0x80 in the last byte): exactly one padded form, and it is the one hashed |
| HashStandard.FoldIsChain | src/wh_server_crypto.c:4623-4699 | folding is one compression per block, from the initial state to the last block |
| HashStandard.HashIsStandard | src/wh_server_crypto.c:4623-4711 | the hash of a message is the truncated chain over any message padded that way |
| HashServer.ServedUpdate | src/wh_server_crypto.c:4623-4711 | a served update leaves the fold of the whole blocks and the advanced counters, inline and mapped bytes alike |
| HashServer.ServedFinal | src/wh_server_crypto.c:4623-4711 | a served final request yields the digest the streaming context stands for |
| HashServer.TruncationByClient | src/wh_client_crypto.c:8680-8711 | the client’s truncation gives its own variant’s digest whether or not the server knows SHA-512/t |
| HashServer.ServedLength | src/wh_server_crypto.c:4669-4699 | restored, counted and returned counters are those of the stream |
| HashClient.Context.CapacityIs | src/wh_client_crypto.c:6605-6609 | the 32-bit expression is inline capacity plus room left in the partial block |
| HashClient.Context.TopUp | src/wh_client_crypto.c:6667-6670 | the loop moves input into the partial block until one of them is used up |
| HashClient.Context.PackBlocks | src/wh_client_crypto.c:6679-6687 | the loop packs whole blocks until fewer than one is left or the message is full |
| HashClient.Context.Stash | src/wh_client_crypto.c:6689-6693 | the loop keeps the tail; it always fits |
| HashClient.Context.PackMessage | src/wh_client_crypto.c:6659-6693 | byte conservation: old pending bytes and input are the payload and the new pending bytes; payload whole blocks within capacity, pending shorter than a block |
| HashClient.Context.UpdateRequest | src/wh_client_crypto.c:6611-6721 | every outcome of an update request: refused, buffered, sent, or failed with the old pending bytes back |
| HashClient.Context.UpdateResponse | src/wh_client_crypto.c:6723-6761 | the state changes only on success, and then to the served one |
| HashCalls.AwaitUpdate | src/wh_client_crypto.c:6871-6874 | polling ends with the served state or the old one |
| HashCalls.AnsweredIsAbsorb | src/wh_client_crypto.c:6723-6761 | an answered update of these whole blocks is Absorb of the data, whichever part travelled inline |
| HashCalls.UpdateChunk | src/wh_client_crypto.c:6868-6880 | one request and its response absorb the chunk; when nothing is scheduled to fail the call succeeds |
| HashCalls.RoundsStep | src/wh_client_crypto.c:6862-6881 | each full chunk fills its message to capacity and the last needs at most one, so the count is the whole-block bytes divided by the capacity, rounded up |
| HashCalls.UpdateAll | src/wh_client_crypto.c:6857-6883 | the loop absorbs the input in exactly that many messages; when nothing is scheduled to fail it succeeds |
| HashCalls.FinalRequest | src/wh_client_crypto.c:6763-6801 | the partial block goes out with the state; nothing is mutated |
| HashCalls.FinalResponse | src/wh_client_crypto.c:6803-6842 | digest of the client’s variant written and context reset, or nothing changed |
| HashCalls.Finalize | src/wh_client_crypto.c:6885-6893 | digest of the context after one message; when nothing is scheduled to fail it succeeds and leaves the link idle |
| HashCalls.Restore | src/wh_client_crypto.c:9396-9408 | a context that failed half-way is put back as the caller passed it, for every buffer size |
| HashCalls.Blocking | src/wh_client_crypto.c:6844-6899 | on success Absorb (and Finish) with the exact number of messages; on any failure context and output as before the call; success when nothing is scheduled to fail |
| HashDma.PartsAreWire | src/wh_client_crypto.c:6953-6972 | topped-up inline block followed by the mapped blocks is what the inline path would send |
| HashDma.PackMapped | src/wh_client_crypto.c:6953-6977 | at most one inline block, one mapped stretch of all remaining whole blocks, the rest pending |
| HashDma.MapAndSend | src/wh_client_crypto.c:6985-7032 | mapping, slot and ledger on success; released and cleared when mapping or send fails; one step of the slot machine |
| HashDma.StretchIsBlocks | src/wh_client_crypto.c:6953-6977 | the stretch that is mapped is where the blocks lie in the input, and all before it went inline |
| HashDma.SendOrRestore | src/wh_client_crypto.c:6985-7032 | what was packed is mapped at its address and sent; a failure brings the old pending bytes back |
| HashDma.DmaUpdateRequest | src/wh_client_crypto.c:6902-7034 | the result code of every outcome, the address and length mapped for reading, and the ledger; a busy link, a full buffer or an input without a block leaves link, slot and ledger alone; the pending bytes come back on failure |
| HashDma.BeginUpdate | src/wh_client_crypto.c:7182-7200 | the request of a blocking call: in flight with this input, absorbed without a message, or refused |
| HashDma.DmaUpdateResponse | src/wh_client_crypto.c:7036-7087 | every outcome but not-ready releases the mapping once; one step of the slot machine |
| HashDma.DmaUpdate | src/wh_client_crypto.c:7193-7200 | one message absorbs the whole input; with no request pending on entry nothing is mapped on return, success or not; success when nothing is scheduled to fail |
| HashDma.DmaFinalize | src/wh_client_crypto.c:7201-7209 | the digest as by the inline path, never behind a pending request |
| HashDma.DmaBlocking | src/wh_client_crypto.c:7182-7215 | same result as the inline call; failure restores the context; with no request pending on entry nothing is mapped on return; success when nothing is scheduled to fail |
| HashHistory.RunAbsorbs | src/wh_client_crypto.c:6844-7215 | any history of calls, each by the inline chunks or by the mapped message, some failing, absorbs exactly the bytes of the successful ones |
| HashHistory.PathsAgree | src/wh_client_crypto.c:6844-7215 | cuts and paths do not matter: same bytes, same chaining state, counters and pending bytes |
| HashHistory.InlinePathAbsorbs | src/wh_client_crypto.c:6862-6881 | the chunks the inline path cuts, each served on its own, absorb the whole input |
| HashHistory.MappedPathAbsorbs | src/wh_client_crypto.c:6953-7034 | the one inline block and one mapped stretch of the DMA path absorb the whole input |
| HashHistory.Feed | src/wh_client_crypto.c:6844-7215 | one blocking call by the path asked for is a step of the history |
| HashHistory.FeedAll | src/wh_client_crypto.c:6844-7215 | pieces fed by any mix of paths, with any failures: a real run, absorbing what was fed; without failures every piece is fed |
| HashHistory.HashPieces | src/wh_client_crypto.c:6844-7215 | feed pieces by any mix of paths, finish by either: the bytes written are the standard hash of the bytes fed, when the counters suffice, and the context is empty again; without failures it succeeds and that is the truncated chain over all pieces, padded as the standard says |
| HashHistory.HashWhole | src/wh_client_crypto.c:6844-7215 | from a new context and a working link, any cutting of a message into pieces and any choice of paths yields the standard hash: the truncated chain over the message padded as the standard says |
| HashHistory.StreamingRefinement | src/wh_client_crypto.c:6844-6899 | finishing what was absorbed from an empty context yields the FIPS 180-4 or FIPS 202 hash of it when the counters suffice |
| HashHistory.RefinementIsExact | wolfhsm/wh_message_crypto.h:861-868 | short of a collision, that condition is exact: always for SHA-224, SHA-256 and SHA-3, under 4 GiB of whole blocks for SHA-384 and SHA-512 |
| HashHistory.FourGigabytesCountAsNone | wolfhsm/wh_message_crypto.h:861-868 | a 4 GiB SHA-512 message is padded with length zero |
| Comm.CommClient.SendRequest | src/wh_client.c:236-254 | the pending, transport and timer branches compute Send: accepted, refused without effect, or accepted with an error when the timer does not start |
| Comm.CommClient.RecvResponse | src/wh_comm.c:159-270 | the receive branches compute Recv: which results end the request, which leave it pending, and which sequence number is taken |
| Comm.SendOutcomes | src/wh_client.c:236-254 | exactly when a request is accepted, when it leaves a trace, and when one is then in flight |
| Comm.PollOutcomes | src/wh_comm.c:159-270 | exactly which events succeed, ask to poll again, leave the request in flight, or end it, with their codes |
| Comm.ReplyOutcomes | src/wh_client_crypto.c:6740-6761 | a call succeeds exactly on a good response; a server error is passed on |
| Comm.AnswersAreOwn | src/wh_comm.c:159-270 | over every run of sends and receives with any failures no sequence number is answered twice, and a response is taken only for the latest send that succeeded |
| SlotRuns.CoveredExactly | src/wh_client_crypto.c:6985-7087 | for the SHA and AES-GCM slots: one step takes the mappings from a pending request exactly on an untimed send or a lingering receive error |
| SlotRuns.CoveredThroughout | src/wh_client_crypto.c:6985-7087 | their mappings stay while the request is pending, in exactly the runs without such a step |
| Dma.DmaPort.Acquire | src/wh_client_dma.c:68-98 | callback, then allow list: logs a mapping only when both accept; a mapping the callback made and the allow list refuses is the one kind that is stranded |
| Dma.DmaPort.MapBack | src/wh_client_dma.c:80-97 | the address callback on the way in, or the raw address without one |
| Dma.AcquisitionIs | src/wh_client_dma.c:80-97 | the address handed out is the callback’s, or the client’s own without one |
| Dma.DmaPort.Release | src/wh_client_dma.c:68-98 | callback, then allow list: logs a release whatever either returns |
| Dma.BalancedMeansMatched | src/wh_client_dma.c:100-172 | a balanced ledger: what was mapped is what was released plus what is held, direction included |
| KeyDma.KeyClient.AsyncPre | src/wh_client_dma.c:100-148 | the slot is cleared first and filled only when the mapping succeeds |
| KeyDma.KeyClient.AsyncPost | src/wh_client_dma.c:150-172 | an empty slot is left alone; a used one is released once and emptied even on failure |
| KeyDma.KeyClient.KeyRequest | src/wh_client.c:1717-1879 | refines the machine’s request step, failures included; the codes of the refusals; on success the caller’s buffer is mapped in the request’s direction and the wire names its address |
| KeyDma.KeyClient.CacheResponse | src/wh_client.c:1771-1821 | refines the response step; a failed release does not change the result |
| KeyDma.KeyClient.ExportResponse | src/wh_client.c:1881-1943 | refines the response step; a failed release overrides a success |
| KeyDma.ReleasedOnce | src/wh_client_dma.c:100-172 | over every interleaving each mapping is released at most once, in its direction, never from an empty slot, and when nothing is pending all are released |
| KeyDma.MappedForItsRequest | src/wh_client.c:1717-1943 | over every interleaving, each buffer mapped or released is that of some request, of its length, for reading when a key is cached and for writing when one is exported |
| KeyDma.CoveredExactly | src/wh_client.c:1717-1943 | one step takes the buffer from a pending request exactly on an untimed send or a lingering receive error |
| KeyDma.CoveredThroughout | src/wh_client.c:1717-1943 | the buffer stays mapped while its request is pending, in exactly the runs without such a step |
| GcmDma.GcmClient.MapPart | src/wh_client_crypto.c:1704-1735 | one buffer mapped, or skipped after an earlier failure |
| GcmDma.GcmClient.MapAll | src/wh_client_crypto.c:1704-1735 | whichever mapping fails, the parts so far are exactly what is held |
| GcmDma.GcmClient.MapAndSend | src/wh_client_crypto.c:1704-1778 | mapped in order, sent, and released again on any failure, with every ledger entry |
| GcmDma.GcmClient.UnmapAll | src/wh_client_crypto.c:1760-1776 | exactly the acquired mappings are released, each with its direction |
| GcmDma.GcmClient.GcmRequest | src/wh_client_crypto.c:1632-1778 | on success the slot holds input, output and additional data at the caller’s addresses; the ledger gains input for reading, output for writing, additional data for reading, and loses them on any failure, also behind an untimed request, whose wire is pinned too; one step of the slot machine |
| GcmDma.GcmClient.GcmResponse | src/wh_client_crypto.c:1780-1857 | every outcome but not-ready, malformed replies included, releases exactly the three mappings; one step of the slot machine |
| Rng.RngClient.GenerateRequest | src/wh_client_crypto.c:201-230 | size zero or above the cap is refused without effect |
| Rng.RngClient.GenerateResponse | src/wh_client_crypto.c:232-279 | a reply is copied whole when it fits message, cap and buffer, else not at all |
| Rng.RngClient.GenerateChunk | src/wh_client_crypto.c:293-312 | one answer lands at the write position and nowhere else |
| Rng.RngClient.AwaitAnswer | src/wh_client_crypto.c:293-312 | polling ends with the answer in place, whole, or the buffer untouched; on a working link exactly when the answer fits |
| Rng.RngClient.GenerateSome | src/wh_client_crypto.c:293-314 | one pass of the loop: at least one byte of what is missing, or an error |
| Rng.RngClient.Generate | src/wh_client_crypto.c:281-316 | the buffer is the answers in order, without gap, then its old contents; success exactly when full; each request asks for what is missing up to the cap; on a working link it succeeds exactly when every answer serves its request |
| Rng.LandsAt | src/wh_client_crypto.c:262-279 | byte j of an answer lands behind all bytes of the answers before it |
| Ecdh.EccClient.SendOp | src/wh_server_crypto.c:1503-1633 | an accepted request is carried out even when the client sees an error |
| Ecdh.EccClient.AwaitOp | src/wh_client_crypto.c:2294-2345 | polling refines Await |
| Ecdh.EccClient.RoundTrip | src/wh_client_crypto.c:1900-1936 | import and evict round trips refine Trip |
| Ecdh.EccClient.SharedSecretBlocking | src/wh_client_crypto.c:2387-2456 | refines SharedSecret, evict flags and all; with both keys on the server and a link that sends, exactly one request naming private and public key as given |
| Ecdh.ServerKeysAsked | src/wh_client_crypto.c:2277-2294 | both keys on the server: asked for exactly the agreement of that private and that public key, nothing to evict |
| Ecdh.PublicImportAsked | src/wh_client_crypto.c:2398-2435 | the public key imported: used under the identifier the import returned, to be evicted by the server |
| Ecdh.PrivateImportAsked | src/wh_client_crypto.c:2411-2435 | the same for the private key |
| Ecdh.BothImportsAsked | src/wh_client_crypto.c:2398-2435 | both imported, public first, each under its own identifier |
| Ecdh.AnsweredByServer | src/wh_client_crypto.c:2294-2345 | on a working link the result is the server’s answer: success when it works and has both keys, with the output key cached as asked |
| Ecdh.SecretTakesTemps | src/wh_server_crypto.c:1593-1612 | carried out, the request removes its temporary keys whether it succeeds or not, and never the key just cached |
| Ecdh.ImportAdds | src/wh_client_crypto.c:1900-1936 | an import adds one new identifier, none, or one the client never learns |
| Ecdh.AwaitHears | src/wh_client_crypto.c:2294-2345 | polling succeeds exactly when a good response comes before anything that ends or breaks the request |
| Ecdh.LostImportLeavesAKey | src/wh_client_crypto.c:1900-1936 | an import fails and yet leaves a key exactly when the server takes it with an identifier free and the timer does not start or no good response follows |
| Ecdh.EvictedByOneSide | src/wh_client_crypto.c:2427-2454 | either the server evicts and the client sends no eviction, or the client evicts each key once |
| Ecdh.Conservation | src/wh_client_crypto.c:2387-2456 | the server cache ends as it began plus at most the output key, exactly unless an import the server carried out was not heard back, or an eviction could not be sent |
| Ecdh.TimeoutStrands | src/wh_client_crypto.c:2400-2409 | concrete run: a timeout on the first import leaves a key behind |
| CallbackTable.ClientContext.Init | src/wh_client.c:62-200 | refines InitSpec for every failing step, undo included |
| CallbackTable.ClientContext.RegisterAll | src/wh_client.c:119-172 | which entries are made or lost when a registration fails |
| CallbackTable.ClientContext.Withdraw | src/wh_client.c:177-198 | only the registrations this Init made are undone |
| CallbackTable.ClientContext.Cleanup | src/wh_client.c:202-234 | refines CleanupSpec |
| CallbackRuns.InitRegisters | src/wh_client.c:62-172 | exactly when an Init succeeds, and the three entries it then leaves, with every other one untouched |
| CallbackRuns.FailedInitTakesBack | src/wh_client.c:106-200 | what a failing Init takes away and what it leaves |
| CallbackRuns.CleanupRemoves | src/wh_client.c:202-234 | what a Cleanup removes and what it leaves |
| CallbackRuns.SharedTableIsSafe | src/wh_client.c:62-234 | over every interleaving, each entry runs on a live context and the init count is the number of live contexts |
| CallbackRuns.InitKeepsInv | src/wh_client.c:62-200 | one Init, failing anywhere, keeps that invariant |
| CallbackRuns.CleanupKeepsInv | src/wh_client.c:202-234 | one Cleanup keeps it |
| CallbackRuns.InitCountsExactly | src/wh_client.c:62-200 | initializing a live context is exactly what breaks the count |
| CallbackRuns.CleanupIsIdempotent | src/wh_client.c:202-234 | cleaning up twice is cleaning up once |
| CallbackRuns.InitIsolatesExactly | src/wh_client.c:119-144 | other clients stay reachable through their own device id exactly when Init does not register one that is taken |
| CallbackRuns.CleanupKeepsIsolation | src/wh_client.c:202-234 | a Cleanup never takes another client’s own entry |

## Left out

- AuthBase.Backend.Init: a start from a foreign index with leftovers in records without a user rebuilds the same database, but the invariant the operations ask for is promised only when such records are all zero, as in every index this backend writes (`AuthHistory.HistoryKeepsIndexClean`); operations after such a start are not modelled.
- AuthBase.Backend.LoadFromNvm: the same about the invariant.
- AuthBase.Backend.LoadRecords: the same about the invariant.
- TableRuns.SameAnswers: restarts between requests are in `AuthHistory`, not here; with RAM storage they lose every user.
- HashClient.Context.UpdateRequest: sizes of the fixed request structures are constants read off the wire formats; a Keccak-flagged SHA-3 context, which the source refuses at the start, is not modelled.
- HashDma.DmaUpdateRequest: the server reads the mapped input as it was when the request was sent; a caller changing it meanwhile is not modelled.
- HashServer.TruncationByClient: that SHA-512/t differs from truncated SHA-512 only by its initial value, which travels with the state, is FIPS 180-4 sections 6.6 and 6.7; which init function the server calls is not modelled further.
- KeyDma.KeyClient.KeyRequest: key labels are not modelled.
- GcmDma.GcmClient.GcmRequest: IV, tag and key bytes appear only as the message length; the tag copy of the response is folded into a malformed reply.
- GcmDma.GcmClient.GcmResponse: one response per request of the same kind; the asynchronous slots of the source share a union, so answering one kind of DMA request with the response function of another is not modelled.
- Comm.CommClient.RecvResponse: a server that reports NOTREADY as its own result, on which the polling loops would spin, is mapped to an abort.
- Ecdh.EccClient.RoundTrip: an import names which of the two keys it carries, not the bytes of the key.
- Ecdh.Conservation: the server cache is the set of uncommitted keys; the server's choice of a committed key to drop when its cache is full, and failures of its lock during an eviction, are not modelled.
- CallbackTable.ClientContext.Init: built with DMA and crypto; wolfCrypt's table functions are contracts (a registration replaces an entry or fails without effect, the last cleanup clears the table).
- Polling loops: the schedules are finite and then succeed, so their termination is a property of the schedule, not of the code.
- NULL arguments: the model's references are never null except where null selects a branch (storage absent, no digest wanted).
- Locks: each wh_Auth call is one atomic step.
- Authorization override callbacks of src/wh_auth.c: taken as absent.
- wh_Auth_Reset and the cached session of another context after an admin logs its user out or deletes it: they leave that cache as it is, and no claim here says otherwise.
- Scrubbing of scratch buffers and debug output: no effect on the results modelled.
- Bytes after the terminator of a stored name: a name is the characters before it, though the source copies the whole field.
- User ids and key ids passed as arguments: natural numbers; those inside records have their C widths.
- Compression functions, Keccak-f, the PIN hash and certificate verification: uninterpreted.
- What the allow list contains: its verdict on each address is scheduled.
- Dma.DmaPort.Release: a callback that fails to release is still counted as having been asked; what stays mapped behind it is not modelled.
- src/wh_keyid.c, src/wh_client_auth.c, src/wh_client_cert.c, the CMAC, AES, RSA and curve wrappers, counters and certificates: message plumbing of the kind already covered.
