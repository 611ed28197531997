# A verified model of the agent's stateful core

This project models, in Dafny, the parts of the virtual-machine agent in which state and recursion interact most, and
proves what they promise over all inputs and all runs.

* **Configuration engine** (`internal/configengine`, with the rules of `internal/config/validate.go`): JSON Pointers
  (RFC 6901), merge patches (RFC 7396), schema defaults, readOnly and restart properties, map deletions, and the engine
  that loads, saves and restores configuration files. Modules `Pointer`, `MergePatch`, `Schema`, `Leaves`, `Restart`,
  `ReadOnly`, `SchemaWalks`, `Deletions`, `Hooks`, `Rules`, `RuleAnswers`, `LoginRules`, `Engine`, `EngineRuns`,
  `SaveEffects`, `BootAgain`.
* **API-key store** (`internal/keys`): the key list, the verification cache and the lockout guard, with the two locked
  halves of a verification interleaved with every other operation. Modules `Keys`, `KeyRuns`, `KeyEffects`.
* **Artifact scan** (`internal/assets`): the two loops that reconcile database rows with a directory, and how many scans
  it takes until they agree. Modules `Scan`, `ScanRuns`, `ScanLoop`, `ScanConvergence`, `OneScan`, `TableScan`,
  `ScanEffects`, `ScanLimits`.
* **Ordered documents** (`internal/machines`): the order-keeping JSON printer and reader, and the replacement of a
  machine's document sections. Modules `OrderedJson`, `StoredDocument`.
* **Progress scanner** (`internal/machines/progress_scan.go`): the bounded line buffer. Module `Progress`.
* **Proof-of-possession proofs** (`internal/dpop`): the order of checks and the replay store (RFC 9449). Module `Dpop`.
* **Schema migrations** (`internal/db`): the positional fold over an append-only list. Module `Migrations`.

Code that changes state step by step is a class or a method with loops, and its contract equates the new state with a
function of the old one (`Saved`, `Scanned`, `Migrated`, ...). The theorems are about those functions and their runs;
what each operation leaves is also told by what is read afterwards, without them (`SaveEffects`, `KeyEffects`,
`ScanEffects`, `SectionSaveReads`, `StoreThenRead`). Go's iteration over a map is a loop that takes the keys in any
order. Platform calls, cryptography, parsers and the schema evaluator are fields of a record of functions; whether a
file or database write succeeds is a parameter of the operation, so every theorem holds whatever fails.

## Where the code does not do what it might be expected to

* **A revoked key can come back.** A revocation whose write fails makes the key active, whatever it was before, and nothing
  refuses to revoke a revoked key: revoked, and revoked again with a failing write, it is active and the next Verify returns
  it (`RevokedKeyReturns`). A key revived in this way before a cached one of the same material makes the cache answer another
  key than a full scan (`RevivedKeyIsFirst`). What survives in every run is `EveryInterleavingIsSound`: ids, and that the
  cache and every answer name a live active key of the material. That the answer is the first match, and that a revoked key
  stays away, holds in runs in which no failing revocation names an inactive key; `FailedRevokeRestoresExactly`,
  `StaysGoneExactly` and `RevivalKeepsInvExactly` are the exact steps. A deleted key needs no such condition.
* **A prune can remove every active admin**, because each victim is judged against the unpruned list (`PruneCanLockOut`;
  `PruneKeepsAdminExactly` is the exact condition).
* **The login rules are checked late.** The rules of a file run on the leaves a patch sends. For every other rule that is
  enough: after any run without outside edits the next load of the stored files succeeds if and only if the login settings in
  effect are proper (`NextLoadExactly`). An accepted save stores a file that the next load refuses exactly when its effective
  document enables login with a blank client id, or with an issuer that is no https URL with a host; then the patch did not
  send that value (`SavedLoginLoadsExactly`). The auth schema, evaluated on every save, narrows the second case to issuers
  that start with `https://`.
* **Nothing evaluates the schemas' `propertyNames`**: `internal/validation` does not know the word. Storage-path ids with
  `/` or `~` are refused all the same, because the rule looks an entry up under its escaped id, finds no absolute path there,
  and the schema asks every entry for a path; so the uniqueness theorem needs no assumption about ids.
* **One scan need not be enough.** It can mark missing or delete the row it has just registered, because the second loop
  goes by the list read before the first (`OneScanCanUndo`). It is enough exactly when its first loop rewrites no row that
  its second loop is after (`OneScanExactly`). Where the files' kinds are settled before the scan - the location is flat, a
  registry lists the hash, or the rows that expect it agree - that can be read off the table and the listing
  (`TableScanExactly`), and with canonical paths it always holds. The comment at
  `internal/assets/assets_artifact_store.go:451-454` describes the outcome of two scans.
* **Two scans are enough for every table whose rows at found files' paths are joined as `PathFor` joins them**, with the
  file's name and, in a role-keyed location, its role; stale paths, those of an older layout too, may be anything
  (`JoinedPathsConverge`). A table in which k rows are one found file's and lie at another's path, which no writer leaves,
  needs at most k + 2 scans (`AnyTableConverges`) and can need more than two (`CollisionsNeedMoreScans`).
* **A null for a parent removes a readOnly value unrefused** (`ReadOnlyKeptExactly`). This is a limit of the engine: in the
  shipped schemas only the top-level schema version is readOnly, and it has no parent.
* **A default that is an object with members breaks the commutation** of filling and patching, and every schema that has
  one has a document and a patch that show it (`FillCommutesNeedsPlainPresets`). No shipped schema has one.
* **A proof can be replayed when the wall clock falls behind the monotonic one by 180 seconds** between its two uses, in one
  step or in several: issue times are compared by wall clock and expiries by monotonic clock. By as much or more it can
  (`DriftReplays`); by less it cannot, even when concurrent calls reach the store with their readings out of order
  (`NoReplay`, with the skew counted from a call to every later one). `AcceptedAgainExactly` is the exact condition on the
  calls themselves.

## Model

| member | source | states |
|---|---|---|
| Pointer.PointerRoundTrip | internal/configengine/tree.go:13-26 | Appending an escaped key to any pointer appends exactly that key to its segments, whatever `~`, `/` and `~1` the key holds. |
| Pointer.EscapeExactly | internal/configengine/tree.go:13-15 | Escaping goes character by character: `~` to `~0`, `/` to `~1`, anything else as it is (section 3 of RFC 6901). |
| Pointer.ExtendInjective | internal/configengine/tree.go:13-26 | Different paths below one base have different pointers. |
| Pointer.ParsePointer | internal/configengine/tree.go:17-26 | The in-place unescaping loop of segmentsOf computes the specified segments. |
| Pointer.ReadAt | internal/configengine/tree.go:281-291 | valueAt's walk along a pointer reads the value at the pointer's segments, nil below anything that is no object. |
| Leaves.ListLeaves | internal/configengine/tree.go:312-327 | leaves lists exactly the document's leaves, each under its own pointer and no pointer twice. |
| Leaves.LeafReadsBack | internal/configengine/tree.go:281-327 | Reading the document at a listed leaf's pointer gives the leaf's value, and no two leaves share a pointer. |
| Leaves.ChangedValueIsPatchLeaf | internal/configengine/tree.go:256-279 | Exact frame of a merge: a plain value that differs from the target's is a leaf of the patch at exactly that path. |
| MergePatch.ApplyPatch | internal/configengine/tree.go:256-279 | mergePatch's loop, in any key order, computes MergePatch of section 2 of RFC 7396. |
| MergePatch.MergeIdempotent | internal/configengine/tree.go:256-279 | Applying a patch twice is applying it once. |
| MergePatch.MergeFrame | internal/configengine/tree.go:256-279 | Every plain value of the result is the target's or the patch's at that path. |
| MergePatch.PatchWins | internal/configengine/tree.go:256-279 | Every plain leaf of the patch is in the result. |
| MergePatch.MergeAddsNothing | internal/configengine/tree.go:256-279 | The result holds something at a path only where the target or the patch does. |
| ReadOnly.MergedReadsExactly | internal/configengine/tree.go:256-279 | Every path of a merged document: the target's value where the patch sends objects up to a key it does not send, an object where it sends one, its own value everywhere else, which is nothing where it sends null. |
| Schema.FindDefaults | internal/configengine/tree.go:106-120 | hasDefaults' loop decides whether a default lies below the node. |
| Schema.FillDefaults | internal/configengine/tree.go:122-145 | fillDefaults' loop, in any key order, computes the filled document. |
| Schema.FillIdempotent | internal/configengine/tree.go:122-145 | Filling a filled document changes nothing. |
| Schema.FillKeepsValues | internal/configengine/tree.go:122-145 | Filling keeps every plain value, except one that stands where the schema has a section, which becomes an object. |
| Schema.HasDefaultsExact | internal/configengine/tree.go:106-145 | A section has defaults whenever filling the empty object gives anything; exactly then when no section carries a default of its own. |
| Schema.FillCommutesWithPatch | internal/configengine/tree.go:122-279 | Patching the stored document or the effective one, then filling, gives the same effective document. |
| Schema.FillCommutesNeedsPlainPresets | internal/configengine/tree.go:122-279 | The converse: every schema with a non-empty object default has a document and a patch for which the two differ. |
| Schema.EffectiveDocumentSuffices | internal/configengine/save.go:27-38 | After any sequence of saves the effective document depends only on the effective document before and the patches. |
| SaveEffects.EffectiveReads | internal/configengine/tree.go:122-145 | Every setting of the effective document reads as the stored document has it, and as its default when that does not have it. |
| Restart.FindProperty | internal/configengine/tree.go:293-310 | propertyAt walks to the schema node at the pointer's segments. |
| Restart.RestartDiff | internal/configengine/tree.go:335-380 | restartDiff lists, once each and with pointer, title and reason, exactly the restart leaves whose values differ. |
| Restart.EntriesDiff | internal/configengine/tree.go:335-380 | The map case lists the same over the union of the two documents' entries. |
| Restart.PropertyDiff | internal/configengine/tree.go:335-380 | The branches for one property: nested section, map, or flagged leaf. |
| Restart.FlaggedIsProperty | internal/configengine/tree.go:293-310 | propertyAt of every listed path is the flagged schema node. |
| Restart.DiffPathsExact | internal/configengine/tree.go:335-380 | The traversal reaches a path if and only if it is a restart leaf whose value differs. |
| Restart.DiffMapExact | internal/configengine/save.go:61-76 | The pointers one write adds to the pending list are exactly those of the restart leaves it changes. |
| Restart.EntryReads | internal/configengine/tree.go:212-222 | An entry's pointer, title and reason are those of the property that propertyAt finds; without a title it is named by its key. |
| SchemaWalks.FlaggedExactly | internal/configengine/tree.go:335-380 | The restart leaves, without recursion: a path names one if and only if a walk along it through properties and the entries of plain maps ends at a flagged property that is neither section nor map, or at a flagged plain entry. |
| Restart.FlaggedWithoutReason | internal/configengine/tree.go:178-205 | The lint of a load finds nothing if and only if every restart leaf that restartDiff could ever list has a reason. |
| ReadOnly.ReadOnlyPointers | internal/configengine/tree.go:224-254 | readOnlyPointers lists exactly the readOnly paths that the body sends, once each, whatever value is sent. |
| ReadOnly.EntryPointers | internal/configengine/tree.go:224-254 | The loop over a map's entries lists the readOnly paths sent inside them. |
| SchemaWalks.ReadOnlyExactly | internal/configengine/tree.go:224-254 | The readOnly paths in the same way: a walk that ends at a readOnly property and passes through none. |
| ReadOnly.ReadOnlyKeptExactly | internal/configengine/tree.go:224-279 | A patch that passes keeps a readOnly value of every document if and only if it sends objects along the way to it. |
| ReadOnly.KeptThroughObjects | internal/configengine/tree.go:256-279 | A patch that sends objects up to a key it does not send leaves the value below unchanged. |
| ReadOnly.LostWithoutObjects | internal/configengine/tree.go:256-279 | Any other patch that does not send the path removes a stored value there. |
| Deletions.CompletePatch | internal/configengine/save.go:192-211 | withMapDeletions' in-place writes give the patch with a null for every stored map entry it omits, at every level, and every value it sends as it is; what that stores is SectionSaveReads. |
| Deletions.AddDeletions | internal/configengine/save.go:174-190 | WithDeletions completes each top-level section of the body and leaves the others as they are; what that stores is SectionSaveReads. |
| Deletions.SectionSaveReplacesMaps | internal/configengine/save.go:174-211 | After a section save every map reached through properties holds exactly the keys the body gives a non-null value, entries merged; sections not named are unchanged. |
| Deletions.SectionSaveReads | internal/configengine/save.go:174-211 | A section save at every path of the stored document, for every schema, document and body: an entry that the body omits from a map reached through properties is gone, and every other path reads as after a plain merge of the body. |
| Deletions.SectionSaveKeepsTheRest | internal/configengine/save.go:174-211 | So every plain value of the body is stored, and of the paths it does not send exactly the omitted map entries are lost. |
| Hooks.HookErrors | internal/configengine/engine.go:153-168 | The loop finds no error if and only if every non-null leaf of the scope, read in the document, passes both hooks. |
| Rules.Nested | internal/config/validate.go:25-35 | nested descends to the object at the keys, the empty map when one is missing. |
| Rules.CheckStoragePath | internal/config/validate.go:37-75 | storagePathRules' branches and loops compute the specified answer. |
| Rules.DefaultRuleExact | internal/config/validate.go:37-75 | Exactly when an entry's default is refused: the built-in id, or two defaults, the entry looked up under its escaped id. |
| Rules.PathRuleExact | internal/config/validate.go:37-75 | Exactly when an entry's path passes: not the built-in id, absolute, and no other entry's path cleans to the same. |
| RuleAnswers.StorageRuleLooksAt | internal/config/validate.go:37-75 | Which leaves the storage rule looks at, by their paths: none outside its map, every one of the built-in id, which it refuses, and of other entries only path and default. |
| RuleAnswers.AppRulesExactly | internal/config/validate.go:79-94 | Exactly when a leaf of the app file passes, by its path: a bind address, a browser root or an application's path that is text must be an IP address or absolute. |
| RuleAnswers.MachinesRulesExactly | internal/config/validate.go:114-127 | Exactly when a leaf of the machines file passes: the subnet is a CIDR, and both storage rules pass. |
| RuleAnswers.StorageRulesExactly | internal/config/validate.go:128-136 | Exactly when a leaf of the storage file passes: its storage rule passes, and artifact paths are absolute. |
| Rules.CodeRulesCover | internal/config/validate.go:77-139 | Passing codeRules means passing the storage rule of each of the three storage-path maps. |
| Rules.WholeCheckGivesUnique | internal/configengine/engine.go:170-201 | A document whose every leaf was checked, and whose entries have paths, has no id with `/` or `~`, at most one default and no two entries with one folder. |
| Rules.IncrementalCheckKeepsSafeIds | internal/configengine/save.go:27-38 | Checking only the patch's leaves lets no id with `/` or `~` in, given that the schema asks every entry for a path. |
| Rules.IncrementalCheckKeepsUnique | internal/configengine/save.go:27-38 | Checking only the patch's leaves keeps ids safe and entries unique, whatever ids the patch holds. |
| Rules.FillKeepsEntries | internal/configengine/tree.go:122-145 | Filling defaults changes nothing inside a storage-path map. |
| LoginRules.LoginCheckedExactly | internal/config/validate.go:95-113 | For every document and scope: the login rules pass if and only if, when the document enables login, each of client id and issuer that the scope sends is proper. |
| LoginRules.SavedLoginLoadsExactly | internal/configengine/save.go:27-38 | An accepted save stores a document that the next load refuses if and only if it enables login with a blank client id, or with an issuer that is no https URL with a host, that the patch did not send; the schema makes such an issuer start with `https://`. |
| LoginRules.EnablingLoginIsCheckedLate | internal/config/validate.go:95-113 | The input: a patch that only enables login passes the login rules of a save for every document, and the whole-document check refuses an improper one. |
| Engine.Engine.constructor | internal/configengine/engine.go:77-89 | A new engine has nothing loaded and nothing pending. |
| Engine.Engine.Prepare | internal/configengine/save.go:27-38 | prepare answers the merged and filled drafts, and no error if and only if nothing readOnly is sent and schema and hooks pass. |
| Engine.Engine.Commit | internal/configengine/save.go:61-76 | commit stores file, both documents, pending entries and actor together, or nothing when the write fails; the returned list is exactly the write's changed restart leaves. |
| Engine.Engine.Save | internal/configengine/save.go:91-110 | Save's outcome and whole new state. Done, every path of the stored document reads as the body says and as before where it says nothing, the file reads back as it, the effective document is it filled, the actor has signed and every other name is kept; otherwise nothing changes. |
| Engine.Engine.SaveAll | internal/configengine/save.go:112-148 | SaveAll validates every patch against one state, then commits in list order up to the first failing write. |
| Engine.Engine.PrepareAll | internal/configengine/save.go:112-136 | The first loop: one draft per patched file, no error if and only if all are accepted. |
| Engine.Engine.CommitAll | internal/configengine/save.go:136-148 | The second loop commits exactly the drafts before the first failing write. |
| Engine.Engine.Restore | internal/configengine/save.go:150-171 | Restore leaves exactly the given document, its file and it filled, after checking every leaf of it, or changes nothing. |
| SaveEffects.SaveAnswers | internal/configengine/save.go:91-110 | The four answers of a save, each if and only if: the name is unknown; the patch sends something readOnly, or the effective document is invalid, or a leaf of the patch breaks a hook; the write fails; none of these. |
| SaveEffects.SaveStores | internal/configengine/save.go:27-110 | What a good save leaves at every path of the stored document, in its file, in the effective document, in the pending list with each entry, and of the other names. |
| SaveEffects.SaveKeepsTheRest | internal/configengine/save.go:91-110 | Every plain value of the body is read back from the stored document, and every value it leaves out is still there. |
| SaveEffects.SavePends | internal/configengine/save.go:61-110 | After a good save a restart leaf, reached by a walk down the schema, is pending with its title and reason when its effective value is another, and otherwise only if it was pending before. |
| SaveEffects.RestoreAnswers | internal/configengine/save.go:150-171 | The four answers of a restore, every leaf of the filled document being checked. |
| SaveEffects.RestoreStores | internal/configengine/save.go:150-171 | What a good restore leaves: the document itself, its file, it filled, and the restart leaves it changes pending. |
| SaveEffects.OtherwiseUnchanged | internal/configengine/save.go:91-171 | A save or restore that is unknown, bad or unwritten leaves the state as it was. |
| SaveEffects.AllAcceptedExactly | internal/configengine/save.go:112-136 | SaveAll is accepted if and only if each of its patches is good on its own against the one state before it. |
| SaveEffects.SaveAllSigns | internal/configengine/save.go:136-148 | SaveAll changes who modified last if and only if it is accepted and writes a file. |
| Engine.Engine.LoadOne | internal/configengine/engine.go:170-201 | loadOne keeps document and filled document only when the schema passes the lint and the document is readable, valid and passes the rules. |
| Engine.Engine.Load | internal/configengine/engine.go:203-217 | Load succeeds if and only if every file loads; those that do are kept even when another fails. |
| SaveEffects.LoadTakes | internal/configengine/engine.go:129-217 | What a load leaves of each name: the document in its file, the empty one for an empty file, when it passes; what was cached before when it does not pass or cannot be read. |
| Engine.Engine.ClearRestart | internal/configengine/engine.go:277-282 | ClearRestart empties the pending list and nothing else. |
| Engine.DiffListsMap | internal/configengine/save.go:61-76 | Filing the listed entries by pointer loses and repeats none. |
| EngineRuns.EveryRunIsCoherent | internal/configengine/save.go:40-171 | On every run from a successful load, each effective document is its raw document filled and is valid; without outside edits the files hold the raw documents. |
| EngineRuns.StepCoherent | internal/configengine/save.go:40-171 | Each single operation, refused, failed or done, keeps that coherence. |
| EngineRuns.ReloadChangesNothing | internal/configengine/engine.go:170-217 | Loading again what a run stored changes nothing. |
| EngineRuns.SaveAllStopsAtFailure | internal/configengine/save.go:112-148 | Name by name: a file holds its own patched document if and only if all patches are accepted and every patched file up to it in the list could be written; otherwise what it held before. |
| EngineRuns.PendingIsUnion | internal/configengine/engine.go:263-282 | In every run, outside edits, loads and clears included, a pointer is pending if and only if some write since the last clear changed the effective value of its restart leaf, or it was pending before and nothing was cleared. |
| EngineRuns.NoRestartForgotten | internal/configengine/engine.go:263-282 | After any clear of any run from a successful load without outside edits, every restart leaf that has changed since is pending. |
| EngineRuns.PendingIsComplete | internal/configengine/engine.go:263-282 | Every restart leaf whose effective value differs from what it was at the last clear is pending. |
| EngineRuns.EveryPendingHasReason | internal/configengine/engine.go:170-201 | Over every run from a successful load every pending restart entry has a reason. |
| EngineRuns.StorageUniqueOnEveryRun | internal/config/validate.go:37-75 | Over every run, outside edits included, no storage-path map has two defaults, two entries with one folder, or an id with `/` or `~`, although saves check patch leaves only. The evaluation of the schema is taken to refuse an entry without a path. |
| EngineRuns.StepKeepsStorage | internal/configengine/save.go:27-38 | Each single operation keeps that. |
| BootAgain.SavePassesWhole | internal/configengine/save.go:27-38 | For every file but auth: what a save stores passes the whole-document check of a load when what it found did, although only the patch's leaves were checked. The schemas' defaults are taken to pass. |
| BootAgain.NextLoadExactly | internal/configengine/engine.go:203-217 | After any run of saves, restores, refusals and failed writes without outside edits, the next load of all stored files succeeds if and only if the login settings in effect are proper. |
| Keys.KeyStore.constructor | internal/keys/keys.go:84-109 | A store starts from the file's list with an empty cache and a next id of at least one. |
| Keys.KeyStore.Create | internal/keys/keys.go:147-177 | Appends an active key with the next id, hash, description and role; a failed write rolls list and id back. |
| Keys.KeyStore.VerifyLookup | internal/keys/keys.go:187-208 | The first locked half: a hit answers the cached live key, otherwise a stale entry goes and the active keys are snapshot. |
| Keys.KeyStore.Scan | internal/keys/keys.go:208-216 | The unlocked scan finds the first match of the snapshot. |
| Keys.KeyStore.VerifyRecord | internal/keys/keys.go:216-240 | The second locked half caches and answers the live key, or no match when it is gone or revoked. |
| Keys.KeyStore.Delete | internal/keys/keys.go:274-299 | Removes the key and its cached digests unless it is the last active admin; a failed write does not undo it. |
| Keys.KeyStore.Revoke | internal/keys/keys.go:343-362 | Deactivates the key and drops its digests unless it is the last active admin; a failed write makes it active, whatever it was before. |
| Keys.FailedRevokeRestoresExactly | internal/keys/keys.go:355-360 | A failed revocation leaves the list as it was if and only if there is no such key or it was active; an inactive one it makes active. |
| Keys.KeyStore.Prune | internal/keys/keys.go:304-341 | Removes exactly the oldest carriers of the prefix beyond `keep`, less each that is the last active admin of the unpruned list. |
| Keys.KeyStore.Compact | internal/keys/keys.go:274-341 | The in-place compaction equals a filter of the old list. |
| Keys.KeyStore.Assign | internal/keys/keys.go:355-359 | The in-place update sets whether the first key with the id is active, and no other. |
| Keys.KeyStore.DropVerified | internal/keys/keys.go:366-372 | Deletes exactly the cached digests of the key. |
| Keys.KeyStore.FindKey | internal/keys/keys.go:375-382 | Finds the first key with the id. |
| Keys.KeyStore.IsLastActiveAdmin | internal/keys/keys.go:386-396 | True if and only if the key is an active admin and no other key is. |
| KeyRuns.EveryInterleavingIsSound | internal/keys/keys.go:147-372 | Over every interleaving, with writes failing anywhere, ids stay unique, increasing and below the next id, and every cached digest names a live active key that matches its key material. |
| KeyRuns.EveryRunFromFileIsSound | internal/keys/keys.go:84-109 | The same from any well-formed file as it is opened. |
| KeyRuns.CacheAlwaysHits | internal/keys/keys.go:187-200 | In every such run a cached digest always hits; the stale-entry branch is unreachable. |
| KeyRuns.AnswersAreLive | internal/keys/keys.go:187-240 | In every such run a returned key is active and matches at the moment of the answer, although the scan ran unlocked. |
| KeyRuns.EveryInterleavingKeepsInv | internal/keys/keys.go:147-372 | Over every interleaving in which no failing revocation names an inactive key, every cached digest names the first active match of its key material, and every snapshot still covers the older active keys. |
| KeyRuns.EveryRunFromFileKeepsInv | internal/keys/keys.go:84-109 | The same, under that condition, from any well-formed file as it is opened. |
| KeyRuns.RevivalKeepsInvExactly | internal/keys/keys.go:355-360 | The step that revives a key keeps that if and only if no cached digest of its material names a later key and every snapshot that is old enough has the key. |
| KeyRuns.CacheRefinesScan | internal/keys/keys.go:187-208 | Under that invariant a cached digest answers what a full scan would. |
| KeyRuns.AnswersAreScans | internal/keys/keys.go:187-240 | Under that invariant a returned key is the first active match at the moment of the answer; a refusal means the snapshot had no match or its match is no longer active. |
| KeyEffects.CreateStores | internal/keys/keys.go:147-177 | After a written create the next id finds an active key with that hash, description and role, every old key is in its place, and every other id finds what it did; an unwritten one changes nothing. |
| KeyEffects.DeleteExactly | internal/keys/keys.go:274-299 | A delete loses the key with the id and its cached digests, every other key staying as it is and in order; a sole active admin, or an id no key has, changes nothing. |
| KeyEffects.RevokeExactly | internal/keys/keys.go:343-362 | A revocation changes whether that one key is active, in its place, and drops its digests. |
| KeyEffects.PruneExactly | internal/keys/keys.go:304-341 | A prune loses exactly the carriers of the prefix that at least `keep` carriers are newer than, but for a sole active admin; every other key stays as it is and in order. |
| KeyEffects.LookupDropsStale | internal/keys/keys.go:187-208 | On any store the first locked half leaves the digest out of the cache unless it names a live active key, and changes nothing else. |
| KeyEffects.OnlyMatchIsAnswered | internal/keys/keys.go:187-240 | Verify of material that one active key alone matches answers that key: at once from the cache, or by a scan that finishes in any later world in which the key is still live, and is then cached. |
| KeyEffects.CreatedKeyVerifies | internal/keys/keys.go:147-240 | Create, then Verify: the new key is answered, by the scan first and from the cache after it. |
| KeyRuns.RemovalIsGone | internal/keys/keys.go:274-362 | A deleted key is no longer in the list and a revoked one not active, and the id is never given again. |
| KeyRuns.StaysGoneExactly | internal/keys/keys.go:147-362 | An id without an active key stays so at every step but a failing revocation of an inactive key with that id. |
| KeyRuns.DeletedIsNeverReturned | internal/keys/keys.go:187-299 | A deleted key is never returned in any later interleaving, not even by a scan already under way. |
| KeyRuns.GoneIsNeverReturned | internal/keys/keys.go:187-362 | Nor is a revoked key, in any later interleaving in which no failing revocation names it while inactive; what other keys meet makes no difference. |
| KeyRuns.RevokedKeyReturns | internal/keys/keys.go:355-360 | The input on which it is returned: revoked, and revoked again with a write that fails. |
| KeyRuns.RevivedKeyIsFirst | internal/keys/keys.go:355-360 | The input on which the cache answers another key than a full scan. |
| KeyRuns.GuardKeepsAdmin | internal/keys/keys.go:274-396 | Create, Delete, Revoke and Verify keep an active admin whenever there was one. |
| KeyRuns.PruneKeepsAdminExactly | internal/keys/keys.go:304-341 | A prune leaves an active admin if and only if there was a sole one, or one that is not among the carriers it is after. |
| KeyRuns.PruneCanLockOut | internal/keys/keys.go:304-341 | Two admins that both carry the prefix and are old enough go together. |
| Dpop.Seen.Remember | internal/dpop/dpop.go:76-90 | The purge loop and the insertion: exactly the ids unexpired by the monotonic clock and the new one stay. |
| Dpop.Seen.Verify | internal/dpop/dpop.go:159-232 | The outcome and the store after a proof, its window by the wall clock; only a proof that passed every other check touches the store. |
| Dpop.ChecksExactly | internal/dpop/dpop.go:159-232 | Section 4.3 of RFC 9449: a proof reaches the store if and only if it is signed, covers the request and is bound; a binding error means that only the binding is missing. |
| Dpop.StaysRemembered | internal/dpop/dpop.go:76-90 | An accepted id stays in the store until a call reaches the store at or after its expiry. |
| Dpop.AcceptedAgainExactly | internal/dpop/dpop.go:76-90 | An id that no call between brought is accepted again if and only if some call since, or the second itself, reached the store at or after the first entry's expiry. |
| Dpop.NoReplay | internal/dpop/dpop.go:18-232 | In no run is one proof, or one id with one issue time, accepted twice, calls reaching the store in any order, as long as from a call to each later one the monotonic readings up to it gain less than 180 s on the wall clock. |
| Dpop.OneClockIsBounded | internal/dpop/dpop.go:18-29 | With one clock for both: any run in which no reading is 180 s or more below an earlier one is such a run. |
| Dpop.SteadyClocksAreBounded | internal/dpop/dpop.go:18-29 | So is any run with a forward monotonic clock that the wall clock never falls 180 s behind. |
| Dpop.DriftReplays | internal/dpop/dpop.go:18-90 | For every drift of 180 s or more, every proof that is good at all is accepted twice by two calls with that drift. |
| Migrations.Connection.Migrate | internal/db/db.go:209-238 | The loop applies the scripts not yet applied, each committed with its version or not at all, and stops at the first fault. |
| Migrations.MigrateKeepsFold | internal/db/db.go:209-238 | Wherever it stops, the database is the fold of the first user_version scripts; success means all; a newer database is refused unchanged. |
| Migrations.MigrateStopsExactly | internal/db/db.go:209-238 | Success if and only if every turn goes through, a commit reported as failed included; otherwise it stops at the first that does not, with that script applied only when the error came after its commit. |
| Migrations.OpeningsKeepFold | internal/db/db.go:209-238 | The same after any openings by builds whose lists are prefixes of one list. |
| Migrations.PathIndependence | internal/db/db.go:209-238 | However a database got there, a successful opening leaves what a fresh one by the same build has. |
| Migrations.ExtensionUpgrades | internal/db/db.go:209-238 | For every database whose scripts run, upgrading to a list that extends the old one gives what opening afresh does. |
| Migrations.UpgradeMatchesFreshExactly | agent_setup.go:177-194 | Upgrading equals a fresh opening for every database whose scripts run if and only if the new list extends the old one. |
| Progress.ProgressScanner.Scan | internal/machines/progress_scan.go:45-70 | One chunk: reports its complete lines in order, keeps the rest, cut to its last 4096 once over 64 KiB; other streams change nothing. |
| Progress.ProgressScanner.Drain | internal/machines/progress_scan.go:45-70 | The loop consumes exactly the complete lines. |
| Progress.LinesRebuild | internal/machines/progress_scan.go:45-70 | The lines and the rest, joined by newlines, are the text, and none holds a newline. |
| Progress.TruncatedExactly | internal/machines/progress_scan.go:59-65 | An unfinished line over 64 KiB is cut to its last 4096, any other kept whole. |
| Progress.ReportsInOrder | internal/machines/progress_scan.go:45-99 | The reports are those of the lines that report something, one each, in order. |
| GoStrings.IndexExactly | internal/machines/progress_scan.go:72-76 | The marker that is looked for is the first one, and none is found only when there is none. |
| Progress.ReportExactly | internal/machines/progress_scan.go:72-99 | A line reports exactly so: the first marker, a payload up to its last closing brace, a percentage within 0 and 100 reported to the nearest whole number, halves up, and the caption, else what runs, else completion. |
| Progress.UpToBraceExactly | internal/machines/progress_scan.go:77-80 | The payload is cut after its last closing brace, and not at all without one. |
| Progress.BufferRefinesStream | internal/machines/progress_scan.go:45-70 | For every stream and chunking: as many lines as the whole stream has, each the true one or a suffix of one over 64 KiB; the buffer never exceeds 64 KiB. |
| Progress.ChunkingDoesNotMatter | internal/machines/progress_scan.go:45-99 | With no line over 64 KiB the reports are those of the whole stream's lines, whatever the chunks and the stderr between. |
| Progress.ChunkingExactly | internal/machines/progress_scan.go:45-70 | The bound is exact: the scanned lines are those of the text for every chunking if and only if no complete line exceeds 64 KiB. |
| Progress.ScanAll | internal/machines/progress_scan.go:34-70 | A scanner fed chunk by chunk has exactly those reports and that buffer. |
| OrderedJson.Encode | internal/machines/create_exec_document.go:295-340 | The printer's loops over members and items write the printed form, keys in their order. |
| OrderedJson.PrintThenRead | internal/machines/hostsyml.go:172-229 | Reading the printed form of any ordered tree, floats as they are written included, gives the tree back and leaves the rest of the input unconsumed, whatever it is; after a bare number it must not continue the number. |
| OrderedJson.BodyRoundTrip | internal/machines/create_exec_document.go:295-340 | Every string, escapes and all, is read back from its quoted form (section 7 of RFC 8259). |
| OrderedJson.NumberRoundTrip | internal/machines/hostsyml.go:180-229 | Every 64-bit integer is read back as itself, not as a float. |
| OrderedJson.NumberReads | internal/machines/hostsyml.go:217-225 | Every number of the grammar of RFC 8259 is read whole: as an integer when it is written as one of 64 bits, else with its fraction and exponent. |
| StoredDocument.Decoder.Value | internal/machines/hostsyml.go:172-229 | The consuming decoder refines the reading function, value and remaining input. |
| StoredDocument.Decoder.Members | internal/machines/hostsyml.go:180-229 | The loop of the object case: the same for its members. |
| StoredDocument.Decoder.Items | internal/machines/hostsyml.go:180-229 | The loop of the array case: the same for its items. |
| StoredDocument.StoreDocument | internal/machines/hostsyml.go:62-163 | Refused with nothing stored unless the root is a mapping of document sections of the right shapes; else every section is replaced. |
| StoredDocument.Collect | internal/machines/hostsyml.go:90-104 | The loop refuses bookkeeping and unknown keys and collects the rest, a repeated key with its last value. |
| StoredDocument.WellShapedExactly | internal/machines/hostsyml.go:90-119 | Which documents have an accepted shape: every key is a section, and its last value is null, a list for the networks, a mapping for any other. |
| StoredDocument.StoreSections | internal/machines/hostsyml.go:142-154 | The loop replaces each given section and deletes each absent one. |
| StoredDocument.ReadDocument | internal/machines/hostsyml.go:23-42 | Decodes the stored sections in the fixed order; fails if one does not decode. |
| StoredDocument.DocumentExactly | internal/machines/hostsyml.go:23-42 | The document is read if and only if every stored section decodes. |
| StoredDocument.StoreThenRead | internal/machines/hostsyml.go:23-163 | For every document and key: a section it names is read back once, in the fixed order, with the value and key order of the last member of that name, which is what its stored bytes read as; a section it does not name is neither stored nor read back; every other key's bytes stay. |
| Scan.ArtifactStore.RecordIngested | internal/assets/assets_artifact_store.go:255-293 | Inserts a row, or updates the row of the same identity and keeps its expectation. |
| Scan.ArtifactStore.MarkMissing | internal/assets/assets_artifact_store.go:421-425 | Clears the row's presence and nothing else; no row, no change. |
| Scan.ArtifactStore.DeleteRow | internal/assets/assets_artifact_store.go:446-449 | Removes the row and no other. |
| Scan.Expecting | internal/assets/assets_artifact_store.go:347-356 | The first row by id of the role that expects the hash, among the present or the missing ones. |
| Scan.ArtifactStore.KnownByPath | internal/assets/scan.go:145-154 | The lookup map answers, at each path, the last row of the location in the order in which the query happens to list them. |
| Scan.ArtifactStore.RefreshFiles | internal/assets/scan.go:156-193 | The first loop, against the list read before it. |
| Scan.ArtifactStore.SettleRows | internal/assets/scan.go:195-219 | The second loop, over the list read before the first. |
| Scan.ArtifactStore.ScanLocation | internal/assets/scan.go:131-219 | The table after a scan, whichever hashes and writes fail. |
| ScanEffects.NewKindTold | internal/assets/scan.go:99-114 | The kind of a new file by the table: the location's own in a flat one, else the registry's for the hash, else that of the first row by id of the role that expects it, present rows before missing ones, else the name's. |
| ScanEffects.TurnWrites | internal/assets/scan.go:156-193 | One turn of the first loop: a known, present file of the same size is left alone unless checksums are verified, as is one that cannot be hashed or recorded; any other is written into one row, under the known row's kind or the one the table tells. |
| ScanEffects.NewFileKind | internal/assets/scan.go:99-193 | After the first loop a file at whose path no row lay, and whose kind is settled, has a row that says what is on the disk, under the kind the table before the scan tells. |
| ScanEffects.GoneFileSettled | internal/assets/scan.go:195-219 | The second loop, row by row: a gone file's row is removed when orphans are and nothing expects it, present or not, else marked missing; a failed write leaves it. |
| ScanRuns.ScanFramed | internal/assets/scan.go:131-219 | No scan alters an expectation, deletes a row that has one, changes an identity or touches another location's rows. |
| ScanLimits.OneScanCanUndo | internal/assets/scan.go:195-219 | One scan can delete, or mark missing, the row it has just registered at the file's path. |
| ScanLimits.CollisionsNeedMoreScans | internal/assets/scan.go:145-193 | Two rows at other files' paths, which no writer leaves: after two scans a found file still has no row. |
| ScanConvergence.AnyTableConverges | internal/assets/scan.go:131-219 | From every table, with k rows of found files at other found files' paths, k + 2 scans reach a table in which every file has its row and which further scans leave as it is. |
| ScanConvergence.TwoScansConverge | internal/assets/scan.go:131-219 | Without such rows, whatever stale paths there are, two scans are enough and a third changes nothing. |
| ScanConvergence.JoinedPathsConverge | internal/assets/assets.go:113-128 | So they are from every table whose rows at found files' paths have the file's name and, in a role-keyed location, its role, as PathFor joins them; then every present row has its file too. |
| ScanConvergence.OneScanSettles | internal/assets/scan.go:195-219 | After one scan from any table the second loop never finds anything to do again. |
| ScanConvergence.UnmovedIsStable | internal/assets/scan.go:156-193 | A scan of a settled table that moves no row away from another file's path leaves a stable table. |
| OneScan.OneScanExactly | internal/assets/scan.go:131-219 | Exactly when one scan is enough, without such rows: when its first loop rewrites no row that its second loop removes or marks missing. |
| TableScan.TableScanExactly | internal/assets/scan.go:100-219 | Where the kinds are settled before the scan, by a flat location, a registry or agreeing expectations: one scan is enough if and only if no row the second loop is after holds the identity a file will be registered under, all read before the scan. |
| TableScan.FlatKindsAreFixed | internal/assets/scan.go:100-114 | In a flat location they always are. |
| OneScan.CanonicalScanConverges | internal/assets/scan.go:131-219 | With canonical paths one scan is enough. |

## Left out

- Order of lists: `sortEntries` and the sorted pointers; the listings are stated as sets without repetition.
- Logging: `unknownKeys`, which pointers `flaggedWithoutReason` names, and every log line.
- Refused saves: that there are errors is modelled exactly, which parameters each error carries is not.
- Engine surroundings: `.bak` files, the time of the last change, the after-write function, the setup token, uploads and
  locks. Runs start from a successful load; outside edits of files are part of them.
- The hooks of the engine beyond `codeRules`: any function may stand for them.
- Aliasing of Go maps and pointers: documents and keys are values.
- Numbers of configuration documents are integers, and two values are the same when they are equal; the source compares
  their JSON encodings.
- The schema evaluator, and the YAML codec, which is taken to return what was stored.
- Library predicates of the rules (IP, CIDR, URL, path cleaning) and of the role-keyed kinds: functions of a record.
- Keys.KeyStore.Prune: a negative `keep` is not modelled.
- Keys: names, roles' validity, time stamps, bcrypt's cost and key truncation; the digest is abstract and, where the cache
  theorems need it, injective. The store's file is not part of the state: a store opened from disk is a new run from its
  constructor, and what a failed write left on disk is not followed.
- Dpop: decoding, hashing, URL normalisation and the curve are abstract, as are their own error values; lengths are in
  characters.
- Migrations: `Open`, `configure` and the pragmas. A transaction commits as a whole or not at all.
- Progress: JSON decoding and trimming are abstract, and characters stand for bytes.
- OrderedJson: floats are kept as written, not formatted and not refused for their size; keys are strings; text is a
  sequence of characters, so invalid UTF-8 does not occur. The token machine of `encoding/json` is a recursive-descent reader of the same grammar.
- StoredDocument: the device checks between parsing and storing are one predicate; parsing the YAML text, warnings and the
  serialisation of the section map are not modelled.
- Scan: the listing of the directory, result counters, messages, cancellation, size statistics, and the time, version,
  source and registry columns. Found files have a path, as the listing gives them one. `AdoptOrphanRows` itself is left
  out: the convergence theorems start from any table, so from what it leaves too.
- ScanConvergence.AnyTableConverges: the query for a location's rows names no order; the theorems hold for every order that
  is the same in each scan, and say nothing of one that changes between scans.
- HTTP routes, OIDC flows, hypervisor drivers, queued operations and everything else that mostly calls outside programs.
