# Verified model of the consent and personal-knowledge core

This project models the parts of the consent protocol whose correctness does not show in any
single function: the editing of a decrypted knowledge domain and its undo, consent tokens and
scopes, the consent ledger, the connection pool, the query builder and its upsert, the
notification fan-out, the debate stream and its history, the bulk ticker import, the audit of a
payload's shape, and the offline placeholder translation. Each module states what the code is
for, and proves it over all inputs, all runs or all interleavings. Where a promise does not hold
of the code, the module says exactly when it does and gives a case where it does not.

| module | part of the system |
|---|---|
| `Text`, `Json`, `Encoding` | Python's string operations, JSON values, UTF-8 and base64url (section 5 of RFC 4648) |
| `ScopeGrammar`, `ScopeAuthority` | the scope patterns, scope matching and access checks |
| `ConsentToken` | building, validating and revoking consent tokens |
| `DomainMerge`, `EntityEdit`, `EntityCount` | the recursive merge, the edits of entities as functions on trees, and what is counted in them |
| `PreviewEdit` | what a preview's edit means, by the word it names and by looking paths up before and after |
| `DomainTree` | the same edits on mutable dicts in the heap, proved to be those functions |
| `DomainBackup` | first-write-wins backups, readable summaries, and the restore at the end of a run |
| `ConsentEvents`, `ConsentLedger` | the insertion of events into the two tables, and the views that read them |
| `PoolSingleton`, `OfflineDb` | pool creation under interleaving; the offline pool and `$n` translation |
| `QueryBuilder`, `TableUpsert` | filters compiled to conditions and parameters, and upserts |
| `QueryText`, `QueryRead` | the text of the clauses, and a reader of such text that knows SQL's own words |
| `ConsentListener` | bounded drop-oldest queues and the registry of subscribers |
| `SseParser`, `DebateHistory` | the event-stream reader and the bounded history |
| `TickerRows`, `TickerImport` | building the rows of the import; batches, retries and the row merge |
| `PayloadShape`, `PayloadMeaning`, `PayloadHiding` | the structural summary of a payload, what it says of the payload, and which keys it hides |

`dafny verify dfyconfig.toml` checks everything.

## Assumptions

- `issued_at` grows strictly from one ledger event to the next.
- The MAC is a function from payload text to a digest; where it matters, the digest is made of
  64 hexadecimal characters. Such a function cannot be free of collisions, so results about
  signatures say what a collision of the very texts at hand would mean.
- `json.loads`, `str()` of values that are not strings, encryption, and Unicode's tables for
  lower and upper case, letters and digits are parameters.
- The knowledge server keeps a map of blobs, one of manifests and one of summaries, and serves
  every request of a restore.
- A JSONB value reads back as the text that was written. PostgreSQL's driver refuses a text for a
  BIGINT column; SQLite takes any value in any column, and drops what no one commits.
- A database transaction commits or leaves its table as it was. A commit may succeed although
  its acknowledgement is lost.
- A coroutine runs without interruption between two `await` points at which it can suspend.

## Where the code and its documentation part

- `get_offline_pool` is documented to return an initialized instance; a second caller that comes
  while the first is loading the schema gets one that is not (`OfflineDb.SecondCallerMayGetUnloaded`).
- `is_token_active` without an agent looks at the last agent's event alone, and can deny a scope
  of which `get_active_tokens` lists a live token (`ConsentLedger.ActiveWithoutAgentMisses`).
- `get_pending_requests` and `get_pending_by_request_id` read a zero poll timeout and the expiry
  differently (`ConsentLedger.PendingViewsAgree`, `ConsentLedger.ExpiredIsOnlyListed`,
  `ConsentLedger.ZeroTimeoutIsOnlyLookedUp`).
- `insert_event` of `db/consent.py` is documented to insert a consent event. For `consent_audit` it
  binds `poll_timeout_at` and `metadata` to each other's columns: PostgreSQL refuses the statement,
  and the offline pool runs it and never commits, so that no external event is stored
  (`ConsentEvents.ExternalIsNeverStored`, `ConsentEvents.DeveloperRequestIsRefused`).
- Internal events are documented to go to the internal ledger; the service puts them into
  `consent_audit` when that table is missing, and there they count as consents (`ConsentLedger.FallbackMakesActive`).
- Retired scopes are documented to authorize nothing; `check_access` grants them, and the whole
  vault's owner every one of them (`ScopeAuthority.RetiredIsGranted`).
- Local revocation is documented to stay strict; it ends one spelling of a token, and the decoder
  accepts others (`ConsentToken.RevokedSpellings`, `ConsentToken.RespelledIsAccepted`).
- The audit of a payload is documented to show redacted paths only; its noisy findings show the
  whole key in lower case, even one that names data (`PayloadHiding.NoisyKeyIsShown`).
- A column or table whose quoted name holds a placeholder, such as one that starts with a colon,
  adds a parameter to the text that the dictionary does not have (`QueryText.ColonFirstIsTaken`).
- Two `close_pool` calls at once can leave two open pools (`PoolSingleton.TwoClosesOpenTwo`).
- Names that contain `|` make two different sets of claims share a token
  (`ConsentToken.SeparatorCollision`); `validate_token` refuses all such tokens.
- An upsert of rows with a null in their conflict columns inserts them again every time
  (`TableUpsert.UpsertDataTwice`).

## Model

| member | source | states |
|---|---|---|
| DomainMerge.DeepMerge | scripts/local_pkm_core_path_smoke.py:192-201 | the merging loop computes the merge that the laws below are about |
| DomainMerge.MergeSelf | scripts/local_pkm_core_path_smoke.py:192-201 | merging any tree into itself changes nothing |
| DomainMerge.MergeEmpty | scripts/local_pkm_core_path_smoke.py:192-201 | the empty object is neutral on both sides of an object |
| DomainMerge.MergeAbsorbs | scripts/local_pkm_core_path_smoke.py:192-201 | the result is the patch itself exactly when the base has nothing of its own along the objects of the patch |
| DomainMerge.MergeTwice | scripts/local_pkm_core_path_smoke.py:192-201 | applying the same patch twice is applying it once |
| DomainMerge.MergeAssociative | scripts/local_pkm_core_path_smoke.py:192-201 | the merge is associative exactly on the triples that have no object, non-object, object along one path |
| DomainMerge.NotAlwaysAssociative | scripts/local_pkm_core_path_smoke.py:192-201 | a triple on which it is not |
| DomainMerge.MergeAt | scripts/local_pkm_core_path_smoke.py:192-201 | the value at every path of the result, from the values in patch and base |
| EntityEdit.NormalizedPath | scripts/local_pkm_core_path_smoke.py:204-207 | a normalized path splits into clean segments, and normalizing again changes nothing |
| EntityEdit.ExtractPatchValue | scripts/local_pkm_core_path_smoke.py:210-219 | the walk returns the value at the normalized path, null where the path leaves the payload |
| EntityEdit.ContainerLaws | scripts/local_pkm_core_path_smoke.py:222-237 | reading back a container that was put, and putting twice, on every path |
| EntityEdit.WithContainerAt | scripts/local_pkm_core_path_smoke.py:222-237 | lookup after a container is put: new below it, old beside it, dicts on the way |
| EntityEdit.CorrectTouchesOneEntity | scripts/local_pkm_core_path_smoke.py:297-354 | a correction replaces exactly one entity, every diverging path answers as before |
| EntityEdit.DeleteTouchesOneEntity | scripts/local_pkm_core_path_smoke.py:297-354 | a deletion removes exactly one entity, and `entities` exactly when it held nothing else |
| EntityEdit.CountEntities | scripts/local_pkm_core_path_smoke.py:240-256 | the recursive counting loops compute the count the laws below are about |
| EntityEdit.CountAtPath | scripts/local_pkm_core_path_smoke.py:240-256 | what replacing the dict at any path does to the count of the whole tree |
| EntityEdit.DeleteLowersCount | scripts/local_pkm_core_path_smoke.py:240-256 | by exactly how much a deletion lowers the count, in every case |
| EntityEdit.DeleteLowersCountPlainly | scripts/local_pkm_core_path_smoke.py:240-256 | on plain scopes: by the entity's own count, plus one if it was active |
| EntityEdit.DeleteUndoesCorrect | scripts/local_pkm_core_path_smoke.py:297-354 | deleting a newly added entity restores the tree exactly when its container stood and `entities` was absent or not empty |
| EntityCount.CountMeaning | scripts/local_pkm_core_path_smoke.py:240-256 | the count is the number of places, at any depth and through any list, at which an `entities` dict holds a dict that is not marked deleted |
| PreviewEdit.ApplyMeaning | scripts/local_pkm_core_path_smoke.py:297-354 | for each mode word, by lookup at every path: correction takes the patch's entity, deletion leaves nothing there, the others and the fallbacks merge, any other word changes nothing |
| PreviewEdit.EditedIsExact | scripts/local_pkm_core_path_smoke.py:297-354 | these lookups leave only one result: no two trees answer them |
| PreviewEdit.ReadPreviewMeaning | scripts/local_pkm_core_path_smoke.py:303-315 | where in the preview the mode word, the scope, the entity's id and the candidate stand |
| DomainTree.PutFits | scripts/local_pkm_core_path_smoke.py:222-237 | a change confined to the dicts of a subtree changes exactly the value at its path |
| DomainTree.LiftEdit | scripts/local_pkm_core_path_smoke.py:297-354 | an in-place edit of a subtree, seen from the root of the dicts |
| DomainTree.EnsureScopeContainer | scripts/local_pkm_core_path_smoke.py:222-237 | in-place creation leaves the tree with a dict at every step of the path and returns the one at its end |
| DomainTree.CorrectEntity | scripts/local_pkm_core_path_smoke.py:297-354 | the in-place correction turns the tree into the corrected one |
| DomainTree.RemoveEntity | scripts/local_pkm_core_path_smoke.py:297-354 | the in-place removal, and that of an emptied `entities` |
| DomainTree.DeleteEntity | scripts/local_pkm_core_path_smoke.py:297-354 | the deletion branch makes its containers, reports whether there was an entity, and deletes it |
| DomainTree.ApplyPreview | scripts/local_pkm_core_path_smoke.py:297-354 | copy, edit in place or merge, read out: the tree it returns answers every lookup as the mode word demands |
| DomainBackup.CorePathSmoke.BackupDomain | scripts/local_pkm_core_path_smoke.py:168-179 | a backup is kept only of a domain that has none |
| DomainBackup.BuildSummary | scripts/local_pkm_core_path_smoke.py:270-295 | the counting and updating makes the summary the laws below are about |
| DomainBackup.SummaryMeaning | scripts/local_pkm_core_path_smoke.py:259-295 | a summary keeps the source label and all other keys of the one before, and counts the data's entities |
| DomainBackup.SummaryShows | scripts/local_pkm_core_path_smoke.py:259-295 | each key of a summary: both counts are the number of places with an entity that is not deleted, or 1 for data without any; the cut texts, the label, the clock; the rest is taken over |
| DomainBackup.CorePathSmoke.StorePreviewResult | scripts/local_pkm_core_path_smoke.py:356-397 | backup, decryption, edit, encryption, summary and post in one step of the state |
| DomainBackup.WriteMeaning | scripts/local_pkm_core_path_smoke.py:356-397 | what is posted: a blob whose content is the edit, by lookup, of what the stored blob decrypts to, and the draft of the manifest |
| DomainBackup.StoredMeaning | scripts/local_pkm_core_path_smoke.py:356-397 | what the server holds after the call: those for this domain if the request went through, all else as before |
| DomainBackup.SummariesDescribeBlobs | scripts/local_pkm_core_path_smoke.py:356-397 | after any run a written domain's summary counts the stored blob and builds on the domain's first summary |
| DomainBackup.CorePathSmoke.RestoreDomains | scripts/local_pkm_core_path_smoke.py:517-539 | every backed-up domain is restored, no other is touched |
| DomainBackup.BackupIsInitial | scripts/local_pkm_core_path_smoke.py:168-179 | over any run, a domain's backup is its state before the first write |
| DomainBackup.UndoOverRuns | scripts/local_pkm_core_path_smoke.py:517-539 | after any run and a restore, exactly which domains have their initial blob and manifest again |
| DomainBackup.UndoExactly | scripts/local_pkm_core_path_smoke.py:517-539 | after any run and a restore, the blob, manifest and summary of every domain, from the tables before the run |
| Encoding.Utf8RoundTrip | scripts/emit_hct_golden_vectors.py:62-79 | UTF-8 decoding undoes encoding on every text |
| Encoding.Base64RoundTrip | scripts/emit_hct_golden_vectors.py:62-79 | base64url decoding undoes encoding on every byte string |
| Encoding.AlphabetMeaning | scripts/emit_hct_golden_vectors.py:62-79 | the symbols are those of section 5 of RFC 4648, in its order |
| Encoding.GroupMeaning | scripts/emit_hct_golden_vectors.py:62-79 | each four symbols spell the 24 bits of three bytes, the first byte first |
| ConsentToken.FrameBuilt | scripts/emit_hct_golden_vectors.py:62-79 | splitting a built token on `:` and `.` gives prefix, payload and digest, and the payload decodes |
| ConsentToken.UniquelyDecodable | scripts/emit_hct_golden_vectors.py:62-79 | all six inputs are recovered exactly when no name holds the separator |
| ConsentToken.BuildInjective | scripts/emit_hct_golden_vectors.py:62-79 | on such names the encoder is injective |
| ConsentToken.SeparatorCollision | scripts/emit_hct_golden_vectors.py:62-79 | two different sets of claims with one token |
| ConsentToken.IssueThenValidate | hushh_mcp/consent/token.py:110-180 | the complete verdict of validation on every issued token, its expiry being the explicit one if one is given and the lifetime's end otherwise |
| ConsentToken.WhenIssued | hushh_mcp/consent/token.py:110-180 | exactly when a token is issued: an explicit expiry lies in the future, the scope is not retired, and is reserved and active or passes the check of its segments |
| ConsentToken.WhenAccepted | hushh_mcp/consent/token.py:203-321 | exactly which strings are accepted, by the fields of the payload they decode to |
| ConsentToken.AcceptedIsAuthentic | hushh_mcp/consent/token.py:203-321 | what holds of every accepted token, however it was made |
| ConsentToken.SignatureFixesClaims | hushh_mcp/consent/token.py:203-321 | two accepted tokens with one signature state the same claims, or the two texts they sign collide |
| ConsentToken.RevocationCache.EvictExpired | hushh_mcp/consent/token.py:81-86 | the eviction loop keeps exactly the unexpired entries and counts the others |
| ConsentToken.RevocationCache.Add | hushh_mcp/consent/token.py:43-53 | no revocation is dropped for space |
| ConsentToken.RevocationCache.Contains | hushh_mcp/consent/token.py:55-67 | a lookup answers for the token and forgets only expired entries |
| ConsentToken.RevocationCache.ValidateToken | hushh_mcp/consent/token.py:203-321 | validation against the cache |
| ConsentToken.HeldUntil | hushh_mcp/consent/token.py:88-98 | until when a revocation is held: an hour past the token's expiry, or past the default lifetime of a string without one |
| ConsentToken.AcceptedSpellings | hushh_mcp/consent/token.py:203-321 | collisions with the payload aside, the strings accepted with its signature are exactly those that decode to it, while the claims pass |
| ConsentToken.RespelledSpells | hushh_mcp/consent/token.py:234-246 | any character outside the base64 alphabet makes another such string |
| ConsentToken.RevokedForever | hushh_mcp/consent/token.py:21-98 | no run of revocations and lookups lets a revoked string be accepted again |
| ConsentToken.RevokedSpellings | hushh_mcp/consent/token.py:21-98 | once a token alone is revoked, the strings still accepted with its signature are, collisions aside, exactly its other spellings |
| ConsentToken.RespelledIsAccepted | hushh_mcp/consent/token.py:223-246 | a token that is revoked and then accepted with one character added |
| ConsentToken.OnlyRevokedAreHeld | hushh_mcp/consent/token.py:21-98 | a token nobody revoked is never held |
| ScopeGrammar.DynamicPatternMeaning | hushh_mcp/constants.py:77-84 | the dynamic pattern accepts exactly what splitting on dots and checking segments accepts |
| ScopeGrammar.ParsePrint | hushh_mcp/constants.py:77-84 | parsing undoes printing on every well-formed scope |
| ScopeGrammar.PrintParse | hushh_mcp/constants.py:77-84 | printing undoes parsing, and only well-formed scopes are parsed |
| ScopeGrammar.ExternalPatternMeaning | hushh_mcp/constants.py:87-97 | the external pattern is exactly one semantic branch with a wildcard |
| ScopeGrammar.ExternalIsSafe | hushh_mcp/constants.py:87-97 | what may be requested from outside is the invocation capability or dynamic, never internal or retired |
| ScopeGrammar.DynamicResolvesToItself | mcp_modules/config.py:93-117 | every dynamic scope is returned unchanged after trimming |
| ScopeGrammar.ResolvedIsNeverInternal | mcp_modules/config.py:93-117 | nothing resolves to an internal or retired scope, or to anything but its trimmed self |
| ScopeAuthority.ParsePrinted | hushh_mcp/consent/scope_generator.py:163-203 | the generator's parser reads back every printed scope |
| ScopeAuthority.MatchesReflexive | hushh_mcp/consent/scope_generator.py:793-822 | a scope satisfies itself exactly when it is not retired |
| ScopeAuthority.MatchesTransitive | hushh_mcp/consent/scope_generator.py:793-822 | matching is transitive on all strings |
| ScopeAuthority.DomainIsolation | hushh_mcp/consent/scope_generator.py:793-822 | an attr scope never satisfies a request outside its domain |
| ScopeAuthority.MatchesIsInclusion | hushh_mcp/consent/scope_generator.py:793-822 | a grant satisfies a request exactly when it stands for all of the request's data paths |
| ScopeAuthority.SatisfiedAttr | hushh_mcp/consent/scope_helpers.py:87-131 | some grant satisfies an attr request exactly when it is the owner's, the read grant, the request itself or a wildcard over it |
| ScopeAuthority.SatisfiedOther | hushh_mcp/consent/scope_helpers.py:87-131 | any other request is satisfied exactly by itself or by the owner's grant, unless it is retired |
| ScopeAuthority.AccessChecksAgree | hushh_mcp/constants.py:153-191 | for every request and every list of grants, exactly when the two access checks differ, and which one grants |
| ScopeAuthority.RetiredIsGranted | hushh_mcp/constants.py:171-177 | retired scopes pass `check_access` and not the matching |
| ScopeAuthority.DomainAloneDiffers | hushh_mcp/constants.py:179-189 | a domain alone passes the matching and not `check_access` |
| ConsentEvents.StatementMeaning | db/consent.py:57-99 | which value each column is sent, with two of them exchanged in the statement for `consent_audit` |
| ConsentEvents.ExternalIsNeverStored | db/consent.py:57-103 | on no database does the call store an external event, and when it raises |
| ConsentEvents.DirectKeepsInternal | db/consent.py:27-103 | exactly which events are stored as given: internal ones that fit a table that exists |
| ConsentEvents.DeveloperRequestIsRefused | db/consent.py:57-103 | a developer's request with a poll timeout, refused here and stored by the service |
| ConsentEvents.ConsentStore.InsertEvent | db/consent.py:27-103 | the statement made of columns and parameters does what the laws above say |
| ConsentEvents.ConsentStore.LogOperation | db/consent.py:106-138 | the event an operation is stored as, and that it never reaches `consent_audit` |
| ConsentEvents.OperationRowSays | db/consent.py:106-138 | column by column, the row of an operation that is kept, and what its metadata states |
| ConsentEvents.ServiceKeeps | hushh_mcp/services/consent_db.py:1267-1392 | exactly which events the service stores as given: all that fit the table they go to |
| ConsentEvents.ConsentStore.ServiceInsert | hushh_mcp/services/consent_db.py:1267-1335 | the data named column by column, without its nulls, is stored as the row the laws above are about |
| ConsentEvents.ConsentStore.InsertInternal | hushh_mcp/services/consent_db.py:1337-1392 | so is that of an internal event, sent again to `consent_audit` when its own table is reported missing |
| ConsentEvents.KeptAsMeantMeaning | hushh_mcp/services/consent_db.py:1267-1392 | of both ways to insert, exactly which insertions do what they are meant to |
| ConsentEvents.KeptRowSays | hushh_mcp/services/consent_db.py:1267-1392 | column by column, the row of an event kept as meant, and by agent, action and scope in which table it is |
| ConsentEvents.TablesPartitionEvents | hushh_mcp/services/consent_db.py:1267-1392 | events kept as meant are each kept once, in the table of their kind, in order of arrival |
| ConsentEvents.RowsAreCounted | hushh_mcp/services/consent_db.py:1267-1392 | no event is lost exactly when every insertion stores its row |
| ConsentEvents.AuditIsExternal | hushh_mcp/services/consent_db.py:1362-1370 | `consent_audit` is free of internal events exactly when the service never falls back to it |
| ConsentEvents.AuditIsOrdered | hushh_mcp/services/consent_db.py:1303-1319 | arrivals in order leave the table in order |
| ConsentLedger.InternalNeverActive | db/queries.py:109-153 | without a fallback, no run of insertions makes an internal agent's grant active |
| ConsentLedger.FallbackMakesActive | hushh_mcp/services/consent_db.py:1362-1370 | with one, an internal grant is active |
| ConsentLedger.ReplayIsActiveTokens | db/queries.py:109-153 | the query is the replay of the log as a latest-per-agent-and-scope state machine, of which the unexpired grants are active |
| ConsentLedger.ActiveTokensMeaning | db/queries.py:109-153 | membership: passes the filters, newest of its agent and scope, a grant that has no expiry or one to come |
| ConsentLedger.ActiveTokensExactly | db/queries.py:109-153 | membership from the log alone: an unexpired grant of the user that passes the filters, with no later grant or revocation of the same agent and scope |
| ConsentLedger.FiltersCommute | db/queries.py:109-153 | a filtered query is the unfiltered one, filtered |
| ConsentLedger.ActiveShrinks | db/queries.py:109-153 | with no new event the active set only shrinks |
| ConsentLedger.ActiveWithAgent | db/queries.py:156-176 | with an agent, the check holds exactly when the list is not empty |
| ConsentLedger.ActiveWithoutAgent | db/queries.py:156-176 | without one it holds exactly when the last agent's token is active |
| ConsentLedger.IsTokenActiveExactly | db/queries.py:156-176 | when the check holds, from the log alone |
| ConsentLedger.WhenChecksAgree | db/queries.py:156-176 | check and list agree exactly when nothing is listed or the last agent's token is |
| ConsentLedger.ActiveWithoutAgentMisses | db/queries.py:156-176 | the family of logs on which it misses a listed token |
| ConsentLedger.GetPendingRequests | db/queries.py:22-67 | the loop turns the selected rows, in their order, into items |
| ConsentLedger.PendingListMeaning | db/queries.py:22-67 | the list holds exactly the pending rows, each once, the newest first, and what each item shows of its row |
| ConsentLedger.PendingRequestsExactly | db/queries.py:22-67 | which rows are pending, from the log alone: a request the user was asked, in time, with no later event of the same request |
| ConsentLedger.ListedMeaning | db/queries.py:22-67 | a request is listed exactly when its newest row asks and has not timed out |
| ConsentLedger.PendingViewsAgree | db/queries.py:70-101 | the two views agree on a request exactly outside two cases |
| ConsentLedger.PendingByRequestIdExactly | db/queries.py:70-101 | what the lookup returns, from the log alone |
| ConsentLedger.ExpiredIsOnlyListed | db/queries.py:22-101 | a request past its expiry without a poll timeout is listed and not looked up |
| ConsentLedger.ZeroTimeoutIsOnlyLookedUp | db/queries.py:22-101 | one with a zero poll timeout is looked up and not listed |
| ConsentLedger.LookupIsListed | db/queries.py:70-101 | without a zero timeout, what the lookup returns is listed |
| ConsentLedger.ResolvingRemoves | db/queries.py:22-101 | any later resolving event removes the request from both views |
| PoolSingleton.OneCreationInFlight | db/connection.py:234-320 | in every interleaving, closes included, at most one creation is in flight |
| PoolSingleton.EveryoneGetsTheSamePool | db/connection.py:234-320 | without a close, one creation succeeds and every call returns that pool |
| PoolSingleton.FailureLetsWaitersRetry | db/connection.py:234-320 | after a failed creation any waiter can create |
| PoolSingleton.WaitersAreServed | db/connection.py:90-95 | a waiter can take the lock, or its holder is creating and can finish |
| PoolSingleton.OneCloseIsSafe | db/connection.py:323-329 | with at most one close in flight there are never two open pools |
| PoolSingleton.TwoClosesOpenTwo | db/connection.py:323-329 | a run of two closes that opens two |
| PoolSingleton.SingletonNeedsOneClose | db/connection.py:234-329 | the pool is a singleton in all runs exactly when closes in flight are held to one |
| OfflineDb.TranslationPreservesBindings | db/offline_db.py:69-77 | translation keeps all bindings exactly when the i-th placeholder is `$i` |
| OfflineDb.EveryoneGetsTheInstance | db/offline_db.py:210-216 | the unlocked path makes one instance and every call gets it |
| OfflineDb.ReadyOnlyAfterLoad | db/offline_db.py:210-216 | a later call returns an initialized instance exactly when a load had finished |
| OfflineDb.SecondCallerMayGetUnloaded | db/offline_db.py:142-216 | two calls at once, the second of which gets an instance without a schema |
| QueryBuilder.NamesNeverCollide | db/db_client.py:545-571 | no two generated names are equal unless made for the same place |
| QueryBuilder.PlaceholdersAreDistinct | db/db_client.py:545-571 | the placeholders of a clause are pairwise different |
| QueryBuilder.TableQuery.Where | db/db_client.py:475-523 | each filter method appends one filter |
| QueryBuilder.TableQuery.BuildWhereClause | db/db_client.py:545-571 | the loop makes the conditions and adds their parameters to the shared dictionary |
| QueryBuilder.BindElements | db/db_client.py:555-562 | the inner loop names and binds every element of an IN list |
| QueryBuilder.DictionaryIsExact | db/db_client.py:545-571 | every placeholder holds its adapted value, and every other entry is untouched |
| QueryBuilder.WhereClauseMeaning | db/db_client.py:545-571 | on every row the clause is the conjunction of the filters in three-valued logic |
| QueryBuilder.AcceptedClauses | db/db_client.py:545-571 | which lists of filters each database accepts |
| QueryBuilder.UpdateMeaning | db/db_client.py:691-711 | an UPDATE changes exactly the rows of which every filter is true: each named column to its adapted new value, every other column kept |
| QueryText.WhereTextMentions | db/db_client.py:545-571 | the placeholders found in the text are the names in the dictionary, in order, exactly when no column is taken for one |
| QueryText.UpdateTextMentions | db/db_client.py:691-711 | the same of the whole UPDATE, its table and its SET clause |
| QueryRead.WhereRoundTrip | db/db_client.py:545-571 | a reader that knows SQL's own operators and words reads the clause back as its conditions, exactly when no column holds a double quote |
| QueryRead.WhereTextMeaning | db/db_client.py:545-571 | what is read in the text is, on every row, the conjunction of the filters |
| QueryRead.NumberFilter | db/db_client.py:475-523 | a filter on a number keeps exactly the rows whose number compares as the text says |
| QueryRead.UpdateRoundTrip | db/db_client.py:691-711 | the same of the whole UPDATE: table, SET columns and conditions |
| QueryText.StrayMeaning | db/db_client.py:551-569 | exactly which names are taken for placeholders |
| QueryText.ColonFirstIsTaken | db/db_client.py:551-569 | a column that is |
| QueryText.ColonInsideIsHarmless | db/db_client.py:551-569 | columns with a colon that are not |
| TableUpsert.UpsertRows | db/db_client.py:737-763 | the loop over the rows, up to the first row that lacks a column |
| TableUpsert.Table.ExecuteUpsert | db/db_client.py:713-766 | exactly when it fails and with what, that a failure leaves the table as it was, and what success does to it, told from the caller's data |
| TableUpsert.UpsertMeaning | db/db_client.py:713-766 | each old row keeps its place, `created_at`, key and unnamed columns, and takes the rest from the last data row of its key; each new row has them from the first |
| TableUpsert.ConflictColumnsMeaning | db/db_client.py:713-730 | the conflict columns are the names between the commas, and `id` if there are none |
| TableUpsert.RunKeepsUnique | db/db_client.py:746-760 | the unique key survives every upsert |
| TableUpsert.ExistingRowsKeep | db/db_client.py:731-736 | an existing row's `created_at`, key and unnamed columns never change |
| TableUpsert.OthersUntouched | db/db_client.py:713-766 | a row whose key is not proposed is not touched |
| TableUpsert.LastWins | db/db_client.py:713-766 | among proposed rows of one key the last decides every updated column |
| TableUpsert.EveryKeyIsStored | db/db_client.py:713-766 | every proposed row with a key is found in the table afterwards |
| TableUpsert.NewRowsOrigin | db/db_client.py:713-766 | a new row comes from the first proposed row of its key, and keeps that row's `created_at` and defaults |
| TableUpsert.ReturnedRowsAreStored | db/db_client.py:761-766 | one row is returned for every proposed row, as the table held it right after |
| TableUpsert.RunIsNoOp | db/db_client.py:713-766 | a run changes nothing exactly when all it proposes is already there |
| TableUpsert.UpsertDataTwice | db/db_client.py:713-766 | exactly when sending the same data again changes nothing; with every conflict column named, when no value of one is null |
| TableUpsert.UnnamedKeyInsertsAgain | db/db_client.py:713-766 | with a conflict column left to a fresh default every run inserts again |
| ConsentListener.QueueIsSuffix | api/consent_listener.py:119-138 | after any run a queue holds exactly the newest part of what was put, within its bound |
| ConsentListener.EventsAreConserved | api/consent_listener.py:119-138 | put = delivered + dropped + held |
| ConsentListener.DeliveryKeepsOrder | api/consent_listener.py:119-138 | deliveries are in push order, each event at most once |
| ConsentListener.LosslessUnlessFull | api/consent_listener.py:119-138 | the consumer hears everything exactly when no event met a full queue |
| ConsentListener.BoundedQueue.PutNewest | api/consent_listener.py:124-137 | put, drop the oldest, put again |
| ConsentListener.OwnerQueueMeaning | api/consent_listener.py:119-169 | in every run an owner's queue is the one its own pushes and reads make |
| ConsentListener.OwnerQueueIsSuffix | api/consent_listener.py:119-169 | it holds the newest part of the owner's pushes, at most 100 |
| ConsentListener.OwnerHears | api/consent_listener.py:119-169 | in every run a user has a queue once it was asked for, with the newest of the events pushed for the user since then |
| ConsentListener.NoEmptySubscriberSets | api/consent_listener.py:172-198 | no registry key ever maps to an empty set |
| ConsentListener.RegistryMeaning | api/consent_listener.py:172-198 | a queue is registered under a key exactly while it is subscribed under it |
| ConsentListener.DeveloperQueueMeaning | api/consent_listener.py:141-198 | a developer's queue hears exactly its own key's events pushed while subscribed |
| ConsentListener.DeveloperQueueIsSuffix | api/consent_listener.py:141-198 | it holds the newest part of them, at most 20 |
| ConsentListener.DeveloperHears | api/consent_listener.py:141-198 | it holds the newest of exactly the events that name its request and its agent while it is subscribed for them |
| ConsentListener.OnlyOwnEvents | api/consent_listener.py:141-162 | nobody hears another request's events |
| ConsentListener.Listener.GetConsentQueue | api/consent_listener.py:165-169 | a queue is made once per user |
| ConsentListener.Listener.PushToConsentQueue | api/consent_listener.py:119-138 | the push on the shared dictionary is the step of the state machine |
| ConsentListener.Listener.SubscribeDeveloper | api/consent_listener.py:172-182 | a subscription is the step of the state machine, on a new queue |
| ConsentListener.Listener.UnsubscribeDeveloper | api/consent_listener.py:185-198 | so is the end of one |
| ConsentListener.Listener.PushToDevelopers | api/consent_listener.py:141-162 | so is the push to all subscribers of the event's key |
| SseParser.SseEvents | scripts/local_kai_debate_regression.py:46-108 | the line loop computes the parse that the laws below are about |
| SseParser.RoundTrip | scripts/local_kai_debate_regression.py:46-108 | printing events and parsing gives them back, up to the first terminal one |
| SseParser.EnvelopeMeaning | scripts/local_kai_debate_regression.py:52-80 | what becomes of an event's data: which name, which payload, and whether it is the last |
| SseParser.EnvelopesRoundTrip | scripts/local_kai_debate_regression.py:46-108 | envelopes written as events are read back, up to the first that is marked terminal |
| SseParser.FieldLines | scripts/local_kai_debate_regression.py:99-105 | what an event line and a data line do, whatever stands in them |
| SseParser.ParseSplits | scripts/local_kai_debate_regression.py:82-108 | a stream may be cut anywhere: the rest is read from the state reached |
| SseParser.IgnoredAnywhere | scripts/local_kai_debate_regression.py:99-105 | comments, unknown fields and missing lines can be inserted anywhere |
| SseParser.IgnoredLines | scripts/local_kai_debate_regression.py:99-105 | which lines these are |
| SseParser.BlankBetweenEvents | scripts/local_kai_debate_regression.py:90-98 | extra blank lines between events change nothing |
| SseParser.BlankIsNeutralOnlyWhenIdle | scripts/local_kai_debate_regression.py:52-98 | a blank line is neutral exactly when neither data nor a name is pending |
| DebateHistory.RunIdIsClean | scripts/local_kai_debate_regression.py:287-298 | exactly when an entry has a run id, that it is clean, and that the card's own comes first |
| DebateHistory.History.Upsert | scripts/local_kai_debate_regression.py:301-315 | the new map, the returned total, and the refusal of an entry without a ticker |
| DebateHistory.CountEntries | scripts/local_kai_debate_regression.py:314-314 | the total is the sum of the lengths of the buckets |
| DebateHistory.BucketIsExact | scripts/local_kai_debate_regression.py:301-315 | though cut at every step, a bucket is the beginning of the unbounded history without superseded entries |
| DebateHistory.BucketsStayBounded | scripts/local_kai_debate_regression.py:301-315 | buckets keep their bound, hold entries of their own ticker only, and no run twice |
| TickerRows.BuildRows | scripts/import_tickers.py:293-370 | one finished row for each ticker, all tickers different, with the sector, industry, tags and confidence that follow from the rest of it |
| TickerRows.TickersCovered | scripts/import_tickers.py:293-345 | the tickers are those listed and those a submission names |
| TickerRows.ListingWins | scripts/import_tickers.py:301-345 | what the exchange file says is never replaced |
| TickerRows.LastCodeWins | scripts/import_tickers.py:317-345 | the industry code is that of the last submission that gives one |
| TickerRows.LastDescriptionWins | scripts/import_tickers.py:317-345 | so is the description |
| TickerRows.FirstExchangeWins | scripts/import_tickers.py:317-345 | a ticker listed without an exchange has the first that a submission about it gives |
| TickerRows.FirstNumberWins | scripts/import_tickers.py:317-345 | and without a company number, that of the first submission about it |
| TickerRows.TitleMeaning | scripts/import_tickers.py:317-345 | a ticker without a title is titled by the first submission that names it, or by itself |
| TickerRows.TagsMeaning | scripts/import_tickers.py:185-193 | tags are clean and different, and no given text is left out |
| TickerImport.MergeLaws | scripts/import_tickers.py:397-425 | the row merge is idempotent and associative, never lowers confidence and forgets nothing known |
| TickerImport.LatestKnownStays | scripts/import_tickers.py:397-425 | after an import each text of a ticker is the last known one among the stored row and the rows imported |
| TickerImport.LatestFlagsStay | scripts/import_tickers.py:397-425 | the same of its tags and its flag |
| TickerImport.LastRowNames | scripts/import_tickers.py:397-425 | what the last row of a ticker decides, known or not |
| TickerImport.ConfidenceIsGreatest | scripts/import_tickers.py:397-425 | the confidence is the greatest of the stored one and those imported |
| TickerImport.FoldAt | scripts/import_tickers.py:397-425 | the fold works on each ticker by itself |
| TickerImport.FoldTwice | scripts/import_tickers.py:397-425 | importing the same rows again changes nothing |
| TickerImport.ImportKeepsKnowledge | scripts/import_tickers.py:397-425 | no import lowers a confidence, drops a ticker, or touches one it has no row for |
| TickerImport.BatchesCover | scripts/import_tickers.py:427-433 | the batches are the rows in order, all but the last one full |
| TickerImport.WhenABatchGoesThrough | scripts/import_tickers.py:452-476 | a batch goes through exactly when it holds no ticker twice and a commit comes within the limit |
| TickerImport.WhenAnImportSucceeds | scripts/import_tickers.py:389-481 | the same of a whole import of distinct tickers |
| TickerImport.TickerTable.UpsertBatch | scripts/import_tickers.py:452-476 | the retry loop, lost acknowledgements and failed rollbacks included |
| TickerImport.TickerTable.UpsertRows | scripts/import_tickers.py:389-481 | success is the fold over all rows and their number; giving up leaves whole batches |
| PayloadShape.Audit.Walk | scripts/audit_active_pkm_shape_readonly.py:195-248 | the recursive walk notes exactly the visited nodes, in order |
| PayloadShape.Summarize | scripts/audit_active_pkm_shape_readonly.py:157-252 | the summary, its paths sorted at the end, is what the laws below are about |
| PayloadMeaning.VisitsExactly | scripts/audit_active_pkm_shape_readonly.py:195-248 | a node is visited exactly when a route of keys and of indices below 100 leads to it, under the names along that route |
| PayloadMeaning.CountsMeaning | scripts/audit_active_pkm_shape_readonly.py:198-248 | each counter is the number of such nodes of its kind |
| PayloadMeaning.StringCountsMeaning | scripts/audit_active_pkm_shape_readonly.py:146-154 | and of strings of each length: to 32, to 160, to 1000 and above |
| PayloadMeaning.FindingsMeaning | scripts/audit_active_pkm_shape_readonly.py:195-248 | what is found about a node, from the node and its path |
| PayloadMeaning.RedactionMeaning | scripts/audit_active_pkm_shape_readonly.py:117-132 | what each segment of a path is shown as |
| PayloadShape.NothingIsLost | scripts/audit_active_pkm_shape_readonly.py:195-248 | nodes, scalars and strings are each conserved in their breakdowns |
| PayloadShape.DepthIsMaximum | scripts/audit_active_pkm_shape_readonly.py:195-197 | the depth is the length of the longest visited path |
| PayloadShape.PathsAreVisited | scripts/audit_active_pkm_shape_readonly.py:184-189 | paths are sorted, different, at most 240, all visited, and below the cap none is missing |
| PayloadShape.SortPathsMeaning | scripts/audit_active_pkm_shape_readonly.py:251-251 | sorting orders the paths and keeps each |
| PayloadShape.FindingsAreFirst | scripts/audit_active_pkm_shape_readonly.py:191-248 | each list of findings is exactly its first 80 |
| PayloadShape.ValuesAreHidden | scripts/audit_active_pkm_shape_readonly.py:157-252 | payloads that differ only in values of scalars have one summary |
| PayloadShape.PartsAreRedacted | scripts/audit_active_pkm_shape_readonly.py:117-143 | every part of a path is a placeholder, or short and free of addresses, ids and digit runs |
| PayloadHiding.KeysOfDataAreHidden | scripts/audit_active_pkm_shape_readonly.py:117-252 | payloads that also differ in alike keys below structural ones have one summary |
| PayloadHiding.HiddenKeys | scripts/audit_active_pkm_shape_readonly.py:117-252 | two keys of data have one summary in all payloads that differ in them alone exactly if they are alike, while the path is short of the caps |
| PayloadHiding.NoisyKeyIsShown | scripts/audit_active_pkm_shape_readonly.py:204-248 | a key of data with a noisy word in it is shown whole |

## Left out

- Routes, transports, push messages, HTTP clients and command lines: plumbing over other libraries.
- The internals of HMAC, AES-GCM, PBKDF2 and JSON parsing, which are parameters here.
- `validate_token_with_db`, the warming of validators, `clear` and the lock of the revocation cache.
- Time stamps that coincide to the millisecond; the order they leave to the database is not modelled.
- Unicode digits in `int()` and in the `$n` pattern.
- The order of the entries of a dict, except in `PayloadShape`, where caps make it matter.
- The fairness of the pool lock: any waiter may take it next, which covers first come, first served.
- SQL beyond the clauses built here: drivers, LIKE matching, collations, triggers, CHECK and NOT NULL constraints, and a second unique key.
- `SELECT`, `INSERT` and `DELETE` of the builder, which reuse the same WHERE clause; ordering, limits and counts.
- `was_recently_denied` and `get_audit_log`, which are single filters over the same rows.
- The id an insertion returns when the database reports no row.
- String literals and comments in a query given to the placeholder translation.
- The timeout of the stream reader, and the splitting of its bytes into lines.
- Scalars that JSON does not have, in `PayloadShape`.
- The tables from which an industry code's sector is read, and the rounding of confidences as floats: they are a parameter and exact decimals.
- The wording of reports, and `build_simulated_state`.
- DebateHistory.BucketIsExact: starts from an empty map; a stored history with one run twice is not covered.
