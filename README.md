# Snow Owl index writer, import and export core in Dafny

This project models the core of the Snow Owl terminology server's write path and the helpers around it:

- The transaction-scoped document writer (`EsDocumentWriter`). It stages keyed upserts, per-type deletes and filtered bulk updates and deletes. On commit it sends the bulk operations, then the per-type index and delete requests, then one refresh of the touched types.
- The index administration (`EsIndexAdmin`), covering:
  - settings defaults and validated settings updates;
  - physical index names and the deduplicated refresh;
  - the mapping-migration decision;
  - the type-to-mapping table;
  - the health polling loop;
  - the version-conflict retry loop of update/delete by query.
- The threshold-committing transaction wrapper (`CappedTransactionContext`).
- The RF2 import staging context (`Rf2TransactionContext`). It has a cache of new components, an effective-time import rule and identifier sets that are handed to the identifier service on commit.
- The reference set member index document (`SnomedRefSetMemberIndexEntry`). It has a builder that dispatches on field names, typed storage of concrete-domain values, the additional-fields projection, the constructor check and two query factories.
- The RF2 export planning (`SnomedRf2ExportRequest`). It covers the path guards, the branch list and revision ranges, the version before a date, the module date merge, the request setters and the cut-off timestamp.
- The legacy composite importer's decisions (`SnomedCompositeImporter`). These are snapshot key normalisation, one release update per run of equal keys, the release presence table and release matching.
- The remote job entry (`RemoteJobEntry`). It has state predicates, identity by id, its builder and the partial-update scripts.

Each Java file becomes one module, in a file of its own, and `wrappers.dfy` holds the `Option` and `Result` types. Objects whose fields the source updates in place are classes with `modifies` clauses. Each of their methods is proved against a function of the old state, and the properties the source promises are lemmas about those functions.

Calls into the search backend, the repository and other services are replaced by parameters or recorded calls. This covers the responses of bulk requests, the mapping diff, cluster health, stored documents and the identifier service.

## Model

| member | source | states |
|---|---|---|
| DocumentWriter.ExecutorFor | commons/com.b2international.index/src/com/b2international/index/es/EsDocumentWriter.java:121-127 | a pool is used iff either bulk list holds more than one operation; its thread count is the size of the larger list, capped at 4 |
| DocumentWriter.RequestId | commons/com.b2international.index/src/com/b2international/index/es/EsDocumentWriter.java:193-200 | a revision is sent without an id; any other document under its staged key |
| DocumentWriter.KeptDocs | commons/com.b2international.index/src/com/b2international/index/es/EsDocumentWriter.java:188-203 | consuming a row keeps exactly the upserts whose key is not pending deletion under any type |
| DocumentWriter.RunBulk | commons/com.b2international.index/src/com/b2international/index/es/EsDocumentWriter.java:128-142 | every bulk operation is sent once, in staging order; the changed types are exactly those whose operation returned true |
| DocumentWriter.EsDocumentWriter.constructor | commons/com.b2international.index/src/com/b2international/index/es/EsDocumentWriter.java:63-73 | a new writer holds no pending operation |
| DocumentWriter.EsDocumentWriter.Put | commons/com.b2international.index/src/com/b2international/index/es/EsDocumentWriter.java:75-78 | the cell (class of the document, key) now holds the document, replacing an earlier one; every other cell and collection is unchanged |
| DocumentWriter.EsDocumentWriter.PutAll | commons/com.b2international.index/src/com/b2international/index/es/EsDocumentWriter.java:80-83 | each document of the map is staged in its own cell; nothing else changes |
| DocumentWriter.EsDocumentWriter.BulkUpdate | commons/com.b2international.index/src/com/b2international/index/es/EsDocumentWriter.java:85-88 | the update is appended to the bulk-update list; nothing else changes |
| DocumentWriter.EsDocumentWriter.BulkDelete | commons/com.b2international.index/src/com/b2international/index/es/EsDocumentWriter.java:90-93 | the delete is appended to the bulk-delete list; nothing else changes |
| DocumentWriter.EsDocumentWriter.RemoveAll | commons/com.b2international.index/src/com/b2international/index/es/EsDocumentWriter.java:105-110 | each type's pending deletes become the union of the old ones and the given keys |
| DocumentWriter.EsDocumentWriter.RemoveKeys | commons/com.b2international.index/src/com/b2international/index/es/EsDocumentWriter.java:100-103 | the keys join the one type's pending deletes |
| DocumentWriter.EsDocumentWriter.Remove | commons/com.b2international.index/src/com/b2international/index/es/EsDocumentWriter.java:95-98 | the key joins the type's pending deletes and the writer is no longer empty |
| DocumentWriter.EsDocumentWriter.ConsumeType | commons/com.b2international.index/src/com/b2international/index/es/EsDocumentWriter.java:180-211 | one type's group is its surviving upserts, all its deletes and a flush; its row and its delete keys are consumed |
| DocumentWriter.EsDocumentWriter.UpsertTypes | commons/com.b2international.index/src/com/b2international/index/es/EsDocumentWriter.java:180-211 | the upsert phase visits every type with upserts once, emits the phase's requests and empties the table, consuming those types' deletes |
| DocumentWriter.EsDocumentWriter.DeleteOnlyTypes | commons/com.b2international.index/src/com/b2international/index/es/EsDocumentWriter.java:213-226 | every remaining delete type is visited once, its deletes and a flush are sent, and the multimap ends empty |
| DocumentWriter.EsDocumentWriter.Commit | commons/com.b2international.index/src/com/b2international/index/es/EsDocumentWriter.java:112-242 | an empty writer makes no call; a failed bulk operation stops the commit after the bulk phase; otherwise the calls are the bulk phase, the upsert phase, the delete-only phase and one refresh, and the table and multimap end empty while the bulk lists are kept |
| DocumentWriter.CellsDetermineTable | commons/com.b2international.index/src/com/b2international/index/es/EsDocumentWriter.java:63-78 | two tables without empty rows that agree on every cell are equal, so Put's cell-wise contract fixes the table |
| DocumentWriter.ChangedTypesMeans | commons/com.b2international.index/src/com/b2international/index/es/EsDocumentWriter.java:129-142 | a type is marked changed by the bulk phase iff one of its bulk operations returned true |
| DocumentWriter.UpsertPhaseShape | commons/com.b2international.index/src/com/b2international/index/es/EsDocumentWriter.java:180-211 | the i-th type of the upsert phase contributes its surviving upserts, its deletes and a flush, seeing only the deletes earlier types left |
| DocumentWriter.DeletePhaseShape | commons/com.b2international.index/src/com/b2international/index/es/EsDocumentWriter.java:213-226 | the delete-only phase sends, for the i-th type, its deletes then a flush |
| DocumentWriter.DeleteWinsSameType | commons/com.b2international.index/src/com/b2international/index/es/EsDocumentWriter.java:190-207 | an upsert whose key is pending deletion under its own type is not indexed, and the delete is sent in the same group |
| DocumentWriter.DeleteOnlyTypeSuppresses | commons/com.b2international.index/src/com/b2international/index/es/EsDocumentWriter.java:190 | a key deleted under a type without upserts suppresses that key's upsert under every type |
| DocumentWriter.UpsertWithoutDeleteIsIndexed | commons/com.b2international.index/src/com/b2international/index/es/EsDocumentWriter.java:188-203 | an upsert whose key is pending deletion nowhere is indexed with the last document staged for it |
| DocumentWriter.SuppressionDependsOnOrder | commons/com.b2international.index/src/com/b2international/index/es/EsDocumentWriter.java:180-207 | a concrete pair of type orders under which a cross-type delete suppresses an upsert in one order and not in the other |
| DocumentWriter.DeletePhaseIgnoresOtherTypes | commons/com.b2international.index/src/com/b2international/index/es/EsDocumentWriter.java:214-222 | the delete-only phase reads only the deletes of the types it visits |
| DocumentWriter.CommitCallOrder | commons/com.b2international.index/src/com/b2international/index/es/EsDocumentWriter.java:128-236 | all bulk operations come first in staging order; refresh is called once, last, with the changed types plus every type with upserts or deletes |
| DocumentWriter.DeleteOnlyTypesSent | commons/com.b2international.index/src/com/b2international/index/es/EsDocumentWriter.java:213-226 | every type holding only deletes gets exactly one delete group |
| IndexMapping.FieldAliasPathMatchesPattern | commons/com.b2international.index/src/com/b2international/index/es/admin/EsIndexAdmin.java:80 | the segment test used by the model accepts a path iff it matches `properties(/word)+/fields(/word)?` in full |
| IndexMapping.SegmentTestIsSound | commons/com.b2international.index/src/com/b2international/index/es/admin/EsIndexAdmin.java:244-248 | every path the segment test accepts is "properties", one or more words, "fields" and at most one word, joined by slashes |
| IndexMapping.SegmentTestIsComplete | commons/com.b2international.index/src/com/b2international/index/es/admin/EsIndexAdmin.java:244-248 | every path of that shape passes the segment test |
| IndexMapping.FieldPropertiesFollowsTable | commons/com.b2international.index/src/com/b2international/index/es/admin/EsIndexAdmin.java:450-474 | the field mapping is the first match of the fixed type table (keyword, double, float, integer, short, long, boolean, ip, JSON-value keyword), otherwise a disabled object |
| IndexMapping.PropertiesNameKeptFields | commons/com.b2international.index/src/com/b2international/index/es/admin/EsIndexAdmin.java:331-341 | a successful derivation names exactly the fields that are neither transient nor `_id` |
| IndexMapping.BadAnnotationFails | commons/com.b2international.index/src/com/b2international/index/es/admin/EsIndexAdmin.java:370-378 | an annotated non-String field, or a field with both a main Text and a main Keyword annotation, makes the derivation fail |
| IndexMapping.MapFieldIsDynamic | commons/com.b2international.index/src/com/b2international/index/es/admin/EsIndexAdmin.java:343-349 | a Map field is mapped to an object with dynamic mapping |
| IndexAdmin.FillDefaultsNeverOverwrites | commons/com.b2international.index/src/com/b2international/index/es/admin/EsIndexAdmin.java:114-125 | a caller-supplied setting survives defaulting, a missing defaulted key gets its default, and no other key appears |
| IndexAdmin.LowerAscii | commons/com.b2international.index/src/com/b2international/index/es/admin/EsIndexAdmin.java:112 | the index name has no upper-case letter afterwards and every other character is kept |
| IndexAdmin.LowerAsciiIdempotent | commons/com.b2international.index/src/com/b2international/index/es/admin/EsIndexAdmin.java:112 | lower-casing an already lower-cased name changes nothing |
| IndexAdmin.EsSettings | commons/com.b2international.index/src/com/b2international/index/es/admin/EsIndexAdmin.java:548-550 | the pushed settings are exactly the incoming entries whose key is not local |
| IndexAdmin.ShouldUpdate | commons/com.b2international.index/src/com/b2international/index/es/admin/EsIndexAdmin.java:535-542 | the update goes ahead iff some incoming value differs from the current one (or its key is absent) |
| IndexAdmin.PushesMeans | commons/com.b2international.index/src/com/b2international/index/es/admin/EsIndexAdmin.java:552-564 | requests go only to existing indices; the push completes iff every existing index acknowledged, and it stops at an unacknowledged one |
| IndexAdmin.UnsupportedKeyRejectsAll | commons/com.b2international.index/src/com/b2international/index/es/admin/EsIndexAdmin.java:529-533 | one key outside the dynamic and local settings rejects the whole update before any request |
| IndexAdmin.UpdateIsIdempotent | commons/com.b2international.index/src/com/b2international/index/es/admin/EsIndexAdmin.java:524-568 | after a successful update, the same update is a no-op that sends nothing |
| IndexAdmin.UpdateMergesIncoming | commons/com.b2international.index/src/com/b2international/index/es/admin/EsIndexAdmin.java:566-567 | a successful update leaves every incoming value in the settings and every other key unchanged |
| IndexAdmin.SameIndexIffSameOwner | commons/com.b2international.index/src/com/b2international/index/es/admin/EsIndexAdmin.java:592-598 | two types share a physical index iff they have the same owning type (the parent if there is one) |
| IndexAdmin.ChildSharesParentIndex | commons/com.b2international.index/src/com/b2international/index/es/admin/EsIndexAdmin.java:592-594 | a nested type is stored in its parent's index |
| IndexAdmin.RefreshTargets | commons/com.b2international.index/src/com/b2international/index/es/admin/EsIndexAdmin.java:605-613 | an empty type set causes no call; otherwise one request names exactly the indices of the given types, each once |
| IndexAdmin.RefreshNoLargerThanTypes | commons/com.b2international.index/src/com/b2international/index/es/admin/EsIndexAdmin.java:610-613 | deduplication never refreshes more indices than types given |
| IndexAdmin.ClearedMeans | commons/com.b2international.index/src/com/b2international/index/es/admin/EsIndexAdmin.java:509-513 | clearing succeeds iff every bulk delete succeeded, and then marks exactly the types whose delete reported a change |
| IndexAdmin.ClearedFailureSticks | commons/com.b2international.index/src/com/b2international/index/es/admin/EsIndexAdmin.java:502-516 | once a delete of one type fails, clearing the remaining types cannot change the outcome: the clear fails with that error |
| IndexAdmin.MigrationUpdatesIff | commons/com.b2international.index/src/com/b2international/index/es/admin/EsIndexAdmin.java:189-210 | an existing index's mapping is updated iff the diff has an addition and no move or replace; documents are reindexed iff an added path is a field-alias path |
| IndexAdmin.OnlyAddsMoveAnExistingIndex | commons/com.b2international.index/src/com/b2international/index/es/admin/EsIndexAdmin.java:189-195 | removes, copies and tests in the diff never change an existing index |
| IndexAdmin.CreateStep | commons/com.b2international.index/src/com/b2international/index/es/admin/EsIndexAdmin.java:171-233 | a type is marked for refresh only when its mapping was updated with a field-alias reindex |
| IndexAdmin.CreateStepMeans | commons/com.b2international.index/src/com/b2international/index/es/admin/EsIndexAdmin.java:171-233 | a successful step on an existing index had a readable mapping, applies the migration its diff calls for, and asks for a refresh only after a reindex that reported a change |
| IndexAdmin.CreatePlanMeans | commons/com.b2international.index/src/com/b2international/index/es/admin/EsIndexAdmin.java:161-235 | a successful create decides once per type, by the migration rule, and refreshes only types whose reindex reported a change |
| IndexAdmin.CreateFailureSticks | commons/com.b2international.index/src/com/b2international/index/es/admin/EsIndexAdmin.java:161-235 | once the migration of one type fails, the later types cannot change the outcome: the create fails with that error |
| IndexAdmin.HealthyIffTimelyAnswer | commons/com.b2international.index/src/com/b2international/index/es/admin/EsIndexAdmin.java:309-327 | the health wait succeeds iff an answer that did not time out comes before every other poll that would stop the wait |
| IndexAdmin.WaitForYellowHealth | commons/com.b2international.index/src/com/b2international/index/es/admin/EsIndexAdmin.java:286-329 | no poll for an empty index list; otherwise it polls until the first decisive poll and reports that poll's verdict |
| IndexAdmin.ScrollAsWritten | commons/com.b2international.index/src/com/b2international/index/es/admin/EsIndexAdmin.java:659-737 | as written: at most attempts + 1 requests, with the budget check before the remaining-conflicts check |
| IndexAdmin.ScrollCorrected | commons/com.b2international.index/src/com/b2international/index/es/admin/EsIndexAdmin.java:659-737 | with the budget checked only while conflicts remain: at most attempts + 1 requests |
| IndexAdmin.ScrollRefreshIffChanged | commons/com.b2international.index/src/com/b2international/index/es/admin/EsIndexAdmin.java:682-739 | a successful run asks for a refresh iff some response it consumed updated or deleted documents |
| IndexAdmin.AsWrittenFailsAfterBudget | commons/com.b2international.index/src/com/b2international/index/es/admin/EsIndexAdmin.java:721-726 | as written, once the budget is used up the next response fails the run even if it has no conflicts |
| IndexAdmin.CleanSixthRound | commons/com.b2international.index/src/com/b2international/index/es/admin/EsIndexAdmin.java:721-726 | five conflicting rounds then a clean sixth: the loop as written fails, the corrected loop succeeds |
| IndexAdmin.CorrectedExhaustsOnlyOnConflicts | commons/com.b2international.index/src/com/b2international/index/es/admin/EsIndexAdmin.java:721-737 | the corrected loop gives up only after attempts + 1 responses that all reported conflicts |
| IndexAdmin.VersionConflictsOnly | commons/com.b2international.index/src/com/b2international/index/es/admin/EsIndexAdmin.java:702-714 | the failure check holds iff every bulk failure has status 409 |
| IndexAdmin.BulkIndexByScroll | commons/com.b2international.index/src/com/b2international/index/es/admin/EsIndexAdmin.java:648-740 | the retry loop consumes one response per request and ends as the corrected loop describes, after at most 6 requests |
| IndexAdmin.EsIndexAdmin.constructor | commons/com.b2international.index/src/com/b2international/index/es/admin/EsIndexAdmin.java:109-128 | the name is lower-cased, absent defaulted keys are filled in, and the prefix is "" for an empty one or the prefix plus "." |
| IndexAdmin.EsIndexAdmin.UpdateSettings | commons/com.b2international.index/src/com/b2international/index/es/admin/EsIndexAdmin.java:524-568 | requests, error and new settings are those the update rule gives; on failure the settings are unchanged |
| IndexAdmin.EsIndexAdmin.Clear | commons/com.b2international.index/src/com/b2international/index/es/admin/EsIndexAdmin.java:502-516 | an empty type list does nothing; a failed delete stops the clear; otherwise the changed types are refreshed once |
| IndexAdmin.EsIndexAdmin.Create | commons/com.b2international.index/src/com/b2international/index/es/admin/EsIndexAdmin.java:155-242 | migrations follow the per-type plan; a failure stops the create; a bad health verdict stops it before the refresh |
| CappedContext.RunLosesNothing | core/com.b2international.snowowl.core/src/com/b2international/snowowl/core/domain/CappedTransactionContext.java:50-120 | staging changes one by one, the commits made on the way plus what is left staged are exactly the earlier staging area followed by the changes, in order |
| CappedContext.RunCommitsFullBatches | core/com.b2international.snowowl.core/src/com/b2international/snowowl/core/domain/CappedTransactionContext.java:115-120 | with a threshold above 0 and a staging area below it, every automatic commit holds exactly threshold changes and fewer than threshold stay staged |
| CappedContext.RunFlushesBacklog | core/com.b2international.snowowl.core/src/com/b2international/snowowl/core/domain/CappedTransactionContext.java:115-120 | a delegate wrapped with the threshold or more staged commits its whole backlog with the next change, and every later commit is a full batch |
| CappedContext.RunWithoutThreshold | core/com.b2international.snowowl.core/src/com/b2international/snowowl/core/domain/CappedTransactionContext.java:115-120 | a threshold of 0 or less never commits automatically |
| CappedContext.CappedTransactionContext.constructor | core/com.b2international.snowowl.core/src/com/b2international/snowowl/core/domain/CappedTransactionContext.java:31-37 | a new context wraps the delegate's staging area as it is, keeps the threshold and has the no-op listener and no commits |
| CappedContext.CappedTransactionContext.OnCommit | core/com.b2international.snowowl.core/src/com/b2international/snowowl/core/domain/CappedTransactionContext.java:44-47 | an absent listener installs the no-op listener, never none; nothing else changes |
| CappedContext.CappedTransactionContext.DelegateCommit | core/com.b2international.snowowl.core/src/com/b2international/snowowl/core/domain/CappedTransactionContext.java:110 | the delegate commits nothing for a clean staging area, otherwise one commit of everything staged |
| CappedContext.CappedTransactionContext.CommitWith | core/com.b2international.snowowl.core/src/com/b2international/snowowl/core/domain/CappedTransactionContext.java:80-106 | every commit overload notifies the listener exactly when the delegate produced a commit |
| CappedContext.CappedTransactionContext.CommitIfAboveThreshold | core/com.b2international.snowowl.core/src/com/b2international/snowowl/core/domain/CappedTransactionContext.java:115-120 | commits iff the threshold is above 0 and the staged count reaches it; otherwise nothing changes |
| CappedContext.CappedTransactionContext.Stage | core/com.b2international.snowowl.core/src/com/b2international/snowowl/core/domain/CappedTransactionContext.java:50-73 | the change is staged first and then the threshold is checked, as one step of the staging run |
| CappedContext.CappedTransactionContext.Add | core/com.b2international.snowowl.core/src/com/b2international/snowowl/core/domain/CappedTransactionContext.java:49-54 | add stages the object, commits at the threshold and then notifies the listener with that commit, and returns the delegate's id |
| CappedContext.CappedTransactionContext.Update | core/com.b2international.snowowl.core/src/com/b2international/snowowl/core/domain/CappedTransactionContext.java:56-61 | update stages the new revision, then commits at the threshold and notifies the listener with that commit |
| CappedContext.CappedTransactionContext.Delete | core/com.b2international.snowowl.core/src/com/b2international/snowowl/core/domain/CappedTransactionContext.java:63-73 | both delete overloads stage the delete, then commit at the threshold and notify the listener with that commit |
| CappedContext.CappedTransactionContext.ClearContents | core/com.b2international.snowowl.core/src/com/b2international/snowowl/core/domain/CappedTransactionContext.java:75-78 | clearing the contents always fails |
| CappedContext.CappedTransactionContext.Close | core/com.b2international.snowowl.core/src/com/b2international/snowowl/core/domain/CappedTransactionContext.java:108-113 | closing commits whatever is staged, notifies the installed listener iff a commit was made, then closes the delegate |
| Rf2Context.IdOnlyDoc | snomed/com.b2international.snowowl.snomed.datastore/src/com/b2international/snowowl/snomed/datastore/request/rf2/importer/Rf2TransactionContext.java:291-313 | a component first seen in the archive is cached as an unreleased document carrying only its id and type, with no effective time |
| Rf2Context.RowsOf | snomed/com.b2international.snowowl.snomed.datastore/src/com/b2international/snowowl/snomed/datastore/request/rf2/importer/Rf2TransactionContext.java:157-158 | grouping the batch by type keeps only rows of that type |
| Rf2Context.Seed | snomed/com.b2international.snowowl.snomed.datastore/src/com/b2international/snowowl/snomed/datastore/request/rf2/importer/Rf2TransactionContext.java:178-197 | the seeding pass of lines 178-197 never stages a change and never drops a cached component (the reference set seeding after it, which stages updates at line 229, is left out); every row it imports is either cached or already stored |
| Rf2Context.Apply | snomed/com.b2international.snowowl.snomed.datastore/src/com/b2international/snowowl/snomed/datastore/request/rf2/importer/Rf2TransactionContext.java:235-271 | one staged change per imported row |
| Rf2Context.SeedImportsWanted | snomed/com.b2international.snowowl.snomed.datastore/src/com/b2international/snowowl/snomed/datastore/request/rf2/importer/Rf2TransactionContext.java:178-197 | the rows imported are exactly those of new components or whose effective time is absent or later than the stored one, in archive order |
| Rf2Context.SeedRegisters | snomed/com.b2international.snowowl.snomed.datastore/src/com/b2international/snowowl/snomed/datastore/request/rf2/importer/Rf2TransactionContext.java:183-189 | the identifiers to register grow by exactly the new core components without an effective time |
| Rf2Context.SeedPublishes | snomed/com.b2international.snowowl.snomed.datastore/src/com/b2international/snowowl/snomed/datastore/request/rf2/importer/Rf2TransactionContext.java:183-197 | the identifiers to publish grow by exactly the new dated core components and the superseded unreleased core components hit by a dated row |
| Rf2Context.SeedCachesNewComponents | snomed/com.b2international.snowowl.snomed.datastore/src/com/b2international/snowowl/snomed/datastore/request/rf2/importer/Rf2TransactionContext.java:178-182 | every unknown component of the batch is cached as its id-only document |
| Rf2Context.ApplyKeepsReleased | snomed/com.b2international.snowowl.snomed.datastore/src/com/b2international/snowowl/snomed/datastore/request/rf2/importer/Rf2TransactionContext.java:240-270 | a cached component is staged as an addition; an existing one as an update of the stored revision that stays released if it was released |
| Rf2Context.CollectIds | snomed/com.b2international.snowowl.snomed.datastore/src/com/b2international/snowowl/snomed/datastore/request/rf2/importer/Rf2TransactionContext.java:161 | collects exactly the ids of the rows |
| Rf2Context.AddStagesInImportOrder | snomed/com.b2international.snowowl.snomed.datastore/src/com/b2international/snowowl/snomed/datastore/request/rf2/importer/Rf2TransactionContext.java:156-158 | the changes of each type are staged after those of every type earlier in import order (concepts, descriptions, relationships, members), and never reordered |
| Rf2Context.Rf2TransactionContext.constructor | snomed/com.b2international.snowowl.snomed.datastore/src/com/b2international/snowowl/snomed/datastore/request/rf2/importer/Rf2TransactionContext.java:64-77 | a new context starts with no cached components, no identifier sets and nothing staged |
| Rf2Context.Rf2TransactionContext.Lookup | snomed/com.b2international.snowowl.snomed.datastore/src/com/b2international/snowowl/snomed/datastore/request/rf2/importer/Rf2TransactionContext.java:117-132 | a single lookup answers from the cache, then from the resolved objects, then from the repository only for code systems or when loading on demand, and otherwise fails with the missing id |
| Rf2Context.Rf2TransactionContext.LookupAll | snomed/com.b2international.snowowl.snomed.datastore/src/com/b2international/snowowl/snomed/datastore/request/rf2/importer/Rf2TransactionContext.java:135-154 | a collection lookup answers cached ids from the cache and queries the repository once, for exactly the uncached ids, and not at all when every id is cached |
| Rf2Context.Rf2TransactionContext.SeedRows | snomed/com.b2international.snowowl.snomed.datastore/src/com/b2international/snowowl/snomed/datastore/request/rf2/importer/Rf2TransactionContext.java:178-197 | the seeding loop computes the seeding pass and commits nothing |
| Rf2Context.Rf2TransactionContext.StageRows | snomed/com.b2international.snowowl.snomed.datastore/src/com/b2international/snowowl/snomed/datastore/request/rf2/importer/Rf2TransactionContext.java:235-271 | the staging loop appends exactly the changes of the imported rows and touches nothing else |
| Rf2Context.Rf2TransactionContext.AddType | snomed/com.b2international.snowowl.snomed.datastore/src/com/b2international/snowowl/snomed/datastore/request/rf2/importer/Rf2TransactionContext.java:157-289 | one type of the import: lookup of the rows and their dependencies, seeding, staging |
| Rf2Context.Rf2TransactionContext.Add | snomed/com.b2international.snowowl.snomed.datastore/src/com/b2international/snowowl/snomed/datastore/request/rf2/importer/Rf2TransactionContext.java:156-289 | the batch is imported one type at a time in import order, without committing |
| Rf2Context.Rf2TransactionContext.CommitWithComment | snomed/com.b2international.snowowl.snomed.datastore/src/com/b2international/snowowl/snomed/datastore/request/rf2/importer/Rf2TransactionContext.java:89-104 | the commit drops the cache, commits what is staged, hands both identifier sets to the identifier service only when it supports imports, and clears them |
| Rf2Context.Rf2TransactionContext.CommitUnsupported | snomed/com.b2international.snowowl.snomed.datastore/src/com/b2international/snowowl/snomed/datastore/request/rf2/importer/Rf2TransactionContext.java:84-114 | the other commit overloads always fail |
| RefsetMember.AllFieldsComplete | snomed/com.b2international.snowowl.snomed.datastore/src/com/b2international/snowowl/snomed/datastore/index/entry/SnomedRefSetMemberIndexEntry.java:589-639 | the list of member-specific fields the builder dispatches on is complete |
| RefsetMember.FieldNamed | snomed/com.b2international.snowowl.snomed.datastore/src/com/b2international/snowowl/snomed/datastore/index/entry/SnomedRefSetMemberIndexEntry.java:589-639 | a field name selects the field carrying that name, and unknown names select none |
| RefsetMember.FieldNamedSelectsField | snomed/com.b2international.snowowl.snomed.datastore/src/com/b2international/snowowl/snomed/datastore/index/entry/SnomedRefSetMemberIndexEntry.java:589-639 | with distinct field names, each field's own name selects that field |
| RefsetMember.GetValue | snomed/com.b2international.snowowl.snomed.datastore/src/com/b2international/snowowl/snomed/datastore/index/entry/SnomedRefSetMemberIndexEntry.java:1150-1162 | a member without a data type has no value; otherwise the value is read from the index field of its data type |
| RefsetMember.AdditionalFields | snomed/com.b2international.snowowl.snomed.datastore/src/com/b2international/snowowl/snomed/datastore/index/entry/SnomedRefSetMemberIndexEntry.java:1378-1442 | the additional-fields map holds exactly the non-null member-specific fields, under their names, with their values |
| RefsetMember.ComponentTypeOf | snomed/com.b2international.snowowl.snomed.datastore/src/com/b2international/snowowl/snomed/datastore/index/entry/SnomedRefSetMemberIndexEntry.java:1093-1098 | a referenced component type below the unspecified number is rejected; an unspecified type with a non-empty referenced id is derived from the id; otherwise the given type is kept |
| RefsetMember.ReferencedComponentDocClass | snomed/com.b2international.snowowl.snomed.datastore/src/com/b2international/snowowl/snomed/datastore/index/entry/SnomedRefSetMemberIndexEntry.java:1112-1120 | refset and concept numbers map to the concept document, descriptions and relationships to theirs, every other number fails |
| RefsetMember.Built | snomed/com.b2international.snowowl.snomed.datastore/src/com/b2international/snowowl/snomed/datastore/index/entry/SnomedRefSetMemberIndexEntry.java:894-990 | build fails iff the referenced component type is invalid or a string data type is given a non-string value; a built document is well formed, keeps every field, stores a typed or parsed value under its data type and no value otherwise |
| RefsetMember.RebuildsSource | snomed/com.b2international.snowowl.snomed.datastore/src/com/b2international/snowowl/snomed/datastore/index/entry/SnomedRefSetMemberIndexEntry.java:215-230 | a builder copied from a well-formed document builds that document back, apart from the label |
| RefsetMember.MemberBuilder.constructor | snomed/com.b2international.snowowl.snomed.datastore/src/com/b2international/snowowl/snomed/datastore/index/entry/SnomedRefSetMemberIndexEntry.java:507-540 | a new builder holds the default core fields, no member-specific fields and the unspecified referenced component type |
| RefsetMember.MemberBuilder.FromSource | snomed/com.b2international.snowowl.snomed.datastore/src/com/b2international/snowowl/snomed/datastore/index/entry/SnomedRefSetMemberIndexEntry.java:215-230 | the builder copied from a source holds every field of that source |
| RefsetMember.MemberBuilder.Field | snomed/com.b2international.snowowl.snomed.datastore/src/com/b2international/snowowl/snomed/datastore/index/entry/SnomedRefSetMemberIndexEntry.java:589-639 | setting a field by name succeeds iff the name is known and the value is null or of the class its field casts to; on success exactly that slot changes, on failure nothing changes |
| RefsetMember.MemberBuilder.Fields | snomed/com.b2international.snowowl.snomed.datastore/src/com/b2international/snowowl/snomed/datastore/index/entry/SnomedRefSetMemberIndexEntry.java:582-587 | setting a map of fields succeeds iff every entry is accepted, and then every named slot takes its value and the others are unchanged |
| RefsetMember.MemberBuilder.Build | snomed/com.b2international.snowowl.snomed.datastore/src/com/b2international/snowowl/snomed/datastore/index/entry/SnomedRefSetMemberIndexEntry.java:894-990 | the builder builds the document of its current state |
| RefsetMember.ValuesFilter | snomed/com.b2international.snowowl.snomed.datastore/src/com/b2international/snowowl/snomed/datastore/index/entry/SnomedRefSetMemberIndexEntry.java:389-405 | a boolean filter with more than one value is a bad request; otherwise the filter is built |
| RefsetMember.ValuesFilterMatchesListedValues | snomed/com.b2international.snowowl.snomed.datastore/src/com/b2international/snowowl/snomed/datastore/index/entry/SnomedRefSetMemberIndexEntry.java:389-405 | a member of the filtered data type matches the values filter iff its value is one of the listed values |
| RefsetMember.RelationshipGroupRange | snomed/com.b2international.snowowl.snomed.datastore/src/com/b2international/snowowl/snomed/datastore/index/entry/SnomedRefSetMemberIndexEntry.java:430-437 | a group range fails with an illegal argument (not a bad request) iff its start is after its end |
| RefsetMember.RelationshipGroupRangeMatches | snomed/com.b2international.snowowl.snomed.datastore/src/com/b2international/snowowl/snomed/datastore/index/entry/SnomedRefSetMemberIndexEntry.java:426-437 | a member matches the group range iff its group lies between start and end inclusive |
| Rf2Export.PathGuard | snomed/com.b2international.snowowl.snomed.datastore/src/com/b2international/snowowl/snomed/datastore/request/rf2/SnomedRf2ExportRequest.java:249-257 | an export passes the path guards iff a point-in-time path is exported as a snapshot and a revision range only as a delta that needs no version branches |
| Rf2Export.PointInTimeRangeRefused | snomed/com.b2international.snowowl.snomed.datastore/src/com/b2international/snowowl/snomed/datastore/request/rf2/SnomedRf2ExportRequest.java:249-257 | a path that is both a point in time and a revision range is refused for every release type |
| Rf2Export.Paths | snomed/com.b2international.snowowl.snomed.datastore/src/com/b2international/snowowl/snomed/datastore/request/rf2/SnomedRf2ExportRequest.java:403-407 | the version paths, one per version, in version order |
| Rf2Export.Distinct | snomed/com.b2international.snowowl.snomed.datastore/src/com/b2international/snowowl/snomed/datastore/request/rf2/SnomedRf2ExportRequest.java:403-407 | removing repeated paths leaves each path exactly once and loses none |
| Rf2Export.DistinctKeepsDistinct | snomed/com.b2international.snowowl.snomed.datastore/src/com/b2international/snowowl/snomed/datastore/request/rf2/SnomedRf2ExportRequest.java:403-407 | paths without repeats are kept as they are, in order |
| Rf2Export.BranchesToExportMeans | snomed/com.b2international.snowowl.snomed.datastore/src/com/b2international/snowowl/snomed/datastore/request/rf2/SnomedRf2ExportRequest.java:399-445 | full exports, and deltas that need version branches, read every version branch once plus the reference branch, which comes last unless it is a version branch; other deltas read nothing; snapshots read only the reference branch |
| Rf2Export.Ranges | snomed/com.b2international.snowowl.snomed.datastore/src/com/b2international/snowowl/snomed/datastore/request/rf2/SnomedRf2ExportRequest.java:430-437 | the first branch is read as it is, every later one as the revision range from its predecessor |
| Rf2Export.DistinctPaths | snomed/com.b2international.snowowl.snomed.datastore/src/com/b2international/snowowl/snomed/datastore/request/rf2/SnomedRf2ExportRequest.java:403-407 | the collecting loop yields the distinct version paths in order |
| Rf2Export.RangesOf | snomed/com.b2international.snowowl.snomed.datastore/src/com/b2international/snowowl/snomed/datastore/request/rf2/SnomedRf2ExportRequest.java:430-437 | the range loop yields the ranges of the branch list |
| Rf2Export.ComputeBranchesToExport | snomed/com.b2international.snowowl.snomed.datastore/src/com/b2international/snowowl/snomed/datastore/request/rf2/SnomedRf2ExportRequest.java:399-440 | the branch plan is the ranges of the branches to export |
| Rf2Export.VersionBefore | snomed/com.b2international.snowowl.snomed.datastore/src/com/b2international/snowowl/snomed/datastore/request/rf2/SnomedRf2ExportRequest.java:482-491 | no version iff there is none or the first is after the timestamp; otherwise a version not after the timestamp, and on ascending versions the latest such |
| Rf2Export.LatestModuleDate | snomed/com.b2international.snowowl.snomed.datastore/src/com/b2international/snowowl/snomed/datastore/request/rf2/SnomedRf2ExportRequest.java:493-518 | the later of the two module dates, the source date on a tie, none only when both are absent |
| Rf2Export.CutoffBelowVersionParent | snomed/com.b2international.snowowl.snomed.datastore/src/com/b2international/snowowl/snomed/datastore/request/rf2/SnomedRf2ExportRequest.java:1029-1040 | below the versions' parent branch the cut-off is the base timestamp of the ancestor that is the parent's direct child |
| Rf2Export.CutoffOutsideVersionParent | snomed/com.b2international.snowowl.snomed.datastore/src/com/b2international/snowowl/snomed/datastore/request/rf2/SnomedRf2ExportRequest.java:1029-1040 | on the versions' parent, on MAIN and on every branch not below the parent, every version is visible |
| Rf2Export.ReleaseDirectoryNameInjective | snomed/com.b2international.snowowl.snomed.datastore/src/com/b2international/snowowl/snomed/datastore/request/rf2/SnomedRf2ExportRequest.java:615-617 | the release directory name determines both the release status and the effective date |
| Rf2Export.ExportRequest.constructor | snomed/com.b2international.snowowl.snomed.datastore/src/com/b2international/snowowl/snomed/datastore/request/rf2/SnomedRf2ExportRequest.java:169-173 | a new request has no effective-time bounds, no pre-release content and no filters |
| Rf2Export.ExportRequest.SetComponentTypes | snomed/com.b2international.snowowl.snomed.datastore/src/com/b2international/snowowl/snomed/datastore/request/rf2/SnomedRf2ExportRequest.java:199-210 | an absent collection selects all four component types, a present one (even empty) is taken as given; every other field, including the ones the plan reads, stays |
| Rf2Export.ExportRequest.SetModules | snomed/com.b2international.snowowl.snomed.datastore/src/com/b2international/snowowl/snomed/datastore/request/rf2/SnomedRf2ExportRequest.java:212-218 | an absent collection means every module, a present one is taken as given; every other field, including the ones the plan reads, stays |
| Rf2Export.ExportRequest.SetRefSets | snomed/com.b2international.snowowl.snomed.datastore/src/com/b2international/snowowl/snomed/datastore/request/rf2/SnomedRf2ExportRequest.java:220-226 | an absent collection means every reference set, a present one is taken as given; every other field, including the ones the plan reads, stays |
| Rf2Export.ExportRequest.SetTransientEffectiveTime | snomed/com.b2international.snowowl.snomed.datastore/src/com/b2international/snowowl/snomed/datastore/request/rf2/SnomedRf2ExportRequest.java:228-240 | absent or empty means blank columns, NOW means today, anything else must be a short date or the request fails and nothing changes; every other field, including the ones the plan reads, stays |
| Rf2Export.ExportRequest.SetEffectiveTimes | snomed/com.b2international.snowowl.snomed.datastore/src/com/b2international/snowowl/snomed/datastore/request/rf2/SnomedRf2ExportRequest.java:187-197 | the effective-time bounds and the pre-release flag take the given values; the release type and the export filters stay |
| Rf2Export.ExportRequest.Plan | snomed/com.b2international.snowowl.snomed.datastore/src/com/b2international/snowowl/snomed/datastore/request/rf2/SnomedRf2ExportRequest.java:247-445 | the export fails with the path guard's error, otherwise reads the ranges of the branches to export |
| CompositeImporter.LatestIndex | snomed/com.b2international.snowowl.snomed.importer.rf2/src/com/b2international/snowowl/snomed/importer/rf2/SnomedCompositeImporter.java:144-146 | the unit with the greatest effective-time key under the unit ordering, the first of equals |
| CompositeImporter.WithKey | snomed/com.b2international.snowowl.snomed.importer.rf2/src/com/b2international/snowowl/snomed/importer/rf2/SnomedCompositeImporter.java:148-150 | every unit keeps its place and type and takes the given key |
| CompositeImporter.CompositeUnits | snomed/com.b2international.snowowl.snomed.importer.rf2/src/com/b2international/snowowl/snomed/importer/rf2/SnomedCompositeImporter.java:135-155 | a snapshot of no units fails; otherwise a snapshot's units all take the latest unit's key, and other imports keep the units unchanged |
| CompositeImporter.IsRefSetImport | snomed/com.b2international.snowowl.snomed.importer.rf2/src/com/b2international/snowowl/snomed/importer/rf2/SnomedCompositeImporter.java:243-250 | true iff every unit imports a reference set |
| CompositeImporter.DoImport | snomed/com.b2international.snowowl.snomed.importer.rf2/src/com/b2international/snowowl/snomed/importer/rf2/SnomedCompositeImporter.java:159-235 | an empty import fails; a non-reference-set import fails iff another import is in progress; otherwise the calls made are the import trace; on every path the cleanup disposes whichever import index service is registered, another import's included, and leaves none registered |
| CompositeImporter.Keys | snomed/com.b2international.snowowl.snomed.importer.rf2/src/com/b2international/snowowl/snomed/importer/rf2/SnomedCompositeImporter.java:173-207 | the effective-time key of each unit, in order |
| CompositeImporter.FlushUpdates | snomed/com.b2international.snowowl.snomed.importer.rf2/src/com/b2international/snowowl/snomed/importer/rf2/SnomedCompositeImporter.java:176-214 | closing a run updates releases once with its key and imports no unit |
| CompositeImporter.LoopTraceUpdates | snomed/com.b2international.snowowl.snomed.importer.rf2/src/com/b2international/snowowl/snomed/importer/rf2/SnomedCompositeImporter.java:170-221 | within the loop, a release update is made for every run of equal keys but the last |
| CompositeImporter.LoopTraceImported | snomed/com.b2international.snowowl.snomed.importer.rf2/src/com/b2international/snowowl/snomed/importer/rf2/SnomedCompositeImporter.java:170-221 | the loop imports every unit exactly once, in order |
| CompositeImporter.ImportTraceFollowsRuns | snomed/com.b2international.snowowl.snomed.importer.rf2/src/com/b2international/snowowl/snomed/importer/rf2/SnomedCompositeImporter.java:170-221 | releases and versions are updated exactly once per run of equal consecutive keys, in order, and every unit is imported exactly once, in order |
| CompositeImporter.SameKeysOneRun | snomed/com.b2international.snowowl.snomed.importer.rf2/src/com/b2international/snowowl/snomed/importer/rf2/SnomedCompositeImporter.java:144-150 | units that share one key form a single run |
| CompositeImporter.SnapshotImportUpdatesOnce | snomed/com.b2international.snowowl.snomed.importer.rf2/src/com/b2international/snowowl/snomed/importer/rf2/SnomedCompositeImporter.java:144-221 | a normalised snapshot import updates releases and versions exactly once, with the latest key |
| CompositeImporter.ReleaseFindsItself | snomed/com.b2international.snowowl.snomed.importer.rf2/src/com/b2international/snowowl/snomed/importer/rf2/SnomedCompositeImporter.java:467-487 | a release is found among releases that contain it, whether matched by OID or by short name |
| CompositeImporter.IsOnlyInternationalPresent | snomed/com.b2international.snowowl.snomed.importer.rf2/src/com/b2international/snowowl/snomed/importer/rf2/SnomedCompositeImporter.java:459-465 | true iff the only persisted release is the international one |
| CompositeImporter.CheckedReleasesPresent | snomed/com.b2international.snowowl.snomed.importer.rf2/src/com/b2international/snowowl/snomed/importer/rf2/SnomedCompositeImporter.java:428-457 | after a successful check some release exists, no persisted release is dropped and a requested extension or mixed release is present |
| CompositeImporter.CheckedReleasesIdempotent | snomed/com.b2international.snowowl.snomed.importer.rf2/src/com/b2international/snowowl/snomed/importer/rf2/SnomedCompositeImporter.java:428-457 | checking again after a successful check changes nothing and succeeds |
| CompositeImporter.ReleaseContext.constructor | snomed/com.b2international.snowowl.snomed.importer.rf2/src/com/b2international/snowowl/snomed/importer/rf2/SnomedCompositeImporter.java:428-431 | the context holds the requested release, the import settings and the persisted releases, and no tags yet |
| CompositeImporter.ReleaseContext.CheckAndCreateReleases | snomed/com.b2international.snowowl.snomed.importer.rf2/src/com/b2international/snowowl/snomed/importer/rf2/SnomedCompositeImporter.java:428-457 | adds the releases the check demands, or fails with the check's error and changes nothing |
| CompositeImporter.ReleaseContext.HasVersion | snomed/com.b2international.snowowl.snomed.importer.rf2/src/com/b2international/snowowl/snomed/importer/rf2/SnomedCompositeImporter.java:378-385 | true iff the release already has a version with the key |
| CompositeImporter.ReleaseContext.UpdateReleasesAndVersions | snomed/com.b2international.snowowl.snomed.importer.rf2/src/com/b2international/snowowl/snomed/importer/rf2/SnomedCompositeImporter.java:358-420 | unpublished content changes nothing; otherwise the release check runs, and with version creation on a version and a tag are added to the first release iff no version has the key, so no release ever holds two versions with the same key |
| CompositeImporter.CheckedKeepsVersionKeysUnique | snomed/com.b2international.snowowl.snomed.importer.rf2/src/com/b2international/snowowl/snomed/importer/rf2/SnomedCompositeImporter.java:433-455 | the presence check only adds the international and the requested release, so no release gains a duplicate version key |
| RemoteJob.IsDone | core/com.b2international.snowowl.core/src/com/b2international/snowowl/core/jobs/RemoteJobEntry.java:414-417 | a job is done iff it finished, failed or was cancelled |
| RemoteJob.IsRunning | core/com.b2international.snowowl.core/src/com/b2international/snowowl/core/jobs/RemoteJobEntry.java:419-422 | a job is running iff it is scheduled, running or has a cancellation requested |
| RemoteJob.IsCancelled | core/com.b2international.snowowl.core/src/com/b2international/snowowl/core/jobs/RemoteJobEntry.java:424-427 | a job is cancelled iff its cancellation was requested or completed: never when scheduled, running, finished or failed |
| RemoteJob.IsSuccessful | core/com.b2international.snowowl.core/src/com/b2international/snowowl/core/jobs/RemoteJobEntry.java:429-432 | a job is successful iff it is done, not cancelled and did not fail |
| RemoteJob.DoneOrRunning | core/com.b2international.snowowl.core/src/com/b2international/snowowl/core/jobs/RemoteJobEntry.java:414-422 | every job is exactly one of done and running |
| RemoteJob.CancelRequestedStillRunning | core/com.b2international.snowowl.core/src/com/b2international/snowowl/core/jobs/RemoteJobEntry.java:419-432 | a job whose cancellation was requested counts as cancelled, is still running and is not successful |
| RemoteJob.ElapsedMillis | core/com.b2international.snowowl.core/src/com/b2international/snowowl/core/jobs/RemoteJobEntry.java:340-346 | the elapsed time is known iff both the schedule and the finish date are, and is the time from schedule to finish |
| RemoteJob.Wrap32 | core/com.b2international.snowowl.core/src/com/b2international/snowowl/core/jobs/RemoteJobEntry.java:434-437 | reduces to the 32-bit range, congruent modulo 2^32 |
| RemoteJob.HashCode | core/com.b2international.snowowl.core/src/com/b2international/snowowl/core/jobs/RemoteJobEntry.java:434-437 | the hash code is a 32-bit integer |
| RemoteJob.EqualityIsConsistent | core/com.b2international.snowowl.core/src/com/b2international/snowowl/core/jobs/RemoteJobEntry.java:434-455 | equality is reflexive, symmetric and transitive, and equal entries have equal hash codes |
| RemoteJob.EqualIgnoresState | core/com.b2international.snowowl.core/src/com/b2international/snowowl/core/jobs/RemoteJobEntry.java:439-455 | changing only the state gives an equal entry, a different value iff the state changed |
| RemoteJob.WithState | core/com.b2international.snowowl.core/src/com/b2international/snowowl/core/jobs/RemoteJobEntry.java:42-45 | the state changes to the new one only when it is the expected one; nothing else changes |
| RemoteJob.WithStateFirstWins | core/com.b2international.snowowl.core/src/com/b2international/snowowl/core/jobs/RemoteJobEntry.java:42-45 | of two updates expecting the same state, the first that changes it wins and the second does nothing |
| RemoteJob.WithStateIdempotent | core/com.b2international.snowowl.core/src/com/b2international/snowowl/core/jobs/RemoteJobEntry.java:42-45 | running the compare-and-set twice is running it once, unless it left the expected state in place |
| RemoteJob.WithDeleted | core/com.b2international.snowowl.core/src/com/b2international/snowowl/core/jobs/RemoteJobEntry.java:41 | marks the entry deleted and changes nothing else |
| RemoteJob.WithCompletionLevel | core/com.b2international.snowowl.core/src/com/b2international/snowowl/core/jobs/RemoteJobEntry.java:46 | sets the completion level and changes nothing else |
| RemoteJob.WithRunning | core/com.b2international.snowowl.core/src/com/b2international/snowowl/core/jobs/RemoteJobEntry.java:47 | sets the state and the start date and changes nothing else |
| RemoteJob.WithDone | core/com.b2international.snowowl.core/src/com/b2international/snowowl/core/jobs/RemoteJobEntry.java:48 | sets the state, the finish date and the result and changes nothing else |
| RemoteJob.DoneJobHasElapsedTime | core/com.b2international.snowowl.core/src/com/b2international/snowowl/core/jobs/RemoteJobEntry.java:340-346 | a scheduled job finished in a done state is done, its elapsed time is the time from schedule to finish, and it keeps its identity |
| RemoteJob.Builder.Build | core/com.b2international.snowowl.core/src/com/b2international/snowowl/core/jobs/RemoteJobEntry.java:242-244 | the entry built carries the builder's fields |
| RemoteJob.Builder.constructor | core/com.b2international.snowowl.core/src/com/b2international/snowowl/core/jobs/RemoteJobEntry.java:165-179 | a new builder is scheduled, at the minimum completion level, not deleted, with every optional field absent |
| RemoteJob.Builder.SetId | core/com.b2international.snowowl.core/src/com/b2international/snowowl/core/jobs/RemoteJobEntry.java:182-185 | the entry built afterwards differs from the one before only in its id |
| RemoteJob.Builder.SetKey | core/com.b2international.snowowl.core/src/com/b2international/snowowl/core/jobs/RemoteJobEntry.java:187-190 | the entry built afterwards differs from the one before only in its key |
| RemoteJob.Builder.SetDescription | core/com.b2international.snowowl.core/src/com/b2international/snowowl/core/jobs/RemoteJobEntry.java:192-195 | the entry built afterwards differs from the one before only in its description |
| RemoteJob.Builder.SetUser | core/com.b2international.snowowl.core/src/com/b2international/snowowl/core/jobs/RemoteJobEntry.java:197-200 | the entry built afterwards differs from the one before only in its user |
| RemoteJob.Builder.SetScheduleDate | core/com.b2international.snowowl.core/src/com/b2international/snowowl/core/jobs/RemoteJobEntry.java:202-205 | the entry built afterwards differs from the one before only in its scheduleDate |
| RemoteJob.Builder.SetStartDate | core/com.b2international.snowowl.core/src/com/b2international/snowowl/core/jobs/RemoteJobEntry.java:207-210 | the entry built afterwards differs from the one before only in its startDate |
| RemoteJob.Builder.SetFinishDate | core/com.b2international.snowowl.core/src/com/b2international/snowowl/core/jobs/RemoteJobEntry.java:212-215 | the entry built afterwards differs from the one before only in its finishDate |
| RemoteJob.Builder.SetState | core/com.b2international.snowowl.core/src/com/b2international/snowowl/core/jobs/RemoteJobEntry.java:217-220 | the entry built afterwards differs from the one before only in its state |
| RemoteJob.Builder.SetCompletionLevel | core/com.b2international.snowowl.core/src/com/b2international/snowowl/core/jobs/RemoteJobEntry.java:222-225 | the entry built afterwards differs from the one before only in its completionLevel |
| RemoteJob.Builder.SetDeleted | core/com.b2international.snowowl.core/src/com/b2international/snowowl/core/jobs/RemoteJobEntry.java:227-230 | the entry built afterwards differs from the one before only in its deleted |
| RemoteJob.Builder.SetResult | core/com.b2international.snowowl.core/src/com/b2international/snowowl/core/jobs/RemoteJobEntry.java:232-235 | the entry built afterwards differs from the one before only in its result |
| RemoteJob.Builder.SetParameters | core/com.b2international.snowowl.core/src/com/b2international/snowowl/core/jobs/RemoteJobEntry.java:237-240 | the entry built afterwards differs from the one before only in its parameters |
| RemoteJob.From | core/com.b2international.snowowl.core/src/com/b2international/snowowl/core/jobs/RemoteJobEntry.java:142-156 | a fresh builder that builds back exactly the given entry |

## Left out

- The search backend client is not modelled: bulk processor, by-query requests, mapping and index requests, cluster health and settings calls. Its answers are parameters, and the requests sent are recorded as calls.
- Concurrency is not modelled. The writer's bulk phase runs its operations one after another in staging order. Only the choice of executor and its pool size are kept.
- The order in which a hash-based map or set yields types is an arbitrary enumeration chosen in the model. Within one type, the index and delete requests between two flushes are kept as a set keyed by document key, not in sending order.
- `EsDocumentWriter.commit` never clears the two bulk lists. The model follows the code.
- JSON serialisation, the settings loader and `analysis.json` are not modelled. The mapping diff is an input: a list of changed paths with their kind.
- The table of default setting values comes from `IndexClientFactory`, which is not part of this model. It is a constructor parameter.
- Java reflection and annotations are not modelled. Document fields are given as explicit descriptors of their Java kind and annotations.
- Lower-casing and case-insensitive comparison are modelled on ASCII letters only.
- The retry loop's sleep with random jitter is not modelled, nor is the refresh of the mapping after each round with conflicts.
- IndexAdmin.WaitForYellowHealth: takes the sequence of health polls with the clock readings as an input. It requires that some poll is decisive, which stands in for the clock eventually passing the timeout.
- The seeding of reference set identifier concepts in the RF2 staging context is not modelled. This covers the reference set properties attached to concept documents and the re-add of staged new reference sets.
- The component builders' `init` of a revision from an RF2 row is abstracted. It sets the released flag, the effective time and the row content.
- Rf2TransactionContext treats only concepts, descriptions and relationships as core components that are registered or published; reference set members never are.
- The capped context's delegate makes a commit exactly when something is staged. Its own dirty check is not part of this model.
- CappedContext.RunCommitsFullBatches: the number of staged objects is counted as the number of staging calls. A staging area that merges a repeated add or update of the same object into one entry would count fewer.
- The deserialiser of concrete-domain values, effective-time parsing and formatting, and the derivation of a component type from an identifier are uninterpreted parameters.
- Query expressions other than the values filter and the relationship group filters are not modelled.
- RefsetMember.RebuildsSource: the rebuilt document drops the label, because the copying builder does not copy it.
- These constants are parameters or assumed distinct values, not the real strings:
  - the revision-range and point-in-time markers of branch paths;
  - the terminology component numbers;
  - the RF2 field names, modelled as an injective naming function;
  - the UNPUBLISHED key;
  - the values of `RemoteJobState`.
- Export I/O is not modelled: temporary directories, zipping, attachments, and every search request made while exporting.
- The current date and time are inputs ("NOW" becomes a given short date).
- CompositeImporter.CompositeUnits: does not sort the units by the unit ordering, a library comparator that is not part of this model. It keeps the gathered order.
- In the composite importer, version keys are stored as effective-time keys instead of formatted dates.
- The international release that `checkAndCreateSnomedReleases` creates is a parameter.
- The persisted release collection is read as a live view, so the first release is the one after the presence check.
- CompositeImporter.DoImport: the trace assumes every call returns. An exception from a release update, or from a unit import, ends the import part way.
- Transactions, commits, notifications, tagging and taxonomy building of the legacy importer are not modelled. A new version and tag are recorded as the key.
- RemoteJob.ElapsedMillis: returns the milliseconds. The human-readable formatting of `TimeUtil` is not modelled.
- RemoteJob.Builder.constructor: the default id is the empty string, where the Java builder leaves it null.
- RemoteJob.HashCode: a null id, on which `equals` and `hashCode` would throw, is not modelled. The string hash is a parameter.
- The JSON parameter and result accessors of a remote job are not modelled.

## Findings

| source | as written | input that shows it | evidently intended | confidence | as-written member | corrected member |
|---|---|---|---|---|---|---|
| commons/com.b2international.index/src/com/b2international/index/es/admin/EsIndexAdmin.java:721-726 | the retry budget is checked before the response's conflicts, so a round after the fifth retry fails even when it had no conflicts | five responses with only version conflicts, then a clean sixth response | a clean response is accepted whatever the remaining budget; only a round that still has conflicts after the budget is spent fails | medium, not executed | IndexAdmin.ScrollAsWritten / IndexAdmin.CleanSixthRound | IndexAdmin.ScrollCorrected / IndexAdmin.BulkIndexByScroll / IndexAdmin.CorrectedExhaustsOnlyOnConflicts |
