# Polytician, modelled in Dafny

Polytician stores concepts (markdown, ThoughtForm and vector of one idea) in a SQLite
database that several clients write at once, searches their vectors exactly, backs the store
up into verifiable files, and syncs ThoughtForms through PolyVault, a vault of immutable
commits. This project models the parts of that system where correctness is not obvious from
one function, and proves properties over all inputs, all runs or all reachable states.

`dafny verify dfyconfig.toml` checks everything.

## Reading guide

| modules | part of the system |
|---|---|
| Rows, SqliteStore, Planning, SavedColumns, AutoEmbedding, Saving | the concept tables, conditional writes and their transaction, the planning of saves and what they store column by column |
| Concurrency, SaveRuns, Attempts | interleaved clients as a step system: reads, transactions, conflicts and retries |
| Scenario, Recreation, StaleOmission | concrete runs of it: what re-created ids and stale omissions can lose, and exactly when |
| Restoring, Convergence, Reembedding, Reembedded | restoring backups into a store, in any order; re-embedding a namespace page by page |
| Search | the widening loop over truncated, arbitrarily tie-broken vector queries |
| Mentions | entity mentions, relationships and the context graph of the rule-based pipeline |
| Conflict, Rebase, SplitRebase, RestoreReplay | conflict resolution, merge, incremental rebase, rebase in two steps under any options, replay on restore |
| JsonText, Canonical, KeyOrder, Meanings | JSON text with an inverse parser, canonical JSON and its key order, what objects mean as maps |
| Chunker, Envelope, Pipeline, VaultReplay, VaultOutcomes, Fingerprint | the PolyVault payload: chunks, sealing, the whole way there and back and how it ends, the dedupe key |
| TextLines, BackupSchema, BackupMeaning, BackupRecords, BackupFormat, BackupRoundTrip, BackupOutcomes | the backup file: its text, its schema, the way there and back and how it ends |
| AutoBackup, Archival, ArchivalRepeats | the save counter with its flush queue; uploads in flight |
| Wrappers, Ordering, InsertionMap | Option and Result, stable sorting and string order, the JavaScript `Map` |

Code that works on values is a function with lemmas about it. Code that changes things step by
step is a method with a loop, or a class whose fields it updates; its contract ties it to a
specification function, and the lemmas are about that function. The system-wide results are
about step systems: a state, the steps that may happen next, and every run of them.

What the runtime provides (SHA-256, AES-GCM, gzip, UTF-8, base64, `localeCompare`, the
embedder) is a parameter, and each law assumed of it is a stated precondition or a named predicate: `LawfulCipher`,
`LawfulCodecs`, `LawfulTools`, `Lawful`, `LawfulEmbedder`.

## What came out

Where a property does not hold as documented, the model keeps the code's behaviour; the exact
condition is proved, and an input or a run outside it is exhibited.

- **Re-created ids.** A version identifies a row only within one life of its id, because a
  re-created concept starts at version 1 again. A save that read the old row can commit over
  the new one and drop its tags (`TagLostExactly`, `RecreationCanLoseTag`) or its authorship
  (`AuthorLostExactly`). That includes a re-embedding without `overwrite`, which then replaces
  an authored vector it never looked at (`RecreationCanLoseAuthor`). Within one life the
  optimistic check is sound (`CommitIsAtomicExactly`, `CarefulCommitKeepsAuthors`).
- **Skipped records.** A restore decides to skip a record when it reads the row, and does not
  check that again at the commit. Its batch is atomic exactly while the omissions still hold
  (`CommitIsAtomicExactly`); `OmissionCanBeStale` is a run in which one does not.
- **Search cap.** At the 4096 cap the search is exact if and only if no row of the true top k
  lies in a partition with more than 4096 rows as near as itself (`ExactForEveryScan`,
  `CrowdedSearchCanFail`); 4097 rows at one distance are such rows (`CrowdIsNotExact`). The
  distances are right anyway.
- **Split rebase.** Two-step rebase equals one-step rebase under `updatedAt` without `prefer`
  (`IncrementalRebaseIsOneShot`). Under any options it does so exactly if each id meets the
  condition of `SplitAgreesExactly`; `SplitCanDisagree` is a case that does not.
- **Stale hashes.** Restore breaks ties by the stored hash and rebase by the verified one and
  the source. On any list of forms they part exactly if some form has the time and stored hash
  of the one restore keeps, but other content and a greater source
  (`StaleHashesDisagreeExactly`, `StaleHashesCanDisagree`). The rebase command refuses stale
  hashes (src/commands/polyvault/rebase.ts:218-242), so only a direct call of
  `computeRemoteDelta` gets there.
- **Convergence of restores.** A concept ends as its stored row or as a best record: newer than
  that row and the newest of the records in the concept's namespace (`RestoreEndsAsLatest`). So
  backups restored in any order end alike exactly if the namespace is settled (the concept is
  stored, or its records share one) and the best records show the same
  (`BackupsConvergeExactly`, `OrderCanMatter`). Version numbers and creation times are not part
  of what converges.
- **Re-embedding.** `findForeignVectors` asks for ids greater than the empty string, so an empty
  id is counted in `remaining` but never reached, and no other id is missed
  (`BelowLimitNoneIsMissed`, `EmptyIdIsOnlyCounted`). The call fails exactly if one of the
  concepts it would save has more than 64 distinct stored tags, which a restored backup can
  bring in (`Reembed`, `ReembedCanFail`).
- **Archival.** The comment on `archivedVersion` promises that a version is uploaded once. The
  connector remembers only the version that succeeded last (`RemembersLastSuccess`), so a
  resumed call uploads a version again exactly if another one succeeded since and none of it is
  in flight (`StartsExactly`, `UploadedTwiceExactly`). Uploads that never overlap and start in
  version order rule that out (`NoVersionTwice`); without either it happens
  (`OverlapUploadsTwice`, `DisorderUploadsTwice`).
- **Dedupe fingerprint.** It is injective for ids without newlines. The schema allows newlines;
  then what a backup covers shares its text with what another one covers exactly if it has
  several keys, or one whose id begins with the line of a key that may stand before the rest
  (`SharesTextExactly`), and any two verified forms have the dedupe key of one other verified
  form (`NewlineIdsCollide`).

Two smaller points: for duplicate chunk indices the message names the first position where the
sorted index is off, which need not be a missing one (`FirstFault` reports the position as the
code does); and the documentation of conflict resolution speaks of lexical comparison where the
code uses `localeCompare`, which the model takes as any total order.

## Model

| member | source | states |
|---|---|---|
| Rows.FailureIsFirst | src/db/sqlite-adapter.ts:198-212 | a failed batch names the first write that could not be applied after the writes before it |
| Rows.DistinctBatch | src/db/sqlite-adapter.ts:198-269 | a batch on different rows is applied exactly when each write applies to the state before the batch, and then every row is what its own write makes of that state |
| Rows.WriteKeepsNamespace | src/db/sqlite-adapter.ts:214-269 | between insert and delete no write changes a row's namespace or creation time |
| Rows.IndexFollowsBatch | src/db/sqlite-adapter.ts:214-269 | written entry by entry through a batch (put, delete or nothing per write), the index that belonged to the rows before it is the one that belongs to the rows after it |
| SqliteStore.SqliteAdapter.ApplyWrite | src/db/sqlite-adapter.ts:214-269 | one conditional write: reports whether its row condition held, changes nothing if not, and keeps the vector index in step with the row |
| SqliteStore.SqliteAdapter.ApplyWrites | src/db/sqlite-adapter.ts:198-212 | all writes or none: after a failure or an exception both tables are what they were, otherwise the rows are the writes applied in turn; the index agrees with the rows either way |
| SqliteStore.SqliteAdapter.UpsertVector | src/db/sqlite-adapter.ts:360-366 | the index entry of one id is replaced, no other changes |
| SqliteStore.SqliteAdapter.MigrateVectorIndex | src/db/sqlite-adapter.ts:146-182 | a rebuilt index holds exactly (id, namespace, embedding) of the rows with an embedding, after unusable embeddings were cleared |
| Planning.Plan | src/services/concept.service.ts:553-698 | the planning loop with its local provenance map computes the specified plan, errors in the source's order included; what the plan is, column by column, is stated by the two members of `SavedColumns` |
| SavedColumns.PlanSucceedsExactly | src/services/concept.service.ts:553-650 | a save is accepted exactly if its namespace and version fit the stored row, no machine-made content displaces authored content without `overwrite`, a new concept has some content, and at most 64 different tags result; otherwise the error names the first of these in that order that fails |
| SavedColumns.PlanSavesColumns | src/services/concept.service.ts:636-698 | every column of the planned row, insert or update: markdown, thoughtform and vector are the supplied ones, else the derived vector where it applies, else what was stored; likewise model, tags, status, ledger reference and the provenance of each representation; version, times and namespace |
| Planning.PlanIsStored | src/services/concept.service.ts:636-698 | the concept handed back to the caller is exactly the row the planned write stores |
| Planning.PlanRaisesVersion | src/services/concept.service.ts:562-576 | an update is conditional on the version read and stores exactly the next version, with id, namespace and creation time unchanged |
| Planning.PlanMergesTags | src/services/concept.service.ts:322-328 | the stored tags are exactly the old and the added ones, each once, at most 64 |
| Planning.PlanRespectsAuthors | src/services/concept.service.ts:585-624 | without `overwrite` authored content stays, or is replaced by authored content, never by derived or LLM content |
| Planning.PlanKeepsRepresentations | src/services/concept.service.ts:553-698 | no save takes a representation away |
| Saving.SaveBatch | src/services/concept.service.ts:356-410 | without concurrent writers a batch save succeeds exactly if no id is repeated and every entry is acceptable over the row it finds; then every row holds, column by column, what its entry supplies, else its derived vector, else what was there, all other rows are unchanged, and the stored rows are returned; on an error nothing is written and the first refused entry is named with its index and reason |
| Saving.PlannedBatchIsAtomic | src/services/concept.service.ts:377-410 | planning all entries first and writing one batch equals planning and storing them one by one |
| AutoEmbedding.EmbedMissing | src/services/concept.service.ts:523-550 | every entry that asks for a vector, itself or through the batch, and supplies none gets that of its markdown, or of its thoughtform only if it has no markdown; blank text gets none; one unusable vector fails the whole batch, and only that does |
| AutoEmbedding.RightVector | src/services/concept.service.ts:523-550 | what one entry gets, spelled out by its switch, its markdown and its thoughtform text |
| Concurrency.RunKeepsInv | src/db/sqlite-adapter.ts:146-269 | in every reachable state of any interleaving of save, batch, restore, delete and re-embedding clients the index, which each commit changes write by write, agrees with the rows, and a row read earlier in the same life at the same version is still the same row |
| Concurrency.CommitIsAtomic | src/services/concept.service.ts:377-410 | a committed batch has exactly the effect of planning and storing all its items from the rows as they are at the commit, if no updated id was deleted and created anew since it was read and every omission still holds |
| Concurrency.CommitIsAtomicExactly | src/services/concept.service.ts:440-511 | given unbroken lives of the updated ids, that holds if and only if the records a restore skipped would be skipped again at the commit |
| Concurrency.StepMovesRow | src/services/concept.service.ts:636-698 | each step leaves a row alone, raises its version by exactly one in the same namespace, deletes it, or inserts it into a new life |
| Concurrency.RunMovesRow | src/services/concept.service.ts:377-410 | and so does every step of every run |
| Concurrency.OneWinnerPerVersion | src/services/concept.service.ts:569-576 | of all writers that name one expected version of one life of an id, at most one ever commits |
| Concurrency.CommitsOnce | src/services/concept.service.ts:377-410 | every call commits at most once, however often it starts over |
| SaveRuns.TagsAreNeverLost | src/services/concept.service.ts:322-328 | in every run of saves and re-embeddings no tag of any row is ever lost |
| SaveRuns.AddedTagsStay | src/services/concept.service.ts:377-410 | the tags a committed save adds are on the row in every later state of such a run |
| SaveRuns.CarefulCommitKeepsAuthors | src/services/concept.service.ts:585-624 | as long as no id it updates or checked was deleted and created anew in between, the commit of a client without `overwrite` leaves authored content authored, even if it was written after the client's read |
| SaveRuns.ReembedFindsCheckedRow | src/services/concept.service.ts:923-941 | as long as the id it checked was not deleted and created anew, a re-embedding, whose inner save overwrites, only commits over the very row whose authorship it checked |
| SaveRuns.AuthorsAreNeverReplaced | src/services/concept.service.ts:585-624 | in every run of saves, conversions and re-embeddings without `overwrite` authored content is never replaced by derived or LLM content |
| SaveRuns.CommitSavesEntry | src/services/concept.service.ts:377-410 | in the step system, too, a committed save item stores, column by column, what its entry supplies over the row that was read |
| Attempts.AtMostEightAttempts | src/services/concept.service.ts:402-403 | in every state of every run no client is beyond its eighth attempt |
| Attempts.GivesUpExactly | src/services/concept.service.ts:399-410 | a failed transaction changes nothing and ends the call exactly if it is a removal, after the eighth attempt, or if the failing save names a version; otherwise all rows are read again |
| Attempts.FailingWriteIsItsItems | src/services/concept.service.ts:399-400 | in a batch of saves the write that fails is the write of the item with that index |
| Attempts.ChecksExactly | src/services/concept.service.ts:913-941 | a re-embedding goes on exactly with a vector of its namespace that no author made, unless it overwrites, and then submits one save with the new vector, its provenance and the version it saw |
| Attempts.CommitRestoresRecord | src/services/concept.service.ts:440-511 | in the step system, too, a committed record is restored, column by column, over the row as it is at the commit |
| Recreation.CommitStoresPlannedTags | src/services/concept.service.ts:636-698 | a save commits with the tags it merged from the row it read, whatever row is there now |
| Recreation.TagLostExactly | src/services/concept.service.ts:322-328 | a committed save loses a tag of the row it replaces if and only if neither the row it read nor the entry has that tag |
| Recreation.RecreationCanLoseTag | src/services/concept.service.ts:642 | a six-state run in which a row is deleted and created anew at the same version and a save that read the old row drops the new row's tag |
| Recreation.AuthorLostExactly | src/services/concept.service.ts:577-690 | a committed save takes authored content of the row it replaces away if and only if it supplies machine-made content for it, replaces it by its derived vector, or supplies nothing and the row it read was machine-made there |
| Recreation.RecreationCanLoseAuthor | src/services/concept.service.ts:923-941 | a seven-state run without `overwrite` in which a re-embedding checks a derived vector, the row is deleted and created anew with an authored vector at the same version, and the re-embedding replaces that vector |
| StaleOmission.OmissionCanBeStale | src/services/concept.service.ts:440-511 | a run without re-created ids in which a restore skips a record because its concept exists, the concept is deleted, and the restore's commit differs from restoring both records at once |
| Restoring.Restore | src/services/concept.service.ts:433-511 | one restore attempt: under every policy a record whose concept is new, or in its namespace and not skipped by the policy, has its own tags, texts, vector, provenance, status and ledger reference stored; every other row is exactly as before; the outcome lists the inserted, the updated and the skipped ids with their reasons, each in record order; the effect is that of restoring the records one by one, and a repeated id writes nothing |
| Restoring.RestoreAllRestoresEach | src/services/concept.service.ts:455-505 | restoring record by record leaves each concept as its record, the policy and the row it found say, and leaves all others alone |
| Restoring.ReportIsExact | src/services/concept.service.ts:455-505 | the ids reported as inserted were not stored, those updated were stored and not skipped, and every skipped one has its reason |
| Restoring.BatchIsRestoreAll | src/services/concept.service.ts:440-511 | deciding all records from one state and writing one batch equals restoring them one after the other |
| Restoring.RestoreRaises | src/services/concept.service.ts:465-500 | under every policy an update strictly raises version and update time and never touches a row of another namespace |
| Restoring.RestoreIsIdempotent | src/services/concept.service.ts:433-511 | under `newer` a second restore of the same backup writes nothing |
| Convergence.RestoreEndsAsLatest | src/services/concept.service.ts:433-511 | after any list of records over any store a concept is the stored row or shows a best record: one of its namespace (the stored row's, else the first record's), newer than the stored row and as new as every other such record |
| Convergence.BackupsConvergeExactly | src/services/concept.service.ts:433-511 | for any store, backups and id: every order of the backups shows the same content and update time of the concept if and only if it is stored or its records share one namespace, and its best records show the same |
| Convergence.BackupsConverge | src/services/concept.service.ts:433-511 | under that condition any two orders end alike, even if a backup repeats an id |
| Convergence.TwoCopiesConvergeExactly | src/services/concept.service.ts:440-500 | for two copies of a new id the order is immaterial if and only if they agree or share a namespace and differ in time |
| Convergence.OrderCanMatter | src/services/concept.service.ts:440-500 | two backups of one new concept, equally new and with different text, end differently in the two orders |
| Reembedding.Reembed | src/services/concept.service.ts:892-952 | the cursor loop terminates and, from the table it started with, re-embeds the eligible and reports the other foreign vectors in id order up to the limit, and counts what remains; it fails if and only if one of the concepts it would save, the first eligible ones up to the limit, stores more tags than a save accepts |
| Reembedded.ReembeddingIsExact | src/services/concept.service.ts:892-952 | in terms of columns: the call walks, in id order, through the concepts of the namespace that have an id and a vector of another model; of those it looked at it rewrites exactly the ones that have text and no author in the way, each with the vector of its own text, the model, the provenance, the next version and nothing else changed; the others are listed with their reason; `remaining` counts what is still foreign |
| Reembedding.ReembedCanFail | src/services/concept.service.ts:322-328 | a store with one derived vector of another model under 65 tags, on which the call fails |
| Reembedding.NextPage | src/db/sqlite-adapter.ts:421-434 | the page behind the cursor continues exactly where the walk stands, although re-embedded rows have left the query's result |
| Reembedding.ReembedAccounts | src/services/concept.service.ts:892-952 | re-embedded ids are distinct, reported ids are distinct and different from them, and the foreign vectors before are the re-embedded ones plus `remaining` |
| Reembedding.BelowLimitNoneIsMissed | src/db/sqlite-adapter.ts:421-434 | a call that stops below its limit has every initially foreign id in one of its lists if and only if the id is not the empty string |
| Reembedding.EmptyIdIsOnlyCounted | src/db/sqlite-adapter.ts:421-434 | a store whose only foreign vector has the empty id: the call re-embeds nothing, reports nothing and counts one remaining |
| Reembedding.AuthoredVectorsStay | src/services/concept.service.ts:923-927 | rows that were not foreign, and authored vectors without `overwrite`, are exactly as before |
| Search.WidenedTop | src/services/concept.service.ts:835-858 | the widening loop terminates, at an untied boundary or at the 4096 cap; the result holds matching rows in order of distance and then id; with an untied boundary, or if no row of the true top k is crowded out, it holds min(k, all) rows and every row left out comes after each of them; for k up to the cap its k distances are right in any case |
| Search.RankedTopIsNearest | src/services/concept.service.ts:842-848 | the first k of the ranked rows are the k nearest: as many as there are up to k, by distance and then id, and every other row comes after them |
| Search.UntiedScanIsExact | src/services/concept.service.ts:843-858 | with an untied boundary the first k rows of any scan are the first k of all matching rows by (distance, id), however each partition broke ties or truncated |
| Search.ScanDistances | src/db/sqlite-adapter.ts:372-407 | tied or not, a scan of at least k rows per partition has the k smallest distances |
| Search.ExactForEveryScan | src/db/sqlite-adapter.ts:372-407 | every scan with one `fetch` yields the true top k if and only if no row of the true top k shares its partition with more than `fetch` rows as near as itself |
| Search.CrowdedIsTied | src/services/concept.service.ts:843-858 | while a row of the true top k can be crowded out, every scan below the cap shows a tied boundary, so the loop widens |
| Search.CrowdedSearchCanFail | src/services/concept.service.ts:835-858 | beyond the cap that condition is needed: there is a store answer with which the search returns the wrong rows |
| Search.CrowdIsNotExact | src/services/concept.service.ts:835-858 | 4097 rows of one partition at one distance are such rows, for every k |
| Conflict.HashDecidesContent | src/polyvault/hash.ts:28-44 | unless SHA-256 collides, verified content hashes are equal exactly when raw text, entities, relationships and context graph are equal up to object key order |
| Conflict.ResolveIsLatest | src/polyvault/conflict.ts:46-163 | with verified hashes, policy `updatedAt` and no `prefer`, the resolution cascade picks the left-biased maximum on (updatedAtMs, contentHash) |
| Conflict.ConflictRecordIsTrue | src/polyvault/conflict.ts:46-163 | the record of a resolution names both copies, the side that won and a reason that is true of them: the policy, the preference within the skew window, the newer time, the greater hash, the greater source or the id, each only where the ones before it do not decide |
| Conflict.LatestAssociative | src/polyvault/conflict.ts:46-163 | that maximum is associative |
| Conflict.ResolveIdempotent | src/polyvault/conflict.ts:46-163 | under every policy, resolving the winner against the same remote copy again changes nothing |
| Conflict.MergeThoughtformSets | src/polyvault/conflict.ts:172-219 | the merged list holds one form per id, by update time and then id: the last copy of the only side that has it, or the winner of the last local and the last remote copy; there is one conflict record for every id that both sides have, in the order in which the ids first occur locally |
| Conflict.MergeKeepsWinners | src/polyvault/conflict.ts:177-207 | stated over the two input lists: which form of each id is kept |
| Conflict.MergeRecordsConflicts | src/polyvault/conflict.ts:188-200 | stated over the two input lists: which records there are, and their order |
| Conflict.MergeIsInOutputOrder | src/polyvault/conflict.ts:209-216 | earlier update times come first, and equal ones by id |
| Conflict.MergeIgnoresInputOrder | src/polyvault/conflict.ts:172-219 | with distinct ids the order of neither input list affects the merge |
| Conflict.MergeIsIdempotent | src/polyvault/conflict.ts:172-219 | merging a merge again with the same remote forms gives the same list, for every policy, `prefer` and skew window |
| Rebase.ComputeRemoteDelta | src/polyvault/rebase.ts:68-93 | exactly the commits created after the cursor, or at its time under a greater id, are applied, oldest first and equally old ones by id; the delta holds, for verified forms, exactly the latest form of every id in these commits, in the order in which the ids first occur |
| Rebase.AppliedExactly | src/polyvault/rebase.ts:51-60 | which commits are applied, as often as they occur, and in which order, in terms of creation times and ids |
| Rebase.DeltaIsLatest | src/polyvault/rebase.ts:68-87 | the delta lists the forms that no form of their id beats in update time and hash; of ties the first |
| Rebase.CollectIsLatest | src/polyvault/rebase.ts:68-93 | with verified hashes the delta holds for every id the latest of its forms |
| Rebase.LatestIsUnbeaten | src/polyvault/rebase.ts:76-87 | no form of the same id comes later in (updatedAtMs, contentHash) than the one picked |
| Rebase.RunRebase | src/polyvault/rebase.ts:95-109 | the rebase keeps the winners of the local forms and the delta, records their conflicts, counts delta and commits, and moves the cursor to the latest applied commit by time and id, or leaves it if there is none |
| Rebase.CursorIsLatest | src/polyvault/rebase.ts:95-109 | the new cursor is that of an applied commit, and no applied commit is later; without one the old cursor stays |
| Rebase.CursorResumes | src/polyvault/rebase.ts:51-66 | from the cursor left by the first n commits exactly the others are applied |
| Rebase.IncrementalRebaseIsOneShot | src/polyvault/rebase.ts:51-109 | rebasing over any prefix of the commits and then over all of them from the returned cursor gives the merged list and the cursor of one rebase from no cursor |
| Rebase.ReplayIsHarmless | src/polyvault/rebase.ts:95-109 | for every policy, `prefer` and skew window, rebasing the merged result over the same commits from no cursor gives the same merged list |
| RestoreReplay.RestoreForms | src/commands/polyvault/restore.ts:141-145 | restore's loops sort the commits, concatenate their forms and keep, of every id, exactly the newest form by time and then hash |
| RestoreReplay.KeptAreNewest | src/commands/polyvault/restore.ts:321-333 | which forms are kept: newer than all earlier ones of their id and no older than the later ones; one per id, as the ids first occur |
| RestoreReplay.DeduplicatorsAgree | src/commands/polyvault/restore.ts:321-333 | for verified forms and one order on hashes, restore's deduplication builds the map of `computeRemoteDelta`, insertion order included |
| RestoreReplay.RestoreIsFirstDelta | src/commands/polyvault/restore.ts:321-335 | restore writes exactly the delta a first rebase takes from the same commits |
| RestoreReplay.StaleHashesDisagreeExactly | src/commands/polyvault/restore.ts:321-333 | for any list of forms, whatever their stored hashes, restore's deduplicated map differs from the one `computeRemoteDelta` collects if and only if some form has the time and the stored hash of the form restore keeps of its id, but hashes to another content hash and has a greater source |
| RestoreReplay.StaleHashesCanDisagree | src/commands/polyvault/restore.ts:321-333 | two copies of an id under one stale hash on which the two maps differ |
| SplitRebase.SplitAgreesExactly | src/polyvault/rebase.ts:68-109 | under any options and with any local forms, rebasing over the first n commits and then over all of them from the returned cursor ends with the merged list of one rebase if and only if, for every id, the split does not matter for its local copy, its latest among the first commits and its latest among the others; the cursor is the same anyway |
| SplitRebase.ThreeAgreeExactly | src/polyvault/conflict.ts:46-163 | for a local copy and two remote ones the condition is explicit: in which cases resolving against one after the other equals resolving against the later of them, by which pairs the options favour and which copies are later |
| SplitRebase.TwoAgreeExactly | src/polyvault/conflict.ts:71-163 | without a local copy: the two remote copies have equal content, no side is favoured, or the favoured side is also the later one |
| SplitRebase.SplitCanDisagree | src/polyvault/rebase.ts:95-109 | two versions of a new id in two commits under `preferLocal`: the two results differ |
| JsonText.ParseInvertsPrint | src/polyvault/hash.ts:15-26 | parsing what `JSON.stringify` prints gives the value back, at any nesting depth and with fractions and exponents in numbers |
| JsonText.PrintedNumberIsDecimal | src/backup/format.ts:152-163 | every number text of sign, digits, fraction and exponent, as `JSON.stringify` prints a number that is not an integer, is one of the model's |
| JsonText.PrintIsOneLine | src/backup/format.ts:152-163 | printed JSON contains no control character, so a record stays on one line |
| JsonText.EscapeIsShortest | src/polyvault/hash.ts:15-26 | every character is printed by the shortest text that reads back as it, with hex digits in lower case, so hashes of printed text agree with `JSON.stringify` |
| Ordering.StringLessExactly | src/polyvault/rebase.ts:51-54 | the string order is that of the first difference, with a prefix before what it begins |
| Ordering.SortIsStable | src/polyvault/rebase.ts:57-60 | sorting keeps the order of tied elements, as `Array.prototype.sort` does |
| Canonical.SortedObject | src/polyvault/hash.ts:16-24 | the replacer's loop yields the members in own-key order: array indices ascending, then the other keys sorted |
| Canonical.CanonicalizeKeepsMeaning | src/polyvault/hash.ts:15-26 | canonicalization changes nothing but the key order |
| Canonical.CanonicalJsonDecidesMeaning | src/polyvault/hash.ts:15-26 | two values have one canonical JSON text if and only if they are equal up to key order, at any depth |
| KeyOrder.IndexExactly | src/polyvault/hash.ts:15-26 | the keys that an object lists first are exactly the decimal forms of the numbers below 2^32 - 1 |
| KeyOrder.CanonicalInKeyOrder | src/polyvault/hash.ts:15-26 | at every depth of a canonical value the index keys come first, by number, and then the other keys by their characters |
| Mentions.IndexEntities | src/providers/rule-based-nlp.pipeline.ts:254-269 | every indexed entity starts and ends with a word character, has at most `maxWords` words, and is found under its own text; the others are kept for direct search, at most 256 of them |
| Mentions.FindIndexed | src/providers/rule-based-nlp.pipeline.ts:276-303 | the lookup of runs of at most `maxWords` words finds an indexed entity if and only if its text occurs with no word character on either side, and at its leftmost such place |
| Mentions.LimitCovers | src/providers/rule-based-nlp.pipeline.ts:296-303 | no occurrence of an indexed entity is missed by the bound on the number of words |
| Mentions.FindMentions | src/providers/rule-based-nlp.pipeline.ts:276-311 | the indexed mentions are exactly those of a naive leftmost search, the direct ones exactly the first places of the other entities; the result is all of them from left to right, and of those that start together the longer first; beyond 64 what is dropped starts no earlier, and ends no later where it starts with a kept one |
| Mentions.DirectMentionsAgree | src/providers/rule-based-nlp.pipeline.ts:301-304 | the direct search finds exactly the entities whose text stands somewhere and whose id is new, each once and at its first place |
| Mentions.FirstAreLeftmost | src/providers/rule-based-nlp.pipeline.ts:306-307 | sorting and cutting off keeps the leftmost mentions |
| Mentions.InferRelationships | src/providers/rule-based-nlp.pipeline.ts:220-246 | stopping at 5000 gives exactly the first 5000 relationships of the unlimited list |
| Mentions.RelatedExactly | src/providers/rule-based-nlp.pipeline.ts:228-242 | a sentence's relationships are exactly those of two neighbouring mentions with a verb between them |
| Mentions.BuildContextGraph | src/providers/rule-based-nlp.pipeline.ts:341-361 | the graph links two entities, in both directions and once, if and only if some relationship does, and has no other nodes |
| Chunker.ChunkPayload | src/polyvault/chunker.ts:16-38 | sizes outside 1..1000000 are refused; otherwise numbered, hashed chunks that join to the data, all full but the last, which is empty only for empty data |
| Chunker.ChunksFit | src/polyvault/chunker.ts:22-36 | no chunk exceeds the limit, the lengths sum to the payload's, and there are max(1, ceil) of them |
| Chunker.ReassembleChunks | src/polyvault/chunker.ts:65-102 | the checks and the buffer written at a moving offset compute the specified result, with the first fault in index order |
| Chunker.AcceptedExactly | src/polyvault/chunker.ts:65-92 | a chunk set is accepted if and only if every index below its size occurs and every chunk carries that size and the hash of its payload |
| Chunker.FaultIsReal | src/polyvault/chunker.ts:65-102 | a refused set of chunks has the fault it is refused for: no chunks, a count other than announced, a number that does not occur, a chunk with another count, or a payload with another hash than its chunk says |
| Chunker.ReassemblyInvertsChunking | src/polyvault/chunker.ts:65-102 | the chunks of a payload, received in any order, give the payload back |
| Envelope.SealPayload | src/polyvault/crypto.ts:144-155 | the sealed payload is the nonce followed by the ciphertext |
| Envelope.OpensExactlyWhatWasSealed | src/polyvault/crypto.ts:158-173 | an envelope opens to a text if and only if it is that text sealed under this key, AAD and some 12-byte nonce |
| Pipeline.Backup | src/commands/polyvault/backup.ts:242-278 | the pipeline succeeds exactly with usable options and then uploads chunks of the sealed, compressed, canonical bundle with its hash and flags; an error says what is wrong with the options |
| VaultOutcomes.UploadIsExact | src/commands/polyvault/backup.ts:242-278 | an upload, record by record: numbered, hashed, flagged as the options say and no larger than allowed; together the records join to the canonical JSON of the bundle, compressed if asked for and then sealed under key, nonce and AAD if asked for; the commit carries its hash and the number of records |
| Pipeline.RestoreInvertsBackup | src/commands/polyvault/restore.ts:181-318 | with the backup's encryption, key and compression, restore gives the bundle back from the chunks in any order |
| Pipeline.RestoreSucceedsExactly | src/commands/polyvault/restore.ts:204-292 | unless compressing leaves the hash of this payload unchanged or another key opens it, restore of such chunks succeeds if and only if encryption and key match and, for a compressed backup, gzip is chosen |
| VaultReplay.RestoredMeansTheBundle | src/commands/polyvault/restore.ts:294-303 | the restored bundle is, field by field, the one that was backed up: version, ids, commit, manifest, delta bounds and forms, with the real payload hash and chunk count in place of the placeholders |
| VaultOutcomes.RestoreEndsRightly | src/commands/polyvault/restore.ts:206-305 | every outcome of restoring a commit says something true of its records: which chunks are at fault, that flags differ or do not fit the options, why the envelope does not open, that the text does not unpack, parse, hash or validate, or that the bundle is the one the records hold |
| VaultReplay.Collect | src/commands/polyvault/restore.ts:147-319 | the loop over the commits collects the forms of every commit that has chunks, skips the others, and stops with the first error |
| VaultReplay.BackupsComeBack | src/commands/polyvault/restore.ts:147-319 | restoring any number of backups gives back, in commit order, forms that mean all forms backed up, and counts their chunks |
| Fingerprint.PrepareForms | src/commands/polyvault/backup.ts:116-153 | the forms are refused at the first stale hash; else exactly those updated after the bound remain, as often as they occur, by time, then id, then hash |
| Fingerprint.SortedArePrepared | src/commands/polyvault/backup.ts:137-153 | which forms remain, with the bound exclusive, and their order |
| Fingerprint.TextOfTwoForms | src/commands/polyvault/backup.ts:201-211 | the text behind the dedupe key, in full, for two forms given in either order |
| Fingerprint.FingerprintInjective | src/commands/polyvault/backup.ts:206-211 | for newline-free ids and hex hashes the text determines the list of (id, updatedAtMs, contentHash), the compression and the encryption |
| Fingerprint.DedupeKeyIgnoresInputOrder | src/commands/polyvault/backup.ts:137-211 | the dedupe key does not depend on the order of the input |
| Fingerprint.DedupeKeyExactly | src/commands/polyvault/backup.ts:137-211 | unless SHA-256 collides on the two texts, two backups of forms with newline-free ids have one dedupe key if and only if they cover the same versions of the same forms and store them alike |
| Fingerprint.CoverIsCoverable | src/commands/polyvault/backup.ts:137-153 | what a backup of valid forms covers is a list of valid keys (nonempty id, time of at least 0, hex hash) in canonical order |
| Fingerprint.SharesTextExactly | src/commands/polyvault/backup.ts:206-208 | such a list, newlines in ids allowed, shares its text with another such list if and only if it has several keys, or one whose id begins with the line of a valid key, followed by a newline and a nonempty rest, where the key with that rest as its id does not come before the other in canonical order |
| Fingerprint.NewlineIdsCollide | src/commands/polyvault/backup.ts:137-211 | any two verified forms, and the later of them alone under an id that spells out the line of the other, are two verified backups with one dedupe key |
| TextLines.LinesExactly | src/backup/format.ts:270-271 | the lines of a body are the one list that joins to it, the newline behind a nonempty last line being optional |
| BackupFormat.CountNamespaces | src/backup/format.ts:110-114 | the counting loop yields the sorted tally of the records' namespaces |
| BackupFormat.TallyCounts | src/backup/format.ts:110-113 | a namespace is in the tally exactly if some record has it, with the number of those records |
| BackupFormat.ReadLines | src/backup/format.ts:273-295 | the loop over the lines collects the records and the text the footer covers, or stops with the error of the first bad line |
| BackupFormat.DecodeBackup | src/backup/format.ts:213-321 | the decoder computes the specified outcome, each error in the source's order |
| BackupRoundTrip.AcceptedExactly | src/backup/format.ts:270-320 | a body is accepted if and only if it is one line per record and one footer line whose hash, count and namespace counts fit and the ids are distinct |
| BackupRoundTrip.OnlyOneFooter | src/backup/format.ts:277-295 | in an accepted body the last line is the footer and no other line is one |
| BackupRoundTrip.DecodeInvertsEncode | src/backup/format.ts:126-321 | decoding an encoded backup gives back header, records and footer, plain or sealed, for schema-valid records with distinct ids |
| BackupRoundTrip.SealedBackupNeedsItsKey | src/backup/format.ts:236-268 | an encrypted backup decodes if and only if the configured key is its own, as long as no other key shares its id |
| BackupSchema.HeaderParses | src/backup/format.ts:40-51 | a valid header is read back from its printed object |
| BackupMeaning.HeaderReadsExactly | src/backup/format.ts:31-53 | a value reads as a header exactly if the header keeps the bounds of the schema and the value means it, field by field; no other field is allowed |
| BackupMeaning.FooterReadsExactly | src/backup/format.ts:82-89 | and as a footer exactly if counts and hash are well formed and the value means it, field by field |
| BackupRecords.RecordReadsExactly | src/backup/format.ts:55-80 | a value is accepted as a record exactly if it means a concept with all its columns and no others: positive version, times that are not negative, texts, numbers, status and ledger reference within their bounds, and for each representation a provenance with a known origin |
| BackupOutcomes.EncodedIsExact | src/backup/format.ts:126-178 | an encoded file, spelled out: a header line that means the given ids, model and key, then, plain or sealed with the AAD of this file in one line of base64, a line per record and a footer with their number, their namespaces and the hash of all text before it |
| BackupOutcomes.HeaderEndsRightly | src/backup/format.ts:211-233 | every error of the first line is true of it: no JSON, another format, a newer version, or no valid header |
| BackupOutcomes.Base64Exactly | src/backup/format.ts:252-255 | the sealed line is base64 exactly if it is one or more letters, digits, plus signs and slashes with at most two equals signs behind them |
| BackupOutcomes.BodyEndsRightly | src/backup/format.ts:235-268 | every error of an encrypted body is true of it: an AAD of another file, no key, a key with another id, no base64, or a body that the key does not open; else the body opens to the text that is decoded |
| BackupOutcomes.LinesEndRightly | src/backup/format.ts:270-321 | every error of the lines is true of them: the first line that holds no JSON or no record, a footer that is missing or malformed, a hash, a number or namespaces that do not fit, or the first repeated id; else the lines are the records and a fitting footer |
| AutoBackup.BackupService.OnSaved | src/services/backup.service.ts:350-357 | a heard save is counted as pending and queues one flush |
| AutoBackup.BackupService.BeginFlush | src/services/backup.service.ts:391-395 | a flush takes all pending saves into its hands, and ends at once if there are none or the threshold is off |
| AutoBackup.BackupService.WriteCounter | src/services/backup.service.ts:398-405 | at the threshold the counter becomes 0 and a backup is triggered, below it the sum is stored |
| AutoBackup.SavesAreConserved | src/services/backup.service.ts:340-405 | at every moment of every run, initial counter plus saves heard = saves consumed by triggers + dropped + counter + in flight + pending |
| AutoBackup.NothingIsDropped | src/services/backup.service.ts:391-405 | nothing is dropped while the threshold is positive and no flush fails |
| AutoBackup.CounterStaysBelow | src/services/backup.service.ts:398-405 | once a flush that saw saves has written, the counter is below the threshold in every later state |
| AutoBackup.TriggersNeedSaves | src/services/backup.service.ts:398-402 | m triggers have consumed at least m times the threshold of saves |
| AutoBackup.DrainedQueueIsBackedUp | src/services/backup.service.ts:340-405 | with the queue drained and no failure, less than one threshold of saves is outside a triggered backup |
| Archival.ArchivalConnector.Resume | src/integrations/agent-vault/connectors/archival.connector.ts:185-223 | from the read to the next await: the branch taken, and a slot reserved exactly when an upload starts |
| Archival.ArchivalConnector.Settle | src/integrations/agent-vault/connectors/archival.connector.ts:224-230 | the slot is freed either way, the version is remembered only after a success |
| Archival.OneUploadPerVersion | src/integrations/agent-vault/connectors/archival.connector.ts:93-99 | in every reachable state a version has at most one upload in progress, and `uploading` holds exactly those |
| Archival.ArchivedMeansUploaded | src/integrations/agent-vault/connectors/archival.connector.ts:196-204 | a call that reports its version archived, by itself or already, is right: it was uploaded successfully |
| Archival.NoVersionTwice | src/integrations/agent-vault/connectors/archival.connector.ts:90-91 | if uploads of different versions of a concept never overlap and versions start in order, no version is uploaded successfully twice |
| Archival.OverlapUploadsTwice | src/integrations/agent-vault/connectors/archival.connector.ts:90-91 | a run with versions in order but overlapping uploads in which version 2 is uploaded twice |
| Archival.DisorderUploadsTwice | src/integrations/agent-vault/connectors/archival.connector.ts:90-91 | a run without overlapping uploads in which version 2 is uploaded twice, because version 1 came back in between |
| ArchivalRepeats.RemembersLastSuccess | src/integrations/agent-vault/connectors/archival.connector.ts:224-226 | in every state of every run the connector remembers of a concept exactly the version whose upload succeeded last |
| ArchivalRepeats.StartsExactly | src/integrations/agent-vault/connectors/archival.connector.ts:185-223 | an upload of a version starts if and only if a call goes on with that version, tagged and with content, and it is neither in flight nor the one that succeeded last |
| ArchivalRepeats.UploadedTwiceExactly | src/integrations/agent-vault/connectors/archival.connector.ts:90-91 | a version is uploaded successfully twice if and only if an upload of it starts after one has succeeded, and an upload of it succeeds after that |

## Left out

- The Postgres adapter: its nearest-neighbour index is approximate; only its conditional update mirrors the SQLite one.
- Cosine distance and float32: a distance is a fixed real per row, a vector an opaque value.
- SHA-256, AES-GCM, gzip, UTF-8, base64, random ids and clocks are parameters with stated laws; `RestoreSucceedsExactly` also assumes that no other key opens the payload at hand and that compressing it changes its hash.
- `localeCompare` is an arbitrary total order; Unicode case folding, entity regexes and verb patterns are inputs of the mention search.
- Unguarded write paths (`insertConcept`, `updateConcept`, `deleteConcept`, the storage upsert and the startup migrations of tags and labels) bypass the version check and are not clients of the step system.
- Store changes between the scans of one search: all scans see one set of rows.
- Search filters, scores and the lookup of metadata behind the top k.
- The single-branch checks of `validateEntry` and `validateRestoreRecord`, and the batch size limit: entries are taken as valid.
- JSON columns (tags, provenance) are values, not text; a corrupt column is not modelled.
- JSON: a number that is not printed as an integer is the text it is printed with, so other spellings of one number (1.50, 15e-1) stay apart, and an integer field does not accept 1.0; texts are compact (no whitespace, so no CRLF lines), and there are no `__proto__` keys and no lone surrogates. A repeated key counts by its last occurrence, but the object keeps both members. String lengths count characters, not UTF-16 units.
- Saving.SaveBatch: one attempt without concurrent writers; the retry loop is part of the step system, where an attempt is a sequence of steps.
- Restoring.Restore: one attempt without concurrent writers, as above.
- Reembedding.Reembed: without concurrent writers; the skip reason for a concept that changed meanwhile and the races of its inner save are in the step system (`ReembedFindsCheckedRow`).
- Search.WidenedTop: the vector query is an oracle that may break ties and truncate in any way, not the SQL statement.
- Envelope.SealPayload: the random nonce is a parameter of the right length.
- BackupRoundTrip.DecodeInvertsEncode: the schema of records is a parameter; the schema the code uses is `BackupSchema.IsRecord`, characterised by `RecordReadsExactly`.
- Fingerprint.SharesTextExactly: a valid key carries any 64 hex digits; which of them some content hashes to is not modelled.
- Pipeline.Backup: starts from the selected forms; reading the input file, the upload protocol, the empty backup and the parent commit lookup are not modelled.
- Mentions.InferRelationships: the mentions of a sentence and the verb between two mentions are parameters.
- AutoBackup: the counter's text in the metadata table, pruning and writing the backup file; a failed flush drops the saves in its hands, and a write is taken to fail without effect.
- Archival: the debounce timers, the envelope contents and the Arweave client.
- BackupService.resetCounter, which writes the counter from outside the flush queue.
- The canister, HTTP and MCP transports, tool schemas, configuration, files and their modes, logging, health, LLM providers, the Jev judge, AgentVault clients and the Python audience.
