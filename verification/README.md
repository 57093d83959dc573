# Models of the hard cores of a federated social server

A Dafny 4.11 project about Elythia, a Misskey-compatible server written in Go. It models the parts whose correctness
does not show from one function body: protocols over stores that fail half-way, rewrites whose result must not depend
on map order, printers and their parsers, caches, batch repairs, and walks over graphs that may be cyclic.
`dafny verify dfyconfig.toml` checks all of it.

What the main results say:

- **Restore** (`Restore.dfy`): no run of a same-server restore, whatever call fails before or after taking effect and
  wherever it stops, drops a database that existed. Success names the restored database and keeps the original; every
  error but "unknown" leaves all bindings as they were; on "unknown" both databases exist. It succeeds only on a ready
  target, and always when besides no call fails.
- **Backup generations** (`GenerationStore.dfy`, `MetaOrder.dfy`, `VerifiedStore.dfy`): in every interleaving of
  takes, deletions and verifications a generation that looks complete has the dump its meta.json describes, byte for
  byte, and a passing verify.json was earned on the meta.json beside it, provided no take reuses an ID. A readable
  meta.json has its dump at every moment of a run exactly if one sequence of failing calls does not happen.
- **The dump pipe** (`StreamDump.dfy`): in every interleaving the reader sees end of file only after a clean dump;
  both sides always finish without any help from a failing pg_dump, because a blocked write is read or meets a closed
  reader; and a success describes exactly the bytes consumed.
- **"latest"** (`Archive.dfy`, `VerifyResults.dfy`, `RowCounts.dfy`, `Layout.dfy`): at the end of any such run the
  generation chosen is complete, verified under its own ID with equal row counts, and every chronologically newer one
  was readable and not passing.
- **Multipart upload** (`Multipart.dfy`): the stored object is the whole stream or the old one; parts are full but for
  the last, and numbered 1 to k exactly while there are fewer than 2^31 of them; of a failed Put the upload is aborted
  exactly if its creation was acknowledged.
- **Normalisation** (`JsonLd.dfy`): two executions never disagree up to `reflect.DeepEqual`. They can still differ in
  the sign of a zero. The exact condition compares the results of the fields that share a name (`JsonLd.Steady`); what
  can be checked on the document itself is that it holds no negative zero (`JsonLd.NoNegativeZeroIsSteady`).
- **HTTP Signatures** (`HttpSignature.dfy`, `Admission.dfy`, `KeyCache.dfy`): what is printed is parsed back, the
  receiver accepts exactly when it sees what was signed, admission relies on signed data only, and the cached path
  answers as the uncached one after any history.
- **Repairs** (`HostBackfill.dfy`, `EmojiRepair.dfy`): a host backfill whose queries work settles every row if
  collation and byte order agree on the keys, and where keys do not move it does so exactly if the ends of all pages
  are in byte order; a second run is idle. The emoji repair never deletes a copy an emoji points at, and a second run
  copies nothing again, whatever reads fail.
- **Notes** (`Reactions.dfy`, `NotePacking.dfy`): deltas are applied once per object under any aliasing, packing
  conserves counts, a cyclic note graph is unfolded exactly two embeds deep, and batched look-ups give what look-ups
  by id give exactly if no failing query loses a row.
- **Small algorithms** (`Manifest.dfy`, `GucList.dfy`, `Dsn.dfy`): the manifest walk meets exactly what can be
  reached; list settings, SQL statements and connection strings are read back as they were written.

Where the code does something else than its own comments or the obvious promise, the model follows the code and a
lemma or method exhibits the input:

- `JsonLd.SignedZeroExample`: `{"actor": 0, "as:actor": -0}` is accepted and has two results
  (`internal/activitypub/jsonld.go:142-150`, whose comment at 103-117 promises one).
- `MetaOrder.OrphanedMetaExists`: one take can leave a readable meta.json without its dump
  (`internal/backup/take.go:203-232`).
- `VerifiedStore.ReusedIdMisleads`: a verification that outlives its generation can write a passing verify.json beside
  the meta.json of another take with the same ID; IDs are the second a take began
  (`internal/backup/verify.go:100-128`).
- `Multipart.LeftoverUpload`: a multipart upload whose creation reports an error but worked is never aborted
  (`internal/backup/storage_s3.go:166-173`, although the comment at 130-132 says it is aborted when anything fails).
- `StreamDump.EarlyNilStoresNothing`: a Put that returns nil without reading to the end would be reported as a stored
  dump; streamDump relies on the storage not to (`internal/backup/take.go:325-351`).
- `HostBackfill.StallExample`: the driver compares cursors byte by byte while the database pages by its collation, so
  a run without any failing query can stop short and leave a row unsettled
  (`internal/cli/backfill/remote_host.go:80`).
- `NotePacking.FailingBatchLosesFolders`: one failing batch query leaves every folder (or owner) out where look-ups by
  id would have found them (`internal/entity/note_field_resolver.go:315-353`).
- `Admission.FarFutureDatePasses`: a date some 292 years ahead passes the skew check, because the saturated difference
  is negated in 64 bits (`internal/activitypub/inbox_admission.go:178-184`).
- `Reactions.HalvesAreNotTotalled`: fractional counts are totalled before they are merged, as the comment at
  `internal/entity/note.go:564-568` says.
- `GucList.RoundTripIff`: `splitGUCList` trims quoted elements too, so its comment ("the way PostgreSQL's SplitGUCList
  does") holds for elements without outer white space only (`internal/backup/restore.go:1338-1359`).
- `Manifest.SharedImportIsNotPreloaded`: a direct import that an earlier import already brought along gets no preload,
  although the comment at `internal/frontendutil/frontendutil.go:214-215` speaks of every direct import.
- `checkSwitchNames` and `CheckTarget` treat a failed look-up of a new name as a free name; the swap stays safe
  (`Restore.Cluster.Restore`).

## Model

| member | source | states |
|---|---|---|
| Layout.NewIDValid | internal/backup/layout.go:20-29 | a generation ID made from a time is valid exactly up to the year 9999 |
| Layout.NewIDOrder | internal/backup/layout.go:19-25 | the string order of generation IDs is chronological order, and equal IDs mean equal seconds |
| Layout.KeyRoundTrip | internal/backup/layout.go:40-57 | a key belongs to a generation exactly when it is a name inside that generation's directory |
| Layout.KeyInjective | internal/backup/layout.go:43 | different generations or names have different keys |
| Layout.IdExample | internal/backup/layout.go:19-25 | 2026-10-09 08:07:06 is 20261009T080706Z |
| Layout.KeysAre | internal/backup/layout.go:11-43 | the keys of a generation's objects, spelled out |
| Layout.PadValue | internal/backup/layout.go:19-25 | a printed number stands for itself |
| RowCounts.CompareRowCounts | internal/backup/verify.go:517-543 | the report lists exactly the differing tables in order, with what each side has and -1 for an absent side, and is empty exactly when the maps are equal |
| RowCounts.SortedKeys | internal/backup/verify.go:518-530 | the tables of both sides, ascending and without repetition, in whatever order the maps are visited |
| RowCounts.EmptyIffEqual | internal/backup/verify.go:515-543 | any such report is empty exactly when both maps are equal |
| VerifyResults.Run | internal/backup/verify.go:180-254 | for every behaviour of the sandbox: all stages pass exactly when everything works and the counted rows are the recorded ones, which are not none; otherwise the record is that of the first stage that blames the generation, and the report is about the rows that were counted |
| VerifyResults.RestorableStage | internal/backup/verify.go:482-513 | passes exactly when rows are recorded and the restored ones equal them; blames the generation exactly when nothing is recorded, pg_restore fails or the counts differ; the report lists the differences |
| VerifyResults.RecordedAllPassed | internal/backup/verify.go:180-254 | a record shows all stages passed exactly when none failed |
| VerifyResults.OkMeans | internal/backup/verify.go:108-122 | a result is ok exactly when the run had no error of the environment and all three stages passed, and then the counts are present and equal |
| GenerationStore.StepTrust | internal/backup/take.go:99-245 | no step of a take, a deletion or a verification, with or without effect, makes a complete generation lie about its dump |
| GenerationStore.MetaKeepsTrust | internal/backup/take.go:215-232 | meta.json is written only for a dump that was read back with that size and hash |
| GenerationStore.VerifyKeepsTrust | internal/backup/verify.go:131-140 | a verify.json completes no generation and changes no dump |
| GenerationStore.DumpKeepsTrust | internal/backup/take.go:126-212 | a dump written where there is no meta.json completes no generation |
| GenerationStore.RemovalKeepsTrust | internal/backup/generation_delete.go:19-51 | deletions in any order and with any fate keep complete generations trustworthy |
| GenerationStore.StepInv | internal/backup/take.go:99-245 | the invariant of storage and processes is kept by every step of every process |
| GenerationStore.CompleteGenerationsAreTrustworthy | internal/backup/generations.go:37-48 | after any interleaved run of takes, deletions and verifications, every complete generation's dump has the size and hash in its meta.json |
| GenerationStore.SuccessWroteMeta | internal/backup/take.go:203-245 | a take that reports success has put a meta.json with its dump file, its row counts and the size and hash of the dump it read back |
| GenerationStore.GoodTake | internal/backup/take.go:99-232 | when no call fails a take of a free ID succeeds and leaves exactly its dump and the meta.json that describes it |
| MetaOrder.StepMetaHasDump | internal/backup/take.go:203-245 | a step leaves every readable meta.json with its dump exactly when it is not the clean-up that orphans one |
| MetaOrder.ReadableMetaHasDump | internal/backup/take.go:203-245 | over every run of exclusive takes and deletions: every readable meta.json has its dump at every moment exactly if no take had its meta.json Put work but fail, then its removal fail, then the dump's removal work |
| MetaOrder.OrphansWhenMisled | internal/backup/take.go:215-245 | the call that takes the dump from under a meta.json is the last of those three calls of one take, and the third of them always does |
| MetaOrder.StepInv | internal/backup/take.go:99-245 | what every take and deletion knows about its own generation is kept by every step of all processes |
| MetaOrder.OrphanedMetaExists | internal/backup/take.go:203-232 | the exception is real: a single take into an empty storage can end with meta.json and no dump |
| MetaOrder.MisreportedMeta | internal/backup/take.go:203-245 | the steps that lead there: meta.json written but reported failed, its removal failed, the dump removed |
| VerifiedStore.StepChecked | internal/backup/verify.go:83-140 | no step of any process makes a passing verify.json beside a readable meta.json one that was not earned on it |
| VerifiedStore.StepVerInv | internal/backup/verify.go:83-140 | the invariant of verifications: what was read at the start still stands if anything does, and no take of that ID is under way |
| VerifiedStore.OwnVerify | internal/backup/verify.go:95-122 | a verification knows the meta.json it has just read, and after its stages that an ok result was earned on it |
| VerifiedStore.OtherVerify | internal/backup/verify.go:95-128 | it still does after any step of another process |
| VerifiedStore.PassingResultsAreEarned | internal/backup/verify.go:72-128 | after any interleaving of takes, deletions and verifications in which no take reuses an ID: complete generations are trustworthy, and a passing verify.json beside a readable meta.json means all stages passed and the recorded row counts were found |
| VerifiedStore.ReusedIdMisleads | internal/backup/layout.go:19-25 | with an ID used twice this fails: a verification of the first take can pass for the second |
| VerifiedStore.VerifyKeepsOthers | internal/backup/verify.go:131-140 | writing one verify.json changes no other generation's standing |
| Archive.Archive.Verify | internal/backup/verify.go:83-129 | verify.json is written for a valid readable generation only; its result is ok exactly when nothing was wrong in the run, and then the counts are the recorded ones; when no call fails a good generation gets a passing verify.json; complete generations stay trustworthy and passing results earned |
| Archive.Archive.ListGenerations | internal/backup/generations.go:51-85 | the list has exactly the generations with objects, each once, oldest first |
| Archive.LatestVerified | internal/backup/restore.go:854-877 | the chosen one passes and every later one could be read and does not; an unreadable one stops the search |
| Archive.Archive.ResolveLatest | internal/backup/restore.go:825-877 | the generation chosen is complete, trustworthy and verified with equal counts; every later time's generation could be read as far as it exists and is not complete and passing; when no call fails and everything can be read, one is chosen exactly if there is a complete and passing one |
| Archive.LatestAfterRun | internal/backup/restore.go:825-877 | the same at the end of any run of takes, deletions and verifications without a reused ID, from the run and the listing alone |
| Archive.NewerIsSkipped | internal/backup/restore.go:849-877 | a generation with a greater ID than the chosen one, listed or not, has a readable meta.json or none and is not complete and passing |
| Archive.Archive.DeleteGeneration | internal/backup/generation_delete.go:19-51 | exactly the acknowledged objects are counted as freed; success removes all of them; every state on the way that still has meta.json has everything; what is left stays trustworthy and earned; when no call fails it deletes a generation that exists |
| Archive.Archive.DeleteRest | internal/backup/generation_delete.go:32-51 | once meta.json is gone the others go in any order, stopping at the first error with the sum so far |
| Restore.SwappedBindings | internal/backup/restore.go:756-779 | the two renames move identities between names and lose none |
| Restore.RestoreNames | internal/backup/restore.go:388-400 | the three names differ, and are accepted exactly when the longer one fits the identifier limit in bytes; then both do |
| Restore.NamesFitIff | internal/backup/restore.go:388-396 | with a time of fourteen digits the names fit exactly up to a database name of 33 bytes |
| Restore.RestoreNamesExample | internal/backup/restore.go:388-396 | the names for misskey at 2026-10-10 12:04:05 |
| Restore.SwapOfNew | internal/backup/restore.go:331-354 | swapping in a freshly created database is possible exactly when the "before" name is free, and keeps both identities |
| Restore.Cluster.ReplaceDatabase | internal/backup/restore.go:756-779 | either nothing or both renames happen, whatever is reported; success means both did |
| Restore.Cluster.SwapOutcome | internal/backup/restore.go:271-299 | "done" and "not done" are told apart by names that only one of the two states has |
| Restore.Cluster.SwitchDatabase | internal/backup/restore.go:331-354 | success is the finished swap, a plain error is the untouched catalog, "unknown" is one of the two; no identity is lost at any statement; when no call fails it succeeds exactly if nobody is connected and the three names allow it |
| Restore.Cluster.RestoreInto | internal/backup/restore.go:672-706 | only a new name can appear, existing bindings and contents stay, and in swap mode success binds a fresh identity |
| Restore.Cluster.Finish | internal/backup/restore.go:301-321 | only the target is written to; success means verified counts, the recorded settings, migrations and the swap |
| Restore.Cluster.RestoreAndSwitch | internal/backup/restore.go:187-240 | the three outcomes of a swap restore seen from the catalog at its start, including the clean-up drop |
| Restore.Cluster.Restore | internal/backup/restore.go:187-240 | over every run and both modes: nothing that existed is dropped at any point, success names the restored identity and keeps the original, other errors change no binding, "unknown" keeps both; it succeeds only on a ready target, and always does when no call fails; a target with tables is never written to in the empty mode |
| Restore.Cluster.CheckSwitchNames | internal/backup/restore.go:252-265 | passing means the replacement exists and the kept name is free unless its look-up failed; a kept name that is found is refused |
| Restore.Cluster.CheckTarget | internal/backup/restore.go:421-461 | passing means the database exists, the names fit and the other conditions hold; when no call fails it passes exactly when they do and both new names are free (swap), or when the database has no tables (empty) |
| Restore.Cluster.ApplyDatabaseSettings | internal/backup/restore.go:730-748 | success adds exactly the recorded settings, in order, to the named database and touches no other |
| StreamDump.StepInv | internal/backup/take.go:265-351 | every step of either goroutine keeps the invariant of the pipe, the writer and the reader |
| StreamDump.EofOnlyAfterCleanDump | internal/backup/take.go:265-351 | in every interleaving end of file means pg_dump exited cleanly and encryption was closed, and a visible object holds every hashed byte |
| StreamDump.SuccessDescribesConsumedBytes | internal/backup/take.go:325-351 | a success carries the size and hash of exactly the bytes Put consumed, which are all that was hashed |
| StreamDump.ResultIs | internal/backup/take.go:286-351 | the result of every run: the early error exactly if pg_dump was never started, else Put's error if it had one, else the dump's if it did not end cleanly, else a stored dump |
| StreamDump.NoDeadlock | internal/backup/take.go:275-351 | until streamDump returns one of the two sides can move, without any failure of the dump's start, of pg_dump or of the encryption, and without a bad exit unless pg_dump died |
| StreamDump.AlwaysReturns | internal/backup/take.go:275-351 | a run has at most 3 steps a byte and 12 more, and one that only such a failure could continue has returned and taken Put's result |
| StreamDump.FailedDumpStoresNothing | internal/backup/take.go:300-351 | after a failed dump nothing is reported as stored and nothing becomes visible |
| StreamDump.StoredIsVisible | internal/backup/take.go:325-351 | with a storage whose Put returns nil only after storing, a stored dump is one visible object with exactly the hashed bytes |
| StreamDump.EarlyNilStoresNothing | internal/backup/take.go:325-351 | without that contract a run can report a stored dump and store nothing |
| Multipart.Stream.ReadFull | internal/backup/storage_s3.go:137-164 | a read gives the next bytes and tells a full buffer, a short end, the end and an error apart |
| Multipart.Bucket.Put | internal/backup/storage_s3.go:137-164 | the object is the old one or the whole stream; a short stream is one PutObject, a long one a well-cut upload; of a failed Put an upload that came to exist is aborted exactly if its creation was acknowledged, and stays otherwise |
| Multipart.Bucket.PutMultipart | internal/backup/storage_s3.go:166-228 | on success the part bodies together are the stream, through one buffer that is reused; the abort is tried exactly on failure after an acknowledged creation |
| Multipart.LeftoverUpload | internal/backup/storage_s3.go:166-173 | a creation that works and reports an error leaves the upload, with no abort tried |
| Multipart.Bucket.SendParts | internal/backup/storage_s3.go:183-215 | all parts are full but the last, which is not empty |
| Multipart.PartCount | internal/backup/storage_s3.go:166-228 | the number of parts is the length divided by the part size, rounded up |
| Multipart.NumberedFromOne | internal/backup/storage_s3.go:183-215 | the 32-bit counter numbers the parts 1 to k exactly while there are fewer than 2^31 |
| JsonLd.DeepEqualIs | internal/activitypub/jsonld.go:142-150 | deep equality is equality up to the sign of zeros |
| JsonLd.VisitIsAgree | internal/activitypub/jsonld.go:152-231 | the loop over the fields fails exactly when two fields of one name disagree or a child fails, in whatever order |
| JsonLd.RunIsNormal | internal/activitypub/jsonld.go:152-231 | every execution succeeds exactly when the order-free definition does, with the same value up to signs of zero |
| JsonLd.TwoRunsAgree | internal/activitypub/jsonld.go:103-117 | any two executions both fail with the conflict error or give deeply equal values |
| JsonLd.DeterministicIffSteady | internal/activitypub/jsonld.go:103-117 | the value itself is the same for every order exactly when fields that share a name have identical normal forms |
| JsonLd.NoNegativeZeroIsSteady | internal/activitypub/jsonld.go:103-117 | an accepted document without a negative zero has one result |
| JsonLd.SignedZeroExample | internal/activitypub/jsonld.go:142-150 | a document with 0 and -0 under two spellings of one key has two results |
| JsonLd.NormalizeValue | internal/activitypub/jsonld.go:152-231 | the loops and the recursion carry out one of those executions |
| JsonLd.Normalize | internal/activitypub/jsonld.go:125-140 | fails exactly when fields of one name conflict, and otherwise gives the order-free normal form up to signs of zero |
| JsonLd.NormalizeFields | internal/activitypub/jsonld.go:178-231 | the loop over an object's fields, stopping at the first conflict |
| JsonLd.AcceptedIff | internal/activitypub/jsonld.go:142-231 | an object is accepted exactly when its fields are and those stored under one name agree |
| JsonLd.NamesOfResult | internal/activitypub/jsonld.go:171-280 | the result has exactly the names the keys spell (terms, `as:` and `sec:` forms, IRIs, `@id`, `@type`, unknown keys, a chat room's `@context`; no other keyword), each with the value of any field that spells it; a list of types is its first string |
| JsonLd.TermSpellings | internal/activitypub/jsonld.go:29-99 | every term is spelled by itself, by both IRIs and by its prefixed form if it has one |
| JsonLd.OtherValues | internal/activitypub/jsonld.go:155-170 | an annotated value becomes its value, a reference its address, a list is normalised item by item, scalars stay |
| JsonLd.KeywordExample | internal/activitypub/jsonld.go:173-178 | `@id` and `@type` become `id` and `type` |
| JsonLd.NormalizeTwice | internal/activitypub/jsonld.go:125-140 | two normalisations of a document fail together or agree deeply, and of a steady one are identical; that unsteady ones can differ is `DeterministicIffSteady` |
| HostBackfill.RewriteKeepsValid | internal/maintenance/host_backfill.go:136-198 | a rewrite to a free normal form keeps keys unique and the uniqueness groups intact |
| HostBackfill.RewriteKeepsSettled | internal/maintenance/host_backfill.go:136-198 | a settled row stays settled whatever other row is rewritten |
| HostBackfill.RepairsTrans | internal/maintenance/host_backfill.go:136-198 | batches compose, and no row is changed twice |
| HostBackfill.HostTable.Select | internal/maintenance/host_backfill.go:147-165 | the page is the first candidates after the cursor in key order |
| HostBackfill.HostTable.RepairPage | internal/maintenance/host_backfill.go:166-198 | every row of the page is settled afterwards; updates are the rows changed, and updates and conflicts together the rows that were not in normal form |
| HostBackfill.HostTable.Batch | internal/maintenance/host_backfill.go:147-198 | everything up to the new cursor is settled, even where the rewritten column is the cursor's own; updates and conflicts together are the rows of the page out of normal form, and a dry run, which writes nothing, counts the same |
| HostBackfill.HostTable.Backfill | internal/cli/backfill/remote_host.go:65-102 | the run ends. Completed means every row is normalised or its normal form is taken. With no failing query it completes if collation and byte order agree on all keys, and where keys do not move exactly if the page ends are in byte order; a stall leaves everything from the stall on as it was |
| HostBackfill.FullChainExists | internal/maintenance/host_backfill.go:147-165 | every table has its list of page ends, before any run |
| HostBackfill.ChainIsPrefix | internal/maintenance/host_backfill.go:147-165 | and only one: the cursors of a run whose keys do not move are its beginning |
| HostBackfill.HostTable.RunTwice | internal/maintenance/host_backfill.go:19-23 | a second run after a completed one updates nothing |
| HostBackfill.StallExample | internal/cli/backfill/remote_host.go:65-102 | a run with no failing query over three rows that stalls at its second batch and leaves the third with a host that is neither normal nor taken |
| HostBackfill.CaseLessIsStrictOrder | internal/cli/backfill/remote_host.go:77-85 | that collation is a strict total order |
| HttpSignature.BuildSigningString | internal/activitypub/signature.go:135-160 | the string is the join of the lines of all listed headers, or the error names the first one without a value |
| HttpSignature.SigningStringIs | internal/activitypub/signature.go:135-160 | character by character: one line for each listed name in order, one line break between two, each the lower-cased name, a colon, a blank, and the lower-cased method and the URI or the header's value |
| HttpSignature.OneLineEach | internal/activitypub/signature.go:138-158 | every name has exactly one such line |
| HttpSignature.MissingIs | internal/activitypub/signature.go:154-156 | the string is refused exactly when the request says nothing under a listed name, and the error names the first such |
| HttpSignature.RequestTargetExample | internal/activitypub/signature.go:140 | POST /inbox is signed as `(request-target): post /inbox` |
| HttpSignature.SigningStringInjective | internal/activitypub/signature.go:135-160 | for one header list and values without line breaks, equal strings mean equal values |
| HttpSignature.SameStringIff | internal/activitypub/signature.go:135-160 | two requests have the same signing string exactly when every listed value is the same |
| HttpSignature.ParseSignatureHeader | internal/activitypub/signature.go:170-198 | the loop computes what `ParseIs` and `ParseLast` describe |
| HttpSignature.ParseIs | internal/activitypub/signature.go:170-198 | keyId and signature are required, a missing list becomes "date", a missing algorithm is empty |
| HttpSignature.ParseLast | internal/activitypub/signature.go:175-187 | of several values under one name the last counts |
| HttpSignature.PrintedAs | internal/activitypub/signature.go:103-108 | the printed header: the four parameters under their names, in order, with the algorithm of the key's type |
| HttpSignature.ParsedValues | internal/activitypub/signature.go:170-198 | what is parsed is non-empty, quote-free and a list of plain names |
| HttpSignature.PrintParse | internal/activitypub/signature.go:103-108 | the printed header is parsed back to the same key id, algorithm, list and signature |
| HttpSignature.PrintParseIff | internal/activitypub/signature.go:103-108 | exactly non-empty quote-free ids and signatures and non-empty lists of plain names survive |
| HttpSignature.FieldsOfJoin | internal/activitypub/signature.go:107-186 | a header list joined by blanks is split back to itself |
| HttpSignature.Request.SignRequest | internal/activitypub/signature.go:78-114 | the request's headers and the result after signing, and after each early error |
| HttpSignature.SchemeIsMatrix | internal/activitypub/signature.go:292-349 | the check that is run for an algorithm name and a key type is the one of the documented matrix, and none outside it |
| HttpSignature.AcceptedIff | internal/activitypub/signature.go:208-332 | a request is accepted exactly when its own signing string verifies under a matrix entry of the key's type and the digest header has the known form |
| HttpSignature.VerifyRejection | internal/activitypub/signature.go:208-280 | a rejection names the first check that fails, in the source's order |
| HttpSignature.SignedHeaders | internal/activitypub/signature.go:78-114 | date, host and digest after signing and after a failure; the Host header goes only on success |
| HttpSignature.SigningKeepsOthers | internal/activitypub/signature.go:78-114 | no other header and no other part of the request changes |
| HttpSignature.PrintedAccepted | internal/activitypub/signature.go:208-280 | a receiver of a printed signature accepts exactly when it rebuilds the signed text and the digest header has the known form |
| HttpSignature.RoundTrip | internal/activitypub/signature.go:78-280 | sign, deliver, verify: accepted exactly when method, host and any old signature reach the receiver as they were signed |
| HttpSignature.FreshRequestVerifies | internal/activitypub/signature.go:78-280 | a request built the usual way with its body's digest always verifies |
| Admission.FoldIsLower | internal/activitypub/inbox_admission.go:230-237 | for ASCII names folding and lower-casing find the same names |
| Admission.ContainsHeaderFold | internal/activitypub/inbox_admission.go:230-237 | the search finds a name exactly when some listed name folds to it |
| Admission.SkewIff | internal/activitypub/inbox_admission.go:169-186 | a readable date passes exactly within five minutes or when it is 2^63 ns or more ahead |
| Admission.UnreadableDatePasses | internal/activitypub/inbox_admission.go:169-177 | a date that is missing or cannot be read passes |
| Admission.DateHeaderIs | internal/activitypub/inbox_admission.go:155-160 | a signed X-Date comes before the Date, an unsigned one is not looked at |
| Admission.FarFutureDatePasses | internal/activitypub/inbox_admission.go:178-184 | the second case happens: the year 9999 seen from 2026 |
| Admission.VerifyInboxAdmission | internal/activitypub/inbox_admission.go:85-139 | the checks in their order, each with its own error |
| Admission.AdmittedIff | internal/activitypub/inbox_admission.go:85-139 | admission says yes exactly when every check passes |
| Admission.RejectionIsFirstFailure | internal/activitypub/inbox_admission.go:85-139 | a rejection names the first check that fails, in the documented order, and no other |
| Admission.SplitDigestIs | internal/activitypub/inbox_admission.go:244-252 | the trimmed header is cut at its first `=` into two parts that are not empty |
| Admission.FoldedIsCovered | internal/activitypub/inbox_admission.go:230-237 | on a request from the wire a name admission finds is one the signing string contains |
| Admission.LongSIsNotCovered | internal/activitypub/inbox_admission.go:230-237 | that needs ASCII header names: a long s makes the two disagree |
| Admission.AdmittedIsCovered | internal/activitypub/inbox_admission.go:85-160 | request target, host, digest and the date used are signed, and the digest is the body's hash |
| Admission.AcceptedIsCovered | internal/activitypub/inbox_admission.go:85-160 | a request that is verified and admitted has a signature that verifies under a scheme of the key's type over exactly that: target, host, date and the body's digest |
| Admission.SameStringSameRequest | internal/activitypub/inbox_admission.go:85-160 | two admitted requests with one signing string have the same method, target, host, digest, date and body hash |
| Admission.OwnDigestMatches | internal/activitypub/signature.go:57-60 | the digest made for a body passes for that body and for no body with another hash |
| Admission.SignedPostIsAccepted | internal/activitypub/inbox_admission.go:85-160 | a fresh POST signed over the four required headers is verified and admitted where it was sent |
| KeyCache.CacheKeyInjective | internal/activitypub/public_key_cache.go:63-66 | without NUL in the key ids, one cache key means one key id and one PEM |
| KeyCache.EntryIsOwnIff | internal/activitypub/public_key_cache.go:63-66 | the separator keeps entries apart exactly for key ids without NUL |
| KeyCache.CachedIsUncached | internal/activitypub/public_key_cache.go:112-125 | one cached call gives the uncached answer with the same error precedence, and keeps the cache faithful |
| KeyCache.HistoryIsUncached | internal/activitypub/public_key_cache.go:71-125 | so do all calls after any history of calls, changed PEMs and evictions |
| KeyCache.NulMixesKeys | internal/activitypub/public_key_cache.go:63-66 | with a NUL in a key id the second caller gets the first one's key |
| KeyCache.PublicKeyCache.ParsedKey | internal/activitypub/public_key_cache.go:71-96 | the entry if there is one, else the decoded key, remembered on success and not on failure; for a key id without NUL and a faithful cache that is the decoded key, and the cache stays faithful |
| KeyCache.PublicKeyCache.VerifyRequestCached | internal/activitypub/public_key_cache.go:112-125 | the answer of the cached path for every key id; for one without NUL the same answer as VerifyRequest with the key's type; an unusable header leaves the cache alone |
| EmojiRepair.Site.Process | internal/maintenance/emoji_system_file_backfill.go:200-362 | with no other writer the outcome is what the rows call for or a failure, and only a planned copy writes; when reads work a copy is made exactly where one is called for, its fate decides the outcome, and a usable copy whose update is reported is taken into use |
| EmojiRepair.OutcomeIs | internal/maintenance/emoji_system_file_backfill.go:215-280 | over the columns: which outcome the rows call for, and that a copy is called for exactly when the emoji exists and shows no file of the instance, and the application's file exists, is the one shown, has an allowed type, is no link and has an access key and a URL |
| EmojiRepair.RepointedIs | internal/maintenance/emoji_system_file_backfill.go:335-348 | what the emoji shows afterwards: the copy's URL, and its public URL and type where it has them |
| EmojiRepair.CandidatesAre | internal/maintenance/emoji_system_file_backfill.go:183-197 | approved applications of the own kind with an emoji and a file, in order, cut at a positive limit |
| EmojiRepair.Site.Examine | internal/maintenance/emoji_system_file_backfill.go:215-280 | the part before the copy classifies by the rows and writes nothing |
| EmojiRepair.Site.Repair | internal/maintenance/emoji_system_file_backfill.go:284-362 | the row ends as it was or pointing at a kept new system-owned file; a deletion is only asked for a copy no emoji points at |
| EmojiRepair.Site.FinishFailedUpdate | internal/maintenance/emoji_system_file_backfill.go:374-396 | after an ambiguous update error the copy goes only after a read that shows the row elsewhere |
| EmojiRepair.Site.DeleteCopy | internal/maintenance/emoji_system_file_backfill.go:424-431 | removes nothing but that copy and keeps the rule that no emoji points at a removed copy |
| EmojiRepair.Site.FindFilesByUrl | internal/maintenance/emoji_system_file_backfill.go:504-513 | all rows with the URL, none for the empty one |
| EmojiRepair.Site.AnySystemOwned | internal/maintenance/emoji_system_file_backfill.go:451-458 | whether one of the rows belongs to the instance |
| EmojiRepair.Site.Backfill | internal/maintenance/emoji_system_file_backfill.go:126-175 | the rule holds over every run with other writers; counters are the tallies of the entries; settled rows get no copy, whatever reads fail |
| EmojiRepair.Site.RunTwice | internal/maintenance/emoji_system_file_backfill.go:227-235 | a second applying run makes no copy for a copied row, whatever reads fail in either run; it calls it `already`, or `failed` after a failed read, if the copy's URL is not empty |
| EmojiRepair.CountersSum | internal/maintenance/emoji_system_file_backfill.go:159-172 | the six counters add up to the rows scanned |
| EmojiRepair.DoneIsNotCopied | internal/maintenance/emoji_system_file_backfill.go:227-276 | a settled row is never planned for a copy |
| EmojiRepair.StepKeepsDone | internal/maintenance/emoji_system_file_backfill.go:335-362 | no row's processing unsettles another |
| Reactions.MergeReactionsJson | internal/entity/note.go:442-469 | the merge is the same in whatever order the deltas are visited |
| Reactions.MergedCount | internal/entity/note.go:442-469 | key by key: touched keys get base plus delta and go at zero or below, untouched keys stay |
| Reactions.Int64Is | internal/entity/note.go:450-469 | a count loses its fraction towards zero |
| Reactions.MergingTwiceDiffers | internal/entity/note.go:416-423 | merging one delta twice is not merging it once |
| Reactions.CollectIds | internal/entity/note.go:396-408 | each id once, none empty, in order |
| Reactions.MergeBufferedReactions | internal/entity/note.go:389-435 | for any list with repeats and shared targets each note object has its delta applied exactly once, and no other object changes |
| Reactions.FlattenNotesPlusRelations | internal/entity/note.go:492-510 | the flattened list, nulls dropped |
| Reactions.FlatHasExactly | internal/entity/note.go:492-510 | it has exactly the notes, their renote targets and what they reply to |
| Reactions.NormIdempotent | internal/entity/note.go:533-550 | a normal key is its own normal key |
| Reactions.LegacyKeys | internal/misc/reactionlegacy/legacy.go:16-28 | the eleven text reactions and their emoji |
| Reactions.CustomKeys | internal/entity/note.go:533-538 | `:name:` becomes `:name@.:` |
| Reactions.OtherKeys | internal/entity/note.go:533-550 | every other key stays as it is |
| Reactions.PackReactions | internal/entity/note.go:578-617 | every normal key has the sum of the counts that share it, and the total is the sum of the whole parts, in any visiting order |
| Reactions.PackingConserves | internal/entity/note.go:578-617 | folding keys together conserves the sum of the counts |
| Reactions.TotalIsSumIff | internal/entity/note.go:552-568 | the total is that sum exactly when the fractions add up to nothing |
| Reactions.WholeCountsAddUp | internal/entity/note.go:578-617 | for whole counts the total, the raw and the packed counts have one sum |
| Reactions.HalvesAreNotTotalled | internal/entity/note.go:564-568 | two halves under one key make 2 in the total and 3 in the map |
| Reactions.PackingTwice | internal/entity/note.go:578-617 | packing packed counts changes nothing |
| NotePacking.PackIsUnfolding | internal/entity/note.go:134-333 | the packed tree is the note graph unfolded along at most two embeds with nothing below a reply; replies have neither poll nor clip count |
| NotePacking.PopulatedAt | internal/entity/note_field_resolver.go:243-270 | filling in files reaches every node at every depth and changes nothing else |
| NotePacking.FetchNoteFiles | internal/entity/note_field_resolver.go:149-166 | on the collected ids the map is the table; "nothing" means no id exists or the query failed |
| NotePacking.FillCache | internal/entity/note_field_resolver.go:315-353 | a batch that answers fills in every row that exists, one that fails none; single look-ups fill in each id that was answered |
| NotePacking.EmbeddedRow | internal/entity/note_field_resolver.go:272-353 | what a file gets for its folder or owner in each case: nothing without a look-up, the row if it exists and was answered, nothing from a failed batch or a failed single query |
| NotePacking.ResolveFileOwners | internal/entity/note_field_resolver.go:285-311 | the caches hold for every found file what the look-ups, failing or not, said of its folder and its owner |
| NotePacking.ResolveFiles | internal/entity/note_field_resolver.go:101-117 | every node at every depth has exactly its own existing files, in order and with repeats, each with the row of its folderId as folder and the row of its userId as owner as the look-ups answered; a failed file query changes nothing |
| NotePacking.AllFilled | internal/entity/note_field_resolver.go:243-270 | the same for one note and one path of embeds |
| NotePacking.BatchIsPerId | internal/entity/note_field_resolver.go:272-353 | a run with batches and a run with look-ups by id on the same tables give the same notes when neither loses a row to a failed query |
| NotePacking.PerIdIff | internal/entity/note_field_resolver.go:272-353 | a run gives what unfailing look-ups by id give exactly if every query was answered or concerned no row that exists |
| NotePacking.FailingBatchLosesFolders | internal/entity/note_field_resolver.go:315-353 | a note with one file in an existing folder and a failing batch: the folder is missing |
| Manifest.WalkSeesReachable | internal/frontendutil/frontendutil.go:196-219 | the walk meets exactly the ids reachable through imports, cycles and missing chunks included |
| Manifest.WalkCss | internal/frontendutil/frontendutil.go:183-219 | the style sheets added are those of the chunks met, without repetition |
| Manifest.OwnCssFirst | internal/frontendutil/frontendutil.go:183-219 | a chunk's own style sheets come before those of the chunks it brings along |
| Manifest.AddCssFirst | internal/frontendutil/frontendutil.go:183-191 | files are added in order, each where it is first met |
| Manifest.PreloadsExact | internal/frontendutil/frontendutil.go:214-218 | the preloads are the direct imports that exist and that no earlier import leads to, each once |
| Manifest.SharedImportIsNotPreloaded | internal/frontendutil/frontendutil.go:199-218 | a direct import that an earlier one imports is not preloaded |
| Manifest.Walker.Walk | internal/frontendutil/frontendutil.go:196-219 | the recursive loop terminates and does what the walk function says |
| Manifest.Walker.AddCss | internal/frontendutil/frontendutil.go:183-191 | appends the new files in order |
| Manifest.DetectEntry | internal/frontendutil/frontendutil.go:162-228 | the style sheets are the duplicate-free union over the entry and all reachable chunks, the entry's first; the preloads as above; empty without manifest or entry |
| GucList.SplitGucList | internal/backup/restore.go:1338-1359 | the loop computes the elements of the list grammar |
| GucList.SplitPrinted | internal/backup/restore.go:1338-1359 | splitting a list of quoted or bare elements gives the elements, trimmed |
| GucList.RoundTripIff | internal/backup/restore.go:1335-1359 | a printed list comes back exactly when it is not empty and no element has outer white space |
| GucList.ValidSettingName | internal/backup/restore.go:1320-1333 | letters, underscores and, after the first, digits and dots |
| GucList.AlterDatabaseSetSql | internal/backup/restore.go:1301-1318 | a statement exactly for settings with a valid name and no NUL in the value |
| GucList.StatementReadsBack | internal/backup/restore.go:1317-1365 | reading the statement by SQL's quoting rules gives the database, the name and every value, whatever they hold |
| GucList.SettingReadsBack | internal/backup/restore.go:1301-1318 | every valid setting becomes a statement that sets the same name to its elements |
| GucList.ListSettingReadsBackIff | internal/backup/restore.go:1287-1318 | for a printed list setting the statement has exactly the elements, if and only if none has outer white space |
| GucList.PlainSettingReadsBack | internal/backup/restore.go:1290-1318 | a setting that is none of the six list settings is set to the one value it was given |
| Dsn.ReadBack | internal/config/db_tls.go:224-235 | a quoted value is read back whole, for every string |
| Dsn.ParseAll | internal/config/db_tls.go:238-255 | any list of settings with quoted values is read back whole |
| Dsn.DsnRoundTrip | internal/config/db_tls.go:238-255 | for every host, user, password, database and CA path the reader gets exactly those values; a socket host gets sslmode=disable and no CA |
| Dsn.ItoaIs | internal/config/db_tls.go:245 | the port is printed in decimal without leading zeros |

## Left out

Assumed of the world:

- Restore: no other administrator creates, drops or renames databases during a restore.
- A COMMIT, Put or Delete that reports an error has taken effect or not by the time the error is seen; it does not
  take effect later.
- HostBackfill: no other writer, and an idempotent normaliser; the collation is any strict total order with the empty
  string least.
- EmojiRepair: other writers may remove a copy but do not change its row or write its fresh URL into an emoji; a
  storage name that is not new counts as a failed copy.
- HttpSignature: sign, verify, SHA-256, base64 and PEM decoding are functions with the usual laws. `Matching` says a
  signature verifies for its own text and no other; it is a law of ideal signatures.
- Delivery: header values arrive as they were set (`net/http` trims outer blanks and replaces line breaks), and a
  header has one value.
- KeyCache: a collision-free hash. HTTP headers cannot hold NUL, so key ids have none; where one does, `NulMixesKeys`
  shows what happens.
- VerifiedStore: takes do not reuse an ID, that is, no two takes of one storage begin in the same second by their
  clocks.

Not modelled:

- Cryptography, JSON, PEM and X.509 decoding, regular-expression engines, SQL text other than ALTER DATABASE ... SET,
  and the PostgreSQL, S3 and Redis clients.
- `internal/backup/storage_dir.go` (symlinks, modes, inodes): the storage contract is used instead.
- GenerationStore: a verification's stages are one step with any possible outcome; what they read in between is not
  modelled.
- Multipart.Bucket.Put: an upload part that arrives but reports an error is not kept as a part, since only
  acknowledged parts are listed at completion.
- JsonLd.DeterministicIffSteady: `Steady` compares the normal forms of fields that share a name, so checking it means
  normalising those fields.
- StreamDump.FailedDumpStoresNothing: the second hash over the plaintext (`plainSha256`) and the text of pg_dump's
  standard error (`tailBuffer`) are left out.
- Restore.Cluster.Restore: what the checks of privileges, extensions, locales, tool versions, connections and of the
  stored dump find is given (`Restore.Conditions`); a database is without tables when it has no row counts and was not
  migrated.
- Archive.Archive.Verify: what the sandbox server does is given (`VerifyResults.Environment`).
- JsonLd.NormalizeValue: numbers are reals plus a negative zero; the rounding of large numbers by the decoder is not
  modelled. Normalisation is not claimed to be idempotent, since a prefix is stripped once per pass.
- Lower-casing and case folding cover ASCII and the letters whose lower case or fold is ASCII; other letters are left
  as they are.
- HttpSignature.Request.SignRequest: the format of the date and the order of header lines on the wire.
- Admission.VerifyInboxAdmission: the date layouts of `parseSignatureDate` are a parameter.
- KeyCache.PublicKeyCache.ParsedKey: a nil cache receiver decodes every time, as a cache without a list does.
- EmojiRepair.Site.Process: the reason texts, the size limit and the sensitive flag of the copy.
- Reactions.PackReactions: sums of counts are sums of reals, without floating-point rounding; the order of keys in the
  printed JSON.
- NotePacking.ResolveFiles: the packed tree is a value (each entity is freshly made and shared by nobody), so filling
  in place is not modelled; of an entity only the fields that embed depth and files decide are kept.
- Manifest.DetectEntry: reading and decoding the file is a parameter.
- Dsn.DsnRoundTrip: NUL ends a string for libpq, and is not special here; `ResolveDBTLS` is represented by the set of
  modes it can return.
- `HideNoteEntity`, viewer fields, polls, channels and the other packers: field copying with one-branch facts.
- `internal/cli/cli.go`, configuration loading, HTTP clients, renderers, plugin interfaces and chart counters.
