# Container registry: a Dafny model

This project models the parts of a container registry in which state, ordering or parsing is
subtle, and proves properties of the model that span several operations. Check the whole of it with
`dafny verify dfyconfig.toml`.

What is modelled, one or a few modules for each:

- **Resumable uploads** (`BlobUpload`, `UploadRuns`, `BlobWriter`). A writer appends to a file and
  to a running hash, saves hash states by offset, is resumed, validates its digest and moves the
  file to the path named by it. `BlobUpload` gives every operation as a function on values,
  `UploadRuns` the runs of any number of interleaved uploads, `BlobWriter` the object with its
  fields and loops, method by method equal to those functions. Each driver call may fail. The hash
  is a parameter about which nothing is assumed.
- **Offline garbage collection** (`GarbageCollect`, `MarkAndSweep`, `ParallelMarking`, `Batches`,
  `Vacuum`, `SweepPaths`, `CachedTags`, `Tagging`). Two mark phases over all repositories, in a loop
  and as goroutines over shared sets, the sweep, deletion of links in batches, once by name and once
  by path, and the tag cache it reads.
- **Digest set** (`Digests`, `DigestSet`, `ShortCodes`). A sorted array with lookup by hex prefix and the table
  of short codes.
- **Notifications** (`EventQueue`, `RetryingSink`, `IgnoredSink`). The queue between writers,
  runner and closers and the retrying sink are state machines over their critical sections; a run
  is any sequence of enabled steps.
- **Metadata import and repository tree** (`Importer`, `ImportClosure`, `ImportSession`,
  `RepositoryTree`). Upserts over tables keyed by their natural keys, so results are compared modulo
  row ids.
- **Parsers, paths and listings** (`ForwardedHeader`, `PathOrder`, `Paths`, `BlobPaths`,
  `Pagination`, with `Text` and `Numerals`).
- **Readers** (`Seeking`, `HttpReader`, `FileReader`, `LimitedReader`).

Loops and objects of the registry are methods and classes here, proved against functions on values;
the main results are lemmas about those functions.

## Where a natural claim fails

Where the code does not meet a property one would expect, the code is modelled as it is, a lemma
gives an input, and the property is proved under the condition that excludes the failure.

- *A saved hash state is the state of the prefix it is named for.* Not after a gap, that is when
  resuming finds more bytes in the file than were hashed and no state saved for its size
  (`BlobUpload.GapStateIsNoPrefix`). Writing and closing keep the property whatever is written if and
  only if there is no gap (`BlobUpload.ExactIffNoGap`), and so does every run that meets none
  (`UploadRuns.StatesArePrefixes`). What holds in every run, and is enough for the digests, is that
  the state saved for the current size is that of the whole file.
- *A blob always hashes to its digest.* Not if an upload is resumed whose cancellation, or whose
  commit after moving the data, took the data away but failed to remove the directory: its old hash
  states are then taken for new data (`UploadRuns.StaleResumeCorrupts`, `FailuresLeaveStale` for both
  kinds). However good the hash and whatever is stored, every such upload can corrupt the store
  without any further failure (`EveryStaleCorrupts`), and all runs that resume none are safe
  (`BlobsStayAddressed`).
- *A short code leads back to its digest.* Not if it is the whole hex text of the entry before
  (`DigestSet.CodeLeadsAstray`), and exactly then (`LeadsBackIff`); so always in a set of one algorithm.
- *Short codes are as short as possible*, as the comment on the table says it attempts. Not for three
  texts of which the first two share more (`ShortCodes.CarriedTooFar`): a code is, if and only if no
  earlier pair of its group lies closer together than it does to its neighbours, or these require all
  of its digits (`ShortestIff`).
- *A lookup qualified by an algorithm finds the members of that algorithm.* Not if a member of another
  algorithm comes first (`DigestSet.QualifiedMisses`); exactly unless one comes before the first two
  candidates (`AnswerQualified`).
- *Closing the queue closes the sink.* Exactly unless a nil block was accepted
  (`EventQueue.CloseReachesSink`, `NilBlocksClose`).
- *Whatever a tag leads to survives garbage collection.* Not through a list within a list when
  untagged manifests are removed (`GarbageCollect.NestedListLosesLayers`), and not in a repository
  without a layers directory, which the walk does not find (`UnwalkedRepositoryLosesManifest`). A
  blob survives if and only if a manifest of a walked repository leads to it, as far as each mode
  follows references (`SurvivesIffRooted`). When untagged manifests are kept, nesting does no harm
  (`PullsSurvive`).
- *The tag cache behaves as the tag store.* In every call, exactly if the tag directory can be read
  and no link in it is broken; a failure is reported once and then forgotten
  (`CachedTags.CacheAgrees`). The comment on the type promises the same behaviour without exception.
- *Import after pre-import gives what import alone gives.* Exactly if the tags can be listed or the
  repository already exists (`Importer.PreImportThenImport`).
- *Deleting manifests in batches deletes their links.* A batch holding a digest without a colon
  panics, is recovered and counts as done (`Batches.MixedBatchIsSkipped`): a link stays behind
  although success is reported if and only if every manifest with that link is in a batch with an
  unreadable digest (`LinkStaysIff`).
- *The order of paths is total.* Not with NUL bytes in the text (`PathOrder.NulPathsUnordered`): two
  paths are unordered if and only if they differ only where one has a separator and the other a NUL
  (`UnorderedIffSameButNul`).
- *A 206 answer with an unknown total (`*`) is accepted*, as the code provides for. The pattern that
  should accept the star accepts any number of backslashes, so the header matches with an empty
  total, which does not parse (`HttpReader.StarExample`). An answer that carries the rest of the
  content is accepted if and only if it names the total (`StarIsRefused`).
- *A repeated parameter of a Forwarded header is refused*, as section 4 of RFC 7239 demands. A quoted
  value replaces the first one (`ForwardedHeader.RepeatedExample`); well-formed pairs are refused if
  and only if an unquoted value repeats a parameter (`RefusedIffTokenRepeats`).

## Model

| member | source | states |
|---|---|---|
| `BlobUpload.ResumeKeepsInStep` | registry/storage/blobwriter_resumable.go:19-72 | resuming never puts the writer ahead of the file; ready means the hash has absorbed the whole file, not available means a gap and a reset hash |
| `BlobUpload.WriteKeepsInStep` | registry/storage/blobwriter.go:119-136 | after any write, also one that fails after a part or after all of the bytes reached the file, a writer level with the file has hashed exactly the file, and the state saved for the current size is that of the whole file |
| `BlobUpload.ReadFromKeepsInStep` | registry/storage/blobwriter.go:138-154 | the same for copying any chunks, until the file or the client's reader fails |
| `BlobUpload.CloseKeepsClean` | registry/storage/blobwriter_resumable.go:117-144 | saving the hash state on close keeps that invariant, also after a gap |
| `BlobUpload.ValidateIsRehash` | registry/storage/blobwriter.go:170-295 | both shortcuts of validation accept, reject and describe exactly as hashing the stored file again would, for the canonical and any other algorithm; only driver failures differ |
| `BlobUpload.WriteKeepsExact` | registry/storage/blobwriter.go:119-136 | writing keeps every saved state the state of its prefix, and without a gap the writer has hashed exactly what it counted |
| `BlobUpload.ReadFromKeepsExact` | registry/storage/blobwriter.go:138-154 | so does copying |
| `BlobUpload.CloseKeepsExact` | registry/storage/blobwriter_resumable.go:117-144 | so does closing, for such a writer |
| `BlobUpload.ExactIffNoGap` | registry/storage/blobwriter_resumable.go:38-69 | writing any bytes and closing keeps saved states the states of their prefixes if and only if resuming meets no gap, for every writer and file |
| `BlobUpload.GapStateIsNoPrefix` | registry/storage/blobwriter_resumable.go:51-69 | a run in which a saved state is not the state of the prefix it is named for |
| `UploadRuns.MoveKeepsAddressed` | registry/storage/blobwriter.go:300-353 | moving keeps every blob under its digest, in the empty, the already-there and the ordinary branch |
| `UploadRuns.CommitDecides` | registry/storage/blobwriter.go:62-98 | a commit either fails without touching blobs and links and leaves the writer in order, or goes on with the digest of the file's bytes, which are those the client named |
| `UploadRuns.CommitStores` | registry/storage/blobwriter.go:62-98 | success means the bytes match the client's digest, are stored under their canonical digest, are linked, and no other blob changed; without driver failures it succeeds exactly when the digest matches |
| `UploadRuns.CommitKeepsInvariant` | registry/storage/blobwriter.go:62-98 | blobs stay well addressed and links resolved, whatever fails, and a failed commit leaves an upload that may be cancelled |
| `UploadRuns.CancelLeaves` | registry/storage/blobwriter.go:102-113 | a cancelled upload is gone, or may be cancelled again, also after a failed commit |
| `UploadRuns.StepKeepsInvariant` | registry/storage/linkedblobstore.go:136-222 | create, resume, write, read, close, commit, cancel, put and losing the writer each keep the invariant of the whole store, also when a closed writer, or one whose commit or cancellation failed, is used again |
| `UploadRuns.RunKeepsInvariant` | registry/storage/linkedblobstore.go:136-222 | so does every run |
| `UploadRuns.BlobsStayAddressed` | registry/storage/blobwriter.go:62-353 | in every interleaving of any number of uploads with any driver failures, content hashes to the digest it is stored under, links resolve, and writers level with their file have hashed it, provided no stale upload is resumed |
| `UploadRuns.StepKeepsExact` | registry/storage/blobwriter_resumable.go:19-144 | each step that meets no gap keeps saved states the states of their prefixes in every upload that has its data |
| `UploadRuns.StatesArePrefixes` | registry/storage/blobwriter_resumable.go:19-144 | so they are in every run from the empty store that meets no gap |
| `UploadRuns.FailuresLeaveStale` | registry/storage/blobwriter.go:62-113 | when the directory cannot be removed, a cancellation and a commit both leave an upload whose saved state outlives its data, after a commit one that names a stored blob |
| `UploadRuns.EveryStaleCorrupts` | registry/storage/blobwriter_resumable.go:38-69 | from any store with an idle upload of that kind, for any hash that tells texts apart, some run without failures stores content under a wrong digest |
| `UploadRuns.StaleResumeCorrupts` | registry/storage/blobwriter.go:102-113 | a run from the empty store that stores one text under the digest of another |
| `BlobWriter.ListOffsets` | registry/storage/blobwriter_resumable.go:80-115 | the offsets read from the file names are exactly those with a saved state |
| `BlobWriter.Writing.ResumeDigest` | registry/storage/blobwriter_resumable.go:19-72 | the loop over stored states computes the value model's resume |
| `BlobWriter.Writing.StoreHashState` | registry/storage/blobwriter_resumable.go:117-144 | the state is saved under the count of written bytes, nothing else changes |
| `BlobWriter.Writing.Write` | registry/storage/blobwriter.go:119-136 | fields, file and result change as the value model says |
| `BlobWriter.Writing.CopyChunks` | registry/storage/blobwriter.go:138-154 | file and hash both get exactly what the file accepted up to the first error of file or client, which is returned |
| `BlobWriter.Writing.ReadFrom` | registry/storage/blobwriter.go:138-154 | refines the value model |
| `BlobWriter.Writing.Close` | registry/storage/blobwriter.go:156-166 | refines the value model |
| `BlobWriter.Writing.ValidateBlob` | registry/storage/blobwriter.go:170-295 | the flags and branches of the code decide as the value model's case analysis |
| `BlobWriter.Writing.MoveBlob` | registry/storage/blobwriter.go:300-353 | refines the value model, blobs and upload files both |
| `BlobWriter.Writing.LinkBlob` | registry/storage/linkedblobstore.go:351-381 | the loop over digests with its seen set links the canonical digest and a different alias, once each |
| `BlobWriter.Writing.Commit` | registry/storage/blobwriter.go:62-98 | refines the value model: writer, blobs, links, uploads and result |
| `BlobWriter.Writing.Cancel` | registry/storage/blobwriter.go:102-113 | refines the value model |
| `GarbageCollect.KeptIsMarked` | registry/storage/garbagecollect.go:203-322 | a revision that is not to be unlinked is marked together with all it directly references |
| `GarbageCollect.MarkedSurvives` | registry/storage/garbagecollect.go:346-401 | a marked blob survives, however far the sweep got |
| `GarbageCollect.RevisionsKeepTheirBlobs` | registry/storage/garbagecollect.go:102-401 | after any sweep, complete or broken off, each revision left in a walked repository has its blob and every blob it references |
| `GarbageCollect.ReachIsMarked` | registry/storage/garbagecollect.go:203-322 | a tagged manifest, its references and the references of a list's entries are all marked, and none of the manifests is unlinked |
| `GarbageCollect.TagsKeepEverything` | registry/storage/garbagecollect.go:102-401 | in both modes, what is reachable from a tag survives any sweep with its links, also when other repositories have the same blobs untagged |
| `GarbageCollect.FlatPulls` | registry/storage/garbagecollect.go:203-322 | for lists of images only, pulling to any depth stays within that reach |
| `GarbageCollect.PulledIsMarked` | registry/storage/garbagecollect.go:161-177 | when untagged manifests are kept and lists have their entries linked, whatever pulling a revision fetches is marked, at any depth |
| `GarbageCollect.PullsSurvive` | registry/storage/garbagecollect.go:102-401 | hence everything that pulling a tag fetches survives: with lists of images only when untagged manifests are removed, at any depth when they are kept |
| `GarbageCollect.NestedListLosesLayers` | registry/storage/garbagecollect.go:287-322 | a storage in which a list within a list loses a layer |
| `GarbageCollect.UnwalkedRepositoryLosesManifest` | registry/storage/garbagecollect.go:102-110 | a storage in which a tagged manifest of a repository without layers directory is deleted, in both modes |
| `GarbageCollect.MarkedIffRooted` | registry/storage/garbagecollect.go:203-322 | a repository marks exactly what its tagged manifests reach, or its revisions reference, depending on the mode |
| `GarbageCollect.SurvivesIffRooted` | registry/storage/garbagecollect.go:102-401 | after a complete sweep a blob is there, unchanged, if and only if a manifest of a walked repository leads to it |
| `GarbageCollect.SweptMarksSame` | registry/storage/garbagecollect.go:102-325 | marking the swept storage marks the same and unlinks nothing |
| `GarbageCollect.SecondRunRemovesNothing` | registry/storage/garbagecollect.go:85-405 | a second run succeeds and changes nothing |
| `MarkAndSweep.EstimateIsFreed` | registry/storage/garbagecollect.go:330-372 | the printed estimate is exactly the storage freed |
| `MarkAndSweep.MarkTagged` | registry/storage/garbagecollect.go:203-249 | the first phase fails exactly when a tagged manifest cannot be read, and otherwise marks those manifests and image references and collects list references |
| `MarkAndSweep.MarkReferenced` | registry/storage/garbagecollect.go:287-322 | the second phase marks the referenced manifests and all their references |
| `MarkAndSweep.LookupIsTagged` | registry/storage/garbagecollect.go:161-177 | with or without a tag directory, the cached lookup finds tags of a digest exactly when the model calls it tagged, and priming fails for good exactly when a link is broken |
| `MarkAndSweep.Classify` | registry/storage/garbagecollect.go:161-199 | revisions are split into tagged and untagged |
| `MarkAndSweep.MarkRepository` | registry/storage/garbagecollect.go:102-325 | the phases together compute the marks and deletions of a repository |
| `MarkAndSweep.MarkAll` | registry/storage/garbagecollect.go:102-325 | the walk computes the union of marks and lists exactly the revisions to unlink with all their tags, and fails if one repository does |
| `MarkAndSweep.FindUnmarked` | registry/storage/garbagecollect.go:346-361 | exactly the unmarked blobs are chosen, and their sizes added up in any order |
| `MarkAndSweep.KeepIsUnlink` | registry/storage/garbagecollect.go:251-275 | removing the links of that list is the unlinking the sweep asks for |
| `MarkAndSweep.KeepLeaves` | registry/storage/garbagecollect.go:383-387 | whichever of them are removed before a failure, what is left is safe |
| `MarkAndSweep.RemoveManifests` | registry/storage/vacuum.go:165-197 | the links left are those that deleting in batches of a hundred leaves, which stops at the first batch that fails |
| `MarkAndSweep.Collect` | registry/storage/garbagecollect.go:85-405 | a failed mark phase or a dry run changes nothing; success gives the swept storage and the right estimate; a broken-off sweep leaves a safe storage |
| `ParallelMarking.StepKeepsInvariant` | registry/storage/garbagecollect.go:102-325 | each step of any goroutine in either phase of any repository keeps marks and marks still owed together the same |
| `ParallelMarking.ParallelMarksAgree` | registry/storage/garbagecollect.go:102-325 | under every schedule of all repositories and both phases, when all are over the marks and deletions are those of the sequential stage; a walk is aborted only if that fails |
| `ParallelMarking.SomeStepPossible` | registry/storage/garbagecollect.go:201-322 | until then some step is always possible |
| `ParallelMarking.MoveIsNearer` | registry/storage/garbagecollect.go:102-325 | every step brings its repository nearer to the end, by phase, manifests to read and references to add |
| `ParallelMarking.MarkingEnds` | registry/storage/garbagecollect.go:102-325 | hence every schedule that does not idle ends, with all repositories over or one aborted |
| `Vacuum.RevisionLinkIsPath` | registry/storage/vacuum.go:109-117 | the hand-made revision link is the path of that link, for valid names and digests |
| `Vacuum.TagLinkIsPath` | registry/storage/vacuum.go:118-123 | the same for tag index links |
| `Vacuum.OnlyLinksGo` | registry/storage/vacuum.go:96-150 | the deleted paths of any stored object are those of the manifests' revision links and their tags' index links, and of nothing else |
| `Batches.BatchesLeave` | registry/storage/vacuum.go:96-197 | for every list, batch size and set of failing files: exactly the links of manifests in readable batches are deleted, the run fails exactly when the driver fails on one of them, and then nothing else is deleted |
| `Batches.BatchesAreOneCall` | registry/storage/vacuum.go:165-197 | with readable digests, batches of any size do what one call on the whole list would |
| `Batches.LinkStaysIff` | registry/storage/vacuum.go:96-107 | a link is left by a run that reports success if and only if every manifest with that link is in a batch with an unreadable digest |
| `Batches.UnreadableBatchesAreSkipped` | registry/storage/vacuum.go:96-107 | a list of digests without colons is reported deleted and nothing is |
| `Batches.MixedBatchIsSkipped` | registry/storage/vacuum.go:96-107 | so is a readable manifest beside an unreadable one, which alone would be deleted |
| `Batches.CollectLinks` | registry/storage/vacuum.go:109-126 | the nested loops collect exactly the links of the batch |
| `Batches.RemoveManifestsBatch` | registry/storage/vacuum.go:96-150 | a batch deletes its links, or nothing after a recovered panic |
| `Batches.RemoveInBatches` | registry/storage/vacuum.go:165-197 | the loop leaves the files and the result that going batch by batch prescribes, for any size |
| `Vacuum.RemoveManifests` | registry/storage/vacuum.go:165-197 | the same with batches of a hundred |
| `Vacuum.RemoveBlobs` | registry/storage/vacuum.go:60-94 | one bad digest refuses the call before anything is deleted; otherwise exactly the data files go |
| `SweepPaths.FilesFollowLinks` | registry/storage/vacuum.go:109-123 | deleting by hand-made path leaves exactly the files of the links that deleting by name leaves, whatever the list, the batch size and the failures |
| `SweepPaths.VacuumUnlinks` | registry/storage/garbagecollect.go:383-387 | given the collected list, the vacuum leaves exactly the link files of the swept storage |
| `CachedTags.Lookup` | registry/storage/tagstore.go:170-205 | the uncached lookup finds exactly the tags whose link names the digest, or fails at a broken link |
| `CachedTags.CachedTagStore.Prime` | registry/storage/cachedtagstore.go:39-73 | fills the cache once up to the first broken link, and reports the failure only then |
| `CachedTags.CachedTagStore.CachedLookup` | registry/storage/cachedtagstore.go:95-109 | the answer of the first call and of later ones |
| `CachedTags.CacheAgrees` | registry/storage/cachedtagstore.go:15-109 | when the first and the later answers are those of the uncached lookup, if and only if |
| `DigestSet.Search` | digestset/set.go:69-139 | binary search finds the one point where an entry belongs |
| `DigestSet.AnswerUnqualified` | digestset/set.go:69-108 | without an algorithm the answer is the sole member with that prefix, not found for none, ambiguous for two or more |
| `DigestSet.AnswerExact` | digestset/set.go:69-108 | a whole digest is found exactly when it is a member |
| `DigestSet.AnswerQualified` | digestset/set.go:49-108 | a qualified short text is answered rightly if and only if its first two candidates sort before all rivals of other algorithms |
| `DigestSet.QualifiedMisses` | digestset/set.go:49-108 | two members of which the one of another algorithm hides the only candidate |
| `DigestSet.OneAlgorithmUnshadowed` | digestset/set.go:49-108 | in a set of one algorithm that is always so |
| `DigestSet.ScanMatches` | digestset/set.go:199-213 | the inner scan stops at the end of the block of entries with the prefix and moves the reset index there |
| `DigestSet.ExtendCode` | digestset/set.go:196-219 | lengthening ends at the least length at which the entry is used up or differs from the next, with the code of that length, and keeps the reset index meaningful |
| `DigestSet.CodeResolves` | digestset/set.go:188-224 | a code leads back to its digest if and only if it is not the whole hex text of a member |
| `DigestSet.LeadsBackIff` | digestset/set.go:188-224 | that is, if and only if it is not the whole hex text of the entry before |
| `DigestSet.CodeLeadsAstray` | digestset/set.go:188-224 | two members of which one gets the hex text of the other as its code |
| `DigestSet.CodesDiffer` | digestset/set.go:188-224 | codes of different members differ |
| `DigestSet.BuildTable` | digestset/set.go:188-224 | the table loop, with the length carried over and reset, gives each entry the code of exactly its computed length and holds nothing else |
| `ShortCodes.CodeLengthIsGreatest` | digestset/set.go:188-224 | that length is the greatest that a pair of neighbours met so far in the group required |
| `ShortCodes.ShortestIff` | digestset/set.go:182-224 | a code is as short as possible if and only if no earlier pair of its group lies closer together than it does to its neighbours, or these require all of its digits |
| `ShortCodes.CarriedTooFar` | digestset/set.go:182-224 | three texts of which the third gets a longer code than it needs |
| `DigestSet.PrefixFreeResolves` | digestset/set.go:188-224 | if no member's hex text begins another's, every code leads back |
| `DigestSet.OneAlgorithmPrefixFree` | digestset/set.go:188-224 | which is so in every set of one algorithm |
| `DigestSet.Set.Add` | digestset/set.go:113-139 | keeps the array strictly sorted and inserts exactly the valid digest |
| `DigestSet.Set.Remove` | digestset/set.go:144-169 | keeps it sorted and removes exactly the digest |
| `DigestSet.Set.Lookup` | digestset/set.go:69-108 | the three cases together, for every text |
| `DigestSet.Set.ShortCodeTable` | digestset/set.go:188-224 | distinct codes of the computed lengths for exactly the members, all leading back in a prefix-free set |
| `EventQueue.StepKeepsInvariant` | notifications/sinks.go:137-211 | each critical section of writers, closers and runner keeps order, counters and wake-ups right |
| `EventQueue.QueueSafety` | notifications/sinks.go:137-211 | in every interleaving, accepted is delivered, in flight and queued in that order; the pending counter is accepted minus egressed; the runner never sleeps over work or a close |
| `EventQueue.CloseSafety` | notifications/sinks.go:155-188 | the sink is closed at most once, after everything accepted was handed over and counted out |
| `EventQueue.ClosingAdvances` | notifications/sinks.go:172-211 | after a close every step of runner or closer brings the end one step nearer |
| `EventQueue.CloseReachesSink` | notifications/sinks.go:155-211 | after a close, under any schedule, nobody is stuck and the sink is closed after exactly the remaining number of steps, unless a nil block was accepted |
| `EventQueue.NilBlocksClose` | notifications/sinks.go:172-188 | after a nil block the sink is never closed |
| `RetryingSink.StepKeepsInvariant` | notifications/sinks.go:311-392 | each step keeps the failure count, the spacing of failures and the lock right |
| `RetryingSink.FailuresAreSpaced` | notifications/sinks.go:382-392 | the k-th failure in a row comes more than (k - t) back-offs after the t-th, for any number of callers |
| `RetryingSink.AcknowledgedOnce` | notifications/sinks.go:311-363 | a call that returns nil had exactly one acknowledged attempt, its last; other calls had none |
| `RetryingSink.SingleFlight` | notifications/sinks.go:311-338 | at most one call is inside the wrapped sink |
| `IgnoredSink.Write` | notifications/sinks.go:245-266 | the two filtering loops forward exactly the events with neither an ignored media type nor an ignored action, in order, and nothing at all if none is left |
| `Importer.EnsureGrows` | registry/datastore/importer.go:107-349 | importing a manifest only adds rows, succeeds exactly when the manifest is there afterwards, and always when it can be created |
| `Importer.EnsureAgain` | registry/datastore/importer.go:413-446 | looking for the same manifest again in any later database finds it, or fails as before without effect |
| `Importer.PreImportAgain` | registry/datastore/importer.go:490-571 | repeating a pre-import changes nothing |
| `Importer.ImportSplits` | registry/datastore/importer.go:391-456 | importing tags is pre-importing followed by writing the tags whose manifests are there in the end |
| `Importer.PreImportThenImport` | registry/datastore/importer.go:747-873 | pre-import and import give the tables of import alone, if and only if tags can be listed or the repository exists |
| `Importer.ImportTwice` | registry/datastore/importer.go:747-794 | a second import changes nothing |
| `ImportClosure.ImportsKeepClosed` | registry/datastore/importer.go:123-336 | configurations and layers of manifests are recorded blobs linked to the repository, list entries and tags lead to recorded manifests, after import and pre-import |
| `ImportClosure.ImportIsComplete` | registry/datastore/importer.go:143-336 | every manifest added has its configuration, all its storable layers and all creatable images it lists; every tag with a creatable target points to it |
| `ImportSession.Session.ImportAllLayers` | registry/datastore/importer.go:143-167 | the loop with its skipped failures computes the value model |
| `ImportSession.Session.ImportV2Manifest` | registry/datastore/importer.go:219-274 | refines the value model, including what a failure leaves behind |
| `ImportSession.Session.ImportManifestList` | registry/datastore/importer.go:276-336 | refines the value model |
| `ImportSession.Session.ImportAllTags` | registry/datastore/importer.go:391-456 | refines the value model |
| `ImportSession.Session.PreImportTaggedManifests` | registry/datastore/importer.go:490-524 | refines the value model and writes no tag |
| `ImportSession.Session.ImportRepository` | registry/datastore/importer.go:747-794 | one transaction: all of the import, or the database as it was |
| `ImportSession.Session.PreImportRepository` | registry/datastore/importer.go:800-873 | refines the value model, with the repository row that stays after a failure |
| `RepositoryTree.RepositoryParentPaths` | registry/datastore/repository.go:777-793 | the parents' paths are the proper segment prefixes in order |
| `RepositoryTree.InsertKeepsTree` | registry/datastore/repository.go:743-775 | a row below its parent keeps every row below the row of its path without the last segment |
| `RepositoryTree.PrefixClosed` | registry/datastore/repository.go:804-833 | all segment prefixes of a repository are repositories |
| `RepositoryTree.ParentIsPrefix` | registry/datastore/repository.go:804-886 | a parent link leads to that row and no other, in the same namespace, so links lead to ever shorter paths |
| `RepositoryTree.Store.CreateOrFind` | registry/datastore/repository.go:743-775 | inserts a row or returns the one there, with the namespace given or else that of the first segment |
| `RepositoryTree.Store.CreateOrFindParentByPath` | registry/datastore/repository.go:804-833 | the loop adds exactly the missing levels, in a tree, and returns the immediate parent; a failure leaves a tree |
| `RepositoryTree.Store.CreateOrFindByPath` | registry/datastore/repository.go:864-886 | adds exactly the missing levels and returns the repository; old rows stay |
| `RepositoryTree.Store.CreateByPath` | registry/datastore/repository.go:838-860 | as above, but an existing leaf is an error and then nothing is created |
| `RepositoryTree.Store.FindAncestorsOf` | registry/datastore/repository.go:308-349 | the recursive query ends and returns exactly the proper segment prefixes, nearest first |
| `RepositoryTree.Store.FindDescendantsOf` | registry/datastore/repository.go:264-305 | the recursive query ends and returns exactly the repositories whose path extends it, each once |
| `ForwardedHeader.RunSuffix` | registry/api/v2/headerparser.go:29-161 | what is left unparsed is a suffix of the input, on success and on error |
| `ForwardedHeader.ParseForwardedHeader` | registry/api/v2/headerparser.go:29-161 | the loop ends on every input with the outcome of the state machine |
| `ForwardedHeader.ParseRendered` | registry/api/v2/headerparser.go:29-161 | every text of the grammar parses to its meaning |
| `ForwardedHeader.DeriveText` | registry/api/v2/headerparser.go:29-161 | every text that parses is a text of the grammar |
| `ForwardedHeader.ParseExactly` | registry/api/v2/headerparser.go:29-161 | hence a text parses if and only if the grammar derives it, and to the meaning of each derivation |
| `ForwardedHeader.RefusedIffTokenRepeats` | registry/api/v2/headerparser.go:98-129 | a list of well-formed pairs is refused if and only if an unquoted value repeats a parameter, and then for that reason |
| `ForwardedHeader.RepeatedQuotedReplaces` | registry/api/v2/headerparser.go:117-129 | a quoted value replaces that of the same parameter before it |
| `ForwardedHeader.RepeatedTokenRefused` | registry/api/v2/headerparser.go:99-115 | an unquoted one is refused |
| `ForwardedHeader.RepeatedExample` | registry/api/v2/headerparser.go:29-161 | texts in which a repetition goes unnoticed |
| `ForwardedHeader.RoundTrip` | registry/api/v2/headerparser.go:29-161 | distinct token keys with arbitrary quoted and escaped values parse back, keys lower-cased, and the remainder is the text after the comma |
| `PathOrder.CompareReplaceInline` | registry/storage/catalog.go:95-133 | the loop compares as if the one byte were replaced by the other in both texts |
| `PathOrder.ComparePaths` | registry/storage/catalog.go:88-91 | the comparison decides that order |
| `PathOrder.LessPathComponentwise` | registry/storage/catalog.go:88-91 | on NUL-free paths the order is that of the lists of components |
| `PathOrder.LessPathTransitive` | registry/storage/catalog.go:88-91 | the order is transitive |
| `PathOrder.UnorderedIffSameButNul` | registry/storage/catalog.go:88-91 | two paths are unordered if and only if they differ only where one has a separator and the other a NUL |
| `PathOrder.LessPathTotal` | registry/storage/catalog.go:88-91 | of two different NUL-free paths exactly one comes first |
| `PathOrder.NulPathsUnordered` | registry/storage/catalog.go:88-91 | two different paths with a NUL that are not ordered |
| `Paths.PathIsParts` | registry/storage/paths.go:106-259 | every valid object lies at the absolute path of its components, after all joining and cleaning |
| `Paths.LocateInvertsPathFor` | registry/storage/paths.go:106-259 | an independent reader of paths gives back every valid object |
| `Paths.PathsAreDistinct` | registry/storage/paths.go:106-259 | different objects have different paths |
| `BlobPaths.DigestOfBlob` | registry/storage/paths.go:480-496 | reading the digest back inverts the path of every blob's data and directory |
| `BlobPaths.DigestOfRevision` | registry/storage/paths.go:480-496 | and of every revision directory |
| `Pagination.MoreIffRemain` | registry/handlers/catalog.go:39-61 | more entries are announced exactly when more remain, and then the page is full |
| `Pagination.FollowVisitsAll` | registry/datastore/repository.go:231-261 | following the markers visits every entry after the start marker exactly once in increasing order, for every page size |
| `Pagination.RequestsNeeded` | registry/handlers/catalog.go:39-61 | in the least number of requests whose pages hold all entries, and one if there are none |
| `Pagination.DbGetCatalog` | registry/handlers/catalog.go:39-61 | returns a page of the repositories that have a manifest |
| `Pagination.GetCatalog` | registry/handlers/catalog.go:63-101 | the page for the requested size, a hundred by default, and the next marker exactly when there is more |
| `Pagination.ListCatalog` | registry/handlers/catalog.go:63-101 | a client that follows every link sees the whole catalog in order |
| `Pagination.GetTags` | registry/handlers/tags.go:41-130 | the same page for tags, or an error exactly for an unknown repository |
| `Pagination.ListTags` | registry/handlers/tags.go:41-130 | a client that follows every link of a tag list sees exactly the repository's tags after its marker, in order, or the error for an unknown repository |
| `HttpReader.RangeMatches` | registry/client/transport/http_reader.go:13 | every well-formed Content-Range header matches the pattern, with an empty total for a star |
| `HttpReader.RangesHaveTotals` | registry/client/transport/http_reader.go:202-234 | whatever header is sent, an accepted range has a known size: the branch for a star is never taken |
| `HttpReader.StarIsRefused` | registry/client/transport/http_reader.go:191-234 | an honest answer with the rest of the content is accepted if and only if it names the total |
| `HttpReader.StarExample` | registry/client/transport/http_reader.go:191-234 | one such answer that is refused |
| `HttpReader.AcceptedBody` | registry/client/transport/http_reader.go:162-250 | whatever an honest server sends, an accepted body is the content from the requested offset to the end |
| `HttpReader.HttpReadSeeker.Reader` | registry/client/transport/http_reader.go:162-250 | connects at the reader offset or changes nothing |
| `HttpReader.HttpReadSeeker.Read` | registry/client/transport/http_reader.go:63-90 | after any seeks and failures, bytes are those of the content at the logical offset, end of file, alone or with the last bytes, only at its end, and no failure with a server that answers in full |
| `HttpReader.HttpReadSeeker.Seek` | registry/client/transport/http_reader.go:92-133 | moves the logical offset as asked or not at all, and keeps an open connection |
| `HttpReader.HttpReadSeeker.Replay` | registry/client/transport/http_reader.go:63-250 | in any sequence of reads and seeks, against a server that may answer differently each time, every reply is that of reading the content at the logical offset |
| `FileReader.FileReader.Read` | registry/storage/filereader.go:53-72 | through buffer, reopening, missing files and a driver that fails with or after bytes, bytes are those of the content at the offset, and an error has a failure of the driver behind it |
| `FileReader.FileReader.Reader` | registry/storage/filereader.go:111-144 | opening drops stale buffered bytes; a missing file is not remembered |
| `FileReader.FileReader.Seek` | registry/storage/filereader.go:74-103 | the offset moves exactly as asked, and an unchanged offset keeps file and buffer |
| `FileReader.FileReader.Replay` | registry/storage/filereader.go:53-158 | the same for any sequence of reads and seeks while the file comes and goes |
| `LimitedReader.Reader.Read` | registry/storage/io.go:45-71 | delivers the stream up to the limit and tells reaching it from passing it |
| `LimitedReader.ReadAllLimited` | registry/storage/io.go:25-28 | the whole content if and only if it fits the limit, for any chunking and any buffer sizes |

## Left out

- Online garbage collection, its triggers and the database schema: only SQL wrappers are in the repository.
- The storage drivers: a driver is a map of files whose calls may fail, and `FileWriter.Size` is exact.
- Several writers on one upload at once, and reusing an upload id: one live writer per upload is assumed.
- The walk of the storage driver that enumerates repositories and tags, and the file system catalog built on it.
- `Broadcaster`, endpoints, HTTP sinks and the other counters of the metrics listener.
- HTTP dispatch, authentication, configuration, JSON and schema 1 manifests: plumbing or foreign libraries.
- Blob mounting, blob serving and the statters: mounting is the linking step of a commit, and the others pass one driver call on.
- BlobWriter.ListOffsets: does not model stray files among the saved states; the code takes an unreadable name for offset zero, which it never looks for.
- UploadRuns.BlobsStayAddressed: does not model writing through a writer whose data a failed commit or cancellation took away, or any use after a successful commit; the handlers only cancel the former.
- Updating and deleting repositories: they may rewrite paths at will.
- Dangling manifests and blobs, dry runs, the empty-database check and blob transfer of the importer: default options are modelled, and database calls that fail for reasons of their own are not.
- Malformed repository names given to the importer: both imports refuse them before anything happens.
- The length limit of repository names: the database may refuse any insertion in the model of the tree.
- 64-bit widths: offsets, sizes, counters and times are unbounded.
- Unicode case mapping and malformed UTF-8 in headers: strings are code points, and lower-casing is ASCII.
- The collation of the database: names are ordered by bytes.
- The digest library is not part of the repository; digests are validated as its version 1.0.0 does.
- Context cancellation, logging, metrics export and wall-clock time, which the retrying sink takes as a clock that never goes back.
