# A model of the registry's storage core

This project models the parts of the registry where bytes, links and listings can go wrong, and proves what
holds of them over every input, every run or every interleaving. `dafny verify dfyconfig.toml` covers all of it.

- **Uploads** (`Upload`, `BlobRuns`, `BlobWriters`, `FileWriters`, `UploadRoundTrip`). A blob is written in pieces to an append-only
  file and to an incremental hasher, whose state is saved under an offset and loaded again by the next writer.
  The main results: whenever the digest counts as resumed, the hasher holds exactly the file; the three routes by
  which a commit checks the client's digest decide as a full re-read would; the blob store stays content-addressed
  over all interleavings of uploads, interrupted commits, cancels, purges, puts and collections; and what is sent in
  any number of pieces is what is stored.
- **Collection** (`Stores`, `Manifests`, `Mark`, `Collect`, `Sweep`, `Collections`, `Integrity`, `RegistryRuns`).
  Manifests are accepted, layers committed and mounted, tags set and removed, and mark-and-sweep collections take
  place in between. The main results: what marking reaches, what a collection leaves, that it never takes what a tag
  points at, exactly which collections keep referential integrity and where they may stop, integrity over whole runs,
  and that a tag's current revision stays in its index. `SharedImage` and `ChildFirst` are runs that end without integrity.
- **Listing** (`PathOrder`, `Walk`, `FlatWalk`, `Walker`, `TagList`). For any callback the recursive walk is one pass
  over the nodes of the tree, the walk that starts after a hint is a suffix of the plain walk, and following the pages
  of a tag list gives every tag once.
- **Appending to a remote blob** (`AzureAppend`): exactly once, whatever the timeouts left behind, and the exact reasons
  to give up.
- **Concurrency** (`EventQueue`, `Regulator`): conservation, delivery and admission over all interleavings.
- **Readers, parsers and layout** (`HttpReader`, `Forwarded`, `Challenge`, `Paths`). Each parser accepts exactly the
  texts of a grammar that is written as a printer.

Code that updates state in place is a class whose methods are proved against functions on values; the results
over whole runs are lemmas about those functions. Hash functions, the decoding of manifests, the order of
listings, the clock-driven parts and all storage, network and flush failures are parameters, arguments or
arbitrary choices of an environment class, so the statements hold for all of them. Automatic induction is off: every
induction is written out.

## Where the code does not do what it says

Each of these is stated with the condition under which the promise does hold.

- A callback that reports a filled buffer stops the walk of one directory, not a walk that started after a hint
  (registry/storage/driver/walk.go:26-30 says the walk stops): `Walk.FilledDoesNotStop`.
- A hint whose first component below the root of the walk begins with two dots counts as outside and nothing is
  visited (`Walk.DotDotHintVisitsNothing`); a file at the hint or above it is an error (`Walk.FileAboveHintFails`).
- A tag list that continues after some tag answers "end of the list" for a repository without tags, where the
  first page answers "repository unknown" (`TagList.ProperAnswer`).
- A commit that stops between moving the file and cleaning up leaves hash states beside a missing file, and nothing
  stops a client from resuming that upload. Content addressing holds in every run whose resumes find states that
  fit the file (`BlobRuns.RunsAreContentAddressed`), and for a hash without collisions every resume that does not
  can be continued to a wrong digest (`BlobRuns.UnfitResumeBreaks`).
- Closing a writer saves the hash state before the file is flushed. If the flush loses bytes, the state fits what
  is left if and only if it lies below it, or at its end with the same bytes; for a writer whose digest was resumed,
  only if nothing is lost (`Upload.LosingCloseIsUnsound`). A crash, which saves no state, is always sound.
- Which layer links a collection deletes depends on the order of the repositories. A link goes if and only if no
  manifest of its repository or an earlier one keeps the layer alive (`Collections.LayerLinksExactly`), and its fate
  is the same in every order if and only if its own repository keeps the layer alive or none does
  (`Collections.OrderDecidesLayerLinks`); blobs and revisions do not depend on the order.
- Removing untagged manifests does not always keep referential integrity. In one repository it does if and only if the
  repository has a tags directory or no manifest (`Integrity.OneRepositoryKeepsExactly`). With several, an image that
  two repositories link and only the later one tags stays in the first and loses its layer link there
  (`SharedImage.SharedImageBreaks`). The exact conditions are on the marks (`Integrity.CollectionKeepsExactly`) and,
  when no repository's tags lead to a manifest that only others link, on what the tags of each repository reach
  (`Integrity.UntaggedKeepsExactly`).
- Such a collection that stops half-way can leave an untagged index without an image that its check demanded
  (`ChildFirst.ChildFirstRunBreaks`). It keeps integrity wherever it stops if and only if the completed collection does
  and no such index is listed after the image (`Integrity.StoppedCollectionKeepsExactly`).
- The check of an index with configured platforms dereferences the platform of a child that has none
  (`Manifests.VerifyIndex`). For a child manifest inside an image manifest the answer of the manifest service is
  overwritten by the layer lookup (`Manifests.CheckImageRef`).
- In a Forwarded element a repeated parameter is refused unless it is quoted, and then it replaces the first
  (`Forwarded.ForwardedRoundTrip`). A challenge ends at its first empty value (`Challenge.AllComeBack`).
- The HTTP reader takes a response without content (204, 205 and the 3xx class) for the content. Its answers are those
  of a positioned reader if and only if no read reports the end of such a response as the end of content that is not
  empty (`HttpReader.HttpReadSeeker.Run`).

## Model

| member | source | states |
|---|---|---|
| `Upload.ResumeKeepsSound` | registry/storage/blobwriter_resumable.go:19-72 | resuming keeps the upload invariant, and when it reports readiness the hasher has absorbed exactly the file |
| `Upload.WriteKeepsSound` | registry/storage/blobwriter.go:113-130 | the invariant survives a write that is complete, partial or refused |
| `Upload.ReadFromKeepsSound` | registry/storage/blobwriter.go:132-148 | the same for a stream copy that stops anywhere |
| `Upload.StepKeepsSound` | registry/storage/blobwriter.go:58-160 | every step of an upload's life keeps the fit of states and file, and every byte that a crash cannot take |
| `Upload.RunKeepsSound` | registry/storage/linkedblobstore.go:128-210 | the same over every run of create, resume, write, copy, close, commit, check and crash, where a crash takes any part of what a writer that neither closed nor committed has appended |
| `Upload.StepsTakeEffect` | registry/storage/blobwriter.go:58-160 | what each step of a life does to the file, its states and the writer |
| `Upload.CrashTakesAnyTail` | registry/storage/driver/filesystem/driver.go:394-431 | a crash of an open writer can leave any part of the file from where the writer was opened, and one of a closed writer takes nothing |
| `Upload.CrashKeepsSound` | registry/storage/driver/filesystem/driver.go:394-431 | whatever a crash takes of the bytes still buffered, the saved states fit what is left |
| `Upload.ResumedHasherHoldsFile` | registry/storage/blobwriter_resumable.go:19-72 | after any run, a nil result of the resume means the hasher holds exactly the file |
| `Upload.StaleStateNeverMatches` | registry/storage/blobwriter_resumable.go:116-142 | a state saved below what is durable is never at the file's size again, crashes included |
| `Upload.OperationsAppend` | registry/storage/blobwriter.go:113-148 | a write or copy appends a prefix of the bytes, succeeds exactly when it takes all, and keeps a resumed hasher at the file |
| `Upload.OpenStartsAtTheEnd` | registry/storage/linkedblobstore.go:304-323 | a new writer is open at the end of the file, which is kept, and hashes from nothing |
| `Upload.ResumeOutcomes` | registry/storage/blobwriter_resumable.go:19-72 | exactly when a resume is ready, not available or failed, and what the hasher then holds |
| `Upload.HasherAbsorbs` | registry/storage/blobwriter.go:113-148 | exactly when a write and a copy succeed, and that the hasher absorbs all of a complete write, none of another, and what the file took of a copy |
| `Upload.CloseOutcome` | registry/storage/blobwriter.go:150-160 | exactly when a close succeeds, and that it saves the state under the written count and nothing else |
| `Upload.CommitFileOutcome` | registry/storage/blobwriter.go:58-72 | committing the file works exactly on an open one and leaves its bytes alone |
| `Upload.CancelOutcome` | registry/storage/blobwriter.go:96-107 | a cancel takes the data file, and the hash states with the directory; exactly when it succeeds |
| `Upload.ValidateOutcome` | registry/storage/blobwriter.go:164-289 | exactly when the check gives a storage error instead of a verdict |
| `Upload.CloseThenResume` | registry/storage/blobwriter.go:150-160 | a close followed by a resume brings the hasher back to the file |
| `Upload.ValidateRefinesRehash` | registry/storage/blobwriter.go:164-289 | over every reachable writer the three routes answer as a re-read of the file would: match under the client's algorithm, canonical digest and true size |
| `Upload.LosingCloseIsUnsound` | registry/storage/blobwriter.go:150-160 | for every open writer, the exact condition under which a close whose flush keeps only part of the file leaves fitting states |
| `Upload.ShrinkingBreaksResume` | registry/storage/blobwriter_resumable.go:19-72 | an ordinary run after which a file that shrank would be matched by a state of other bytes |
| `BlobRuns.MoveKeeps` | registry/storage/blobwriter.go:294-346 | the move keeps the store content-addressed in its already-present, empty and ordinary branches |
| `BlobRuns.IoKeepsSlot` | registry/storage/blobwriter.go:113-160 | writer operations keep an upload's part of the store invariant, also once its file was moved or deleted |
| `BlobRuns.FlushedFileStays` | registry/storage/blobwriter.go:58-92 | once the file writer has committed, no operation changes the data file |
| `BlobRuns.CheckKeepsSlot` | registry/storage/blobwriter.go:164-289 | an accepted check fixes the canonical digest of the file |
| `BlobRuns.ResumeKeepsSlot` | registry/storage/linkedblobstore.go:175-210 | opening a writer on a file that its states fit keeps the invariant |
| `BlobRuns.LosingKeepsSlot` | registry/storage/blobwriter.go:150-160 | a close whose flush loses any of the bytes since the writer was opened keeps the invariant, although the saved state may no longer fit |
| `BlobRuns.CancelKeepsSlot` | registry/storage/blobwriter.go:96-107 | a cancel keeps the invariant although it saves a hash state after the file is gone |
| `BlobRuns.MoveKeepsInv` | registry/storage/blobwriter.go:294-346 | the move step keeps the invariant of the whole system |
| `BlobRuns.StepKeepsInv` | registry/storage/purgeuploads.go:29-56 | every step of any upload, put, purge or collection keeps the invariant |
| `BlobRuns.RunsAreContentAddressed` | registry/storage/blobwriter.go:58-92 | in every run whose resumes find hash states that fit the file, closes that lose bytes included, the bytes under a digest hash to it |
| `BlobRuns.PutAddsItsContent` | registry/storage/blobstore.go:63-89 | a put adds its content under its digest unless there is one, and keeps every other blob as it is |
| `BlobRuns.MoveAddsTheFile` | registry/storage/blobwriter.go:294-346 | a completed move adds the file under the digest unless there is a blob, a failed one changes nothing, and every other blob stays as it is |
| `BlobRuns.MoveCompletes` | registry/storage/blobwriter.go:294-346 | the exact condition of a completed move |
| `BlobRuns.StepKeepsBlobs` | registry/storage/vacuum.go:32-51 | only a collection takes blobs away, exactly those it does not keep, and no step changes the bytes of one |
| `BlobRuns.RunsKeepBlobs` | registry/storage/vacuum.go:32-51 | a blob that every collection of a run keeps is there at the end with the same bytes |
| `BlobRuns.OthersStay` | registry/storage/linkedblobstore.go:128-210 | no step touches an upload but its own |
| `BlobRuns.DirectoriesComeAndGo` | registry/storage/purgeuploads.go:29-56 | a purge, a finished commit and a cancel leave nothing of an upload; a resume needs the start marker |
| `BlobRuns.LosingCloseLeavesAnyPart` | registry/storage/blobwriter.go:150-160 | a close that loses bytes can leave any part of the file from where the writer was opened |
| `BlobRuns.IntactIsSafe` | registry/storage/linkedblobstore.go:175-210 | an upload whose file was never moved, deleted or cut short by a close always has states that fit |
| `BlobRuns.InterruptedCommitLeavesState` | registry/storage/blobwriter.go:351-377 | a commit that stops after its move leaves the hash states and the start marker |
| `BlobRuns.SomeRunBreaks` | registry/storage/blobwriter.go:58-92 | so, unless the hash has collisions, some run from the empty store ends without content addressing |
| `BlobRuns.SecondWriter` | registry/storage/blobwriter_resumable.go:19-72 | a writer loads the state saved at the file's size, whatever bytes it holds |
| `BlobRuns.CommitByHasher` | registry/storage/blobwriter.go:164-289 | a commit by the resumed hash files the data under the digest of what the hasher holds |
| `BlobRuns.OverwriterBreaks` | registry/storage/blobwriter.go:164-289 | a writer on a file with a state of other bytes files the file under their digest |
| `BlobRuns.UnfitStateBreaks` | registry/storage/blobwriter_resumable.go:19-72 | from a state at or beyond the end of its file, the run that files other bytes under the state's digest |
| `BlobRuns.UnfitResumeBreaks` | registry/storage/linkedblobstore.go:175-210 | the guard is exact: without it every such upload, resumed, can break the store, for any hash without collisions |
| `BlobWriters.CommitStoresTheFile` | registry/storage/blobwriter.go:58-92 | a completed commit means that the file matches the client's digest and is stored under its canonical digest with its true size; without faults it completes if and only if the file matches |
| `BlobWriters.CommitStages` | registry/storage/blobwriter.go:58-92 | at which stage a commit stops and what it has done to writer, directory and store by then |
| `BlobWriters.FinishStores` | registry/storage/blobwriter.go:74-92 | a checked file reaches the store and no blob is lost or changed |
| `BlobWriters.UploadDirectory.ListStates` | registry/storage/blobwriter_resumable.go:80-114 | the listing holds exactly the saved offsets, in some order |
| `BlobWriters.LinkedBlobStore.LinkBlob` | registry/storage/linkedblobstore.go:327-354 | the canonical digest and each alias are linked to the canonical one, each link written once, and exactly a prefix of them when storage fails |
| `BlobWriters.LinkedBlobStore.Put` | registry/storage/linkedblobstore.go:85-103 | small content is stored under its digest unless it is there, and linked; every other blob stays as it is, and exactly when it fails |
| `BlobWriters.BlobWriter.constructor` | registry/storage/linkedblobstore.go:304-323 | a new writer starts at the file's size with an empty hasher, for drivers that create the file and those that do not |
| `BlobWriters.BlobWriter.ResumeDigest` | registry/storage/blobwriter_resumable.go:19-72 | the loop over saved states computes the resume of the specification |
| `BlobWriters.BlobWriter.Write` | registry/storage/blobwriter.go:113-130 | the new state is the specified one; the count is all or nothing |
| `BlobWriters.BlobWriter.ReadFrom` | registry/storage/blobwriter.go:132-148 | copying chunk by chunk, file first, is the specified copy of the whole stream; the count is what the file took |
| `BlobWriters.BlobWriter.Close` | registry/storage/blobwriter.go:150-160 | the hash state is saved under the written count before the file is closed |
| `BlobWriters.BlobWriter.Cancel` | registry/storage/blobwriter.go:96-107 | the file goes, the writer closes, the directory goes unless that fails |
| `BlobWriters.BlobWriter.Reread` | registry/storage/blobwriter.go:246-262 | reading the file in pieces of any size gives the canonical digest and the verdict for the client's |
| `BlobWriters.BlobWriter.ValidateBlob` | registry/storage/blobwriter.go:164-289 | the check with its three routes is the specified one |
| `BlobWriters.BlobWriter.MoveBlob` | registry/storage/blobwriter.go:294-346 | the move of the specification, with every fault |
| `BlobWriters.BlobWriter.Commit` | registry/storage/blobwriter.go:58-92 | writer, directory and store after a commit that may fail at any stage; a completed one links both digests |
| `UploadRoundTrip.UploadStoresContent` | registry/storage/linkedblobstore.go:128-210 | what is sent in any number of pieces, with the writer closed and resumed in between, is stored under its canonical digest if and only if the client's digest matches, unless it is there; nothing else changes |
| `FileWriters.FileWriter.BufferedWrite` | registry/storage/driver/filesystem/driver.go:394-405 | file and buffer together grow by exactly the accepted prefix, and an error means the file was full |
| `FileWriters.FileWriter.Write` | registry/storage/driver/filesystem/driver.go:394-405 | what the upload sees of a write is the specified append to its session, with the same count; the size counts every accepted byte, flushed or not; nothing is accepted after close, commit or cancel |
| `FileWriters.FileWriter.Commit` | registry/storage/driver/filesystem/driver.go:444-463 | exactly when everything accepted reached the file does the commit succeed |
| `FileWriters.FileWriter.Close` | registry/storage/driver/filesystem/driver.go:411-431 | a successful close leaves the file as long as the size says; a failed flush leaves a cut of the session's file, not below where the writer was opened |
| `FileWriters.FileWriter.FileIsCut` | registry/storage/driver/filesystem/driver.go:376-431 | what a crash leaves is a cut of the session's file at some point from where the writer was opened, as the crash of the upload model has it |
| `FileWriters.FileWriter.Cancel` | registry/storage/driver/filesystem/driver.go:433-442 | cancel ends the writer's life, once, and removes the file unless that fails |
| `Manifests.CheckUrls` | registry/storage/schema2manifesthandler.go:94-118 | the error left by the loop over a layer's addresses: invalid exactly when one of them is |
| `Manifests.CheckImageRef` | registry/storage/schema2manifesthandler.go:90-137 | a reference passes if and only if it is well formed and the layer it needs is linked and stored, and which error it gives otherwise |
| `Manifests.VerifyImage` | registry/storage/ocimanifesthandler.go:65-143 | an image manifest passes if and only if every reference does, and the unknown blobs reported are exactly those of the failing references |
| `Manifests.PlatformMustExist` | registry/storage/manifestlisthandler.go:108-126 | the search says whether children of a platform must exist |
| `Manifests.VerifyIndex` | registry/storage/manifestlisthandler.go:76-105 | the same for an index, and exactly when the check crashes |
| `Manifests.Verify` | registry/storage/manifeststore.go:134-149 | a manifest of any kind is accepted if and only if its demands are met |
| `Manifests.AcceptedSchema2` | registry/storage/schema2manifesthandler.go:70-143 | in terms of links and blobs: a schema 2 image is accepted if and only if every reference but foreign layers is linked as a layer with its blob, and foreign layers have allowed addresses |
| `Manifests.AcceptedOci` | registry/storage/ocimanifesthandler.go:65-143 | the same for an OCI image, where only a non-distributable layer with addresses need not be there |
| `Manifests.AcceptedIndex` | registry/storage/manifestlisthandler.go:76-126 | the same for an index: the children of the configured platforms are linked as manifests with their blobs |
| `Mark.Marker.MarkManifestReferences` | registry/storage/garbagecollect.go:218-240 | the recursive search terminates on every reference graph, adds only what is reached outside the old marks, and closes what it adds; it fails only at a linked manifest that does not decode |
| `Mark.MarkedIsExact` | registry/storage/garbagecollect.go:218-240 | the marks after a search are the old ones and exactly what the root reaches outside them |
| `Mark.MarkedIsLeast` | registry/storage/garbagecollect.go:218-240 | from a marked root the result is the least superset of the marks closed under references |
| `Collect.RepoMarkedIsExact` | registry/storage/garbagecollect.go:69-112 | the scan of a repository adds exactly what its roots reach outside the old marks, so the marks do not depend on the order of manifests |
| `Collect.RootsAre` | registry/storage/garbagecollect.go:69-96 | the roots of a scan in terms of links, blobs and current tags |
| `Collect.Collector.Lookup` | registry/storage/tagstore.go:144-201 | exactly the tags whose current link is the digest |
| `Collect.Collector.ScanManifest` | registry/storage/garbagecollect.go:69-112 | one manifest is put aside, passed over, or marked with all it reaches |
| `Collect.Collector.ScanManifests` | registry/storage/garbagecollect.go:69-125 | the marks a repository adds, the candidates it puts aside, in the order of the listing, and that it fails if and only if it comes to a linked manifest that does not decode |
| `Collect.Collector.ScanLayers` | registry/storage/garbagecollect.go:126-139 | exactly the repository's unmarked layer links are condemned |
| `Collect.Collector.ScanRepository` | registry/storage/garbagecollect.go:44-139 | one repository as a whole: it is passed if and only if it has a layers directory and no manifest the scan comes to fails to decode |
| `Collect.Collector.MarkAll` | registry/storage/garbagecollect.go:41-142 | the mark phase over all repositories; it fails exactly at the first repository it cannot get through |
| `Collect.PassedIsNoFailure` | registry/storage/garbagecollect.go:41-142 | a mark phase that gets through could not have failed |
| `Collect.BlockedIsUnscannable` | registry/storage/garbagecollect.go:69-112 | with untagged manifests kept, what stops the scan does not depend on the marks |
| `Sweep.Plan` | registry/storage/garbagecollect.go:144-197 | the removals are exactly the candidates no later scan marked, the unmarked blobs and the dead layer links, each once, in these three passes and the manifests in the order of the listing |
| `Sweep.PlannedIsExecutable` | registry/storage/garbagecollect.go:144-197 | every planned removal finds its target and no two share one |
| `Sweep.StaysExecutable` | registry/storage/vacuum.go:32-136 | one removal does not take away the target of another |
| `Sweep.Registry.PutManifest` | registry/storage/schema2manifesthandler.go:41-68 | a manifest is stored and linked if and only if it passes its check |
| `Sweep.Registry.MountLayer` | registry/storage/linkedblobstore.go:274-301 | a layer is linked if and only if the source repository has it |
| `Sweep.Registry.PutTag` | registry/storage/tagstore.go:67-85 | the index comes before the current link, also when storage fails between the two |
| `Sweep.Registry.DeleteTag` | registry/storage/tagstore.go:111-121 | the tag's directory goes; an error if it has none |
| `Sweep.Registry.RemoveManifest` | registry/storage/vacuum.go:54-85 | the loop over tags deletes exactly the digest's index entries and its revision |
| `Sweep.Registry.RemoveBlob` | registry/storage/vacuum.go:32-51 | exactly one blob goes |
| `Sweep.Registry.RemoveLayer` | registry/storage/vacuum.go:124-136 | exactly one layer link goes |
| `Sweep.Registry.MarkAndSweep` | registry/storage/garbagecollect.go:34-200 | a failed mark phase and a dry run change nothing; otherwise the store is what a prefix of the planned removals leaves; the exact condition of a failed mark phase, for either setting |
| `Collections.ApplyEffect` | registry/storage/garbagecollect.go:144-197 | the effect of any sequence of removals, item by item, on blobs, links and tags |
| `Collections.ScanMarksLive` | registry/storage/garbagecollect.go:69-112 | with untagged manifests kept, a repository adds exactly its manifests and what they reference |
| `Collections.FinalMarksAreLive` | registry/storage/garbagecollect.go:41-142 | the final marks are what the registry keeps alive, in any order |
| `Collections.CollectionKeepsExactlyLive` | registry/storage/garbagecollect.go:34-200 | a completed collection leaves exactly the blobs that are a linked manifest or referenced by one, and no revision or tag changes |
| `Collections.LiveStaysLive` | registry/storage/garbagecollect.go:34-200 | what is alive before a collection is alive after it |
| `Collections.SecondCollectionIsIdle` | registry/storage/garbagecollect.go:34-200 | an immediate second collection finds no blob and no manifest, and in the same order of repositories nothing at all |
| `Collections.LayerLinksExactly` | registry/storage/garbagecollect.go:126-139 | a layer link goes if and only if no manifest of its repository or an earlier one keeps the layer alive |
| `Collections.OrderDecidesLayerLinks` | registry/storage/garbagecollect.go:126-139 | its fate is the same in every order of enumeration if and only if its own repository keeps the layer alive or none does |
| `Collections.FirstScanIsReachability` | registry/storage/garbagecollect.go:69-112 | from clean marks a scan marks exactly what the roots reach |
| `Collections.UntaggedCollectionIsExact` | registry/storage/garbagecollect.go:203-215 | in one repository with tags, exactly the manifests out of reach of every tagged one lose their revision, in any order, and exactly the reached blobs stay |
| `Collections.UntaggedCollectionWithoutTags` | registry/storage/garbagecollect.go:77-91 | without a tags directory no revision goes and every blob does |
| `Integrity.CollectionKeepsExactly` | registry/storage/garbagecollect.go:126-197 | a completed collection, of either kind, keeps integrity if and only if every manifest whose link stays is marked, with its demanded layers marked in time and its demanded children marked |
| `Integrity.TaggedSurvives` | registry/storage/garbagecollect.go:69-197 | no collection, of either kind and wherever it stops, takes a tag, the manifest it points at or a blob that this references |
| `Integrity.StoppedCollectionKeepsExactly` | registry/storage/garbagecollect.go:144-197 | it keeps integrity at every point where it may stop if and only if it does so when completed and no doomed manifest is listed after one it demands |
| `Integrity.KeepingIsHarmless` | registry/storage/garbagecollect.go:126-139 | a collection that keeps untagged manifests meets both conditions, although layer links are judged against growing marks |
| `Integrity.ChildFirstBreaks` | registry/storage/garbagecollect.go:147-155 | a child listed before its doomed parent is missed when the sweep stops between the two |
| `Integrity.MarksAreReach` | registry/storage/garbagecollect.go:41-142 | when references are local to repositories, the marks are plain reachability from the roots |
| `Integrity.UntaggedKeepsExactly` | registry/storage/garbagecollect.go:69-144 | then removing untagged manifests keeps integrity if and only if every linked manifest reached from anywhere has its layers reached from its own or an earlier repository, and every other is in a repository with tags |
| `Integrity.OwnReachSuffices` | registry/storage/garbagecollect.go:69-144 | in any order it suffices that every repository has tags and reaches what it links of what any reaches |
| `Integrity.ApartSuffices` | registry/storage/garbagecollect.go:69-144 | in particular, that every repository has tags and none reaches a manifest of another |
| `Integrity.OneRepositoryKeepsExactly` | registry/storage/garbagecollect.go:77-91 | in one repository it keeps integrity if and only if there is a tags directory or no manifest |
| `RegistryRuns.AcceptedIsKept` | registry/storage/schema2manifesthandler.go:41-68 | an accepted manifest has all its check demanded |
| `RegistryRuns.StepKeepsIntegral` | registry/storage/garbagecollect.go:34-200 | every step keeps referential integrity, a collection under the conditions above |
| `RegistryRuns.RunsKeepIntegrity` | registry/storage/schema2manifesthandler.go:70-143 | at every point of every run whose collections keep untagged manifests or meet the conditions above, every linked manifest has its blob and every layer link, child revision and blob its check demanded |
| `RegistryRuns.RunsKeepReferences` | registry/storage/ocimanifesthandler.go:65-143 | the same in terms of links and blobs, for every reference of every linked manifest by kind and media type |
| `RegistryRuns.SharedManifestLosesLayer` | registry/storage/garbagecollect.go:128-144 | a family of stores where a scan stops at a manifest that another repository only references |
| `SharedImage.SharedImageBreaks` | registry/storage/garbagecollect.go:128-144 | a run, for any settings, after which an image tagged only in the later of two repositories is linked in the first without its layer |
| `ChildFirst.ChildFirstRunBreaks` | registry/storage/garbagecollect.go:147-155 | a run, for settings that check the images of an index, whose last collection stops with an index left without its image |
| `RegistryRuns.ActionsAreLocal` | registry/storage/tagstore.go:67-121 | steps other than collections touch one repository, remove no blob and leave other tags alone |
| `RegistryRuns.ActionsTakeEffect` | registry/storage/linkedblobstore.go:274-301 | what accepting, committing, mounting and tagging add to blobs, links and indexes, and that nothing else is added |
| `RegistryRuns.StepKeepsTagsIndexed` | registry/storage/vacuum.go:54-85 | every step, interrupted tagging and sweeps included, keeps current revisions indexed |
| `RegistryRuns.RunsKeepTagsIndexed` | registry/storage/garbagecollect.go:70-92 | at every point of every run, with either setting for untagged manifests, a tag's current revision is among its index entries |
| `PathOrder.CompareReplaceInline` | registry/storage/catalog.go:105-140 | the index loop orders two strings as their copies with the character replaced |
| `PathOrder.LessPath` | registry/storage/catalog.go:98-101 | the path order |
| `PathOrder.RenderedOrder` | registry/storage/catalog.go:93-101 | on clean paths it is the order by components, a directory before what is in it |
| `Walk.PlainWalkVisitsAll` | registry/storage/driver/walk.go:82-125 | a callback that never skips sees every entry below the directory once, depth first |
| `Walk.WalkEndsRightly` | registry/storage/driver/walk.go:82-125 | the walk of a directory ends early exactly at the first callback that reports a filled buffer or an error |
| `FlatWalk.AllIsTheTree` | registry/storage/driver/walk.go:82-125 | the depth-first listing holds exactly the nodes of the tree below the directory |
| `FlatWalk.ListFinds` | registry/storage/driver/filesystem/driver.go:267-291 | listing gives entries exactly for a directory, and another error than a missing path exactly when a file is on the way |
| `FlatWalk.WalkIsOnePass` | registry/storage/driver/walk.go:82-125 | for every callback the recursive walk is one pass over that listing which leaves out what is under a skipped directory |
| `FlatWalk.ClimbIsPasses` | registry/storage/driver/walk.go:48-74 | for every callback the climb is such a pass for each level, over what is left there |
| `FlatWalk.WalkOutcome` | registry/storage/driver/walk.go:31-77 | what a walk visits and how it ends, for every callback and hint: a filled buffer is no error |
| `Walk.PlainWalkAscends` | registry/storage/driver/walk.go:82-125 | visits are strictly increasing by components |
| `Walk.HintedLevel` | registry/storage/driver/walk.go:89-93 | at the directory that holds the hint exactly the entries up to it are skipped |
| `Walk.ClimbGathers` | registry/storage/driver/walk.go:43-74 | the climb visits, level by level, what lies after the hint |
| `Walk.HintedWalkIsSuffix` | registry/storage/driver/walk.go:31-77 | a hinted walk visits exactly the part of the plain walk after the hint, whether or not the hint exists |
| `Walk.WalksFollowLessPath` | registry/storage/driver/walk.go:31-77 | in terms of path strings: the plain walk is increasing in path order and the hinted one is its suffix from the first path beyond the hint |
| `Walk.DotDotHintVisitsNothing` | registry/storage/driver/walk.go:38-46 | a hint that begins with two dots below the root visits nothing, which is right if and only if nothing comes after it |
| `Walk.DotDotHintExample` | registry/storage/driver/walk.go:38-46 | a tree in which something does |
| `Walk.FileAboveHintFails` | registry/storage/driver/walk.go:52-63 | a file at the hint or above it makes the walk fail before any visit |
| `Walk.ClimbIsIdle` | registry/storage/driver/walk.go:52-74 | the climb visits nothing if and only if no level has an entry after the hint, for any callback |
| `Walk.FilledDoesNotStop` | registry/storage/driver/walk.go:52-74 | a filled buffer ends a hinted walk if and only if no level above has an entry left |
| `Walk.FilledExample` | registry/storage/driver/walk.go:52-74 | trees in which the callback is called again after its buffer was filled |
| `Walker.SortStrings` | registry/storage/driver/walk.go:87 | sorted, and a permutation of the listing |
| `Walker.DoWalkFallback` | registry/storage/driver/walk.go:82-125 | the recursive walk on path strings over listings in any order is the specified walk |
| `Walker.RunWalkFallback` | registry/storage/driver/walk.go:31-47 | the choice between the walk after the hint, the plain walk and none, on path strings, is the specified walk |
| `Walker.ClimbFrom` | registry/storage/driver/walk.go:48-74 | the climbing loop on path strings is the specified climb, errors and missing directories included |
| `TagList.CollectTags` | registry/storage/tagstore.go:301-317 | in the tags directory the callback collects every name after the last one, whatever that is, until the page is full |
| `TagList.BelowDirectory` | registry/storage/tagstore.go:301-317 | the climb through what lies below the last tag collects nothing |
| `TagList.HintedListing` | registry/storage/tagstore.go:265-276 | a listing whose last tag lies in the tags directory collects the first names after it, in order, and no error ends it |
| `TagList.AnswerOfWalk` | registry/storage/tagstore.go:278-294 | the walk and how it ends give the answer: for a last tag in the directory, outside of it, or with a file in its way |
| `TagList.ProperAnswer` | registry/storage/tagstore.go:238-294 | on the first call and after a tag, the answer is the page of the tags after it, and how an empty or odd repository is reported |
| `TagList.ListTags` | registry/storage/tagstore.go:238-294 | one call's page and how it ends, for every limit and any last tag, separators and dots included |
| `TagList.SplitJoined` | registry/storage/paths.go:159-167 | the components of a last tag are found again |
| `TagList.DescendRules` | registry/storage/paths.go:159-167 | how components join a clean path |
| `TagList.ListAllTags` | registry/storage/tagstore.go:238-294 | following the pages gives every tag once, in order, in n/limit + 1 calls |
| `AzureAppend.UploadIsExact` | registry/storage/driver/azure/azure.go:692-764 | without collisions the MD5 check tells exactly whether the chunk, and how much of it, is at the end of the blob |
| `AzureAppend.CollisionMisleads` | registry/storage/driver/azure/azure.go:754-764 | with a collision a partial upload passes |
| `AzureAppend.BlockWriter.ChunkUploadVerify` | registry/storage/driver/azure/azure.go:692-764 | what the blob tells about the chunk, or why that cannot be told |
| `AzureAppend.BlockWriter.Write` | registry/storage/driver/azure/azure.go:628-688 | no error means the old content followed by p once and a matching size; every return leaves the old content and p[..n] as a prefix; exactly when it gives up for a refusal, for want of retries or for a failed query, and corruption is reported only when it happened; no append is too large or names a stale end or tag |
| `EventQueue.StepKeepsInv` | notifications/sinks.go:46-120 | every step of writers, closers and the loop keeps the queue's invariant |
| `EventQueue.EventsAreConserved` | notifications/sinks.go:46-120 | in every interleaving, accepted events are those handed over, in flight and queued, in order; a sleeping loop has nothing to do |
| `EventQueue.AcceptedAreWrites` | notifications/sinks.go:46-61 | exactly the writes before the first close are accepted, in order |
| `EventQueue.NextIsHandedOver` | notifications/sinks.go:81-120 | while anything is queued the loop hands the first event over in two steps |
| `EventQueue.AcceptedAreHandedOver` | notifications/sinks.go:81-120 | in every interleaving, open or closed, the events accepted so far are handed over in order once the loop has taken twice as many steps of its own |
| `EventQueue.DrainHandsOver` | notifications/sinks.go:81-120 | from every reachable queue the loop alone hands over everything accepted in a known number of steps |
| `EventQueue.ClosedSinkHasEverything` | notifications/sinks.go:64-78 | the sink is closed only after every accepted event was handed over once, and nothing happens afterwards |
| `EventQueue.WaitingCloseAdvances` | notifications/sinks.go:81-120 | while a close waits the loop can always step, each step brings the end nearer, and nobody pushes it away |
| `EventQueue.CloseCompletes` | notifications/sinks.go:64-120 | a waiting close completes after a known number of the loop's steps |
| `Regulator.StepKeepsInv` | registry/storage/driver/base/regulator.go:74-88 | entering, waking and leaving keep the regulator's invariant |
| `Regulator.PlacesAreConserved` | registry/storage/driver/base/regulator.go:66-88 | free places and callers inside add up to the limit in every interleaving |
| `Regulator.NoLostWakeUp` | registry/storage/driver/base/regulator.go:74-88 | a caller sleeps with no woken one pending only when every place is taken |
| `Regulator.SleepersAreServed` | registry/storage/driver/base/regulator.go:83-88 | while anyone sleeps someone is woken or inside, and an exit lets the first sleeper in |
| `Regulator.AdmittedExactly` | registry/storage/driver/base/regulator.go:74-88 | a caller is let in if and only if fewer are inside than the limit, sleeps otherwise, and is gone when it exits |
| `Regulator.OthersStay` | registry/storage/driver/base/regulator.go:74-88 | a step moves no caller but its own |
| `HttpReader.HttpReadSeeker.Reader` | internal/client/transport/http_reader.go:168-295 | a response is opened if and only if it starts where it was asked to and runs to the end, and what the size then is |
| `HttpReader.HttpReadSeeker.Read` | internal/client/transport/http_reader.go:69-96 | the bytes at the logical offset, from the stream in place if there is one, and exactly what that stream gave; on a response without content, right if and only if it does not report the end or the content is empty |
| `HttpReader.HttpReadSeeker.Seek` | internal/client/transport/http_reader.go:98-139 | moves to its target or fails and stays, and exactly when it fails |
| `HttpReader.HttpReadSeeker.Close` | internal/client/transport/http_reader.go:141-156 | closes once |
| `HttpReader.HttpReadSeeker.Run` | internal/client/transport/http_reader.go:69-139 | any sequence of reads and seeks, failed, negative and undone seeks included, answers as a plain positioned reader if and only if no read reports the end of a response without content while there is content |
| `HttpReader.ReadsAreContiguous` | internal/client/transport/http_reader.go:69-96 | reads in a row hand out one contiguous piece of the content |
| `Forwarded.TakeTurn` | registry/api/v2/headerparser.go:55-158 | every turn shortens the input or, keeping it, moves to a state of lower rank |
| `Forwarded.ParseForwardedHeader` | registry/api/v2/headerparser.go:29-161 | the loop terminates and computes the turns' outcome |
| `Forwarded.QuotedRoundTrip` | registry/api/v2/headerparser.go:110-143 | a quoted value is read back whatever characters it holds and however they are escaped |
| `Forwarded.ForwardedRoundTrip` | registry/api/v2/headerparser.go:29-161 | the parser undoes a printer (section 4 of RFC 7239) with white space wherever it may stand and keys of any case, and returns the rest of the list; it fails if and only if an unquoted value repeats a parameter |
| `Forwarded.AcceptedIsPrinted` | registry/api/v2/headerparser.go:29-161 | nothing else is accepted: every text that parses is a printed element, and the result is its meaning |
| `Forwarded.SpaceIsSkipped` | registry/api/v2/headerparser.go:57-61 | outside of quotes leading white space makes no difference |
| `Forwarded.TokenChars` | registry/api/v2/headerparser.go:12 | the characters of a token are those of section 3.2.6 of RFC 7230, the backslash and everything beyond ASCII |
| `Forwarded.AnyTextPrints` | registry/api/v2/headerparser.go:110-143 | any text can be a quoted value |
| `Forwarded.DistinctKeysKeepAll` | registry/api/v2/headerparser.go:29-161 | pairs with distinct names all come back |
| `Challenge.SkipSpace` | internal/client/auth/challenge/authchallenge.go:181-189 | exactly the leading space goes |
| `Challenge.ExpectToken` | internal/client/auth/challenge/authchallenge.go:191-199 | the longest token prefix and the rest |
| `Challenge.ExpectTokenOrQuoted` | internal/client/auth/challenge/authchallenge.go:201-234 | the scanner agrees with a recursive unescape |
| `Challenge.CopyUnescaped` | internal/client/auth/challenge/authchallenge.go:210-231 | the copy into a buffer one byte shorter never overruns it |
| `Challenge.OneParam` | internal/client/auth/challenge/authchallenge.go:160-178 | one turn of the loop over parameters, with its early ends |
| `Challenge.ParseValueAndParams` | internal/client/auth/challenge/authchallenge.go:152-179 | the scheme and the parameters up to the first thing that is none |
| `Challenge.UnquotePrinted` | internal/client/auth/challenge/authchallenge.go:201-234 | unescaping undoes any way of escaping |
| `Challenge.ChallengeRoundTrip` | internal/client/auth/challenge/authchallenge.go:152-234 | the parser undoes a printer (section 4.1 of RFC 7235) with white space around parameters, letters of any case and values in any form, up to the first empty value and whatever follows that is no parameter |
| `Challenge.HeaderIsPrinted` | internal/client/auth/challenge/authchallenge.go:152-234 | every text with a scheme is a printed challenge, and the result is its meaning |
| `Challenge.StuckExactly` | internal/client/auth/challenge/authchallenge.go:160-178 | the parameters end exactly where no printed parameter with a value begins |
| `Challenge.NoScheme` | internal/client/auth/challenge/authchallenge.go:152-157 | a text without a scheme gives nothing |
| `Challenge.TokenChars` | internal/client/auth/challenge/authchallenge.go:37-50 | the characters of a token are those of section 3.2.6 of RFC 7230 |
| `Challenge.AnyTextPrints` | internal/client/auth/challenge/authchallenge.go:201-234 | any text can be a value |
| `Challenge.AllComeBack` | internal/client/auth/challenge/authchallenge.go:152-179 | with distinct names a parameter comes back if and only if no value up to it is empty |
| `Paths.DigestFromDataPath` | registry/storage/paths.go:462-499 | the path of a blob's data gives its digest back, for every digest that has a path |
| `Paths.DigestFromPathIsValid` | registry/storage/paths.go:462-499 | only a valid digest is read from a path, and its parts are on it |
| `Paths.BlobsHoldAll` | registry/storage/paths.go:213-243 | all blobs lie in the blobs directory |
| `Paths.PathNeedsDigest` | registry/storage/paths.go:462-465 | exactly the digests that the library accepts have a path |
| `Paths.DigestPathIs` | registry/storage/paths.go:382-389 | no registered algorithm has a sign that the layout replaces |
| `Paths.RemoveBlobIsExact` | registry/storage/vacuum.go:32-51 | deleting a blob's directory deletes that blob's data and no other's |
| `Paths.PathIs` | registry/storage/paths.go:119-257 | where each file and directory of a repository lies below its name |
| `Paths.FilesAreDistinct` | registry/storage/paths.go:119-257 | two files, links or of uploads, share a path if and only if they are the same, and none lies below another |
| `Paths.DirectoriesAreExact` | registry/storage/paths.go:119-257 | deleting or listing a directory reaches exactly the files it stands for: of a tag, a revision, an index entry, the layers, or the hash states of one upload and algorithm |
| `Paths.UploadDirectoryIsExact` | registry/storage/blobwriter.go:351-377 | the directory that ends an upload holds exactly that upload's files |
| `Paths.BlobsAreApart` | registry/storage/paths.go:119-257 | blobs and repositories share no path |
| `Paths.RemoveRepositoryIsExact` | registry/storage/vacuum.go:89-121 | removing a repository deletes exactly its own paths, nested repositories untouched |
| `Paths.FilesBelong` | registry/storage/paths.go:119-257 | every file and directory lies among its repository's own paths |
| `Paths.OffsetRoundTrip` | registry/storage/blobwriter_resumable.go:80-114 | the offset in a hash state's file name is read back as it was written |

## Left out

- Writers that report a size without their buffered bytes (the in-memory and Azure drivers under the blob writer): uploads use the driver interface's promise, which the filesystem writer keeps (`FileWriters.FileWriter.Write`, `FileWriters.FileWriter.Close`).
- Failures of a file's sync and close, for which a flush failure stands, and of removing the file when an upload is cancelled.
- Two writers on one upload at a time, and a collection that overlaps a push: one writer at a time and collections without overlap are assumed, as the operators' documentation asks.
- An interruption inside one removal of a sweep: a sweep stops between removals.
- Alias links in a collection (digests of other algorithms beside the canonical one), manifests put with verification off, client deletes and manifest schema 1.
- Errors of the kind "path not found" that a callback or a lookup passes through a walk: they would be read as a missing directory.
- Catalogue pagination, upload purging by age beyond its effect, descriptor caches, the pull-through proxy and its scheduler.
- Other storage drivers' own walks and the in-memory file tree.
- JSON, regular expressions and reference grammar: a manifest is a list of references, digests and names are predicates on characters.
- Walk.HintedWalkIsSuffix: paths are clean, with no component of one or two dots, as the registry makes them.
- Lower-casing beyond ASCII, content encodings, a Content-Range without a total size, and 64-bit overflow.
- HTTP handlers, authorization, TLS, configuration, notification endpoints, tracing and metrics: interfaces to other systems or easy members.
- EventQueue.StepKeepsInv: spurious wake-ups and metrics listeners are not steps; writers and closers hold the mutex for a whole step.
- Regulator.StepKeepsInv: the mutex is not a step of its own.
- TagList.ListTags: a last tag with a null character is not covered; the path order uses that character for the separator.
