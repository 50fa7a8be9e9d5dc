# Verified model of the novel crawler's durable protocols

The crawler keeps its promises through a handful of small protocols: a fenced chapter store and the
resumable runner that works through it, an append-only registry of site configurations, a background
executor, a browser verification coordinator with its attempt ledger, and a URL normal form from which
path templates are inferred. This project models these parts and proves what they promise over every
run, crash and interleaving.

`dafny verify dfyconfig.toml` checks everything.

## How it is built

A protocol comes in several files. A specification gives the state and the effect of each call
(`ChapterStore`, `Registry`, `Ledger`). A machine interleaves the atomic steps of all who take part
(`BatchMachine`, `ExecutorMachine`, `CoordinatorMachine`). The files whose names end in `Laws`, `Runs`
or `History` prove what every step keeps, and what follows over whole runs. Those whose names end in
`Answers` prove what each call does in the ordinary case: they spell out statuses, limits and rows and
do not lean on the definitions of the calls (`BatchCourse` prepares `BatchAnswers`). And a class with
the fields of the original updates them in place, each method proved against the specification
(`Storage`, `ChapterBatchRunner`, `Migration`, `Deletion`, `ConfigRegistry`, `Executor`,
`ExecutorWorker`, `AttemptLedger`, `Coordinator`). Where other threads may act between two calls of a
loop, the loop is proved to be a run of its machine (`ChapterBatchRunner`, `ExecutorWorker`). The URL
helpers are functions with their laws (`PathSegments`, `UrlPaths`, `QueryLaws`, `ChapterUrlLaws`,
`AddressLaws`, `TemplateLaws`, `TemplateAnswers`), and loops proved to compute these functions
(`UrlPathLoops`, `TemplateLoops`). `TreeWalk` and `TreeRemoval` walk a directory tree with an explicit
stack and account for every handle. `InheritedContent` and `ForeignCheckpoints` play two runs that go
wrong. `Basics`, `Strings`, `Rising` and `Tallies` hold shared helpers.

Time is an integer that every call is given; nothing depends on it running forward unless a lemma says
so. A digest is its own preimage, which makes hashes injective. Tokens are fresh numbers. Disk and
database are values that a call changes in one step, or in several where the code can be cut between
them: a cut is a parameter, so that every crash point is covered. `urlsplit` on a bare URL,
`canonical_domain` and the search for secret words are parameters too.

## What the proofs found

Most promises hold as they are meant. Where one does not, the code is modelled as it is, and the exact
condition is proved.

* COMPLETED can be wrong when runs under one id work on different ranges: a checkpoint left by a run
  over a later range makes a run skip chapters (`ForeignCheckpoints.CompletedWithoutWork`). It is right
  if the skipped chapters are done when the checkpoint is loaded (`BatchLaws.DoneAtLoadSuffices`), and
  only if, when nobody else does them meanwhile (`BatchLaws.CompletedIffDoneAtLoad`,
  `BatchLaws.CompletedExactly`).
* A done chapter can lose its content in two ways. An exception that arrives in `mark_done` after its
  commit has taken effect makes the handler delete the new file (`ChapterLaws.LateHandlerLoses`). And a
  row that inherited content when an old database was opened names the file of another chapter, which a
  later `mark_done` of that chapter overwrites (`InheritedContent.InheritedContentIsLost`). No other
  call modelled as a `Call`, and no other cut of one, does it (`ChapterLaws.CallKeepsIntactIff`);
  deleting books is not among these.
* A path of another book inside the deleted book's own cache tree is removed with it
  (`Deletion.ReferenceSurvives`).
* A deletion job that is retried can remove content which a book added since has written, if a row of
  the deleted book pointed into that book's directory (`Deletion.LateContentLostIff`,
  `Deletion.LateContentLost`).
* A recovery of the registry that is cut between quarantining a listed configuration and rewriting the
  manifest leaves a registry that no recovery serves (`RegistryRuns.CutCanStickIff`,
  `RegistryRuns.CutRecoveryCanStick`).
* The seventh digit of a revision number loses the history of its configuration
  (`RegistryRuns.LongVersionLosesHistory`). That takes a registry set up for more than 999999 files; the
  default limit of 10000 (`novel_crawler/adaptation/registry.py:170`), which
  `novel_crawler/application/composition.py:48` uses, is covered by `RegistryRuns.CutCallIsAtomic`.
* Scheduling a resumed, not yet scheduled record while the repository cannot be read leaves its id
  marked as scheduled for ever, and nothing else upsets the bookkeeping (`ExecutorLaws.PlayKeepsBoard`,
  `ExecutorLaws.StuckForGood`, `ExecutorLaws.LeakIsReached`).
* A cleanup that succeeds between the notice of a browser worker and its record leaves a record that
  asks for a cleanup which is refused, until the record expires
  (`CoordinatorLaws.CleanupFlagRegresses`).
* On POSIX a directory handle whose metadata cannot be read is never closed
  (`TreeWalk.TreeIO.SecureTreeSize`, `TreeWalk.BlindChildLeaks`).

## Model

| member | source | states |
|---|---|---|
| `ChapterLaws.ApplyKeepsTable` | novel_crawler/core/storage.py:434-748 | every call of the store, cut anywhere, keeps both unique keys, loses no row, lowers no generation and leaves done rows exactly as they were |
| `ChapterLaws.UpsertKeepsTable` | novel_crawler/core/storage.py:434-467 | a whole upsert batch keeps (book, index) and (book, canonical address) unique and changes no done row |
| `ChapterLaws.RunKeepsTable` | novel_crawler/core/storage.py:434-748 | any sequence of calls keeps both unique keys, loses no row and changes no done row |
| `ChapterLaws.DoneIsForever` | novel_crawler/core/storage.py:434-748 | done is absorbing: after any run the row of a done chapter is unchanged in every column |
| `ChapterLaws.KeysSurviveRuns` | novel_crawler/core/storage.py:434-467 | two rows of a book that share an index or an address are the same row, after any run |
| `ChapterLaws.RunKeepsLeases` | novel_crawler/core/storage.py:662-700 | leases stay apart by token, at or below the generation of their row, and each live claim belongs to an issued lease |
| `ChapterLaws.OneValidLease` | novel_crawler/core/storage.py:717-740 | in every reachable state and at any instant at most one of all leases issued for a chapter passes validation |
| `ChapterLaws.StaleGenerationIsInert` | novel_crawler/core/storage.py:508-740 | a call that presents a generation below that of the row changes no row and no file, whoever the owner is |
| `ChapterLaws.FencedForever` | novel_crawler/core/storage.py:572-740 | once generation g+1 has been granted, a call that presents generation g or lower leaves every later state as it is, after any run |
| `ChapterLaws.ValidatedCommitMatches` | novel_crawler/core/storage.py:572-609 | when the checks of `mark_done` admit a write, the fenced UPDATE that follows matches the row |
| `ChapterLaws.IntactExactly` | novel_crawler/core/storage.py:508-609 | at every crash point and on every return and raise, each done row with a path and a hash keeps a file whose bytes hash to it, if and only if the write spoils none: no handler runs after the commit, and no other done row naming the target file gets other bytes or loses the file |
| `ChapterLaws.SafeUnlessTargetTaken` | novel_crawler/core/storage.py:508-609 | what can be told before the call: some cut other than a handler after the commit takes content away if and only if another done row already names the target file |
| `ChapterLaws.OtherRowIntactIff` | novel_crawler/core/storage.py:547-570 | row by row: exactly when writing one chapter takes the content of another done row away |
| `ChapterLaws.CallKeepsIntactIff` | novel_crawler/core/storage.py:434-748 | one call of any kind keeps the content of all done rows intact if and only if it is not such a write |
| `ChapterLaws.IntactForever` | novel_crawler/core/storage.py:434-748 | over any run of calls and cuts, every done row with a path and a hash names a file whose bytes hash to it, at the end and at any time before, if and only if no write spoils any |
| `ChapterLaws.LateHandlerLoses` | novel_crawler/core/storage.py:563-570 | a concrete store: the first chapter of a new book is lost when its `mark_done` is interrupted after the commit |
| `ChapterLaws.OwnFilesStayIntact` | novel_crawler/core/storage.py:434-748 | a store whose done rows all name their own chapter files stays one, and keeps all content over any run in which no handler runs after its commit |
| `InheritedContent.InheritedContentIsLost` | novel_crawler/core/storage.py:348-417 | an old database, its migration, one upsert and one `mark_done` that returns: a done row then names a file with other bytes |
| `ChapterLaws.SuccessMeansDone` | novel_crawler/core/storage.py:508-609 | a returned success means that the row is done with the digest of the given content, and that its file exists, freshly written with that content unless it was kept |
| `ChapterLaws.ChapterFilesDistinct` | novel_crawler/core/storage.py:547-552 | final, temporary and directory names of different chapters never collide |
| `StorageObject.Storage.constructor` | novel_crawler/core/storage.py:158-172 | a migrated database is opened as it is, live claims included |
| `StorageObject.Storage.UpsertChapters` | novel_crawler/core/storage.py:434-467 | the loop over a batch makes the new state that the specification names, or rolls all of it back when an address has no normal form |
| `StorageObject.Storage.ClaimChapter` | novel_crawler/core/storage.py:662-700 | state and reply are those of the specified guarded UPDATE with its raised generation; who is granted what, and until when, say `ChapterAnswers.GrantedIff` and the rows after it |
| `StorageObject.Storage.MarkFailed` | novel_crawler/core/storage.py:621-660 | state and refusal are those of the specification, fence included |
| `StorageObject.Storage.ReleaseChapterClaim` | novel_crawler/core/storage.py:702-715 | only the exact generation, owner and token clear the claim |
| `StorageObject.Storage.ResetFailed` | novel_crawler/core/storage.py:742-748 | failed rows of the book become pending, and nothing else changes |
| `StorageObject.Storage.MarkDone` | novel_crawler/core/storage.py:508-609 | temporary file, rename and row update, cut at any point and with or without its handler, end in the specified disk and table |
| `ChapterAnswers.GrantedIff` | novel_crawler/core/storage.py:662-700 | a claim is granted if and only if owner and duration are proper, there is such a chapter, it is not done, and every issued lease that is valid on it now belongs to the owner who asks |
| `ChapterAnswers.GrantGives` | novel_crawler/core/storage.py:662-700 | what is granted: a lease of the next generation for that long, valid at once; one more attempt is counted and nothing else changes |
| `ChapterAnswers.OthersWaitForTheEnd` | novel_crawler/core/storage.py:676-690 | to the moment: another owner is granted a held chapter if and only if its lease has ended |
| `ChapterAnswers.FailuresKeepToTheLease` | novel_crawler/core/storage.py:621-660 | to the moment: a failure with the lease is recorded before its end and refused from then on, and one without it the other way round |
| `ChapterAnswers.ContentKeepsToTheLease` | novel_crawler/core/storage.py:717-740 | and so with finished content |
| `ChapterAnswers.OnlyTheHolderReleases` | novel_crawler/core/storage.py:702-715 | a lease can be given back if and only if it is the last one granted for the chapter |
| `ChapterAnswers.ReleaseFrees` | novel_crawler/core/storage.py:702-715 | then the chapter is free for everybody |
| `ChapterAnswers.FailureGives` | novel_crawler/core/storage.py:621-660 | what a recorded failure leaves in the row, with the code that is shown and the attempt counted once |
| `ChapterAnswers.ResetGives` | novel_crawler/core/storage.py:742-748 | which rows a reset changes, and how |
| `ChapterAnswers.StoredIff` | novel_crawler/core/storage.py:508-570 | an uninterrupted `mark_done` stores if and only if the claim is in order, there is content, the book is known, the content is new if that is asked for, and the disk is ready |
| `ChapterAnswers.StoreGives` | novel_crawler/core/storage.py:547-609 | what it leaves: the file with the content, no temporary one, and a done row that names it |
| `ChapterAnswers.DoneIsKeptIff` | novel_crawler/core/storage.py:533-536 | a done chapter is kept if and only if the same content is offered again and its file is there |
| `ChapterAnswers.RefusalsInOrder` | novel_crawler/core/storage.py:521-546 | which refusal: claim, then empty content, then duplicate |
| `ChapterAnswers.KnownChapterIsRenamedIff` | novel_crawler/core/storage.py:434-467 | a known chapter takes over title and address if and only if it is not done and no other chapter of the book has that address |
| `ChapterAnswers.NewBatchIsInserted` | novel_crawler/core/storage.py:434-467 | a batch of new chapters is inserted row by row, without content, claim or error |
| `ChapterAnswers.BatchInOrder` | novel_crawler/core/storage.py:434-467 | a batch is taken in its order |
| `BatchLaws.TakeKeepsWorldOk` | novel_crawler/task_engine/chapter_batch.py:56-139 | every step of every run, resumption, crash and foreign call keeps the invariant: each saved `next_index` has only done chapters below it |
| `BatchLaws.PlayKeepsWorldOk` | novel_crawler/task_engine/chapter_batch.py:56-139 | the invariant holds after any interleaving of steps |
| `BatchLaws.SaveIsSound` | novel_crawler/task_engine/chapter_batch.py:124-139 | the value a save stores, the least chapter to retry or the end of the work, has only done members below it |
| `BatchLaws.CheckpointsAreSound` | novel_crawler/task_engine/chapter_batch.py:145-159 | over any interleaving every chapter below a saved `next_index` is done |
| `BatchLaws.CompletedMeansDone` | novel_crawler/task_engine/chapter_batch.py:56-139 | any run that ends COMPLETED, after any interleaving of runs, lapsed leases, pauses, crashes and resumptions, leaves every chapter of its range done |
| `BatchLaws.CompletedFillsRange` | novel_crawler/task_engine/chapter_batch.py:56-139 | on a fully populated range that is every index of it |
| `BatchLaws.LoadedRunCovers` | novel_crawler/task_engine/chapter_batch.py:56-139 | from the load of its checkpoint on, a run accounts for every chapter from the loaded index on |
| `BatchLaws.CompletedIffDoneAtLoad` | novel_crawler/task_engine/chapter_batch.py:56-139 | told at load time: when nobody else touches the store, COMPLETED leaves the whole range done if and only if the chapters below the loaded checkpoint are done already |
| `BatchLaws.DoneAtLoadSuffices` | novel_crawler/task_engine/chapter_batch.py:56-139 | whatever others do, if these chapters are done at load time then COMPLETED is right |
| `BatchLaws.CompletedExactly` | novel_crawler/task_engine/chapter_batch.py:56-139 | whatever others do, COMPLETED leaves the whole range done if and only if these chapters are done in the end, be it by others |
| `BatchLaws.OwnStepAbove` | novel_crawler/task_engine/chapter_batch.py:85-123 | a run never changes whether a chapter below the index it has loaded is done |
| `BatchLaws.ForeignCheckpointSkips` | novel_crawler/task_engine/chapter_batch.py:60-84 | a run that finds a checkpoint just past its range ends COMPLETED without looking at a chapter |
| `BatchAnswers.SaveRecords` | novel_crawler/task_engine/chapter_batch.py:124-159 | a save is accepted if and only if the version is the one the run knows; it records as `succeeded` and `failed` the number of rows of the range with status done and failed when they were counted, and the least chapter to retry or else the end of the work |
| `BatchAnswers.SavesWhenDue` | novel_crawler/task_engine/chapter_batch.py:124-132 | a save is made when a batch is full, or at the end of the list when something is not saved yet or there is no checkpoint; so fewer chapters than a batch are behind the checkpoint |
| `BatchAnswers.CompletesIff` | novel_crawler/task_engine/chapter_batch.py:56-139 | a run that nobody interferes with and that comes to its end is COMPLETED if and only if every row from its first index on is done in the end and no row of the range is failed; when it found nothing to look at, the loaded checkpoint decides |
| `BatchAnswers.RetryForbidsCompleted` | novel_crawler/task_engine/chapter_batch.py:118-139 | over any run: once a chapter is to be tried again the run does not end COMPLETED |
| `BatchAnswers.LateHandlerIsTriedAgain` | novel_crawler/task_engine/chapter_batch.py:110-121 | that includes a chapter whose `mark_done` raises after its commit |
| `BatchAnswers.FlawlessCompletes` | novel_crawler/task_engine/chapter_batch.py:85-139 | when every listed chapter that is not done is granted and stored and nobody stops the run, it ends with all of them done, and COMPLETED if and only if no row of the range is failed |
| `BatchAnswers.CheckpointSays` | novel_crawler/task_engine/chapter_batch.py:124-159 | the checkpoint it leaves: a run resumed there begins with the first row that is not done, or just past the last one, and the counts are those of the range |
| `BatchAnswers.LeftAloneEnds` | novel_crawler/task_engine/chapter_batch.py:85-139 | a run that is let alone ends within ten steps for each listed chapter and six |
| `BatchAnswers.UnusableIsRefused` | novel_crawler/task_engine/chapter_batch.py:69-75 | a checkpoint outside the range is refused and nothing is touched |
| `BatchAnswers.ClaimsForItsTask` | novel_crawler/task_engine/chapter_batch.py:90-95 | a chapter is claimed for the task and the configured time; a busy one is put on the list of retries |
| `BatchAnswers.ContentIsStored` | novel_crawler/task_engine/chapter_batch.py:96-106 | processed content goes into the file and the row of its chapter, under the title it was listed with, or the chapter is failed or given back |
| `BatchAnswers.FailureIsRecorded` | novel_crawler/task_engine/chapter_batch.py:110-121 | a processor that fails is recorded in the row while the lease lasts, and the chapter is tried again |
| `BatchAnswers.PauseGivesBack` | novel_crawler/task_engine/chapter_batch.py:107-109 | a run that is paused while it processes gives its lease back and writes no checkpoint |
| `ForeignCheckpoints.CompletedWithoutWork` | novel_crawler/task_engine/chapter_batch.py:56-139 | from a world with no checkpoint: a run over an empty later range leaves one, a second run over an earlier range ends COMPLETED, the store is untouched and an undone chapter stays undone |
| `ForeignCheckpoints.OneChapterSkipped` | novel_crawler/task_engine/chapter_batch.py:56-139 | the least such case, a book with one pending chapter |
| `BatchMachine.ListingIsRight` | novel_crawler/core/storage.py:485-506 | the chapter list holds each row of the range once, in rising order, with its done flag |
| `ChapterBatch.Shared.AllChapters` | novel_crawler/core/storage.py:485-506 | the selection loop returns exactly that list |
| `ChapterBatch.ChapterBatchRunner.Call` | novel_crawler/task_engine/chapter_batch.py:56-139 | the handler loop, with others acting between any two of its calls, is a run of the machine and ends with the same outcome; which outcome, say `BatchAnswers.CompletesIff` and the rows after it |
| `ChapterBatch.ChapterBatchRunner.CallAndJudge` | novel_crawler/task_engine/chapter_batch.py:56-139 | a caller that gets COMPLETED from the loop has every chapter of the range done |
| `ChapterBatch.ChapterBatchRunner.OneChapter` | novel_crawler/task_engine/chapter_batch.py:85-123 | the loop body claims, processes, commits, fails or releases one chapter as the machine does |
| `ChapterBatch.ChapterBatchRunner.WriteCheckpoint` | novel_crawler/task_engine/chapter_batch.py:145-159 | the save is a compare-and-swap on the checkpoint version |
| `ChapterBatch.ChapterBatchRunner.CountRows` | novel_crawler/task_engine/chapter_batch.py:141-143 | the counts are those of the rows of the range by status |
| `CrawlPlan.PlanNamesTheBlock` | novel_crawler/application/pipeline.py:104-131 | a plan is written exactly for an unbroken rising block of chapters, and names just that block |
| `CrawlPlan.InventoryMeansFull` | novel_crawler/application/pipeline.py:133-138 | the inventory check holds if and only if every chapter of the planned range has a row |
| `CrawlPlan.CrawlCompletes` | novel_crawler/application/pipeline.py:133-147 | pipeline and runner together: after the inventory check a first COMPLETED means every planned chapter is done |
| `Migration.InheritIsAbsorb` | novel_crawler/core/storage.py:381-417 | going through the losers one by one gives the winner the content of the first finished one whose file is there |
| `Migration.MergedIsUnique` | novel_crawler/core/storage.py:381-417 | merging on a key makes that key unique |
| `Migration.KeysKept` | novel_crawler/core/storage.py:381-417 | a surviving row differs from its old self at most in the content it took over, and only if it had none |
| `Migration.GroupKept` | novel_crawler/core/storage.py:381-417 | no group vanishes, and one that had a done row keeps a done row |
| `Migration.MigratedStandsFor` | novel_crawler/core/storage.py:348-417 | both merges together: every row has one that stands for its chapter after the first merge, which has one that stands for its address after the second, and done rows are stood for by done rows |
| `Migration.MigratedIsKeyed` | novel_crawler/core/storage.py:348-379 | after both merges both unique indexes can be created, whatever the old rows were |
| `MigrationAnswers.KeptIff` | novel_crawler/core/storage.py:381-391 | exactly the row with the least id among the done ones of a group, or among all when none is done, is kept |
| `MigrationAnswers.KeptTakesOver` | novel_crawler/core/storage.py:392-404 | a kept row without content takes over path and digest of the first done one that has a file, and nothing else |
| `MigrationAnswers.KeptUnchanged` | novel_crawler/core/storage.py:392-404 | any other kept row is as it was |
| `MigrationAnswers.EntrySays` | novel_crawler/core/storage.py:405-417 | what is written about a removed row: its book, the kept row, the reason, its digest, its path below the content root, or that a person has to clean up |
| `MigrationAnswers.RefreshedIs` | novel_crawler/core/storage.py:362-378 | what is done to every row before: address, digest and error code |
| `MigrationAnswers.FirstByIndex` | novel_crawler/core/storage.py:379-380 | the merge by index comes first, then the one by address |
| `Migration.Migrator.SelectGroup` | novel_crawler/core/storage.py:381-417 | the group in the order of the SELECT: done rows first, then by id |
| `Migration.Migrator.MergeDuplicates` | novel_crawler/core/storage.py:381-417 | the loops leave the merged table, and one new audit entry for each removed row naming the kept one |
| `Migration.Migrate` | novel_crawler/core/storage.py:348-379 | both merges in place: rows before equal rows after plus new audit entries, and old entries stay |
| `Deletion.FinishedExactly` | novel_crawler/core/storage.py:916-967 | a job that finishes has removed the listed files and everything in the listed trees, and nothing else |
| `Deletion.AttemptOnlyRemoves` | novel_crawler/core/storage.py:916-967 | however an attempt ends it changes nothing outside its manifest |
| `Deletion.ChecksShrink` | novel_crawler/core/storage.py:916-967 | the second check of each path, just before its removal, cannot fail unless somebody else has been at work |
| `Deletion.ReplayEndsTheSame` | novel_crawler/core/storage.py:916-967 | after any number of attempts cut anywhere, one more attempt ends in the file system of one uninterrupted run |
| `Deletion.SharedPathsStay` | novel_crawler/core/storage.py:809-886 | a content or audit path below the content root that another book referenced at manifest time is never removed, and neither is any directory above it, whether or not it is on disk |
| `Deletion.ReferenceSurvives` | novel_crawler/core/storage.py:809-886 | of all referenced paths a finished job removes exactly those outside the content root that lie in the cache tree of the deleted book when that is not shared |
| `Deletion.CacheReferenceLost` | novel_crawler/core/storage.py:873-882 | a concrete store in which that happens |
| `Deletion.LateContentIsSafe` | novel_crawler/core/storage.py:809-886 | a manifest built from content written by `mark_done` never covers a chapter file of another book, however late the job runs |
| `Deletion.LateContentIff` | novel_crawler/core/storage.py:809-886 | a manifest covers a chapter file of another book if and only if the deleted book alone refers to that file, or refers into the directory of the other book, whose id is no other title and in which nobody else had anything at manifest time |
| `Deletion.LateContentLostIff` | novel_crawler/core/storage.py:916-967 | a job that finishes takes such a file off the disk exactly then, whenever it was written |
| `Deletion.LateContentLost` | novel_crawler/core/storage.py:809-967 | a concrete store and disk: a row left from an old database makes a retried job remove a chapter of the book added since |
| `Deletion.JobGoneMeansCleaned` | novel_crawler/core/storage.py:916-967 | a job row disappears only when nothing it lists is left on disk |
| `DeletionAnswers.DeletionTakesExactly` | novel_crawler/core/storage.py:809-886 | a finished deletion takes away exactly: the own paths of the book that no other names, everything in its own directory and in those of its paths where no other book has a path, and its cache tree unless another book of that site has the same name on disk |
| `DeletionAnswers.CutDeletionTakesNoMore` | novel_crawler/core/storage.py:916-967 | a cut attempt takes away no more than that |
| `DeletionAnswers.FileIsFineIff` | novel_crawler/core/storage.py:1111-1131 | a content path is safe if and only if it lies below the content root, meets no link and no file on its way, and is a regular file or nothing |
| `DeletionAnswers.TreeIsFineIff` | novel_crawler/core/storage.py:1168-1191 | a tree is safe if and only if it lies below its root and there is no link on its way or anywhere in it |
| `DeletionAnswers.WritableIff` | novel_crawler/core/storage.py:980-1010 | a manifest can be written if and only if it has at most 10000 entries, none longer than 4096 characters, all of plain components |
| `DeletionAnswers.UnsafeBlocks` | novel_crawler/core/storage.py:916-978 | an attempt whose first bad path is unsafe blocks the job, one refused by the operating system leaves it pending, and neither removes anything |
| `DeletionAnswers.FineAttemptAnswers` | novel_crawler/core/storage.py:916-978 | the job after an attempt that finishes, meets a disk error or another error, or dies |
| `DeletionAnswers.JobGoneIff` | novel_crawler/core/storage.py:951-957 | a job leaves the table if and only if an attempt on it finishes |
| `DeletionAnswers.DatabaseLosesTheBook` | novel_crawler/core/storage.py:796-800 | the database loses the book with its rows and audit entries, and nothing else |
| `DeletionAnswers.SafeNameShape` | novel_crawler/core/utils.py:8-10 | a name on disk is not empty, has at most 120 characters, none of the forbidden ones, and does not begin with a space, a dot or an underscore |
| `DeletionAnswers.SafeNameStays` | novel_crawler/core/utils.py:8-10 | a name that is like that already stays as it is |
| `Deletion.Deleter.OwnPaths` | novel_crawler/core/storage.py:812-838 | the checked paths of the book are exactly its content and audit paths |
| `Deletion.Deleter.SharedKeys` | novel_crawler/core/storage.py:822-849 | the keys are exactly the paths below the content root that other books refer to |
| `Deletion.Deleter.BuildManifest` | novel_crawler/core/storage.py:809-886 | the manifest lists without repetition the unshared files and trees; it fails only when a check fails or it is too long |
| `Deletion.Deleter.DeleteBook` | novel_crawler/core/storage.py:781-807 | rows and job change in one transaction, or nothing does |
| `Deletion.Deleter.CheckManifest` | novel_crawler/core/storage.py:930-942 | every listed path is checked before anything is removed, and the first bad one decides |
| `Deletion.Deleter.RemoveAll` | novel_crawler/core/storage.py:943-950 | unlinking and tree removal, cut at any point, leave the specified disk |
| `Deletion.Deleter.ProcessJob` | novel_crawler/core/storage.py:916-967 | disk, job table and outcome of one attempt, cut by a crash, a disk error or any other error |
| `Deletion.Deleter.RetryJob` | novel_crawler/core/storage.py:896-914 | a blocked job is taken up again only by force, and never when its manifest was lost in a migration |
| `RegistryLaws.HoldsRecovers` | novel_crawler/adaptation/registry.py:626-700 | a disk that holds a history gives exactly that history back and nothing is moved |
| `RegistryLaws.SettledHolds` | novel_crawler/adaptation/registry.py:626-700 | what a recovery leaves behind holds the history it served |
| `RegistryLaws.RecoveryIsIdempotent` | novel_crawler/adaptation/registry.py:626-700 | recovering again serves the same history and changes nothing on disk |
| `RegistryLaws.NextPlaceIsFree` | novel_crawler/adaptation/registry.py:518-543 | publishing never meets an existing file |
| `RegistryLaws.PublishHolds` | novel_crawler/adaptation/registry.py:521-543 | a published revision makes the disk hold the extended history, versions 1..n of one identity, with or without the manifest |
| `RegistryRuns.FilesAreRecords` | novel_crawler/adaptation/registry.py:702-733 | a disk that holds a history has as many revision files as records, which is what the limits compare |
| `RegistryRuns.CutCallIsAtomic` | novel_crawler/adaptation/registry.py:235-264 | cutting `register` or a transition before the publish recovers the old history, after it the old one plus the one new record |
| `RegistryRuns.PublishRecovers` | novel_crawler/adaptation/registry.py:464-516 | once the revision is published, recovery yields the extended history, whether the manifest lists the old or the new one |
| `RegistryRuns.LongVersionLosesHistory` | novel_crawler/adaptation/registry.py:29 | a published revision survives recovery if and only if its version fits the six digits of a file name; otherwise the whole history of its id is lost |
| `RegistryRuns.LongVersionNeedsRoom` | novel_crawler/adaptation/registry.py:488-489 | a longer version needs a registry that may hold more than 999999 files |
| `RegistryRuns.WholeOrAbsent` | novel_crawler/adaptation/registry.py:631-700 | with a readable manifest, whatever files were lost or damaged, each configuration comes back whole, at or above every version the manifest lists for it, or not at all |
| `RegistryRuns.LostManifestRollsBack` | novel_crawler/adaptation/registry.py:735-754 | without a manifest a lost last revision goes unnoticed |
| `RegistryRuns.StuckForGood` | novel_crawler/adaptation/registry.py:688-699 | a listed configuration without any file stops every recovery, and no recovery changes that |
| `RegistryRuns.CutRecoveryServesIff` | novel_crawler/adaptation/registry.py:631-700 | a recovery after one that was cut succeeds if and only if each listed configuration has kept a file, good or bad |
| `RegistryRuns.CutCanStickIff` | novel_crawler/adaptation/registry.py:631-700 | a recovery can be cut so that none succeeds again if and only if it has to reject a configuration that the manifest lists |
| `RegistryRuns.HurtServesTheRest` | novel_crawler/adaptation/registry.py:631-700 | damage to one revision costs its configuration and no other |
| `RegistryRuns.CutRecoveryCanStick` | novel_crawler/adaptation/registry.py:664-700 | one damaged revision is enough: uncut the recovery serves all other configurations, cut before the manifest is written it leaves a disk that none serves |
| `RegistryHistory.RunKeepsGenuine` | novel_crawler/adaptation/registry.py:374-516 | over calls, cuts and damage every record on disk is a first registration or one permitted transition of its predecessor |
| `RegistryHistory.ActiveNeedsUnrevoke` | novel_crawler/adaptation/registry.py:374-462 | in every served history an ACTIVE revision after an INVALID or REVOKED one has a REVOKED to STALE step in between |
| `RegistryHistory.HistoriesOnlyGrow` | novel_crawler/adaptation/registry.py:235-264 | on an undamaged disk no call, cut or not, loses or changes a record, and recovery keeps succeeding |
| `RegistryHistory.OneCallPerVersion` | novel_crawler/adaptation/registry.py:464-516 | of several calls that expect the same version at most one ever writes |
| `ConfigRegistryObject.SortByVersion` | novel_crawler/adaptation/registry.py:663-664 | the sort keeps the records and puts the versions in order |
| `ConfigRegistryObject.SortedIsTheChain` | novel_crawler/adaptation/registry.py:664-680 | sorting finds the contiguous chain if there is one |
| `ConfigRegistryObject.ConfigRegistry.Scan` | novel_crawler/adaptation/registry.py:631-662 | the walk collects the good records by id, moves every other file away and taints its id, or stops at the limits |
| `ConfigRegistryObject.ConfigRegistry.Judge` | novel_crawler/adaptation/registry.py:663-680 | a history is kept if and only if it is contiguous, of one identity, untainted and not below its high-water mark |
| `ConfigRegistryObject.ConfigRegistry.JudgeAll` | novel_crawler/adaptation/registry.py:663-685 | the loop keeps the servable histories and quarantines the files of the others |
| `ConfigRegistryObject.ConfigRegistry.Recover` | novel_crawler/adaptation/registry.py:626-700 | memory and disk after `_recover` are the specified ones for every directory order |
| `ConfigRegistryObject.ConfigRegistry.WriteRevision` | novel_crawler/adaptation/registry.py:521-543 | publish, memory and manifest in this order, cut anywhere |
| `ConfigRegistryObject.ConfigRegistry.CheckTransition` | novel_crawler/adaptation/registry.py:475-492 | the checks refuse in their order and otherwise determine the next record |
| `ConfigRegistryObject.ConfigRegistry.Register` | novel_crawler/adaptation/registry.py:235-264 | the whole call does to the disk what the specification says, all or nothing |
| `ConfigRegistryObject.ConfigRegistry.Transition` | novel_crawler/adaptation/registry.py:464-516 | every transition does to the disk what the specification says, all or nothing; with which status and content, say `RegistryAnswers.MarkingIsServed` and the rows around it |
| `ConfigRegistryObject.ConfigRegistry.MarkAsInvalid` | novel_crawler/adaptation/registry.py:390-410 | bad reasons are refused before anything is touched |
| `RegistryAnswers.MarkWritesIff` | novel_crawler/adaptation/registry.py:464-516 | a marking writes if and only if the configuration is known and as expected, its status is one of those spelled out for that call, there is room, and the time is one |
| `RegistryAnswers.MarkRefusals` | novel_crawler/adaptation/registry.py:479-502 | which refusal, in the order of the checks |
| `RegistryAnswers.RegisterAnswers` | novel_crawler/adaptation/registry.py:245-264 | registering the same configuration again gives its last entry, another under its id conflicts, and a new one becomes version 1, active |
| `RegistryAnswers.ReasonsIff` | novel_crawler/adaptation/registry.py:398-402 | at least one and at most 64 reasons, each of a lower case letter and up to 79 of letters, digits and `_.-` |
| `RegistryAnswers.MarkingIsServed` | novel_crawler/adaptation/registry.py:374-516 | a recovery after a marking serves the old history and one more revision: `mark_stale` STALE, `mark_invalid` INVALID with exactly the given reasons, `mark_revoked` REVOKED, `mark_validated` ACTIVE with the given time, `unrevoke` STALE; nothing else about it changes, nor any other configuration |
| `RegistryAnswers.RegisteringIsServed` | novel_crawler/adaptation/registry.py:235-264 | and after a registration the new configuration, ACTIVE, as version 1 |
| `RegistryAnswers.OthersLeaveNoTrace` | novel_crawler/adaptation/registry.py:235-516 | a call that is refused, answered from the history or cut before it publishes leaves no trace in what is served |
| `RegistryAnswers.LastCallDecides` | novel_crawler/adaptation/registry.py:235-516 | over any series of calls, cut anywhere or not, the last served revision has the status of the call that published last for its configuration |
| `RegistryAnswers.ActiveIff` | novel_crawler/adaptation/registry.py:235-516 | so it is ACTIVE if and only if that call was `register` or `mark_validated` |
| `RegistryAnswers.ServedIsSealed` | novel_crawler/adaptation/registry.py:631-662 | every served record comes from a whole file at the place its entry names, with the digest of its configuration |
| `RegistryAnswers.BadFileDiscredits` | novel_crawler/adaptation/registry.py:631-662 | any other file in a place named after a configuration discredits it |
| `TaskRepository.TerminalIsFinal` | novel_crawler/task_engine/models.py:28-110 | no transition leaves a terminal status |
| `TaskRepository.ResumesWhereItStopped` | novel_crawler/task_engine/repository.py:458-561 | a paused or recoverably failed record comes back only to the status it stopped in |
| `ExecutorLaws.SchedulingKeeps` | novel_crawler/task_engine/executor.py:149-192 | submitting and scheduling keep the bookkeeping |
| `ExecutorLaws.ResumedKeepsUnlessUnread` | novel_crawler/task_engine/executor.py:335-356 | scheduling a resumed record keeps the bookkeeping if and only if it is closing, already scheduled, or the repository could be read |
| `ExecutorLaws.TakeKeepsBoard` | novel_crawler/task_engine/executor.py:149-516 | every step keeps the bookkeeping if and only if it is not the scheduling of a resumed record that is not yet scheduled while the repository cannot be read |
| `ExecutorLaws.PlayKeepsBoard` | novel_crawler/task_engine/executor.py:149-412 | after any run an id is scheduled exactly when it is queued once or run by one worker, never both, versions have the same keys, pending resumes are a subset and the queue is within its bound, if and only if on the way no resumed, not yet scheduled record was scheduled while the repository could not be read |
| `ExecutorLaws.StuckStays` | novel_crawler/task_engine/executor.py:335-356 | one step: an id whose mark has leaked is not queued or run |
| `ExecutorLaws.StuckForGood` | novel_crawler/task_engine/executor.py:335-356 | over any run an id whose mark has leaked is never queued or run again |
| `ExecutorLaws.LeakIsReached` | novel_crawler/task_engine/executor.py:200-232 | from a new executor: resuming a paused record while the repository cannot be read leaks its mark |
| `ExecutorLaws.FrozenStays` | novel_crawler/task_engine/executor.py:414-516 | no worker and no recovery moves a record that is paused, recoverably failed or ended |
| `ExecutorLaws.PauseIsNeverOverwritten` | novel_crawler/task_engine/executor.py:424-488 | a pause or cancellation during a handler stays, whatever that handler and the executor do afterwards |
| `ExecutorLaws.ResultOnlyOnItsVersion` | novel_crawler/task_engine/executor.py:424-467 | a result is written on top of the version the handler was given, or not at all |
| `ExecutorLaws.ClosingDrains` | novel_crawler/task_engine/executor.py:314-333 | after closing nothing enters the queue, and queue plus running workers never rises and falls with every finished run |
| `ExecutorLaws.ClosedRunDrains` | novel_crawler/task_engine/executor.py:314-333 | over whole runs after closing, the queue only ever holds jobs that were in it, and the load never rises |
| `ExecutorLaws.PendingIsServed` | novel_crawler/task_engine/executor.py:375-412 | a pending resume stays until the worker finishes, which queues it again or rolls it back |
| `ExecutorLaws.RollbackLands` | novel_crawler/task_engine/executor.py:490-516 | a rollback that does not give up puts the record where it was to go, or finds it frozen by somebody else |
| `ExecutorObject.BackgroundTaskExecutor.Submit` | novel_crawler/task_engine/executor.py:149-168 | queue, marks and versions after the call |
| `ExecutorObject.BackgroundTaskExecutor.ScheduleActive` | novel_crawler/task_engine/executor.py:170-192 | a newer version of a scheduled record becomes a pending resume |
| `ExecutorObject.BackgroundTaskExecutor.ScheduleResumed` | novel_crawler/task_engine/executor.py:335-356 | the mark is set before the version is read and stays when that fails |
| `ExecutorObject.BackgroundTaskExecutor.Finish` | novel_crawler/task_engine/executor.py:390-412 | the final block of a worker: the pending resume is queued or handed back |
| `ExecutorObject.BackgroundTaskExecutor.Get` | novel_crawler/task_engine/executor.py:375-383 | first in, first out; a worker stops only when the queue is empty and closing is set |
| `ExecutorObject.BackgroundTaskExecutor.Shutdown` | novel_crawler/task_engine/executor.py:314-328 | closing is set and nothing else changes |
| `ExecutorWorker.TaskWorker.Work` | novel_crawler/task_engine/executor.py:375-412 | one turn of the worker loop, with others acting between any two of its calls, is a run of the machine that ends between two jobs or dead |
| `ExecutorWorker.TaskWorker.WorkInOrder` | novel_crawler/task_engine/executor.py:375-412 | after a turn of the loop, whatever others did meanwhile, queue and marks are in order if and only if no mark has leaked |
| `ExecutorWorker.TaskWorker.Claim` | novel_crawler/task_engine/executor.py:414-422 | the claim is a compare-and-swap on the version just read |
| `ExecutorWorker.TaskWorker.RunClaimed` | novel_crawler/task_engine/executor.py:424-467 | the handler loop, result and hand-off take the steps of the machine; what these write, say `ExecutorAnswers.ResultIsWritten` and the rows around it |
| `ExecutorWorker.TaskWorker.RecordFailure` | novel_crawler/task_engine/executor.py:469-488 | the failure loop reads anew before each of its attempts and ends without touching what others have stopped |
| `ExecutorWorker.TaskWorker.RollbackResume` | novel_crawler/task_engine/executor.py:490-516 | the rollback loop takes the steps of the machine |
| `ExecutorAnswers.EdgesAreThese` | novel_crawler/task_engine/models.py:28-110 | the table of transitions, read by where they lead |
| `ExecutorAnswers.TransitionAnswers` | novel_crawler/task_engine/repository.py:458-561 | when a transition is accepted, and the version it appends |
| `ExecutorAnswers.SubmittedIsClaimed` | novel_crawler/task_engine/executor.py:414-422 | a submitted record is claimed from CREATED for PROBING and from READY for CRAWLING, and not at all from any other status |
| `ExecutorAnswers.ResultIsWritten` | novel_crawler/task_engine/executor.py:432-448 | the result of a handler is appended and the worker goes on with the handler of the new status; a result that may not follow counts as a recoverable failure |
| `ExecutorAnswers.ReadyIsHandedOn` | novel_crawler/task_engine/executor.py:449-456 | from READY a record is handed straight on to CRAWLING |
| `ExecutorAnswers.RecoverableErrorIsRecorded` | novel_crawler/task_engine/executor.py:459-461 | a recoverable error appends exactly RECOVERABLE_FAILED, to resume in the status it happened in |
| `ExecutorAnswers.FatalErrorIsRecorded` | novel_crawler/task_engine/executor.py:462-464 | a fatal error appends exactly TERMINAL_FAILED |
| `ExecutorAnswers.FailureTriesAgain` | novel_crawler/task_engine/executor.py:469-488 | a failure whose write is overtaken is tried again with what is found then, three times in all |
| `ExecutorAnswers.WritesForAReason` | novel_crawler/task_engine/executor.py:414-516 | over any run a worker writes TERMINAL_FAILED only after its handler ended with a fatal error or returned just that, and COMPLETED, CANCELLED, WAITING_FOR_USER, VALIDATING, READY or CREATED only because its handler returned it |
| `ExecutorAnswers.SubmitAnswers` | novel_crawler/task_engine/executor.py:149-168 | reply and board of `submit`, spelled out |
| `ExecutorAnswers.ScheduleActiveAnswers` | novel_crawler/task_engine/executor.py:170-192 | reply and board of `schedule_active`, spelled out |
| `ExecutorAnswers.ScheduleResumedAnswers` | novel_crawler/task_engine/executor.py:335-356 | reply and board of `_schedule_resumed` when the repository can be read |
| `ExecutorAnswers.FinishAnswers` | novel_crawler/task_engine/executor.py:390-412 | queue and marks after the final block of a worker |
| `ExecutorAnswers.ResumeAnswers` | novel_crawler/task_engine/executor.py:200-220 | `resume` puts a stopped record back where it stopped, and only one that waits for its user is not scheduled then |
| `ExecutorAnswers.ResumedIsRun` | novel_crawler/task_engine/executor.py:200-232 | the next idle worker takes a resumed record, as claimed already if and only if it had been active |
| `ExecutorAnswers.RefusedIsUndone` | novel_crawler/task_engine/executor.py:223-231 | when the executor is closed or full the record goes back to where the resume found it |
| `ExecutorAnswers.RecoveryAnswers` | novel_crawler/task_engine/executor.py:234-257 | the recovery at a start makes active records RECOVERABLE_FAILED, to resume where they were |
| `LedgerLaws.ReserveKeepsBounds` | novel_crawler/browser/coordinator.py:118-151 | however a reservation ends, a bounded ledger stays bounded |
| `LedgerLaws.FinishKeepsBounds` | novel_crawler/browser/coordinator.py:153-173 | however finishing ends, a bounded ledger stays bounded |
| `LedgerLaws.RunsStayBounded` | novel_crawler/browser/coordinator.py:118-223 | over any run, clock and failing writes: at most `maximum` records per key, and no more records and keys than the limits |
| `LedgerLaws.UnusedReservationLeavesNoTrace` | novel_crawler/browser/coordinator.py:118-173 | reserving and finishing unconsumed restores the ledger up to expiry |
| `LedgerLaws.RepairIsIdempotent` | novel_crawler/browser/coordinator.py:688-706 | a settlement, consumed or not, whose write may have failed before or after the file was replaced and is repeated later leaves the ledger as if it had been settled only then |
| `LedgerLaws.SettlingAgainStands` | novel_crawler/browser/coordinator.py:153-173 | settling a consumed reservation twice at one time leaves the very same file |
| `AttemptLedgerObject.AttemptLedger.Read` | novel_crawler/browser/coordinator.py:183-223 | the reading loop keeps the unexpired attempts, drops empty keys and refuses a ledger that is too large |
| `AttemptLedgerObject.AttemptLedger.Write` | novel_crawler/browser/coordinator.py:225-232 | the file is replaced or not, as the failure says |
| `AttemptLedgerObject.AttemptLedger.Reserve` | novel_crawler/browser/coordinator.py:118-151 | file and reply after a reservation, undone when the write raises |
| `AttemptLedgerObject.AttemptLedger.Finish` | novel_crawler/browser/coordinator.py:153-173 | file and reply after settling |
| `AttemptLedgerObject.AttemptLedger.SettleOne` | novel_crawler/browser/coordinator.py:153-173 | the first attempt with the id is consumed or removed, the others stay in order |
| `LedgerAnswers.LiveCount` | novel_crawler/browser/coordinator.py:183-223 | as many attempts count as have not expired, used or not |
| `LedgerAnswers.ReserveAnswers` | novel_crawler/browser/coordinator.py:118-151 | an attempt is reserved if and only if fewer than the maximum of its key have not expired and there is room for a record and its key; it is added unused with its expiry, and what has expired is dropped |
| `LedgerAnswers.FailedReservationLeaves` | novel_crawler/browser/coordinator.py:139-151 | a reservation whose write raises does not stay, unless it was written and the repair was not |
| `LedgerAnswers.FinishAnswers` | novel_crawler/browser/coordinator.py:153-173 | a consumed attempt stays as used, an unconsumed one is taken out, and the others of its key stay in order |
| `LedgerAnswers.NothingToFinish` | novel_crawler/browser/coordinator.py:153-173 | settling one that is gone only drops what has expired, and does not touch a file in which nothing has |
| `CoordinatorLaws.PlayKeepsState` | novel_crawler/browser/coordinator.py:289-686 | over any interleaving each verification is live, quarantined or released as its lifecycle says, and an ended one is settled or owed by exactly one thread |
| `CoordinatorLaws.WonOnce` | novel_crawler/browser/coordinator.py:526-555 | once won, a verification keeps its one winning status and is over after any run, so the compare-and-set turns everybody else away |
| `CoordinatorLaws.TerminalStatusIsStable` | novel_crawler/browser/coordinator.py:494-524 | the status kept for a token never changes |
| `CoordinatorLaws.SettledExactlyOnce` | novel_crawler/browser/coordinator.py:526-686 | when all threads rest, each won verification has been settled with the ledger exactly once |
| `CoordinatorLaws.SettledAsCharged` | novel_crawler/browser/coordinator.py:526-673 | that one settlement charges the verification as the call did that won it: as its caller said, else unless it was completed, and for a notice if it had become active |
| `CoordinatorLaws.SlotsBounded` | novel_crawler/browser/coordinator.py:289-367 | live, quarantined and reserved slots never exceed `max_active` |
| `CoordinatorLaws.FreshSlotsOk` | novel_crawler/browser/coordinator.py:238-288 | a new coordinator is within its bound |
| `CoordinatorLaws.ReleasedForever` | novel_crawler/browser/coordinator.py:675-686 | a slot is freed once: a released verification never takes one again |
| `CoordinatorLaws.TakeKeepsFlagsIff` | novel_crawler/browser/coordinator.py:502-599 | a step keeps every record of required cleanup true if and only if it does not record a failed closing after the quarantine has ended |
| `CoordinatorLaws.FlagsTrueIffNeverLate` | novel_crawler/browser/coordinator.py:423-686 | over whole runs: the records are true all along if and only if none is recorded too late |
| `CoordinatorLaws.OnlyNoticesAreLate` | novel_crawler/browser/coordinator.py:423-451 | with the lock of a verification only the notice of a browser worker can be recorded too late |
| `CoordinatorLaws.CleanupFlagRegresses` | novel_crawler/browser/coordinator.py:423-451 | from a new coordinator: a retried cleanup succeeds between a notice and its record, which then asks for a cleanup that is refused |
| `CoordinatorAnswers.AdmittedIff` | novel_crawler/browser/coordinator.py:301-304 | a verification is admitted if and only if the live, quarantined and held slots are fewer than allowed |
| `CoordinatorAnswers.BegunIsActive` | novel_crawler/browser/coordinator.py:289-367 | begun without trouble it is active, and its slot is not held separately any more |
| `CoordinatorAnswers.RefusedGivesBack` | novel_crawler/browser/coordinator.py:305-331 | when the ledger refuses, or the browser cannot be had, the slot is given back, and in the second case the attempt is settled as not used |
| `CoordinatorAnswers.EndAnswers` | novel_crawler/browser/coordinator.py:526-599 | `_finish`: a live verification whose browser closes is released with its status recorded as clean, any other is quarantined and recorded as to be cleaned up; every end but a completion uses up the attempt unless the caller says otherwise; one that is over stays so |
| `CoordinatorAnswers.NotifyAnswers` | novel_crawler/browser/coordinator.py:632-673 | `_worker_terminal`: released or quarantined with the status of the notice, charged unless still pending; a notice for one that is not active waits |
| `CoordinatorAnswers.CleanupAnswers` | novel_crawler/browser/coordinator.py:423-451 | a retried cleanup that succeeds frees the slot and records the status as clean, and charges nothing |
| `CoordinatorObject.VerificationCoordinator.ReserveSlot` | novel_crawler/browser/coordinator.py:301-304 | the capacity check of `begin` |
| `CoordinatorObject.VerificationCoordinator.Enter` | novel_crawler/browser/coordinator.py:332-337 | a verification takes over its slot, and a notice that came too early is handed on |
| `CoordinatorObject.VerificationCoordinator.TryEnd` | novel_crawler/browser/coordinator.py:534-537 | the compare-and-set of `_finish` |
| `CoordinatorObject.VerificationCoordinator.Finish` | novel_crawler/browser/coordinator.py:526-599 | `_finish` without interference |
| `CoordinatorObject.VerificationCoordinator.WorkerTerminal` | novel_crawler/browser/coordinator.py:632-673 | `_worker_terminal` without interference |
| `CoordinatorObject.VerificationCoordinator.FinishCleanup` | novel_crawler/browser/coordinator.py:423-451 | the end of a retried cleanup |
| `CoordinatorObject.EndAloneIsItsSteps` | novel_crawler/browser/coordinator.py:526-599 | the whole call is what its atomic steps make of it, one after the other |
| `CoordinatorObject.NotifyAloneIsItsSteps` | novel_crawler/browser/coordinator.py:632-673 | the handling of a notice from the browser worker is what its atomic steps make of it |
| `Utf8.DecodeEncode` | novel_crawler/core/url_paths.py:34-55 | strict UTF-8 decoding undoes encoding |
| `Utf8.EncodeDecode` | novel_crawler/core/url_paths.py:34-55 | bytes that decode are the encoding of their decoding |
| `PathSegments.CanonicalSegmentIdempotent` | novel_crawler/core/url_paths.py:34-55 | the normal form of a segment is its own normal form |
| `PathSegments.CanonicalSegmentSameOctets` | novel_crawler/core/url_paths.py:34-55 | a segment and its normal form stand for the same bytes |
| `PathSegments.SameNormalForm` | novel_crawler/core/url_paths.py:34-55 | two segments have the same normal form if and only if they stand for the same bytes |
| `UrlPaths.CanonicalPathIdempotent` | novel_crawler/core/url_paths.py:11-31 | `canonical_path` is idempotent whenever it returns, whatever `urlsplit` does |
| `UrlPaths.PathShape` | novel_crawler/core/url_paths.py:11-55 | every result starts with a slash, has no empty or dot segment between slashes, and only unreserved characters or upper case escapes |
| `UrlPaths.SameCanonicalPath` | novel_crawler/core/url_paths.py:11-55 | two paths have the same normal form if and only if they stand for the same segments once dots are resolved, and agree on the trailing slash |
| `UrlPathLoops.CanonicalSegmentOf` | novel_crawler/core/url_paths.py:34-55 | the loop over escapes and characters computes that normal form |
| `UrlPathLoops.ResolveParts` | novel_crawler/core/url_paths.py:18-30 | the push and pop loop over the parts resolves the dot segments |
| `UrlPathLoops.CanonicalOf` | novel_crawler/core/url_paths.py:11-31 | the whole function on a bare path |
| `UrlPathLoops.CanonicalPathOf` | novel_crawler/core/url_paths.py:11-31 | the whole function on a URL or a path |
| `QueryLaws.ComponentSameOctets` | novel_crawler/core/storage.py:134-150 | a query component and its normal form stand for the same bytes |
| `QueryLaws.QueryIdempotent` | novel_crawler/core/storage.py:128-150 | the normal form of a query is its own normal form |
| `QueryLaws.CanonicalComponentOf` | novel_crawler/core/storage.py:134-150 | the loop over a component computes it |
| `ChapterUrlLaws.SplitUnsplit` | novel_crawler/core/storage.py:107-125 | on normal parts splitting undoes joining |
| `ChapterUrlLaws.CanonicalChapterUrlIdempotent` | novel_crawler/core/storage.py:107-125 | the normal form of a chapter address is its own normal form, given a `canonical_domain` whose results are host names that it returns for themselves; that it is one of the same address, scheme to query, says `AddressLaws.NormalFormSays` |
| `AddressLaws.SameChapterIff` | novel_crawler/core/storage.py:107-150 | two accepted addresses have the same normal form if and only if they agree in scheme, canonical host and the port that is talked to, their paths lead to the same segments and agree on the trailing slash, and their queries have as many fields with, field by field, the same equals sign and the same key and value, `+` told apart from `%2B` |
| `AddressLaws.NormalFormSays` | novel_crawler/core/storage.py:107-150 | an address and its normal form agree in all of this |
| `AddressLaws.SameQuery` | novel_crawler/core/storage.py:128-150 | two queries have one normal form if and only if they have the same fields; a query and its normal form do |
| `AddressLaws.SameComponent` | novel_crawler/core/storage.py:134-150 | two keys or values have one normal form if and only if they spell the same plus signs and bytes |
| `AddressLaws.AcceptedIff` | novel_crawler/core/storage.py:109-121 | which addresses are accepted, as they are written: scheme in any case of letters, no user or password, a port from 1 to 65535 or none, no control characters and no broken escapes |
| `AddressLaws.WrittenReads` | novel_crawler/core/storage.py:111-125 | an accepted address reads as it was written, part by part, and its fragment is lost |
| `AddressLaws.UpTakesBack` | novel_crawler/core/url_paths.py:11-35 | two dots take back the segment before them |
| `AddressLaws.NothingParts` | novel_crawler/core/url_paths.py:11-35 | empty segments and single dots do not count |
| `TemplateLaws.PathTemplateIsSound` | novel_crawler/core/url_paths.py:58-70 | the template of a path is accepted if and only if it is short and names no secret, and then matches the canonical path |
| `TemplateLaws.SiblingTemplateIsSound` | novel_crawler/core/url_paths.py:73-100 | the template of two siblings is accepted if and only if it is short and names no secret, and then matches the canonical forms of both |
| `TemplateLaws.RunsCover` | novel_crawler/core/url_paths.py:83-84 | the runs of a part leave nothing out, and each of them is a safe literal |
| `TemplateLaws.HoleMatches` | novel_crawler/adaptation/config_schema.py:91-97 | a part with one hole compiles to a pattern that matches any number in its place |
| `TemplateLoops.PathTemplateOf` | novel_crawler/core/url_paths.py:58-70 | the loop over the parts computes the template |
| `TemplateLoops.OnlyDifference` | novel_crawler/core/url_paths.py:78-80 | the single differing position of two lists, if there is exactly one |
| `TemplateLoops.DifferingRun` | novel_crawler/core/url_paths.py:82-96 | the single differing run of digits, if nothing else differs |
| `TemplateLoops.SiblingTemplateOf` | novel_crawler/core/url_paths.py:73-100 | the whole inferrer |
| `TemplateLoops.CompileOf` | novel_crawler/adaptation/config_schema.py:78-101 | the loop of `parse` over the parts |
| `TemplateAnswers.PathTemplateIs` | novel_crawler/core/url_paths.py:58-70 | numbers become `{int}`, hyphenated names behind the first part `{slug}`, and all else stays |
| `TemplateAnswers.PathTemplateAdmits` | novel_crawler/adaptation/config_schema.py:59-105 | the template of a path admits exactly the addresses with as many parts, a number where the path has one, a name where it has a hyphenated one, and the same text elsewhere |
| `TemplateAnswers.SiblingTemplateIff` | novel_crawler/core/url_paths.py:73-100 | two canonical paths have a common template if and only if their parts are the same but for one whole number, and it has `{int}` in place of that |
| `TemplateAnswers.PartAcceptedIff` | novel_crawler/adaptation/config_schema.py:80-101 | which parts a template may have |
| `TemplateAnswers.MatchIsByParts` | novel_crawler/adaptation/config_schema.py:102-105 | a pattern whose segments stay within their parts matches exactly the texts with as many parts, each of which matches its segment |
| `TreeWalk.TreeIO.SecureTreeSize` | novel_crawler/adaptation/registry_io.py:99-159 | the explicit stack returns the recursive byte sum exactly when the tree is a safe directory within the limits; every handle it opened is closed once, if and only if the first obstacle in the order of the walk is not a directory whose metadata cannot be read, and then one handle stays open |
| `TreeWalk.TreeIO.VisitTop` | novel_crawler/adaptation/registry_io.py:116-151 | one directory of the stack: its handle is closed however its scan ends, and what has been seen and what is left still add up to the tree |
| `TreeWalk.OrderOfTree` | novel_crawler/adaptation/registry_io.py:109-151 | the order of the walk lists what the recursive count, size and safety speak of |
| `TreeWalk.SafeIff` | novel_crawler/adaptation/registry_io.py:109-151 | a tree is safe if and only if it holds nothing but files and directories at any depth |
| `TreeWalk.LeaksIffBlind` | novel_crawler/adaptation/registry_io.py:126-131 | when nothing else can go wrong a handle is left open if and only if the tree has such a directory |
| `TreeWalk.BlindChildLeaks` | novel_crawler/adaptation/registry_io.py:126-131 | the smallest tree whose walk leaves a handle open |
| `TreeRemoval.PathsExtend` | novel_crawler/adaptation/registry_io.py:1182-1233 | the paths of a tree lie below its root |
| `TreeRemoval.ExpandedDue` | novel_crawler/adaptation/registry_io.py:1201-1220 | opening a directory changes nothing about which paths are still to be marked |
| `TreeRemoval.DropProgress` | novel_crawler/adaptation/registry_io.py:1193-1230 | marking an item with nothing left below it keeps children before parents |
| `TreeRemoval.WindowsTreeIO.SecureRemoveTree` | novel_crawler/adaptation/registry_io.py:1182-1233 | it succeeds exactly when the tree is a safe directory within the limit and nothing in it refuses to be marked; children are marked before parents, each path once, and every handle is closed however it ends |

## Left out

Of the modelled parts:

* Floating point time: deadlines are integers; no rounding is modelled.
* Unpaired surrogates: a character is a Unicode scalar value, so text that cannot be encoded at all does not occur.
* Locks: a block under `self._lock`, a write reservation, a registry lock or the coordinator's guard is one step, or one critical section that others do not enter. Cleanup after a failed commit is claimed for the threads of one `Storage` object only; the verification's own lock is ignored, which allows more interleavings than the code does.
* Store: `upsert_book`, logs and progress queries beyond the counts; that repeated upserts change nothing, which is not so; numerals of chapter titles.
- ChapterLaws.ValidatedCommitMatches: the error branch behind it, for a fenced UPDATE that matches no row, is shown to be dead and is not modelled further.
- BatchLaws.CompletedMeansDone: assumes that all runs under one id share book and first chapter, which `ForeignCheckpoints.CompletedWithoutWork` shows to be needed.
- BatchAnswers.CompletesIff: assumes that no exception handler runs after a commit; such a chapter is done and still to be tried again, and `BatchAnswers.RetryForbidsCompleted` says that a run which has one never ends COMPLETED.
- Deletion.Deleter.BuildManifest: the byte limit of a manifest and its sorted order are not modelled.
* Deletions do not interleave with the calls of the store or with batch runs: a job works on a disk that may have changed in any way before it begins (`Deletion.LateContentLostIff`), not while it works.
* Deletion: site names with separators, case folding and link resolution in the keys of other books' paths, and the migration of old manifests.
* Registry: directories and links within the scan, its entry limit, the byte limits of manifest and `register`, file locks and lock timeouts, lookup by URL and the listing calls.
- RegistryRuns.CutCallIsAtomic: holds for registries whose limit is at most 999999 files, the deployed one of 10000 among them; `LongVersionLosesHistory` says what happens beyond.
* Executor: `resume` and its undoing, the startup recovery and the calls that list records are steps of `ExecutorMachine` rather than methods, `pause` and `cancel` are steps of others; the deferred reconciler is left out.
- ExecutorWorker.TaskWorker.Work: may end inside the handler loop, at the bound that `RunClaimed` takes.
- ExecutorWorker.TaskWorker.RunClaimed: takes a bound on the turns of its loop, because handlers may send a record back and forth between two statuses for ever; at the bound the thread is still inside the loop. `_worker` is modelled one turn at a time for the same reason.
* Coordinator: `continue_verification` and the expiry sweep as whole calls (their ends are `_finish`), the table of pending ledger repairs, and waiting for another thread's terminal event. The size limit and the expiry of the terminal store are `Forget` steps.
- CoordinatorObject.VerificationCoordinator.Finish: the call as a whole without interference; its interleavings are those of `CoordinatorMachine`.
- CoordinatorObject.VerificationCoordinator.WorkerTerminal: the same holds for this call.
- CoordinatorLaws.SettledExactlyOnce: a settlement whose ledger write raised, and which waits in the repair table, counts as made; `LedgerLaws.RepairIsIdempotent` is about its repair.
* Ledger: the JSON form of the file and its locks; keys are the opaque keys.
- AddressLaws.AcceptedIff: is about addresses written with an authority, and without brackets around the host; so is `AddressLaws.WrittenReads`.
* URLs: the internals of `urlsplit` (brackets, normalisation of the authority) and of `canonical_domain`; templates that are absolute URLs or hold characters that `urlsplit` strips.
* Trees: the private-parent check and the POSIX removal. On Windows the metadata comes with the handle, so what can go wrong after opening a directory there is part of opening it, and the one leak of `SecureTreeSize` does not arise.

Of the rest of the repository: HTML parsing, scoring and site adapters; HTTP, DNS and proxies; Playwright
and its worker threads; browser sessions and the adaptive browser service; command line, web pages and
exporters; speech synthesis; redaction and compliance switches. They are foreign calls, heuristics, or
would add easy members only.
