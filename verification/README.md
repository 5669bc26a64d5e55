# A verified model of Imvault's stored content

Imvault keeps photographs and clips for several accounts. Identical uploads share one content
record and one set of stored objects; records live in SQLite, bytes in an object store, and no
transaction spans both. This project models the parts of Imvault where that is hard to get right,
and proves what they promise, over every input and every run.

- **Content lifecycle** (`ContentLock`, `Tables`, `Lifecycle*`): uploads, deduplication, deletion,
  sweeping, filtered copies, online backup and offline maintenance, as one state machine. Every SQL
  statement, object operation and lock operation is one step of one thread, any operation may fail (a
  write also after it took effect), the server may stop at any point, and threads interleave freely.
  The reference-count triggers are part of the insert and delete steps.
- **Metadata containers** (`Jpeg`, `Png`, `WebP`, `Gif`, `Selection`, `Tiff*`, `Attach*`, `Filter*`, `Exif*`): the
  strippers as byte walkers against a grammar with a parser and a printer, the Exif rebuild against
  the reader of the same package, and the filter that puts one category of metadata back.
- **Verified copy, backup and restore** (`Inventory`, `Copying`, `Restore`), and a backup that is taken
  while the server goes on (`BackupWhileServing`).
- **Ranged reading and multipart upload** (`S3Reader`, `Multipart`).
- **Rate limiting** (`RateLimit*`).

Walkers, writers, the reader, the limiter, the lock table and the maintenance loops are methods with
the loops and fields of the source; each is proved equal to, or a step of, a function about which the
theorems are stated. The multi-threaded protocol is a transition system over program counters.

## What was found

Some promises hold only under a condition. The code is modelled as it is; each case is stated with
the condition under which the promise holds, most of them with a concrete input that fails.

- `discardFailedUpload` (internal/web/dedup.go:252-263) takes any failure to read the content record
  for absence. If the read fails for another reason while the content is shared, objects of other
  files are deleted. `LifecycleFault.FaultyReadIsTheBoundary` shows exactly when that read can lead
  to a lost file, `LifecycleFault.AFileCanBeLost` gives a run from the first start of an installation
  in which it does, and `LifecycleSafety.StepKeepsInv` shows that no other step of the machine can,
  among them the other reads that fail.
- What an account is charged can come apart from what it owns by seven kinds of step, and by no others
  (`LifecycleAccounts.BalanceIsKeptExactly`); `LifecycleDrift` has a run from the first start of an
  installation for each. Four charge too much. `releaseStorage` only logs a release that fails
  (internal/web/handlers_upload.go:598-605); it runs on the context of the request, so a client that
  goes away during an upload can leave its account charged without a row
  (`LifecycleDrift.ReleaseFailureOvercharges`). A stop of the server leaves the claims of its uploads
  charged (`LifecycleDrift.StopOvercharges`), and so do a reservation and a deletion that take effect
  and still answer with an error. Three charge too little. `DeleteFile`
  (internal/store/files.go:369-374) does not look at whether a row was deleted, so two requests that
  have both loaded a file release its bytes twice (`LifecycleDrift.SecondDeletionUndercharges`).
  Recomputing the usage while uploads are in flight forgets their claims
  (`LifecycleDrift.RecountUndercharges`). And an insert that takes effect and still answers with an
  error is given back (`LifecycleDrift.UnheardInsertUndercharges`).
- Objects can be left behind with no record that names them, so that no sweep finds them again: when
  the server stops between saving an upload's objects and recording them, when the save of an original
  takes effect and answers with an error (such an upload discards nothing), and when what a failed
  upload wrote cannot be deleted. `LifecycleStranded` has a run from the first start for each, and
  `LifecycleStray.NothingIsStray` shows that nothing else leaves an object behind while a server runs,
  given that decoding a content gives the same answer every time. A restart with other rendition
  settings does so without any failure: the next upload of content on file stores renditions that its
  record never names (`LifecycleStranded.NewSettingsStrand`).
- A JPEG with a zero marker that carries a payload, behind a scan and a dropped comment, is not
  stable under stripping: the second pass reads the payload as markers
  (`Jpeg.ZeroMarkerIsNotStable`).
- The length of IHDR is not checked before a block is put behind it; without its 13 bytes the block
  may land inside a chunk (`Filter.ShortHeaderDisturbsThePicture`).
- When a GPS directory repeats a tag, the reader goes by the first entry of its type and the rebuild
  copies the first entry that can be read. So a location can be lost
  (`TiffMeaning.RepeatedTagLosesTheLocation`), and a payload whose fix is void can be rebuilt into
  one with a location (`TiffMeaning.RepeatedStatusGivesALocation`).
  `TiffMeaning.RebuildReadsFirstEntries` says what every rebuild reads as, and
  `TiffMeaning.LocationIsKeptExactly` when a location survives.
- The two GIF walkers disagree on an extension whose first block is empty
  (`Gif.EmptyFirstBlockDisagrees`).
- Collecting idle buckets is meant not to be observable. That holds if and only if the table has room
  for one key, or a bucket refills within the time it is kept, or all keys fit the table
  (`RateLimitNoticed.UnnoticedExactly`). With the default settings the limit on uploads is never
  affected, and the limit on logins is once more than ten thousand keys are seen
  (`RateLimitNoticed.DefaultLimiters`).
- Coordinates whose seconds round to 60.00 are written but not read back
  (`ExifRoundTrip.LocationRoundTrip`), such as a latitude of 59.996 seconds
  (`ExifRoundTrip.SixtySecondsAreLost`).
- A WebP whose RIFF size field is at most 4 strips to its bare header, whatever follows; in general a
  file does exactly when its body holds nothing but dropped chunks (`WebP.BareHeader`).

## Model

| member | source | states |
|---|---|---|
| `ContentLock.StepKeepsInv` | internal/web/content_lock.go:22-51 | every lock operation, in any interleaving and with cancellation, keeps: one holder at most per hash, tokens plus holders is one for each live entry, exact user counts, and no stale entry in use |
| `ContentLock.MutualExclusion` | internal/web/content_lock.go:17-42 | two threads never hold the lock of one hash at once |
| `ContentLock.ReleaseNeverBlocks` | internal/web/content_lock.go:36-41 | whoever releases finds the one-slot channel empty, so the send cannot block |
| `ContentLock.WaiterIsServed` | internal/web/content_lock.go:30-35 | a waiting thread can take the token or some thread holds it: nobody waits for a token that no longer exists |
| `ContentLock.TableIsExact` | internal/web/content_lock.go:44-51 | an entry is in the map exactly while some thread counts on it, so the map is empty when all have left |
| `ContentLock.RunIsSafe` | internal/web/content_lock.go:22-51 | all of this in every state of every run from the empty table |
| `ContentLock.ContentLocks.EnterTable` | internal/web/content_lock.go:22-29 | acquire's table step is the Enter step of the lock state machine |
| `ContentLock.ContentLocks.Receive` | internal/web/content_lock.go:30-35 | taking the token is the Take step |
| `ContentLock.ContentLocks.GiveUp` | internal/web/content_lock.go:30-33 | leaving because the request is over is the Cancel step, and takes no token along |
| `ContentLock.ContentLocks.Send` | internal/web/content_lock.go:36-41 | giving the token back is the Give step |
| `ContentLock.ContentLocks.Leave` | internal/web/content_lock.go:44-51 | releaseRef is the step that counts a thread out and drops an unused entry |
| `Tables.EnsureBlobCounted` | internal/store/blobs.go:39-51 | recording a content that may already be recorded keeps every reference count exact |
| `Tables.InsertCounted` | internal/store/files.go:71-126 | inserting a row keeps the counts exact if and only if its content is already recorded |
| `Tables.DeleteFilesCounted` | internal/db/migrations/011_blobs.sql:39-47 | deleting any set of rows keeps the counts exact |
| `Tables.CascadeRowByRow` | internal/store/users.go:365-379 | a cascade is the same as deleting its rows one at a time, trigger by trigger |
| `Tables.DropBlobCounted` | internal/store/blobs.go:141-156 | the conditional delete of an unreferenced content keeps counts exact and leaves no row without its content |
| `Tables.ReferencedIffNamed` | internal/models/models.go:450-480 | with exact counts a content is referenced exactly if some row names it |
| `Tables.RemovedUserLeavesNothing` | internal/store/users.go:365-379 | removing an account leaves no row of it, keeps every other row and charge, and the counts stay exact |
| `Tables.FirstCleanCopyStands` | internal/store/blobs.go:87-128 | the first clean copy of a content stands, a camera or location copy is replaced, and nothing else in the tables moves |
| `LifecycleSafety.ThreadStepKeepsInv` | internal/web/handlers_upload.go:318-538 | each step of an upload, reuse, release, sweep or copy, whatever write, lookup or storage operation fails in it, keeps the safety invariant for every content and every other thread, unless it is the faulty read; that a release also removes what it should is `LifecycleAbsence` |
| `LifecycleSafety.StepKeepsInv` | internal/web/dedup.go:133-263 | every enabled step of the whole system, crashes, maintenance and failing reads included, keeps the invariant unless it is the faulty read after a failed upload |
| `LifecycleSafety.InvIsSafe` | internal/web/dedup.go:200-263 | the invariant means: every row has its content with the right count, and original, thumbnail and preview are stored, the original with the content's own bytes |
| `LifecycleSafety.SoundWorldsStaySafe` | internal/web/cleanup.go:49-86 | every run from a sound world without a harmful faulty read stays sound and safe |
| `LifecycleSafety.EveryReachableWorldIsSafe` | internal/web/dedup.go:94-263 | every run of an installation from its first start stays safe, whatever reads fail (the lookup of an identical file, the record of a content to release or to copy), unless a harmful faulty read after a failed upload occurs in it |
| `LifecycleAbsence.StepKeepsClear` | internal/web/dedup.go:218-246 | every step of the whole system keeps: whatever a releasing thread's record names is still on its list or no longer stored, and none of it is stored once the thread is about to drop the record |
| `LifecycleAbsence.RecordGoesLast` | internal/web/dedup.go:230-240 | a step that takes a record away leaves none of the objects it names, by its fields, in the store |
| `LifecycleAbsence.EveryReleaseIsComplete` | internal/web/dedup.go:230-246 | in every run from first start, whatever fails and whenever the server stops: when a record goes, its original, thumbnail, preview and each filtered copy have gone before it |
| `LifecycleStray.StepKeepsTidy` | internal/web/dedup.go:248-263 | every step that strands nothing keeps: each stored original, thumbnail and preview is one of its content's objects, and a record or a thread inside the content lock answers for it |
| `LifecycleStray.NothingIsStray` | internal/web/dedup.go:200-263 | in every run from first start without a stop, without a failed save that wrote an original, and in which what failed uploads wrote can be deleted, with any other failure: every stored original, thumbnail and preview is named by its content's record, or a thread that holds its content is at work |
| `LifecycleStray.AtRestOnlyFilesAreStored` | internal/web/cleanup.go:49-86 | so once no thread is at work and no record is orphaned, every stored original, thumbnail and preview belongs to the content of some file |
| `LifecycleStray.RowsCarryTheExtension` | internal/web/handlers_upload.go:385-421 | in those runs a file's extension is the one under which its original is stored |
| `LifecycleStranded.StopStrands` | internal/web/handlers_upload.go:374-398 | a run from first start in which the server stops between the save of an original and its record, and the original stays behind with nothing recorded |
| `LifecycleStranded.FailedSaveStrands` | internal/web/handlers_upload.go:374-383 | the same, because the save of an original took effect and answered with an error |
| `LifecycleStranded.FailedPinStrands` | internal/web/handlers_upload.go:573-588 | the same, because the object lock could not be had to delete what a failed upload wrote |
| `LifecycleStranded.FailedDeletionStrands` | internal/web/handlers_upload.go:573-588 | the same, because one of those deletions was refused |
| `LifecycleStranded.NewSettingsStrand` | internal/web/dedup.go:60-85 | a run from first start in which every operation works: after a restart with other settings an upload of content on file leaves a thumbnail that no record names |
| `LifecycleCopies.StepKeepsCopied` | internal/web/metadata_filtered.go:27-71 | every step keeps: each copy that a referenced record names is stored, and a thread names a copy only when it has stored it |
| `LifecycleCopies.EveryCopyOnRecordIsStored` | internal/store/blobs.go:39-51 | in every run without a harmful faulty read, each filtered copy that the record of a file's content names is stored, under a key of that content and kind: a content recorded anew does not keep copies that a release has deleted |
| `LifecycleProgress.ReleaseFrees` | internal/web/dedup.go:218-246 | a release that finds its content orphaned, with every operation working, ends with the record gone and exactly the objects it named gone from the store |
| `LifecycleProgress.DiscardArrives` | internal/web/dedup.go:248-263 | what a failed upload leaves, with every operation working: without a record what it wrote is deleted, with an orphaned one the content is released, and content that a file has is not touched |
| `LifecycleProgress.UploadArrives` | internal/web/handlers_upload.go:318-428 | an upload inside the content lock that may be charged and fits, with every operation working, still or clip, ends with its row, its content recorded under today's settings unless a file has it already, and its objects stored |
| `LifecycleProgress.UploadIsStored` | internal/web/handlers_upload.go:559-571 | its original is there with the bytes of its hash, its renditions too, and no other object has changed |
| `LifecycleProgress.ReuseExactly` | internal/web/dedup.go:92-119 | an upload shares what is stored if and only if the row found has a record of the original under its extension with renditions of the running settings, or with a rebuilt thumbnail |
| `LifecycleProgress.ReuseArrives` | internal/web/dedup.go:133-198 | a reuse that may be charged and fits, with every operation working, ends with a row of its own, the content counted once more, and no object written |
| `LifecycleProgress.FourIdsAreTried` | internal/web/dedup.go:157 | a reuse begins with four attempts |
| `LifecycleProgress.TakenIdIsTriedAgain` | internal/web/dedup.go:157-197 | another id is tried if and only if this one was taken, the instance had room and attempts are left |
| `LifecycleProgress.CopyArrives` | internal/web/metadata_filtered.go:27-71 | a copy that is missing, or is to be made anew and is not the clean one, with every operation working is stored and named under its kind, and nothing else changes |
| `LifecycleFault.HonestReadsAreSafe` | internal/web/dedup.go:209-263 | when the read after a failed upload fails only for absence, every run of an installation from its first start is safe under any interleaving of uploads, reuses, deletes, sweeps and copies, with storage failures and crashes at any step |
| `LifecycleFault.HarmfulReadLosesContent` | internal/web/dedup.go:252-263 | if the record of a shared content cannot be read for another reason than absence, running the request on to its end leaves a file without one of its objects; a backup in progress delays that and no more |
| `LifecycleFault.FaultyReadIsTheBoundary` | internal/web/dedup.go:252-263 | from a sound world that read can lead, by otherwise careful steps, to a lost file if and only if it fails while the content is referenced and its record names an object about to be deleted |
| `LifecycleFault.HarmfulReadIsPossible` | internal/web/dedup.go:252-263 | a run from the first start of an installation, over an upload, a restart with other settings and an upload that fails, to a world in which that read is enabled |
| `LifecycleFault.AFileCanBeLost` | internal/web/dedup.go:252-263 | a run from the first start of an installation in which a file loses its content |
| `LifecycleBackup.StepKeepsFileLocks` | internal/instance/snapshot.go:12-35 | who holds which file lock: no deletion is pinned while a backup holds the object lock, and no older server runs beside it |
| `LifecycleBackup.HeldBackupKeepsEveryObject` | internal/instance/backup.go:20-31 | while a backup is held no step of anybody removes an object |
| `LifecycleBackup.StepKeepsPinned` | internal/web/handlers_upload.go:573-588 | every object that a referenced content of the snapshot names stays stored, step by step, whatever reads fail: a harmful read's deletions wait for the backup |
| `LifecycleBackup.BackupNeverMissesAnObject` | internal/maintenance/backup.go:53-98 | in every run in which no harmful faulty read comes before a snapshot is taken, from taking it to closing the backup, the copy can never meet a missing original, and what it reads are that content's bytes; after the snapshot any read may fail |
| `LifecycleBackup.EveryRunKeepsLocks` | internal/instance/snapshot.go:12-35 | in every run whatever, harmful reads included, who holds which file lock is kept and an original's key holds nothing but its own bytes |
| `LifecycleBackup.HeldBackupExcludes` | internal/instance/lock.go:16-71 | a held backup keeps out maintenance, another backup and an older server |
| `LifecycleAccounts.StepKeepsAccounts` | internal/store/users.go:391-464 | every step that charges nobody too much or too little keeps charges equal to owned sizes plus pending claims and releases, within quotas and the instance ceiling |
| `LifecycleAccounts.BalanceIsKeptExactly` | internal/web/handlers_upload.go:597-605 | from balanced books a step keeps them balanced if and only if it is none of: a release that fails, a stop with claims in flight, a reservation or deletion that takes effect unheard, an unchecked second deletion, a recount with claims in flight, an insert that takes effect unheard; and it leaves nobody charged too little if and only if it is none of the last three |
| `LifecycleAccounts.BooksBalance` | internal/web/dedup.go:152-197 | over every run without those steps the books balance and no limit is passed, and once all threads are done each account is charged exactly what it owns, however its uploads fared |
| `LifecycleAccounts.StepDrifts` | internal/web/handlers_upload.go:364-421 | every step of the system moves what an account is charged beyond its due by exactly so much: the debt of a failed release, the claims lost by a stop or forgotten by a recount, the bytes claimed, inserted or deleted unheard, minus the size released twice, and nothing for any other step |
| `LifecycleAccounts.NobodyIsUndercharged` | internal/store/users.go:391-464 | over every run without the three kinds of step that charge too little, with releases that fail, stops at any step and lost answers, no account is charged less than it owns and has pending, no limit is passed, and what it is charged too much is the sum of what the steps left |
| `LifecycleAccounts.FailedReleaseOvercharges` | internal/web/handlers_upload.go:597-605 | after a release that fails the tables are as before, and the account is charged what it owns, what is pending and the whole debt of the request |
| `LifecycleAccounts.RecomputeRepairs` | internal/store/users.go:501-515 | recomputing usage balances the books of any world if and only if nothing is in flight |
| `LifecycleAccounts.SecondDeletionIsDouble` | internal/web/handlers_upload.go:771-778 | when two requests have loaded one file the second deletion is such a step |
| `LifecycleDrift.ReleaseFailureOvercharges` | internal/web/handlers_upload.go:597-605 | a run from first start to an idle account that owns nothing and is charged, because an upload and its release failed |
| `LifecycleDrift.StopOvercharges` | internal/store/users.go:501-503 | the same, because the server stopped during an upload |
| `LifecycleDrift.UnheardClaimOvercharges` | internal/store/users.go:391-424 | the same, because a reservation took effect and answered with an error |
| `LifecycleDrift.UnheardDeletionOvercharges` | internal/web/handlers_upload.go:771-774 | the same, because a deletion took effect and answered with an error |
| `LifecycleDrift.SecondDeletionUndercharges` | internal/web/handlers_upload.go:771-778 | a run from first start to an idle account that owns a file and is charged nothing, because two requests deleted its other file |
| `LifecycleDrift.RecountUndercharges` | internal/store/users.go:501-515 | the same, because usage was recomputed during an upload |
| `LifecycleDrift.UnheardInsertUndercharges` | internal/store/files.go:107-124 | the same, because an insert took effect and answered with an error |
| `Png.ParsePrint` | internal/metadata/strip.go:258-291 | reading a printed chunk list gives the list, whatever follows IEND |
| `Png.ParseIsPrint` | internal/metadata/strip.go:258-291 | what the walk accepts is a complete chunk list at the front of the data |
| `Png.Strip` | internal/metadata/strip.go:258-291 | the loop of stripPNG computes the kept chunks printed behind the signature, and refuses exactly what does not parse |
| `Png.StripKeepsThePicture` | internal/metadata/strip.go:258-291 | the output's chunks are exactly the kept chunks with nothing after IEND, and stripping again changes nothing |
| `Png.ThePictureStays` | internal/metadata/strip.go:226-291 | the output is the signature and, byte for byte and in order, exactly the chunks that are none of tEXt, zTXt, iTXt, eXIf and tIME; every critical chunk is among them |
| `WebP.FlagBits` | internal/metadata/strip.go:355-362 | clearing the metadata flags is stable, and undoes setting the Exif flag |
| `WebP.FlagIsSet` | internal/metadata/filter.go:113-121 | setting the Exif flag sets bit 0x08 and no other |
| `WebP.Strip` | internal/metadata/strip.go:319-373 | the loop of stripWebP computes the kept chunks, flags cleared, with the RIFF size repaired |
| `WebP.StripKeepsThePicture` | internal/metadata/strip.go:319-373 | the output's chunks are exactly the kept ones with flags cleared, its RIFF size is its length less eight without wrapping, and stripping again changes nothing |
| `WebP.ThePictureStays` | internal/metadata/strip.go:300-373 | the output holds, byte for byte and in order, exactly the chunks that are neither EXIF nor XMP, but for the bits 0x08 and 0x04 of the flags, which are clear while the six others are kept |
| `WebP.BareHeader` | internal/metadata/strip.go:319-373 | a file strips to its bare header if and only if its body holds dropped chunks and nothing else, and always when its size field is at most 4 |
| `Gif.LoopNameIsInside` | internal/metadata/strip.go:498-544 | an application block that carries the loop name contains all eleven bytes of it, however short its declared first block |
| `Gif.SkipSubBlocks` | internal/metadata/strip.go:564-578 | the sub-block loop finds where the chain ends |
| `Gif.SkipImage` | internal/metadata/strip.go:548-561 | skipping an image finds where its block ends |
| `Gif.ScanExtension` | internal/metadata/strip.go:507-544 | scanning an extension finds where it ends, or refuses an unknown label |
| `Gif.Strip` | internal/metadata/strip.go:436-495 | the loop of stripGIF computes the header, the kept blocks and the trailer |
| `Gif.StripKeepsThePicture` | internal/metadata/strip.go:436-495 | the output's blocks are exactly the kept blocks byte for byte with nothing after the trailer, and stripping again changes nothing |
| `Gif.ThePictureStays` | internal/metadata/strip.go:436-495 | the output is the header, the screen descriptor and the palette, then byte for byte and in order exactly the images, the graphic controls and the NETSCAPE2.0 blocks, then the trailer |
| `Gif.BlocksAreTheInput` | internal/metadata/strip.go:436-495 | the blocks walked over are the input, one behind the other, up to the trailer |
| `Gif.GifFrameCount` | internal/media/gif.go:29-135 | the frame counter's loop and its own skippers over a stream compute the count, forgiving data that stops |
| `Gif.SkipChain` | internal/media/gif.go:120-135 | the counter's sub-block loop leaves the reader behind the chain, or past the end of the data |
| `Gif.SkipGifImage` | internal/media/gif.go:97-109 | skipping descriptor, palette, code size and chain leaves the reader behind the image |
| `Gif.SameImage` | internal/media/gif.go:97-135 | the counter's skipping of an image ends where the stripper's does |
| `Gif.WalkersAgree` | internal/media/gif.go:29-135 | for every GIF the stripper accepts whose sized first blocks are filled, the frame count is the number of image blocks, capped at 100,001, and stripping does not change it |
| `Gif.EmptyFirstBlockDisagrees` | internal/media/gif.go:29-135 | a GIF of twenty bytes on which the two walkers differ |
| `Jpeg.ParsePrint` | internal/metadata/strip.go:111-209 | reading back a printed item list gives the list if and only if no scan in it is followed at once by a restart or zero marker |
| `Jpeg.ReadMarker` | internal/metadata/strip.go:198-209 | readJPEGMarker skips exactly the fill bytes |
| `Jpeg.JpegScanEnd` | internal/metadata/strip.go:175-195 | the loop finds where entropy-coded data ends: stuffed zeros and restart markers belong to it |
| `Jpeg.Strip` | internal/metadata/strip.go:111-167 | the loop of stripJPEG computes the kept items between one start and one end of image |
| `Jpeg.StripKeepsThePicture` | internal/metadata/strip.go:90-209 | re-parsing the output gives exactly the kept segments in order, each scan byte for byte, one end of image and nothing after it, if and only if no kept scan is followed at once by a restart or zero marker |
| `Jpeg.ThePictureStays` | internal/metadata/strip.go:78-109 | by marker numbers, for every accepted image: the output is byte for byte and in order every marker alone, every scan, every segment below 0xE0 or from 0xF0 to 0xFD, and of the application segments exactly 0xE0 with JFIF, 0xE2 with ICC_PROFILE and 0xEE with Adobe; no comment |
| `Jpeg.ItemsAreTheInput` | internal/metadata/strip.go:111-209 | the items are the input, with nothing but fill bytes between them; no marker lies in a scan's data, and a scan ends only before a marker that is neither a stuffed zero nor a restart |
| `Jpeg.StripTwice` | internal/metadata/strip.go:111-167 | stripping the output again returns it unchanged unless a zero marker follows a scan and its restart markers, also when the scan runs off the end |
| `Jpeg.StripTwiceWithoutZero` | internal/metadata/strip.go:111-167 | in particular for every accepted input without a zero marker in segment position |
| `Jpeg.OrdinaryImagesAreStable` | internal/metadata/strip.go:90-209 | for every accepted image with neither a restart nor a zero marker in segment position, the output re-parses to exactly the kept items and strips to itself |
| `Jpeg.ZeroMarkerIsNotStable` | internal/metadata/strip.go:111-167 | an accepted input whose output strips to something else |
| `Tiff.Entry` | internal/metadata/gps.go:115-125 | the loop finds the first entry with this tag, type and count |
| `Tiff.LocationIsWhole` | internal/metadata/gps.go:76-149 | a location is complete or absent, and within 90 and 180 degrees |
| `TiffSelection.WidthsAreExact` | internal/metadata/filter_tiff.go:88-107 | the widths of the twelve TIFF types, and of no other |
| `TiffSelection.ReadableExactly` | internal/metadata/filter_tiff.go:88-107 | a value is read if and only if it has 1 to 4096 bytes and lies in its slot or inside the payload behind the header, and then it is those bytes |
| `TiffSelection.SelectIsExact` | internal/metadata/filter_tiff.go:68-86 | selected is exactly the first readable entry of each listed tag, with its type, count and value, in the order in which they stand |
| `TiffSelection.BlockExactly` | internal/metadata/filter_tiff.go:32-66 | a payload has a block of a category if and only if it is a TIFF with a readable entry of a listed tag in that category's directories and what is copied has at most 65,527 bytes |
| `TiffSelection.LocationIsLettered` | internal/metadata/gps.go:127-184 | a location comes from letters and three rationals: N or S at tag 1, E or W at tag 3, degrees, minutes below 60 and seconds below 60 at tags 2 and 4, with no V at tag 9; it is those numbers with that sign |
| `TiffSelection.LetteredIsLocated` | internal/metadata/gps.go:127-184 | and every payload so written, on the globe and with a fix, gives that latitude and longitude |
| `TiffSelection.AltitudeIsRead` | internal/metadata/gps.go:127-149 | a location has an altitude if and only if there is a rational at tag 6 and a 0 or 1 at tag 5, and then it is that number, negative below the sea |
| `TiffSelection.HeadersAreExact` | internal/metadata/gps.go:76-98 | a payload is a TIFF exactly if it has eight bytes and begins with II and 42 in little or MM and 42 in big endian |
| `TiffSelection.DirectoryExactly` | internal/metadata/gps.go:100-113 | a directory is read if and only if its count, its entries and the link behind them lie inside the payload behind its header |
| `TiffSelection.EntriesAreTwelveBytes` | internal/metadata/gps.go:115-125 | the k-th entry is the k-th twelve bytes: tag, type, count, slot |
| `TiffFilter.SelectedEntries` | internal/metadata/filter_tiff.go:68-86 | the loop selects the first readable entry of each allowed tag, in order |
| `TiffFilter.WriteDirectory` | internal/metadata/filter_tiff.go:129-148 | one turn of the writer fills a directory's space with its count and rows and puts the values behind everything so far |
| `TiffFilter.Encode` | internal/metadata/filter_tiff.go:109-153 | the in-place writer produces header, directories and values laid out one behind the other, or nothing above 65,527 bytes |
| `TiffFilter.FilteredTiff` | internal/metadata/filter_tiff.go:32-66 | filteredTIFF selects from both directories and encodes |
| `TiffRoundTrip.LayoutReadsBack` | internal/metadata/filter_tiff.go:109-153 | for all fields, reading the written payload gives both directories back entry by entry: tag, type, count and value bytes, with outside values at even offsets inside the payload |
| `TiffMeaning.RebuildKeepsTheSelection` | internal/metadata/filter_tiff.go:32-153 | what is selected from a rebuilt block is exactly what was selected from the original |
| `TiffMeaning.RebuildTwice` | internal/metadata/filter_tiff.go:32-153 | rebuilding a rebuilt block gives it back byte for byte |
| `TiffMeaning.OnlyAllowedTags` | internal/metadata/filter_tiff.go:7-25 | nothing but allow-listed tags and the one pointer reaches a block, and only the directory asked for |
| `TiffMeaning.CameraBlockHasNoLocation` | internal/metadata/filter_tiff.go:43-50 | a camera block never reads as a location |
| `TiffMeaning.LocationRoot` | internal/metadata/filter_tiff.go:43-66 | the first directory of a location block holds the pointer to the GPS directory and no other entry |
| `TiffMeaning.LocationIsKept` | internal/metadata/gps.go:76-184 | a location block reads as the original's location, latitude, longitude and altitude or none, when no tag a location is read from is repeated |
| `TiffMeaning.RebuildReadsFirstEntries` | internal/metadata/filter_tiff.go:68-86 | what a location block reads as, for every payload: the meaning of the first readable entry of each of the seven tags, as far as it has the reader's type and count |
| `TiffMeaning.LocationIsKeptExactly` | internal/metadata/gps.go:127-166 | a payload with a location keeps latitude and longitude if and only if the first readable entries of tags 1 to 4 have the reader's type and count, and has none otherwise; one with an altitude keeps all of it if and only if tags 5 and 6 do too |
| `TiffMeaning.LocationIsNotOverlooked` | internal/metadata/filter_tiff.go:62-66 | any payload with a location is left without a block only when the block would be too long |
| `TiffMeaning.RepeatedTagLosesTheLocation` | internal/metadata/filter_tiff.go:68-86 | a payload with a repeated tag that has a location while its rebuild has none |
| `TiffMeaning.RepeatedStatusGivesALocation` | internal/metadata/gps.go:127-131 | a payload whose fix is void, and so has no location, while its rebuild has one |
| `Attach.JpegBlockIsStripped` | internal/metadata/filter.go:37-44 | the block becomes one APP1 segment whose 16-bit length does not wrap, and stripping drops it: everything else is read as without it |
| `Attach.PngBlockIsStripped` | internal/metadata/filter.go:45-54 | a block put where a chunk ends strips away and leaves the stripped file |
| `Attach.ThirteenBytesAreABoundary` | internal/metadata/filter.go:46-49 | a chunk ends there when IHDR has its 13 bytes |
| `AttachWebP.AttachWebPExif` | internal/metadata/filter.go:109-134 | the loop sets the flag in place on every flag chunk, appends the padded block and repairs the size, or refuses |
| `AttachWebP.AttachNeedsFlags` | internal/metadata/filter.go:109-134 | over a stripped file's chunks it succeeds exactly if there is a flag chunk |
| `AttachWebP.WebPBlockIsStripped` | internal/metadata/filter.go:109-134 | stripping a file with an attached block gives the stripped file back if and only if its size fits the RIFF header |
| `Filter.Strip` | internal/metadata/strip.go:27-41 | the dispatch over the five formats |
| `Filter.BmpStripsOnce` | internal/metadata/strip.go:385-393 | stripping a bitmap again changes nothing and it stays a bitmap |
| `Filter.BmpIsCut` | internal/metadata/strip.go:385-393 | a bitmap is cut at the size in its header, unless that is below the header's own or beyond the data |
| `Filter.MagicIsExact` | internal/metadata/strip.go:27-51 | the five formats by their first bytes, and no other |
| `Filter.FormatIsKept` | internal/metadata/strip.go:27-41 | a stripped file is of the format it was |
| `Filter.FindTiffs` | internal/metadata/filter.go:63-107 | the walk over PNG and WebP finds the payloads of the Exif chunks, in order |
| `Filter.FilterFile` | internal/metadata/filter.go:19-59 | Filter returns the original, the stripped file, or the stripped file with the first rebuildable block |
| `Filter.FilterThenStrip` | internal/metadata/filter.go:19-134 | whenever a category is withheld, stripping the result gives the stripped original: always for GIF and BMP, for JPEG exactly when the stripped file strips to itself, for WebP exactly below the size limit, for PNG when a chunk ends at the place of the block |
| `Filter.FilterTwice` | internal/metadata/filter.go:63-134 | in a PNG or WebP the block is what a reader finds first, filtering again changes nothing, a camera-only file gives no location and a location-only file gives the location of the first readable entries of its source |
| `FilterServes.ListsAreExact` | internal/metadata/filter_tiff.go:12-25 | the allow-lists by number, both ways: which tags may be copied, and that maker notes, comments, owners and serial numbers are not among them |
| `FilterServes.OneCategoryIsServed` | internal/metadata/filter.go:19-59 | in every format: both categories kept is the file itself, none is the stripped file, and one is the stripped file with a block of exactly that category made from one of the payloads, or as it is when no payload has any |
| `FilterServes.JpegServesOneCategory` | internal/metadata/filter.go:28-44 | a JPEG of which one category is kept, byte for byte: behind the start of image one APP1 segment with the block, then the stripped file; with camera data kept the block gives no location and has only camera and exposure tags, with the location kept it has a GPS directory alone, with the location of its payload |
| `FilterServes.PngServesOneCategory` | internal/metadata/filter.go:45-54 | a PNG of which one category is kept, byte for byte: the first 33 bytes, one eXIf chunk with the block and the checksum of type and block, then the rest of the stripped file |
| `FilterServes.EveryPayloadIsFound` | internal/metadata/filter.go:63-107 | the search finds the payload of every Exif chunk, each and in order, in every PNG that is accepted and every WebP that is all chunks |
| `Filter.ShortHeaderDisturbsThePicture` | internal/metadata/filter.go:45-54 | a PNG with a two-byte IHDR for which every block disturbs the picture |
| `ExifWrite.CameraDirectory` | internal/exifwrite/exifwrite.go:101-122 | the builder writes the texts that are given and the two pointers |
| `ExifWrite.ExposureDirectory` | internal/exifwrite/exifwrite.go:124-145 | the builder writes the exposure values that are given |
| `ExifWrite.LocationDirectory` | internal/exifwrite/exifwrite.go:147-177 | the builder writes references, sexagesimal coordinates and altitude |
| `ExifWrite.AppendDir` | internal/exifwrite/exifwrite.go:275-288 | a directory is appended with zeros where its offsets belong |
| `ExifWrite.AppendData` | internal/exifwrite/exifwrite.go:243-257 | the values are appended padded to even lengths, and their offsets are where they are |
| `ExifWrite.PatchDirectory` | internal/exifwrite/exifwrite.go:259-273 | the second pass turns exactly the placeholder slots into offsets |
| `ExifWrite.LayOut` | internal/exifwrite/exifwrite.go:213-271 | both passes together give header, three directories and the data area one behind the other |
| `ExifRoundTrip.BlockReadsBack` | internal/exifwrite/exifwrite.go:213-271 | all three directories read back with their entries, the second and third through the pointers of the first |
| `ExifRoundTrip.ValuesAreHeld` | internal/exifwrite/exifwrite.go:243-257 | the values of one directory lie behind those of the last, to the end of the payload |
| `ExifRoundTrip.ValueHasItsPlace` | internal/exifwrite/exifwrite.go:213-271 | each outside value lies at the even offset its slot names, and the next begins behind it |
| `ExifTags.EveryGivenTagIsWritten` | internal/exifwrite/exifwrite.go:101-145 | in the written block each text and value that was given stands in its directory under its Exif number, 0x010F and 0x0110 for make and model to 0xA434 for the lens, and a tag that was not given does not stand there |
| `ExifTags.PositionIsLettered` | internal/exifwrite/exifwrite.go:147-177 | a position is written with N or S and E or W by its sign, its altitude above or below the sea, and its degrees, minutes and seconds under tags 2 and 4 |
| `ExifRoundTrip.LocationRoundTrip` | internal/exifwrite/exifwrite.go:147-209 | a written location is read back if and only if the rounded seconds of both coordinates stay below 60.00, and then each coordinate has its sign and is within 1/720000 of a degree and the altitude within 1/20 of a metre |
| `ExifRoundTrip.RoundsToSixty` | internal/exifwrite/exifwrite.go:196-209 | seconds are written as 60.00 if and only if they are at least 59.995 |
| `ExifRoundTrip.SixtySecondsAreLost` | internal/exifwrite/exifwrite.go:196-209 | a position of 59.996 seconds north is written and reads as no location |
| `ExifRoundTrip.NoLocationRoundTrip` | internal/exifwrite/exifwrite.go:147-177 | without a location none is read |
| `Inventory.PageIsAPrefix` | internal/store/blobs.go:69-85 | a page is ascending, not empty while there is more, and skips nothing before its last hash |
| `Inventory.EachBlob` | internal/maintenance/objects.go:27-47 | keyset paging visits each referenced content exactly once, in order, and ends |
| `Inventory.Visit` | internal/maintenance/objects.go:67-86 | one content is added to the inventory, or refused exactly for an invalid key or an original already taken |
| `Inventory.TakeInventory` | internal/maintenance/objects.go:57-98 | an inventory is made exactly of consistent databases, and holds every path of referenced contents once, originals with size and hash |
| `Copying.CopyVerified` | internal/maintenance/objects.go:127-153 | one verified copy: what it answers and what the destination holds afterwards, whatever the storage does |
| `Copying.CopyInventory` | internal/maintenance/objects.go:173-192 | the loop over an inventory, with derived objects that are missing passed over |
| `Copying.NothingIsOverwritten` | internal/maintenance/objects.go:124-153 | no copy ever changes or removes an object that was in the destination, nor adds one the inventory does not name |
| `Copying.SuccessMeansEqual` | internal/maintenance/objects.go:170-192 | a successful run leaves every original and every existing derived object equal to the source and returns exactly those |
| `Copying.MigrationResumes` | internal/maintenance/objects.go:124-165 | from whatever an interrupted run left, a rerun that succeeds makes the destination equal, changes nothing that was there, and a further run saves nothing |
| `Copying.LuckyRunSucceeds` | internal/maintenance/objects.go:127-192 | when the storage works a run succeeds exactly if the source has every original as recorded and the destination holds nothing that differs |
| `Restore.ValidateManifest` | internal/maintenance/restore.go:115-134 | a manifest is accepted exactly if its version and names are right, every entry is sealed with a valid key, and no key occurs twice |
| `Restore.ValidateInventory` | internal/maintenance/restore.go:149-178 | a manifest's objects are accepted exactly if the database is consistent, names them all, and every referenced original is among them as recorded |
| `Restore.RestoreInstance` | internal/maintenance/restore.go:24-83 | what is published is faithful to a restorable backup, and with working storage exactly the restorable backups are published |
| `Restore.EveryFileHasItsOriginal` | internal/maintenance/restore.go:24-83 | after a restore every file row has its original present with the recorded size and hash, given accurate counts |
| `Restore.BackupInstance` | internal/maintenance/backup.go:53-146 | what is published lists exactly the objects copied, each verified, passes the checks of a restore, and holds every object that a referenced row names and the source has, thumbnails, previews and filtered copies included, with the source's bytes; with working storage it is published if and only if the snapshot opens and is consistent and the store has every referenced original as recorded |
| `Restore.BackupIsWhole` | internal/maintenance/objects.go:173-192 | a successful copy of an inventory into an empty destination has all of that and nothing else |
| `Restore.BackupComesBack` | internal/maintenance/restore.go:24-83 | a restore brings back the database, the secret and every object of the backup, and so everything the source had of what the database names |
| `Restore.BackupIsAccepted` | internal/maintenance/backup.go:126-146 | a successful copy of an inventory passes the manifest and inventory checks |
| `Restore.BackupsAreRestorable` | internal/maintenance/restore.go:24-62 | a published backup can be restored if and only if none of its objects is called imvault.db or secret.key, given a readable manifest |
| `BackupWhileServing.StoreIsComplete` | internal/maintenance/backup.go:53-98 | at every moment a backup is held whose snapshot was taken before any harmful faulty read, the store has every original in the inventory of its snapshot, with the recorded hash and length |
| `BackupWhileServing.CopyOverIsCopy` | internal/maintenance/objects.go:173-192 | a copy whose source changes between entries is a copy of what it has seen |
| `BackupWhileServing.BackupSucceeds` | internal/maintenance/backup.go:53-146 | whatever the server does between the copies of an online backup, failing reads of every kind included, while its locks are held and its own storage works, and given that no harmful faulty read came before the snapshot, every entry is copied, the result can be restored, and it holds the original of every file of the snapshot with its bytes and length, and every thumbnail and preview its records name |
| `S3Reader.Reader.OpenRange` | internal/storage/s3_reader.go:64-81 | one request for a non-empty range of at most one mebibyte inside the object, and a body only if the reply names that very range |
| `S3Reader.Reader.Read` | internal/storage/s3_reader.go:31-62 | a read returns the object's bytes at the offset, as many as asked for and delivered, reports the end only there, and answers with an unexpected end if and only if the connection ended with bytes of the range missing, with a failure if and only if the body failed, and with a refusal or an invalid range if and only if a reply was asked for and did not name the range |
| `S3Reader.Reader.Seek` | internal/storage/s3_reader.go:83-106 | a position is accepted exactly if it is a non-negative 64-bit number, nothing overflows, and a refused seek changes nothing |
| `S3Reader.Reader.Close` | internal/storage/s3_reader.go:115-119 | closing drops the body |
| `S3Reader.ReadsAreTheObject` | internal/storage/s3_reader.go:19-62 | over every history of reads and seeks, what was read since the last seek is the object from there on, and all of it when the end is reported |
| `S3Reader.RunScript` | internal/storage/s3_reader.go:19-119 | a reader driven by any script of reads and seeks, over any replies and interruptions, produces a history that follows the script; what was read since the last accepted seek is the object from there to where it stands, and a read of at least one byte that gives none and no error leaves a live connection |
| `Multipart.UploadParts` | internal/storage/s3.go:215-232 | the parts are numbered from one, lie side by side and cover the file, all but the last are of the one size of at least 16 MiB, and there are at most 10,000 |
| `Multipart.PartsAreAsSmallAsCanBe` | internal/storage/s3.go:215-220 | the size of the parts is the least of at least 16 MiB with which 10,000 parts are enough |
| `Multipart.LargeFilesAreInRange` | internal/storage/s3.go:215-232 | no offset wraps for files of up to nine exabytes |
| `RateLimit.AllowKeepsTheTable` | internal/ratelimit/ratelimit.go:85-127 | map and list hold the same keys, each once and no more than fit, with the key just used in front |
| `RateLimit.Limiter.Request` | internal/ratelimit/ratelimit.go:85-110 | Allow collects, touches and spends as the specification does; a disabled limiter allows everything |
| `RateLimit.Limiter.Touch` | internal/ratelimit/ratelimit.go:116-127 | a known key moves to the front, a new one makes room by dropping the last |
| `RateLimit.Limiter.Remove` | internal/ratelimit/ratelimit.go:129-132 | a key leaves map and list together |
| `RateLimit.Limiter.Collect` | internal/ratelimit/ratelimit.go:147-164 | visiting the buckets in any order drops exactly the idle ones that have refilled |
| `RateLimitRuns.AnswersAreIdeal` | internal/ratelimit/ratelimit.go:14-19 | until a key is pushed out, every answer it gets is that of its own bucket kept for ever |
| `RateLimitRuns.CollectionIsUnobservable` | internal/ratelimit/ratelimit.go:145-164 | whatever the policy, the answers to a key are the same with and without collection until it is pushed out in one of them; when that is so for all runs, `UnnoticedExactly` says |
| `RateLimitRuns.RoomForAll` | internal/ratelimit/ratelimit.go:116-127 | nothing is pushed out of a table with room for every key of the run |
| `RateLimitRuns.NeverMoreThanTheRate` | internal/ratelimit/ratelimit.go:85-110 | in every window of every run a key is allowed at most the burst and the rate over the window, until it is pushed out |
| `RateLimitRuns.WaitingIsEnough` | internal/ratelimit/ratelimit.go:85-110 | whoever waits as long as a refusal says is allowed |
| `RateLimitBurst.WaitIsExact` | internal/ratelimit/ratelimit.go:104-109 | after a refusal the next request of the key is allowed if and only if the named time has passed, whatever other keys do meanwhile |
| `RateLimitBurst.FullBudgetAtOnce` | internal/ratelimit/ratelimit.go:112-127 | of the requests a new key makes at once the first are allowed, as many as the burst, and no more |
| `RateLimitBurst.MadeLimiterGrantsItsBurst` | internal/ratelimit/ratelimit.go:64-80 | for the limiters New makes: exactly the burst |
| `RateLimitRuns.ListIsByRecency` | internal/ratelimit/ratelimit.go:37-41 | the list is always in the order of last use |
| `RateLimitRuns.TheLeastRecentlyUsedGoes` | internal/ratelimit/ratelimit.go:112-127 | every key that stays was used after the one that is pushed out |
| `RateLimitCollection.ListIsByAge` | internal/ratelimit/ratelimit.go:37-41 | the further behind in the list, the longer ago a bucket was used |
| `RateLimitCollection.CollectionIsSilent` | internal/ratelimit/ratelimit.go:145-164 | in a table of one key, or when a bucket refills in the time it is kept, every request of every run gets the answer it would get without collection, however many keys are pushed out: the collecting table is the front of the other, and what is behind has refilled |
| `RateLimitNoticed.NoticingRun` | internal/ratelimit/ratelimit.go:112-164 | for every other policy and any keys one more than its table holds, a run whose last answer collection changes |
| `RateLimitNoticed.UnnoticedExactly` | internal/ratelimit/ratelimit.go:85-164 | for keys from a given set, no run notices collection if and only if the table has room for one key only, the burst is at most what comes in over the time a bucket is kept, or all keys fit |
| `RateLimitNoticed.MadeLimiters` | internal/ratelimit/ratelimit.go:64-80 | for the limiters New makes: if and only if the burst is at most a quarter of the hourly rate or there are at most 10,000 keys |
| `RateLimitNoticed.DefaultLimiters` | internal/config/config.go:205-229 | by default the limit on uploads is never affected, the limit on logins exactly with more than 10,000 keys |

## Left out

- Jpeg.StripTwice: one direction only. An output behind whose scans a zero marker stands may by accident of its bytes still strip to itself; what decides it is the second parse itself.
- Attach.PngBlockIsStripped: one direction only. A block put inside a chunk may by accident of the following bytes still strip away.
- Gif.WalkersAgree: one direction only. With an empty first block the walkers may by accident of the following bytes still agree.
- LifecycleStray.NothingIsStray: one direction only. The named events may leave nothing behind, when what was written is recorded after all; and a stop is one of the events even when nothing is at work, because the settings may change with it.
- LifecycleProgress.UploadArrives: from inside the content lock; taking and leaving it is `ContentLock`. A release, an upload and a copy are each followed alone, without other threads between their steps.
- The tables, the store and the threads of the lifecycle are values in a transition system, not objects: steps of different threads interleave, which methods on shared objects could not express. Aliasing of rows is not captured.
- The file locks of internal/instance are the reader and writer positions they allow, released when a process exits; creating lock files, resolving paths and polling are not modelled.
- RateLimit.Limiter.Touch: the list holds keys rather than elements that point at buckets; the bucket of a key is looked up in the map.
- RateLimitRuns.WaitingIsEnough: the wait is the exact number of seconds; the source cuts it to whole nanoseconds.
- Inventory.TakeInventory: the order of the list, which the source sorts by key for its progress lines, is left open.
- Restore.BackupInstance: its store stands still during the copy; uploads during it are in `BackupWhileServing`, whose copy is a function. What the storage does depends on the key alone, which is no restriction, because an inventory has each key once. The copy budget, the directory's staging names and file modes, and the encoding of the manifest are not modelled; whether the manifest stays within 64 MiB is a parameter.
- Restore.ValidateManifest: a checksum is a hash or it is not; the spelling of hexadecimal digits is not modelled.
- Multipart.UploadParts: sizes within a part of 2^63 bytes are outside, because there the next offset would not fit 64 bits.
- Filter.FilterFile: what the library scanner finds in a JPEG is a parameter, as is the checksum of a PNG chunk.
- Attach.JpegBlockIsStripped: that the library scanner finds the attached segment again is not stated, because the scanner is not part of this model.
- AttachWebP.AttachWebPExif: offsets are unbounded integers, as on a 64-bit platform.
- S3Reader.Reader.Read: the object does not change and a reply that names a range carries bytes of it; the entity tag that guards this in the source is not modelled.
- ExifRoundTrip.LocationRoundTrip: coordinates are exact reals; rounding of 64-bit floats is not modelled. The same holds for tokens and times of the limiter.
- Merging the container library's GPS reading with the scanned one (internal/metadata/gps.go:22-69).
- Details, visibility, albums, tags, trash listing and every table that does not bear on stored content.
- Rendering, probing and transcoding: which renditions an upload gets is arbitrary, and in `LifecycleStray` the same for the same content.
- SHA-256 is collision-free, so a hash stands for its content; random ids are fresh.
- Copying a whole directory to disk, flushing it and renaming it into place are one atomic publication.
