# Duplicati compaction and storage connectors, modelled in Dafny

This project models the core of Duplicati's compaction pass and of a dozen of
its storage connectors and stream utilities.

The compaction pass (`CompactHandler`) does four things:
- it deletes remote volumes that hold no live block;
- it downloads the volumes worth compacting and copies their live blocks
  into fresh block volumes (each with an index volume, unless the index
  policy is "none");
- it seals and uploads a new volume whenever it grows past the volume size,
  then deletes the sources already fully read;
- it tallies what it downloaded, uploaded and deleted.

The local database is a value (`Db`): the remote volume rows, index links,
and the block → volume map. It has a committed snapshot, so commit and
rollback are modelled. Every call to the backend and every database change
is appended to a ghost event log. Lemmas about the replay of that log state
the ordering rules:
- a volume is deleted only after it was marked `Deleting` and that mark was
  committed;
- a dry run issues no commit, upload or delete;
- a sealed volume exceeds the volume size by at most its last block.

The connectors are:
- Microsoft Graph (OneDrive): path normalisation, options, upload-session
  fragments and retries, quota, response check, folder walk.
- Google: resumable chunked upload (shared), and Google Drive queries,
  paging, the folder walk and the name → entries cache.
- Dropbox: upload-session chunk schedule and error mapping.
- Sia: target-path clean-up, listing filter, download check.
- OpenStack Swift: URL joining, prefix, option checks, endpoint choice,
  paged listing.
- Backblaze B2: configuration cache with expiry and retry budget.
- WebDAV: credentials, path and port, href → name, status mapping.
- Mega: the name → nodes cache.
- SSH/SFTP: path, port, credentials, cumulative folder creation, host-key
  trust, directory change, listing.

Each connector keeps its state as the source does: a class whose fields the
methods update, with functions for the pure parts. The network is an input:
replies, status codes, listings, pages and clocks are parameters. The calls
made to a remote service are recorded where the order matters.

Two stream helpers are modelled over byte arrays:
- `PartialStream`: a read-only window of a source stream;
- `TempMemoryFile`: an in-memory temporary file with a snapshot for readers.

`Common` holds the string and option helpers the modules share: splitting,
prefix and suffix tests, ASCII case folding, and first and newest index
searches.

Where Duplicati's documented behaviour and its code differ, the model
follows the code, except for the defects under "## Findings": each is
modelled as written, and the rest of the model uses its corrected
version (the differences this makes are under "## Left out"):
- A stop request makes `DoCompact` return false, and `Run` then still
  commits the transaction.
- A new volume is sealed only after its size has grown past the volume
  size, so a sealed volume may exceed that size by its last block.
- When only reclaiming (no compaction), the new Temporary volumes opened
  for the pass are not deregistered.

## Model

| member | source | states |
|---|---|---|
| CompactStore.StateOf | Duplicati/Library/Main/Operation/CompactHandler.cs:119 | a volume name has a state iff a row with that name exists |
| CompactStore.StateOfRow | Duplicati/Library/Main/Operation/CompactHandler.cs:119 | with distinct names, the state looked up for a row's name is that row's state |
| CompactStore.StateOfAppend | Duplicati/Library/Main/Operation/CompactHandler.cs:107 | after appending a row, a name already present keeps its state, the new row's name gets the new row's state, any other name stays absent |
| CompactStore.Filter | Duplicati/Library/Main/Operation/CompactHandler.cs:119 | exactly the rows meeting the criterion are kept, and distinct names stay distinct |
| CompactStore.RemoteList | Duplicati/Library/Main/Operation/CompactHandler.cs:119 | the remote list is exactly the Uploaded and Verified volumes |
| CompactStore.Selected | Duplicati/Library/Main/Operation/CompactHandler.cs:127-129 | the volumes picked from the remote list are exactly those whose names the report lists |
| CompactStore.GetDeletableVolumes | Duplicati/Library/Main/Operation/CompactHandler.cs:286 | exactly the candidates that own no live block are deletable |
| CompactStore.UpdateRemoteVolume | Duplicati/Library/Main/Operation/CompactHandler.cs:287-288 | only the rows with the name get the new state and size; row order, names, types and every other row are unchanged |
| CompactStore.StateOfUpdate | Duplicati/Library/Main/Operation/CompactHandler.cs:288 | after an update, a name's state is the new state if it is the updated name, else its old state |
| CompactStore.UpdateKeepsDistinct | Duplicati/Library/Main/Operation/CompactHandler.cs:288 | updating a row keeps the names distinct |
| CompactStore.UpdateKeepsAbsent | Duplicati/Library/Main/Operation/CompactHandler.cs:288 | updating a row does not bring an absent name into the table |
| CompactStore.RemoveRemoteVolume | Duplicati/Library/Main/Operation/CompactHandler.cs:211-214 | exactly the rows with other names remain |
| CompactStore.StateOfRemove | Duplicati/Library/Main/Operation/CompactHandler.cs:211 | after removal the name has no state; other names keep theirs |
| CompactStore.MoveBlock | Duplicati/Library/Main/Operation/CompactHandler.cs:173 | an unknown block is an error; otherwise only that block is re-pointed, to the target volume |
| CompactStore.MarkKeepsNoOrphans | Duplicati/Library/Main/Operation/CompactHandler.cs:286-288 | marking a volume that owns no live block as Deleting leaves no live block in a Deleting volume |
| CompactStore.MoveKeepsNoOrphans | Duplicati/Library/Main/Operation/CompactHandler.cs:173 | re-pointing a block to a volume that is not Deleting keeps that invariant |
| CompactStore.RegisterKeepsNoOrphans | Duplicati/Library/Main/Operation/CompactHandler.cs:107 | registering a new Temporary volume keeps that invariant |
| CompactStore.RemoveKeepsNoOrphans | Duplicati/Library/Main/Operation/CompactHandler.cs:211-214 | deregistering a volume keeps that invariant |
| CompactAudit.SealedBound | Duplicati/Library/Main/Operation/CompactHandler.cs:176-178 | a volume sealed as soon as it passed the limit exceeds the limit by at most its last block |
| CompactAudit.DryRunWritesNothing | Duplicati/Library/Main/Operation/CompactHandler.cs:293-297 | a log that replays in dry-run mode holds no Commit, Put or Delete |
| CompactAudit.SealsWithinVolumeSize | Duplicati/Library/Main/Operation/CompactHandler.cs:176-178 | every sealed volume in a replayable log is within the volume size plus its last block |
| CompactAudit.ReplayExplained | Duplicati/Library/Main/Operation/CompactHandler.cs:286-299 | every pending name was marked Deleting before; every ready or deleted name was marked and then committed |
| CompactAudit.DeletesFollowCommittedMarks | Duplicati/Library/Main/Operation/CompactHandler.cs:283-300 | every Delete in a replayable log is preceded by a MarkDeleting of that name and then a Commit |
| CompactAudit.MarkAllKeepsOthers | Duplicati/Library/Main/Operation/CompactHandler.cs:287-288 | marking a list of volumes leaves the state of every unlisted name unchanged |
| CompactAudit.SumNonNegBounds | Duplicati/Library/Main/Operation/CompactHandler.cs:228-230 | the reported size is non-negative and at least every non-negative entry |
| CompactAudit.SumNonNegAppend | Duplicati/Library/Main/Operation/CompactHandler.cs:228-230 | the reported size of two lists together is the sum of their sizes |
| Compaction.CompactHandler.constructor | Duplicati/Library/Main/Operation/CompactHandler.cs:36-41 | the handler keeps its options, live blocks and database; the database is also the committed snapshot; the log is empty and nothing is being read |
| Compaction.CompactHandler.CommitTransaction | Duplicati/Library/Main/Operation/CompactHandler.cs:295-296 | the committed snapshot becomes the current database, a Commit is logged, and the volumes marked Deleting so far become committed marks |
| Compaction.CompactHandler.RollbackTransaction | Duplicati/Library/Main/Operation/CompactHandler.cs:77 | the database returns to the committed snapshot, a Rollback is logged, and uncommitted marks and reads are dropped |
| Compaction.CompactHandler.RegisterVolume | Duplicati/Library/Main/Operation/CompactHandler.cs:107 | a fresh name, absent from the table, is appended as a Temporary volume of unknown size (-1) |
| Compaction.CompactHandler.LinkIndexVolume | Duplicati/Library/Main/Operation/CompactHandler.cs:114 | the index-to-block-volume link is added |
| Compaction.CompactHandler.DeregisterVolume | Duplicati/Library/Main/Operation/CompactHandler.cs:211-214 | the rows with that name are removed; everything else is unchanged |
| Compaction.CompactHandler.MoveBlockToNewVolume | Duplicati/Library/Main/Operation/CompactHandler.cs:173 | a known block is re-pointed to the Temporary target; an unknown block is BlockNotFound and changes nothing |
| Compaction.CompactHandler.MarkVolumeDeleting | Duplicati/Library/Main/Operation/CompactHandler.cs:288 | a volume that owns no live block and is not being read becomes Deleting with its size, and its name is an uncommitted mark |
| Compaction.CompactHandler.PerformDelete | Duplicati/Library/Main/Operation/CompactHandler.cs:323-334 | one name/size pair is reported per volume; a Delete is logged for each unless it is a dry run; outside a dry run every volume must carry a committed mark |
| Compaction.CompactHandler.DeleteVolume | Duplicati/Library/Main/Operation/CompactHandler.cs:326-329 | one volume's Delete is logged, unless it is a dry run, and the audit state is unchanged |
| Compaction.CompactHandler.MarkEachDeleting | Duplicati/Library/Main/Operation/CompactHandler.cs:286-288 | every listed volume is marked Deleting in order, and each is an uncommitted mark |
| Compaction.CompactHandler.MarkNext | Duplicati/Library/Main/Operation/CompactHandler.cs:286-288 | one iteration: the next listed volume is marked Deleting and becomes an uncommitted mark, the log gains its MarkDeleting event, and the volumes before it stay marked |
| Compaction.CompactHandler.DoDelete | Duplicati/Library/Main/Operation/CompactHandler.cs:283-300 | exactly the candidates that own no live block are marked Deleting; then the wait, then (not in a dry run) a Commit that makes the marks committed, then one Delete each; every marked volume is reported |
| Compaction.CompactHandler.CommitAndDelete | Duplicati/Library/Main/Operation/CompactHandler.cs:291-299 | the wait comes before the Commit, and the Commit before the Deletes; a dry run logs only the wait and commits nothing |
| Compaction.CompactHandler.FinishVolumeAndUpload | Duplicati/Library/Main/Operation/CompactHandler.cs:302-321 | a volume within the volume size plus its last block is sealed and recorded as uploaded with its index; a Put is logged only when not a dry run |
| Compaction.CompactHandler.StartVolume | Duplicati/Library/Main/Operation/CompactHandler.cs:106-115 | a new empty block volume with a fresh name is registered as Temporary, plus an index volume iff the policy is not "none"; the existing rows and block owners are unchanged |
| Compaction.CompactHandler.RegisterBlockVolume | Duplicati/Library/Main/Operation/CompactHandler.cs:106-107 | a fresh name is registered as a Temporary volume; the existing rows and block owners are unchanged |
| Compaction.CompactHandler.StartIndexVolume | Duplicati/Library/Main/Operation/CompactHandler.cs:110-114 | a fresh index volume is registered and linked to the block volume, whose state is unchanged |
| Compaction.CompactHandler.Rollover | Duplicati/Library/Main/Operation/CompactHandler.cs:176-196 | the full volume and its index are recorded as uploaded; exactly the waiting volumes that own no live block are deleted and recorded; afterwards a new empty Temporary volume is open, the block count is 0, nothing waits for deletion, block owners are unchanged, and a dry run has committed nothing |
| Compaction.CompactHandler.OpenPassVolume | Duplicati/Library/Main/Operation/CompactHandler.cs:106-115 | the pass starts with a new open Temporary volume, a block count of 0 and no read volumes waiting for deletion |
| Compaction.CompactHandler.CopyBlock | Duplicati/Library/Main/Operation/CompactHandler.cs:160-197 | a block not in use changes nothing (database, log, open volume, count); a live block read with the wrong size is a SizeMismatch and an unknown one BlockNotFound, with database and log unchanged; otherwise the block is re-pointed to the open volume; if that volume stays within the volume size the block is appended and the count grows by one; otherwise the volume and its index are uploaded, the waiting volumes that own no live block are deleted, and a fresh empty volume is open with nothing waiting |
| Compaction.CompactHandler.AppendBlock | Duplicati/Library/Main/Operation/CompactHandler.cs:169-174 | an unknown block is BlockNotFound and changes nothing; otherwise the block is appended to the open volume and its index, re-pointed to it, and the count grows by one |
| Compaction.CompactHandler.AppendAndRollover | Duplicati/Library/Main/Operation/CompactHandler.cs:169-196 | an unknown block is BlockNotFound and changes nothing; otherwise the block is re-pointed, the full volume and its index are uploaded, the waiting volumes that own no live block are deleted, and a new empty volume is open with nothing waiting |
| Compaction.CompactHandler.RollFull | Duplicati/Library/Main/Operation/CompactHandler.cs:176-196 | the full volume and its index are uploaded, exactly the waiting volumes without live blocks are deleted, and a new empty volume is open; block owners are unchanged |
| Compaction.CompactHandler.CopyLiveBlocks | Duplicati/Library/Main/Operation/CompactHandler.cs:158-199 | on success every live block of the volume was read with its indexed size and is now owned by a volume created in this pass; blocks only move into new volumes; every deleted volume was waiting and owns no live block; every uploaded volume is new; if a live block was copied, the open volume holds a block or a volume was uploaded |
| Compaction.CompactHandler.CopyNext | Duplicati/Library/Main/Operation/CompactHandler.cs:160-197 | one iteration: after the next block, the blocks copied so far were read with their indexed sizes and are owned by new volumes |
| Compaction.CompactHandler.StartPass | Duplicati/Library/Main/Operation/CompactHandler.cs:106-130 | the remote list is exactly the Uploaded and Verified volumes; exactly those of them the report names as deletable that own no live block are deleted and recorded; a new volume is open, nothing is being read, the upload and download lists start empty, and block owners are unchanged |
| Compaction.CompactHandler.DeleteKeepingOpen | Duplicati/Library/Main/Operation/CompactHandler.cs:126-130 | exactly the given volumes that own no live block are deleted and recorded, while the open volume stays valid |
| Compaction.CompactHandler.CompactVolume | Duplicati/Library/Main/Operation/CompactHandler.cs:146-202 | a stop waits for the backend, returns false and changes neither the database nor the transfer lists; otherwise the volume is recorded as downloaded; any other early end is an error; on success its live blocks are owned by new volumes and it joins the volumes waiting for deletion (alone, after a rollover) |
| Compaction.CompactHandler.ReadVolume | Duplicati/Library/Main/Operation/CompactHandler.cs:156-201 | the volume is recorded as downloaded; an early end is an error; on success nothing is being read, its live blocks are owned by new volumes, and it joins the volumes waiting for deletion (alone, after a rollover) |
| Compaction.CompactHandler.StartReading | Duplicati/Library/Main/Operation/CompactHandler.cs:156 | the volume is recorded as downloaded and is being read |
| Compaction.CompactHandler.EndReading | Duplicati/Library/Main/Operation/CompactHandler.cs:201 | the volume is no longer being read and joins the volumes waiting for deletion |
| Compaction.CompactHandler.WaitAfterDownload | Duplicati/Library/Main/Operation/CompactHandler.cs:150-153 | the log ends with the wait for the backend |
| Compaction.CompactHandler.CloseVolume | Duplicati/Library/Main/Operation/CompactHandler.cs:205-217 | a volume holding blocks is uploaded and the table is unchanged; an empty one and its index volume are removed from the table and nothing is uploaded |
| Compaction.CompactHandler.DeleteAndTally | Duplicati/Library/Main/Operation/CompactHandler.cs:226-238 | exactly the waiting volumes that own no live block are deleted and recorded; then the result is the tally of the transfers, the backend has been waited for, block owners are unchanged, and the return is "deleted + uploaded > 0" |
| Compaction.CompactHandler.TallyAndWait | Duplicati/Library/Main/Operation/CompactHandler.cs:228-274 | the result is the tally of the three transfer lists (counts and non-negative size sums), the backend has been waited for, and the return is "deleted + uploaded > 0" |
| Compaction.CompactHandler.EndPass | Duplicati/Library/Main/Operation/CompactHandler.cs:205-238 | when compacting, a last volume holding blocks is uploaded with its index, and nothing else is; exactly the waiting volumes that own no live block are deleted; the result is the tally, the backend has been waited for, and the return is "deleted + uploaded > 0" |
| Compaction.CompactHandler.CloseIfCompacting | Duplicati/Library/Main/Operation/CompactHandler.cs:205-217 | when compacting, a last volume holding blocks is uploaded with its index; otherwise nothing is uploaded; block owners are unchanged |
| Compaction.CompactHandler.CompactVolumes | Duplicati/Library/Main/Operation/CompactHandler.cs:140-203 | a stop returns false after waiting for the backend; any other early end is an error; otherwise every volume to download was found and recorded as downloaded, in order; the volumes left waiting for deletion are the last of them; every live block they held is owned by a new volume; if there was one, the open volume holds a block or a volume was uploaded |
| Compaction.CompactHandler.DownloadEach | Duplicati/Library/Main/Operation/CompactHandler.cs:146-203 | the loop over the volumes to download: a stop returns false after waiting; any other early end is an error; otherwise every volume was downloaded in order and its live blocks moved into new volumes |
| Compaction.CompactHandler.CompactNext | Duplicati/Library/Main/Operation/CompactHandler.cs:146-202 | one iteration: a stop at this volume returns false after waiting; otherwise the first i + 1 volumes are downloaded and their live blocks moved |
| Compaction.CompactHandler.DoCompact | Duplicati/Library/Main/Operation/CompactHandler.cs:90-281 | without reclaim or compact it returns false and changes neither database nor log; a listing mismatch without a verified backend is RemoteListMismatch; a stop returns false after waiting; a dry run never commits; on success the report's deletable volumes that own no live block are deleted, every deleted volume was listed and owns no live block, blocks only move into new volumes, and every upload is a new volume; when compacting, exactly the compactable volumes are downloaded, their live blocks end up in new volumes, and if there was one the return is true; the result is the tally and the return is "deleted + uploaded > 0" |
| Compaction.CompactHandler.CompactPass | Duplicati/Library/Main/Operation/CompactHandler.cs:98-271 | the same guarantees as DoCompact once the remote list is accepted: the deletable volumes that own no live block are deleted; only listed volumes without live blocks are deleted; blocks only move into new volumes; uploads are new volumes; without compaction nothing is uploaded or downloaded; with it, exactly the compactable volumes are downloaded and their live blocks moved, and then the return is true; the result is the tally |
| Compaction.CompactHandler.CopyAndEnd | Duplicati/Library/Main/Operation/CompactHandler.cs:137-270 | without compaction nothing is moved, uploaded, downloaded or deleted here; with it, the volumes to download are downloaded in order, their live blocks end up in new volumes, only waiting volumes without live blocks are deleted, uploads are new volumes, and a moved block makes the return true; the result is the tally |
| Compaction.CompactHandler.CompactAndEnd | Duplicati/Library/Main/Operation/CompactHandler.cs:137-238 | the volumes to download are downloaded in order, their live blocks end up in new volumes, only waiting volumes without live blocks are deleted, uploads are new volumes, and a moved block makes the return true; the result is the tally |
| Compaction.CompactHandler.EndCompactedPass | Duplicati/Library/Main/Operation/CompactHandler.cs:205-238 | after closing the last volume and deleting the waiting ones, the result is the tally, the backend has been waited for, block owners are unchanged, and if a live block was moved the return is true |
| Compaction.CompactHandler.Run | Duplicati/Library/Main/Operation/CompactHandler.cs:43-88 | a missing database is DatabaseMissing and changes nothing; otherwise the run ends with the database equal to the committed snapshot; a dry run never commits; an error ends with a Rollback; a successful run's log ends with the closing events of EndEvents; outside a dry run, blocks are only moved into new volumes, every deleted volume was listed and owns no live block, and after a compaction that was not stopped every live block read from a compacted volume is owned by a new volume |
| Compaction.CompactHandler.RunPass | Duplicati/Library/Main/Operation/CompactHandler.cs:47-79 | with the database present: the run ends with the database equal to the committed snapshot; a dry run never commits; an error ends with a Rollback; success ends with EndEvents; outside a dry run the reclaim and compaction guarantees of DoCompact hold of the committed owners |
| Compaction.CompactHandler.EndRun | Duplicati/Library/Main/Operation/CompactHandler.cs:59-79 | the log grows by exactly EndEvents; afterwards the database equals the committed snapshot |
| Compaction.CompactHandler.EndEvents | Duplicati/Library/Main/Operation/CompactHandler.cs:59-79 | the closing events are never empty; the verification file is uploaded first iff something changed and it is wanted; a dry run ends with a Rollback and never commits; otherwise there is a Commit and no Rollback |
| Compaction.CompactHandler.CloseRun | Duplicati/Library/Main/Operation/CompactHandler.cs:59-85 | a failed pass is rolled back, keeping the committed snapshot and ending the log with a Rollback; a pass that did not fail appends exactly EndEvents and commits the pass unless this is a dry run |
| Compaction.CompactHandler.CloseTransaction | Duplicati/Library/Main/Operation/CompactHandler.cs:62-79 | not in a dry run: a Commit, then the results and (if asked) a vacuum when anything changed; in a dry run: a Rollback; afterwards the database equals the committed snapshot |
| MicrosoftGraph.NormalizeSlashes | Duplicati/Library/Backend/OneDrive/MicrosoftGraphBackend.cs:830-841 | the result has no backslash, starts with '/' unless it is empty, and is at most one character longer or shorter than the fragment |
| MicrosoftGraph.NormalizeSlashesContent | Duplicati/Library/Backend/OneDrive/MicrosoftGraphBackend.cs:830-841 | after its leading '/', the result is the fragment with every '\' turned into '/' and one leading and one trailing '/' removed |
| MicrosoftGraph.NormalizeSlashesEmpty | Duplicati/Library/Backend/OneDrive/MicrosoftGraphBackend.cs:823 | "" stays "" |
| MicrosoftGraph.NormalizeSlashesAddsLead | Duplicati/Library/Backend/OneDrive/MicrosoftGraphBackend.cs:824 | "test" becomes "/test" |
| MicrosoftGraph.NormalizeSlashesDropsTrailing | Duplicati/Library/Backend/OneDrive/MicrosoftGraphBackend.cs:825 | "test/" becomes "/test" |
| MicrosoftGraph.NormalizeSlashesBackslash | Duplicati/Library/Backend/OneDrive/MicrosoftGraphBackend.cs:826 | "a\b" becomes "/a/b" |
| MicrosoftGraph.NormalizeSlashesKeepsSecondSlash | Duplicati/Library/Backend/OneDrive/MicrosoftGraphBackend.cs:837-838 | only one trailing '/' is removed: "a//" becomes "/a/" |
| MicrosoftGraph.NormalizeFresh | Duplicati/Library/Backend/OneDrive/MicrosoftGraphBackend.cs:830-841 | a fragment with no backslash and no leading '/' just gains a leading '/' and loses one trailing '/' |
| MicrosoftGraph.FragmentSize | Duplicati/Library/Backend/OneDrive/MicrosoftGraphBackend.cs:119-132 | the size is always a multiple of 320 KiB within [320 KiB, 60 MiB]; the default is 10 MiB; a parsed size in range is rounded down to a multiple; smaller sizes become 320 KiB and larger ones 60 MiB |
| MicrosoftGraph.RetryCountAsWritten | Duplicati/Library/Backend/OneDrive/MicrosoftGraphBackend.cs:134-138 | as written: a parsed count is taken as it is, including 0 or less; the default is 5 |
| MicrosoftGraph.RetryCountAsWrittenAllowsZero | Duplicati/Library/Backend/OneDrive/MicrosoftGraphBackend.cs:134-138 | as written, a configured count of 0 reaches the fragment loop unchanged, so that loop makes no attempt |
| MicrosoftGraph.FragmentRetryCount | Duplicati/Library/Backend/OneDrive/MicrosoftGraphBackend.cs:134-138 | the count is at least 1; the default is 5; a positive parsed count is kept |
| MicrosoftGraph.Configure | Duplicati/Library/Backend/OneDrive/MicrosoftGraphBackend.cs:112-144 | the configuration is refused iff the auth id is missing or empty; otherwise it keeps the auth id, the retry delay given (or the default), the fragment size FragmentSize computes (a multiple of 320 KiB within range) and the corrected retry count, which equals the count as written whenever the parsed count is at least 1 |
| MicrosoftGraph.UsesSinglePut | Duplicati/Library/Backend/OneDrive/MicrosoftGraphBackend.cs:443-444 | a single PUT is used iff the length is below 4,000,000 |
| MicrosoftGraph.Quota | Duplicati/Library/Backend/OneDrive/MicrosoftGraphBackend.cs:255-273 | no quota without a facet or when total, remaining and used are all 0; otherwise total and remaining |
| MicrosoftGraph.CheckResponse | Duplicati/Library/Backend/OneDrive/MicrosoftGraphBackend.cs:771-788 | success passes; 404 is "item not found"; any other status is a Graph error carrying that status |
| MicrosoftGraph.Classify | Duplicati/Library/Backend/OneDrive/MicrosoftGraphBackend.cs:577-646 | the last attempt gives up; 5xx waits 2^attempt × delay; other 4xx except 404 retry at once; everything else gives up |
| MicrosoftGraph.PutLarge | Duplicati/Library/Backend/OneDrive/MicrosoftGraphBackend.cs:481-665 | the session is created first, and a create-session reply that CheckResponse refuses ends the upload with that error, nothing else sent, as ParseResponseAsync's throw does; after a created session, with no attempt allowed nothing else is sent and the result is success; otherwise fragment k spans [k × size, min((k+1) × size, length)) and carries the total length; every fragment's requests and waits are those its replies call for (Attempts); success means every fragment was accepted and the spans tile [0, length); a failure names the offset of the first fragment not accepted and ends by cancelling the session |
| MicrosoftGraph.Attempts | Duplicati/Library/Backend/OneDrive/MicrosoftGraphBackend.cs:522-660 | the attempts on one fragment: at most the retry count of PUTs, none when no attempt is allowed |
| MicrosoftGraph.AttemptsAccepted | Duplicati/Library/Backend/OneDrive/MicrosoftGraphBackend.cs:546-660 | a fragment is accepted iff a PUT was sent and the last one was accepted |
| MicrosoftGraph.AttemptsDelays | Duplicati/Library/Backend/OneDrive/MicrosoftGraphBackend.cs:589-607 | every wait between attempts is the back-off Classify gives for that attempt's reply |
| MicrosoftGraph.SendFragment | Duplicati/Library/Backend/OneDrive/MicrosoftGraphBackend.cs:522-662 | the attempt loop sends and waits exactly as Attempts says |
| MicrosoftGraph.FragmentStartIsProduct | Duplicati/Library/Backend/OneDrive/MicrosoftGraphBackend.cs:507 | fragment k starts at k × fragment size |
| MicrosoftGraph.FragmentRequests | Duplicati/Library/Backend/OneDrive/MicrosoftGraphBackend.cs:535-539 | every fragment request is a PUT carrying the total length |
| MicrosoftGraph.FragmentRequestsInRange | Duplicati/Library/Backend/OneDrive/MicrosoftGraphBackend.cs:535-539 | every fragment request's range lies inside [0, length) |
| MicrosoftGraph.NextFragment | Duplicati/Library/Backend/OneDrive/MicrosoftGraphBackend.cs:504-518 | the bytes read for a fragment are min(buffer, remaining), at least one, form that fragment's span, and the next offset is the next fragment's start |
| MicrosoftGraph.SentStep | Duplicati/Library/Backend/OneDrive/MicrosoftGraphBackend.cs:507-663 | an accepted fragment extends the requests, waits and uploaded spans by that fragment's |
| MicrosoftGraph.SentFail | Duplicati/Library/Backend/OneDrive/MicrosoftGraphBackend.cs:578-588 | a fragment not accepted ends the requests with the session's cancellation, at that fragment's offset |
| MicrosoftGraph.LargeUploaded | Duplicati/Library/Backend/OneDrive/MicrosoftGraphBackend.cs:507-665 | when the loop has reached the length, the spans tile [0, length) and the requests and waits are those of every fragment |
| MicrosoftGraph.LargeFailed | Duplicati/Library/Backend/OneDrive/MicrosoftGraphBackend.cs:578-588 | a failure names the first fragment not accepted, and the session is cancelled last |
| MicrosoftGraph.SendFragments | Duplicati/Library/Backend/OneDrive/MicrosoftGraphBackend.cs:507-664 | the fragment loop: it ends at the length with every fragment sent, or at the first fragment not accepted |
| MicrosoftGraph.SendNext | Duplicati/Library/Backend/OneDrive/MicrosoftGraphBackend.cs:508-663 | one iteration: the next fragment is sent; the offset advances, or the fragment was not accepted and the session is cancelled |
| MicrosoftGraph.UploadFragment | Duplicati/Library/Backend/OneDrive/MicrosoftGraphBackend.cs:516-662 | one fragment's PUTs and waits are those Attempts gives; none when no attempt is allowed |
| MicrosoftGraph.PathOf | Duplicati/Library/Backend/OneDrive/MicrosoftGraphBackend.cs:386 | a path built from at least one component starts with '/' |
| MicrosoftGraph.NormalizedPathOf | Duplicati/Library/Backend/OneDrive/MicrosoftGraphBackend.cs:386-390 | normalising a path built from non-empty components without slashes changes nothing |
| MicrosoftGraph.NoBackslashInPath | Duplicati/Library/Backend/OneDrive/MicrosoftGraphBackend.cs:386-390 | a path built from components without backslashes has none |
| MicrosoftGraph.WalkStep | Duplicati/Library/Backend/OneDrive/MicrosoftGraphBackend.cs:384-406 | a walk over k components extends to k + 1 when the next component is reached: its path is looked up, its id is the one the GET gives or, when the GET says the item is missing, the one the POST under the previous id (or "root") gives, and the creations are exactly those of k components plus this one when missing |
| MicrosoftGraph.Posts | Duplicati/Library/Backend/OneDrive/MicrosoftGraphBackend.cs:384-406 | at most one creation per component, each a component with the id of the folder reached before it |
| MicrosoftGraph.PostsStep | Duplicati/Library/Backend/OneDrive/MicrosoftGraphBackend.cs:384-406 | the creations of k + 1 components are those of k, then the last one under its parent when its path is missing |
| MicrosoftGraph.PostsExtend | Duplicati/Library/Backend/OneDrive/MicrosoftGraphBackend.cs:384-406 | the creations of the first k components do not depend on ids reached later |
| MicrosoftGraph.PathsStep | Duplicati/Library/Backend/OneDrive/MicrosoftGraphBackend.cs:384-406 | the paths looked up and the ids reached extend by one component |
| MicrosoftGraph.WalkFails | Duplicati/Library/Backend/OneDrive/MicrosoftGraphBackend.cs:388-402 | a component whose GET fails other than "item not found", or whose POST fails, ends the walk with that error, its path looked up and its POST (if any) sent |
| MicrosoftGraph.CreateFolder | Duplicati/Library/Backend/OneDrive/MicrosoftGraphBackend.cs:380-408 | the loop looks up every prefix path of the root path in order, reaches the existing or newly created id for each, and posts exactly one creation per missing component, in walk order, under the id of the folder reached before it; a GET failing other than "item not found", or a failed POST, ends the walk with that error after exactly the components before it were handled, the failing path being the last one looked up |
| GoogleCommon.RangeEnd | Duplicati/Library/Backend/GoogleServices/GoogleCommon.cs:75 | a value iff the Range header has a second '-'-separated field that parses as a number, and then it is that number |
| GoogleCommon.QueryUploadRange | Duplicati/Library/Backend/GoogleServices/GoogleCommon.cs:44-80 | a 2xx with a body means finished at the length; 308 without Range means resume at 0; 308 with a parsable "a-b" means resume at b + 1; other statuses are HTTP errors; a socket failure is a network fault |
| GoogleCommon.ChunkLength | Duplicati/Library/Backend/GoogleServices/GoogleCommon.cs:151 | a chunk is min(10 MiB, length - offset) |
| GoogleCommon.ChunkReply | Duplicati/Library/Backend/GoogleServices/GoogleCommon.cs:163-189 | the upload completes iff a 2xx with a body answers the chunk that reaches the length; a 2xx for an earlier chunk is a premature end; 308 with a parsable range moves to b + 1; other statuses are HTTP errors; a socket failure is a network fault |
| GoogleCommon.StartSession | Duplicati/Library/Backend/GoogleServices/GoogleCommon.cs:97-109 | a session starts iff the status is 200 and a Location is given, and the Location is the upload URI; otherwise the status is the error |
| GoogleCommon.ChunkedUpload | Duplicati/Library/Backend/GoogleServices/GoogleCommon.cs:122-220 | the first request is the chunk from 0; after each reply the next request is the chunk from b + 1 when a chunk got 308 with "a-b" (or the query's offset), or a range query after a retryable fault, and the latter only while fewer than 5 retries were made; it is uploaded iff the last reply is a 2xx with a body for the chunk that reaches the length, and then the offset is the length; a last fault that is not retryable, or comes with 5 retries made, ends the upload as that fault, and every failure other than an empty stream ends on exactly such a reply (both directions); the retry count and the waits 1, 2, 4, 8, 16 s follow the replies; an empty stream fails before sending |
| GoogleCommon.Resume | Duplicati/Library/Backend/GoogleServices/GoogleCommon.cs:134-188 | a reply completes the upload iff it is a 2xx with a body and, for a chunk, the chunk reaches the length; a chunk answered 308 with "a-b" resumes at b + 1 |
| GoogleCommon.RetriesAfter | Duplicati/Library/Backend/GoogleServices/GoogleCommon.cs:167-215 | the retry count the replies lead to is at most 5 |
| GoogleCommon.WaitsAfter | Duplicati/Library/Backend/GoogleServices/GoogleCommon.cs:207-211 | every back-off is 1, 2, 4, 8 or 16 seconds |
| GoogleCommon.Turn | Duplicati/Library/Backend/GoogleServices/GoogleCommon.cs:132-218 | one request and its reply: completion ends the loop at the length; a new offset resets the retries after a chunk; a retryable fault below 5 retries waits 2^retries s and asks for the range; any other fault ends the loop with it |
| GoogleCommon.UploadTurns | Duplicati/Library/Backend/GoogleServices/GoogleCommon.cs:130-219 | the loop: the requests follow the replies as above, and it ends on completion, when the replies run out, or with a fault exactly when the last reply is given up on (not retryable, or 5 retries already made) |
| GoogleCommon.Advance | Duplicati/Library/Backend/GoogleServices/GoogleCommon.cs:130-218 | one pass of the loop sends the due request and keeps the trace facts; it goes on exactly while the last reply was not given up on, and stops with completion at the length or with the last reply's fault |
| GoogleCommon.FailuresCounted | Duplicati/Library/Backend/GoogleServices/GoogleCommon.cs:207-211 | with socket failures only, the retry count after k requests is min(k, 5) |
| GoogleCommon.FailuresStopAfterMaxRetries | Duplicati/Library/Backend/GoogleServices/GoogleCommon.cs:192-218 | with socket failures only, at most the first chunk and 5 range queries are sent, so the sixth failure in a row is not retried |
| GoogleCommon.SocketFailuresGiveUpAtSixth | Duplicati/Library/Backend/GoogleServices/GoogleCommon.cs:192-218 | with socket failures only, the upload gives up exactly at the sixth request: the fifth failure is still retried (the count is 4 below 5), the sixth is not |
| Dropbox.AccessTokenOnly | Duplicati/Library/Backend/Dropbox/DropboxHelper.cs:40-47 | a token is used alone iff it holds no ':' |
| Dropbox.DefaultCommit | Duplicati/Library/Backend/Dropbox/DropboxHelper.cs:322-334 | the commit is for the path, overwrites, does not rename and is muted |
| Dropbox.ContiguousSnoc | Duplicati/Library/Backend/Dropbox/DropboxHelper.cs:119-151 | a call at the offset reached so far keeps the calls contiguous and adds its bytes to those sent |
| Dropbox.UploadFile | Duplicati/Library/Backend/Dropbox/DropboxHelper.cs:97-177 | a start with min(10 MiB, length), then appends of min(10 MiB, remaining) each at the bytes sent so far, closing iff under 10 MiB remain, then a finish with the default commit; exactly the length is sent |
| Dropbox.HandleException | Duplicati/Library/Backend/Dropbox/DropboxHelper.cs:214-267 | other exceptions are rethrown unchanged; 404/409 give a missing file or folder as the request is for a file or not; 401 iff an auth error; 429/507 iff over quota; other HTTP failures a Dropbox error when the body is JSON, else invalid data |
| Sia.ReplaceDoubleSlash | Duplicati/Library/Backend/Sia/Sia.cs:56-57 | the result is empty iff the path is, keeps its first character, is no longer, and is strictly shorter when the path holds "//" |
| Sia.ReplaceDoubleSlashParts | Duplicati/Library/Backend/Sia/Sia.cs:56-57 | collapsing double slashes keeps the non-empty parts |
| Sia.SplitTrailing | Duplicati/Library/Backend/Sia/Sia.cs:60-61 | removing a trailing '/' keeps the non-empty parts |
| Sia.NormalizeTargetPath | Duplicati/Library/Backend/Sia/Sia.cs:52-64 | the result is non-empty, has no "//", neither starts nor ends with '/', keeps exactly the non-empty '/'-separated parts of the path, and is "backup" when there are none |
| Sia.ApiPort | Duplicati/Library/Backend/Sia/Sia.cs:49-50 | a URI port above 0 is kept; otherwise the port is 9980 |
| Sia.Authorization | Duplicati/Library/Backend/Sia/Sia.cs:66-68 | Basic authorisation with the Base64 of ":" + password is set iff the password option is present and non-empty |
| Sia.Configure | Duplicati/Library/Backend/Sia/Sia.cs:40-68 | the host and the API port are kept; the authorisation is as above; the target path (the option wins over the URL path) is normalised as above |
| Sia.ListAsWritten | Duplicati/Library/Backend/Sia/Sia.cs:278-290 | as written, the listing fails with ArgumentOutOfRange iff some file's path equals the target; otherwise it lists, in order, exactly the files whose path starts with the target, each named by what follows target plus one character, with its size |
| Sia.Kept | Duplicati/Library/Backend/Sia/Sia.cs:282 | exactly the files whose path starts with the prefix are kept |
| Sia.Relative | Duplicati/Library/Backend/Sia/Sia.cs:283-286 | each kept file is listed by its path after the target and one more character, with its size |
| Sia.ListAsWrittenFailsOnTargetItself | Duplicati/Library/Backend/Sia/Sia.cs:282-283 | a file stored as the target path itself makes the whole listing fail |
| Sia.ListAsWrittenLeaksSibling | Duplicati/Library/Backend/Sia/Sia.cs:282-283 | "backup2/x" is listed for target "backup" |
| Sia.List | Duplicati/Library/Backend/Sia/Sia.cs:278-290 | every listed entry is a file stored at target + "/" + name with that size, and every file under target + "/" is listed by its name below it |
| Sia.ListAfterPut | Duplicati/Library/Backend/Sia/Sia.cs:292-294 | a file stored by PutAsync is listed under its own name |
| Sia.DownloadDecision | Duplicati/Library/Backend/Sia/Sia.cs:218-243 | the first entry for the file that has an error or all its bytes decides: an error fails with "failed to download <path>err: <error>", otherwise the download is complete iff the local file opens; with no such entry it is not complete |
| Sia.FirstDecisive | Duplicati/Library/Backend/Sia/Sia.cs:218-240 | the first entry for the file that has an error or all its bytes; no earlier entry does |
| Sia.IsDownloadComplete | Duplicati/Library/Backend/Sia/Sia.cs:212-243 | a missing download list means not complete; otherwise the decision above |
| OpenStack.JoinUrls | Duplicati/Library/Backend/OpenStack/OpenStackStorage.cs:395-399 | the result is the URI, then '/' iff the URI does not end with one, then the fragment without one leading '/' (a null fragment is "") |
| OpenStack.JoinUrls3 | Duplicati/Library/Backend/OpenStack/OpenStackStorage.cs:400-403 | the result starts with the URI; JoinUrls3Plain states the whole result |
| OpenStack.JoinUrls3Plain | Duplicati/Library/Backend/OpenStack/OpenStackStorage.cs:553-555 | for plain parts, container and object name are joined to the URI with exactly one '/' each |
| OpenStack.Prefix | Duplicati/Library/Backend/OpenStack/OpenStackStorage.cs:338-343 | '/' + prefix is the path with a leading '/' and a directory separator added; the prefix ends with '/' or is empty |
| OpenStack.PrefixExamples | Duplicati/Library/Backend/OpenStack/OpenStackStorage.cs:338-343 | "" gives "", "a" gives "a/", "a/" gives "a/" |
| OpenStack.MissingOption | Duplicati/Library/Backend/OpenStack/OpenStackStorage.cs:354-379 | nothing is missing iff user name and auth URI are set and, for v3, password, domain and tenant, and otherwise, without an API key, password and tenant; a reported option is blank; a blank user name is reported first; the domain is reported only for v3 |
| OpenStack.SelectEndpointNoService | Duplicati/Library/Backend/OpenStack/OpenStackStorage.cs:446-448 | there is no endpoint because no object-store service exists iff the catalog holds no object-store service |
| OpenStack.SelectEndpointChosen | Duplicati/Library/Backend/OpenStack/OpenStackStorage.cs:446-453 | a chosen URL comes from the first object-store service: its first endpoint in the region (and public for v3), else its first endpoint |
| OpenStack.ListedName | Duplicati/Library/Backend/OpenStack/OpenStackStorage.cs:512-514 | a name under the prefix is listed without it; other names are unchanged |
| OpenStack.ListedNameAfterPut | Duplicati/Library/Backend/OpenStack/OpenStackStorage.cs:512-514 | an object stored as prefix + name is listed as name |
| OpenStack.Entry | Duplicati/Library/Backend/OpenStack/OpenStackStorage.cs:516-521 | the entry's name is the listed name and its size the byte count; it has a date iff both the byte count and the date are given |
| OpenStack.ListAll | Duplicati/Library/Backend/OpenStack/OpenStackStorage.cs:495-530 | the first request has no marker; a page is followed by another only if it held 500 items, with its last name as the next marker; the entries are those of the pages read; the listing is complete iff the last page read held other than 500 items |
| B2Auth.DropTrailingSlashes | Duplicati/Library/Backend/Backblaze/B2AuthHelper.cs:62-67 | the loop gives Untrailed(url): the URL without its trailing '/' characters; it is a prefix of the URL that does not end with '/', and a URL without a trailing '/' is unchanged |
| B2Auth.Untrailed | Duplicati/Library/Backend/Backblaze/B2AuthHelper.cs:62-67 | stripping the trailing '/' characters never makes the URL longer |
| B2Auth.DropTrailingSlashesTwice | Duplicati/Library/Backend/Backblaze/B2AuthHelper.cs:62-67 | trimming twice gives the same as trimming once |
| B2Auth.RetryBudget | Duplicati/Library/Backend/Backblaze/B2AuthHelper.cs:114-129 | the budget is 1 iff the failure is a 4xx status, else 5 |
| B2Auth.ExceptionStatusCode | Duplicati/Library/Backend/Backblaze/B2AuthHelper.cs:169-175 | an HTTP failure gives its status; any other failure gives 0 |
| B2Auth.B2AuthHelper.constructor | Duplicati/Library/Backend/Backblaze/B2AuthHelper.cs:40-44 | the credentials are the Base64 of "user:password"; there is no configuration yet |
| B2Auth.B2AuthHelper.ApiDnsName | Duplicati/Library/Backend/Backblaze/B2AuthHelper.cs:69-77 | no name iff there is no configuration or its API URL is blank; otherwise the host of that URL |
| B2Auth.B2AuthHelper.DownloadDnsName | Duplicati/Library/Backend/Backblaze/B2AuthHelper.cs:79-87 | no name iff there is no configuration or its download URL is blank; otherwise the host of that URL |
| B2Auth.B2AuthHelper.GetConfig | Duplicati/Library/Backend/Backblaze/B2AuthHelper.cs:89-142 | an unexpired configuration is returned as it is; otherwise failed attempt j is followed by a 2^j s back-off within its budget; a fetched configuration is the reply's with both URLs stripped of trailing '/' (Untrailed), is stored, and expires an hour after the last back-off; a failure is the last reply and changes nothing |
| B2Auth.RetryBudgetLimits | Duplicati/Library/Backend/Backblaze/B2AuthHelper.cs:118-136 | at most 5 back-offs, and no attempt after the first one failed with a 4xx status |
| WebDav.Credentials | Duplicati/Library/Backend/WEBDAV/WEBDAV.cs:73-96 | no credential iff there is no URL user name and no auth-username option; a URL user name wins over the option; the URL password is used only with a URL user name and a non-empty URL password, else the auth-password option |
| WebDav.ServerPath | Duplicati/Library/Backend/WEBDAV/WEBDAV.cs:104-108 | the path starts and ends with '/' and is the URL path with at most a leading and a trailing '/' added; a path with both is unchanged |
| WebDav.Port | Duplicati/Library/Backend/WEBDAV/WEBDAV.cs:113-115 | a URI port above 0 is kept; otherwise 443 with SSL and 80 without |
| WebDav.EscapePlus | Duplicati/Library/Backend/WEBDAV/WEBDAV.cs:235 | no '+' is left, a string without '+' is unchanged, and nothing gets shorter; EscapePlusReplaces states the exact result |
| WebDav.EscapePlusReplaces | Duplicati/Library/Backend/WEBDAV/WEBDAV.cs:235 | each '+' becomes "%2B" and every other character is kept, in order |
| WebDav.Trim | Duplicati/Library/Backend/WEBDAV/WEBDAV.cs:285 | the result is no longer and neither starts nor ends with white space; TrimSlice states which slice of the input it is |
| WebDav.LeadingSpace | Duplicati/Library/Backend/WEBDAV/WEBDAV.cs:285 | the number of leading white-space characters |
| WebDav.TrimSlice | Duplicati/Library/Backend/WEBDAV/WEBDAV.cs:285 | the trimmed string is the input after its leading white space, and everything after it is white space |
| WebDav.EntryOf | Duplicati/Library/Backend/WEBDAV/WEBDAV.cs:263-292 | the name is kept; the size is -1 iff no content length (or -1) is given, else the content length; a folder iff iscollection trims to "1", or, without iscollection, iff the resource type is a collection |
| WebDav.PutFailure | Duplicati/Library/Backend/WEBDAV/WEBDAV.cs:304-308 | success iff a 2xx status; 409 and 404 iff a missing folder; any other failure keeps its status |
| WebDav.DeleteFailure | Duplicati/Library/Backend/WEBDAV/WEBDAV.cs:335-339 | success iff a 2xx status; 404 iff a missing file; any other failure keeps its status |
| WebDav.PutBodyAsWritten | Duplicati/Library/Backend/WEBDAV/WEBDAV.cs:299-303 | as written, the request goes out without the content: the body is empty |
| WebDav.PutBodyAsWrittenLosesData | Duplicati/Library/Backend/WEBDAV/WEBDAV.cs:301-303 | any non-empty upload is sent as an empty PUT |
| WebDav.PutBody | Duplicati/Library/Backend/WEBDAV/WEBDAV.cs:299-303 | with the content attached, the body is exactly the data |
| WebDav.ListFailureAsWritten | Duplicati/Library/Backend/WEBDAV/WEBDAV.cs:171-187 | as written, a failed PROPFIND comes through as the raw status failure |
| WebDav.ListFailureAsWrittenMissesFolder | Duplicati/Library/Backend/WEBDAV/WEBDAV.cs:179-180 | a 404 listing is not reported as a missing folder |
| WebDav.ListFailure | Duplicati/Library/Backend/WEBDAV/WEBDAV.cs:179-185 | 404 and 409 iff a missing folder; 405 iff "method not allowed"; any other status comes through unchanged |
| WebDav.WebDavBackend.constructor | Duplicati/Library/Backend/WEBDAV/WEBDAV.cs:68-119 | the URL gets a trailing separator; the path is the decoded server path; the raw URL, the URL with port and the reverse-protocol URL are rendered from scheme, host, path and port; no listing yet |
| WebDav.WebDavBackend.Candidates | Duplicati/Library/Backend/WEBDAV/WEBDAV.cs:241-256 | seven prefixes, in the order they are tried: the URL first, the path fourth and '/' + path fifth |
| WebDav.WebDavBackend.HrefName | Duplicati/Library/Backend/WEBDAV/WEBDAV.cs:235-261 | a name iff the '+'-escaped, decoded href is longer than the first candidate prefix it starts with, and then the name is non-empty and is what follows that prefix |
| WebDav.WebDavBackend.Listing | Duplicati/Library/Backend/WEBDAV/WEBDAV.cs:231-294 | at most one entry per response, and no name is empty |
| WebDav.WebDavBackend.ListingEntries | Duplicati/Library/Backend/WEBDAV/WEBDAV.cs:231-294 | every response whose href yields a name is listed with its properties, and every entry comes from such a response |
| WebDav.WebDavBackend.Names | Duplicati/Library/Backend/WEBDAV/WEBDAV.cs:293 | the names of the entries, in order |
| WebDav.WebDavBackend.List | Duplicati/Library/Backend/WEBDAV/WEBDAV.cs:189-297 | the loop returns exactly the listing and remembers the names it holds |
| WebDav.WebDavBackend.GetFailure | Duplicati/Library/Backend/WEBDAV/WEBDAV.cs:318-323 | success iff a 2xx status; 409 iff a missing file; a 404 iff the "seen, then not found" error when the name was in the last listing; any other failure keeps its status |
| WebDav.ListThenGet | Duplicati/Library/Backend/WEBDAV/WEBDAV.cs:320-321 | a 404 for a file the last listing returned is the "seen, then not found" error |
| Mega.Configure | Duplicati/Library/Backend/Mega/MegaBackend.cs:67-89 | the URL user name and password win over the options; no user name iff that error; a user name without password iff that error; otherwise user, password, two-factor key and prefix (host and path) are kept |
| Mega.Group | Duplicati/Library/Backend/Mega/MegaBackend.cs:153-157 | every group is non-empty and holds only files of the folder with its name; every file of the folder is in its name's group; every name comes from such a file |
| Mega.Named | Duplicati/Library/Backend/Mega/MegaBackend.cs:153-157 | the files of the folder with that name, in listing order |
| Mega.GroupIsNamed | Duplicati/Library/Backend/Mega/MegaBackend.cs:153-157 | a name has a group iff a file of the folder has it, and the group is exactly those files, in listing order |
| Mega.Newest | Duplicati/Library/Backend/Mega/MegaBackend.cs:135 | the node chosen is in the group and no node of the group is newer (a null date is oldest) |
| Mega.EntryOf | Duplicati/Library/Backend/Mega/MegaBackend.cs:170 | the entry has the node's name and size, and its date or 0 |
| Mega.DeleteCalls | Duplicati/Library/Backend/Mega/MegaBackend.cs:215-219 | one delete call per node, in order |
| Mega.RenameCalls | Duplicati/Library/Backend/Mega/MegaBackend.cs:300-304 | one rename call per node, in order |
| Mega.FirstRefused | Duplicati/Library/Backend/Mega/MegaBackend.cs:215-219 | the first node whose client call throws, none iff no node is refused |
| Mega.Attempted | Duplicati/Library/Backend/Mega/MegaBackend.cs:215-219 | the nodes a loop of client calls reaches: a prefix of the group, all of it without a refusal, else up to and including the first refused node |
| Mega.MegaBackend.constructor | Duplicati/Library/Backend/Mega/MegaBackend.cs:67-89 | no cache yet and no calls made |
| Mega.MegaBackend.ResetFileCache | Duplicati/Library/Backend/Mega/MegaBackend.cs:145-158 | the cache becomes the grouping of the current folder's files |
| Mega.MegaBackend.DeleteNodes | Duplicati/Library/Backend/Mega/MegaBackend.cs:215-219 | one delete call per node in order, up to and including the first refused one; fails iff a node is refused, naming it |
| Mega.MegaBackend.RenameNodes | Duplicati/Library/Backend/Mega/MegaBackend.cs:300-304 | one rename call per node in order, up to and including the first refused one; fails iff a node is refused, naming it |
| Mega.MegaBackend.GetFileNode | Duplicati/Library/Backend/Mega/MegaBackend.cs:132-143 | a cached name gives its newest node without a refresh; otherwise the cache is refreshed once and the newest node of the name is returned, or a missing file iff the name is still absent |
| Mega.MegaBackend.List | Duplicati/Library/Backend/Mega/MegaBackend.cs:162-171 | one entry per cached name, for its newest node; the cache is filled first if empty and kept otherwise |
| Mega.MegaBackend.Delete | Duplicati/Library/Backend/Mega/MegaBackend.cs:202-228 | a name absent even after a refresh is a missing file, clears the cache and calls nothing; otherwise the nodes of the name are deleted in order up to the first refused one; success iff none is refused, and then the name leaves the cache; a refusal fails naming the node and clears the cache |
| Mega.MegaBackend.Replace | Duplicati/Library/Backend/Mega/MegaBackend.cs:181-185 | the older nodes of the name are deleted in order, and the name then maps to exactly the new node; a refused delete fails and clears the cache |
| Mega.MegaBackend.Put | Duplicati/Library/Backend/Mega/MegaBackend.cs:173-192 | a failed upload fails and clears the cache; otherwise the upload is followed by deleting the older nodes, and the name maps to exactly the new node; a refused delete fails and clears the cache |
| Mega.MegaBackend.Renamed | Duplicati/Library/Backend/Mega/MegaBackend.cs:306-307 | the new name takes the old name's nodes, the old name goes, and every other name is unchanged |
| Mega.MegaBackend.MoveAsWritten | Duplicati/Library/Backend/Mega/MegaBackend.cs:294-314 | as written: an existing target's nodes are deleted first, a refusal failing; then renaming onto itself fails with the nodes gone; otherwise the old name's nodes are renamed in order and the key moved, a refused rename failing; every failure clears the cache |
| Mega.MegaBackend.RenameAsWritten | Duplicati/Library/Backend/Mega/MegaBackend.cs:283-314 | as written: a missing old name fails and clears the cache; otherwise as MoveAsWritten: the target's nodes are deleted, a rename onto itself then fails, otherwise the nodes are renamed and the key moved; a refused delete or rename fails and clears the cache |
| Mega.MegaBackend.Rename | Duplicati/Library/Backend/Mega/MegaBackend.cs:283-314 | a missing old name fails and clears the cache; a rename onto itself changes nothing and calls nothing; otherwise the target's old nodes are deleted and the old name's nodes renamed, the new name taking them; a refused delete or rename fails and clears the cache |
| Mega.RenameOntoItself | Duplicati/Library/Backend/Mega/MegaBackend.cs:294-307 | as written, renaming a cached file onto its own name deletes its nodes and fails, even when the client accepts every call |
| GoogleDrive.EscapeTitle | Duplicati/Library/Backend/GoogleServices/GoogleDrive.cs:146-149 | the escaped title is no shorter and does not start with a bare quote; EscapeTitleReplaces states the exact result and EscapeTitleRoundTrip that no information is lost |
| GoogleDrive.EscapeTitleReplaces | Duplicati/Library/Backend/GoogleServices/GoogleDrive.cs:146-149 | each ' becomes \' and every other character is kept, in order |
| GoogleDrive.EscapeTitleRoundTrip | Duplicati/Library/Backend/GoogleServices/GoogleDrive.cs:146-149 | unescaping an escaped title gives the title back |
| GoogleDrive.Terms | Duplicati/Library/Backend/GoogleServices/GoogleDrive.cs:457-464 | in order: a title term with the escaped name iff a name is given; then, when asked, "mimeType = '<folder type>'" for folders only or "mimeType != '<folder type>'" for files only; then "'<escaped parent>' in parents"; and "trashed=false" last |
| GoogleDrive.Query | Duplicati/Library/Backend/GoogleServices/GoogleDrive.cs:457-465 | the query is exactly the title term and " and " (iff a name is given), the mime type term of that polarity and " and " (iff asked), the parent term, and " and trashed=false" |
| GoogleDrive.QuerySpelled | Duplicati/Library/Backend/GoogleServices/GoogleDrive.cs:457-465 | the terms joined by " and " spelled out term by term |
| GoogleDrive.PagesRead | Duplicati/Library/Backend/GoogleServices/GoogleDrive.cs:467-478 | pages are read up to and including the first one without a next-page token, or all of them when every page has one |
| GoogleDrive.ListFolder | Duplicati/Library/Backend/GoogleServices/GoogleDrive.cs:455-479 | one request per page read, the first without a token and each other with the token of the page before; the items are those of the pages read; complete iff the last page was reached |
| GoogleDrive.Walk | Duplicati/Library/Backend/GoogleServices/GoogleDrive.cs:74-104 | no component left gives the folder reached; an error is a missing folder or a duplicate; a missing folder only without autocreate |
| GoogleDrive.WalkSplit | Duplicati/Library/Backend/GoogleServices/GoogleDrive.cs:74-104 | walking a + b is walking a, then b from the folder where a ended, unless a failed |
| GoogleDrive.Created | Duplicati/Library/Backend/GoogleServices/GoogleDrive.cs:74-104 | the folders the walk creates in walk order, up to the first failure, each a component of the path with the id of the folder reached before it; each was missing from its parent; none without autocreate; the first component is created under the start folder when missing |
| GoogleDrive.GetFolderId | Duplicati/Library/Backend/GoogleServices/GoogleDrive.cs:69-107 | the loop computes the walk of the path's non-empty parts from the root, and creates exactly the folders Created lists |
| GoogleDrive.EntryOf | Duplicati/Library/Backend/GoogleServices/GoogleDrive.cs:371-380 | name, size and folder flag of the item; a date iff both size and date are given |
| GoogleDrive.Entries | Duplicati/Library/Backend/GoogleServices/GoogleDrive.cs:371-380 | one entry per item, in order |
| GoogleDrive.FirstPerName | Duplicati/Library/Backend/GoogleServices/GoogleDrive.cs:382-392 | as written: each title maps to exactly one file item with that title, and every file title is present |
| GoogleDrive.AllPerName | Duplicati/Library/Backend/GoogleServices/GoogleDrive.cs:382-392 | each title maps to a non-empty list of file items with that title, and every file item is in its title's list |
| GoogleDrive.Named | Duplicati/Library/Backend/GoogleServices/GoogleDrive.cs:382-392 | the file items with that title, in listing order |
| GoogleDrive.FirstPerNameIsFirst | Duplicati/Library/Backend/GoogleServices/GoogleDrive.cs:382-392 | as written, a title has an entry iff a file item has it, and the entry is the first such item alone |
| GoogleDrive.AllPerNameIsNamed | Duplicati/Library/Backend/GoogleServices/GoogleDrive.cs:382-392 | with the resized array stored back, a title's entry is every file item with it, in listing order |
| GoogleDrive.FirstPerNameDropsDuplicate | Duplicati/Library/Backend/GoogleServices/GoogleDrive.cs:386-390 | as written, a second file with the same title is not cached |
| GoogleDrive.AllPerNameKeepsDuplicate | Duplicati/Library/Backend/GoogleServices/GoogleDrive.cs:386-390 | with the resized array stored back, both files are cached, in order |
| GoogleDrive.CollectAsWritten | Duplicati/Library/Backend/GoogleServices/GoogleDrive.cs:366-396 | as written, the loop lists every item and caches the first file per title |
| GoogleDrive.Collect | Duplicati/Library/Backend/GoogleServices/GoogleDrive.cs:366-396 | the loop lists every item and caches all files per title |
| GoogleDrive.FirstRefused | Duplicati/Library/Backend/GoogleServices/GoogleDrive.cs:236-240 | the first item whose deletion the service refuses, none iff no item is refused |
| GoogleDrive.GoogleDriveBackend.constructor | Duplicati/Library/Backend/GoogleServices/GoogleDrive.cs:52-67 | the path gets a trailing '/'; the team drive id comes from its option; the cache is empty and no folder is known |
| GoogleDrive.GoogleDriveBackend.CreateFolder | Duplicati/Library/Backend/GoogleServices/GoogleDrive.cs:252-256 | the cache is cleared; the folder is walked from the team drive (else the root) with autocreate; on success it becomes the current folder; the only failure is a duplicate folder |
| GoogleDrive.GoogleDriveBackend.ListAsWritten | Duplicati/Library/Backend/GoogleServices/GoogleDrive.cs:356-408 | as written: a listing that reaches the last page lists every item and the cache keeps the first file per title; one whose replies run out first fails with ListFailed and leaves the cache empty |
| GoogleDrive.GoogleDriveBackend.List | Duplicati/Library/Backend/GoogleServices/GoogleDrive.cs:356-408 | a listing that reaches the last page lists every item and the cache keeps all files per title; one whose replies run out first fails with ListFailed and leaves the cache empty |
| GoogleDrive.GoogleDriveBackend.Fill | Duplicati/Library/Backend/GoogleServices/GoogleDrive.cs:127-128 | a non-empty cache is kept; an empty one is filled by a listing, which fails (ListFailed, cache left empty) iff it does not reach the last page |
| GoogleDrive.GoogleDriveBackend.GetFileEntries | Duplicati/Library/Backend/GoogleServices/GoogleDrive.cs:120-144 | a cached title gives its items; otherwise the service's answer is returned and cached, and an empty answer is a missing file; a result is never empty |
| GoogleDrive.GoogleDriveBackend.Delete | Duplicati/Library/Backend/GoogleServices/GoogleDrive.cs:225-247 | no item is a missing file; otherwise items are deleted in order up to the first refused one, which fails and clears the cache; with no refusal all are deleted and the title leaves the cache |
| GoogleDrive.GoogleDriveBackend.Put | Duplicati/Library/Backend/GoogleServices/GoogleDrive.cs:153-195 | a failed filling listing fails the put with ListFailed; otherwise an update in place iff the title has exactly one item; otherwise its items are deleted first, and a refusal fails; a failed upload fails; on success the title maps to exactly the uploaded item; a failure clears the cache |
| GoogleDrive.GoogleDriveBackend.PutFilled | Duplicati/Library/Backend/GoogleServices/GoogleDrive.cs:158-195 | the part of the put after filling: update in place iff exactly one item; else deletion first, a refusal failing; a failed upload fails; success maps the title to the uploaded item; a failure clears the cache |
| GoogleDrive.GoogleDriveBackend.Get | Duplicati/Library/Backend/GoogleServices/GoogleDrive.cs:200-223 | a failed filling listing fails with ListFailed and leaves the cache empty; otherwise succeeds iff the title has items and the status is a 2xx other than 404, returning the item with the newest creation date; no item or a 404 is a missing file; other statuses keep their code |
| SshV2.TargetPath | Duplicati/Library/Backend/SSHv2/SSHv2Backend.cs:88-96 | the path starts with '/', ends with '/' unless it is blank, and "" becomes "/"; the part before the trailing '/' is the path itself when it starts with '/', else '/' followed by it |
| SshV2.TargetPathIdempotent | Duplicati/Library/Backend/SSHv2/SSHv2Backend.cs:88-96 | normalising a normalised path changes nothing |
| SshV2.Port | Duplicati/Library/Backend/SSHv2/SSHv2Backend.cs:100-101 | a URI port above 0 is kept; otherwise 22 |
| SshV2.Configure | Duplicati/Library/Backend/SSHv2/SSHv2Backend.cs:68-102 | host, port and path as above; the URL user name and password each win over their option; the fingerprint comes from its option |
| SshV2.PathOf | Duplicati/Library/Backend/SSHv2/SSHv2Backend.cs:130-146 | a path built from at least one component starts with '/' |
| SshV2.Cumulative | Duplicati/Library/Backend/SSHv2/SSHv2Backend.cs:130-146 | one path per component, the k-th being "/c1/.../ck" |
| SshV2.CreatedOk | Duplicati/Library/Backend/SSHv2/SSHv2Backend.cs:123-148 | a completed walk leaves every visited path a directory, adds nothing else and changes no existing path |
| SshV2.CreatedErr | Duplicati/Library/Backend/SSHv2/SSHv2Backend.cs:123-148 | a failed walk stops at a visited path that is a file, and the error names it |
| SshV2.CreatedNoop | Duplicati/Library/Backend/SSHv2/SSHv2Backend.cs:123-148 | when every path already is a directory, the walk succeeds and changes nothing |
| SshV2.CreateFolder | Duplicati/Library/Backend/SSHv2/SSHv2Backend.cs:123-148 | the loop walks the cumulative paths of the path's non-empty parts: missing ones are created, an existing file stops it |
| SshV2.CreateFolderTwice | Duplicati/Library/Backend/SSHv2/SSHv2Backend.cs:123-148 | after a successful creation, a second one succeeds and changes nothing |
| SshV2.Hex | Duplicati/Library/Backend/SSHv2/SSHv2Backend.cs:348 | two characters per byte |
| SshV2.HexInjective | Duplicati/Library/Backend/SSHv2/SSHv2Backend.cs:348 | distinct bytes give distinct hex pairs |
| SshV2.HexColon | Duplicati/Library/Backend/SSHv2/SSHv2Backend.cs:348 | an empty fingerprint iff an empty text |
| SshV2.HexColonInjective | Duplicati/Library/Backend/SSHv2/SSHv2Backend.cs:348 | distinct fingerprints give distinct texts |
| SshV2.Decimal | Duplicati/Library/Backend/SSHv2/SSHv2Backend.cs:348 | a non-empty string of digits whose value is the number |
| SshV2.HostKeyDecision | Duplicati/Library/Backend/SSHv2/SSHv2Backend.cs:339-363 | accept-any trusts every key; otherwise no configured fingerprint is refused with the host's; a configured one is trusted iff it equals the host's ignoring case, and a mismatch reports the host's |
| SshV2.LowerIdempotent | Duplicati/Library/Backend/SSHv2/SSHv2Backend.cs:352-361 | lower-casing twice is lower-casing once |
| SshV2.ReportedFingerprintIsTrusted | Duplicati/Library/Backend/SSHv2/SSHv2Backend.cs:350-363 | configuring the fingerprint a refusal reports, in lower case, makes that host trusted |
| SshV2.SftpConnection.constructor | Duplicati/Library/Backend/SSHv2/SSHv2Backend.cs:383-401 | the connection starts in the home directory |
| SshV2.SftpConnection.ChangeDirectory | Duplicati/Library/Backend/SSHv2/SSHv2Backend.cs:383-401 | an empty path, or the working directory with a trailing '/', changes nothing; otherwise the resolved folder becomes the working directory, or the folder is missing and nothing changes |
| SshV2.ChangeDirectoryTwice | Duplicati/Library/Backend/SSHv2/SSHv2Backend.cs:383-401 | changing twice to the same existing folder succeeds both times and ends in it |
| SshV2.KeySourceOf | Duplicati/Library/Backend/SSHv2/SSHv2Backend.cs:403-432 | an inline key iff the value starts with "sshkey://" ignoring case, and then the URL-decoded rest; otherwise a key file; a passphrase iff the password is non-empty |
| SshV2.AuthenticationOf | Duplicati/Library/Backend/SSHv2/SSHv2Backend.cs:322-335 | key authentication iff the key-file option, or else the inline-key option, is not blank, with that key; otherwise password authentication with the password or "" |
| SshV2.EntryOf | Duplicati/Library/Backend/SSHv2/SSHv2Backend.cs:287-289 | name, size, folder flag and both dates of the listed file |
| SshV2.Visible | Duplicati/Library/Backend/SSHv2/SSHv2Backend.cs:286 | every listed file except "." and ".." gives an entry, and every entry comes from a listed file |
| SshV2.List | Duplicati/Library/Backend/SSHv2/SSHv2Backend.cs:269-291 | the loop lists exactly the visible files |
| SshV2.OperationFailure | Duplicati/Library/Backend/SSHv2/SSHv2Backend.cs:169-203 | a missing path is a missing file iff the operation is a download or a deletion; every other failure passes on |
| Streams.CheckReadArgs | Duplicati/Library/Utility/PartialStream.cs:45-51 | a read is accepted iff offset and count are non-negative and fit in the buffer; a refusal is an argument error |
| Streams.MemStream.constructor | Duplicati/Library/Utility/TempMemoryFile.cs:36-39 | a new stream is empty, open and at position 0 |
| Streams.MemStream.FromBytes | Duplicati/Library/Utility/TempMemoryFile.cs:57 | an open stream over the bytes, at position 0 |
| Streams.MemStream.Read | Duplicati/Library/Utility/PartialStream.cs:48 | fails iff the stream is closed or the arguments are refused, changing nothing; otherwise the next min(count, remaining) bytes are copied into the buffer at the offset, the rest of the buffer is unchanged, and the position advances by that much |
| Streams.MemStream.Write | Duplicati/UnitTest/TempFileTests.cs:34 | fails iff the stream is closed, changing nothing; otherwise the bytes overwrite from the position, the bytes before and after are kept, and the position advances past them |
| Streams.MemStream.Truncate | Duplicati/Library/Utility/TempMemoryFile.cs:66 | fails iff the stream is closed; otherwise the stream keeps its first bytes up to the new length and the position is capped at it |
| Streams.MemStream.Close | Duplicati/Library/Utility/TempMemoryFile.cs:20 | the stream is closed; its bytes are untouched |
| Streams.MemStream.ReadToEnd | Duplicati/UnitTest/TempFileTests.cs:39 | fails iff the stream is closed; otherwise the bytes from the position to the end, leaving the position at the end |
| Streams.PartialStream.Create | Duplicati/Library/Utility/PartialStream.cs:20-25 | a missing source is ArgumentNull; otherwise a new stream over the window of the source, at position 0 |
| Streams.PartialStream.Init | Duplicati/Library/Utility/PartialStream.cs:20-25 | the stream keeps source, offset and length, at position 0 |
| Streams.PartialStream.Length | Duplicati/Library/Utility/PartialStream.cs:30 | the length is the window length given at construction |
| Streams.PartialStream.Read | Duplicati/Library/Utility/PartialStream.cs:37-51 | fails iff the source is closed or the clamped request is refused; otherwise it copies min(count, length - position, source remaining) of the source's next bytes into the buffer, and the position advances by that much without passing the length |
| Streams.PartialStream.SetPosition | Duplicati/Library/Utility/PartialStream.cs:31 | setting the position is not supported |
| Streams.PartialStream.Seek | Duplicati/Library/Utility/PartialStream.cs:54-57 | seeking is not supported |
| Streams.PartialStream.SetLength | Duplicati/Library/Utility/PartialStream.cs:59-62 | setting the length is not supported |
| Streams.PartialStream.Write | Duplicati/Library/Utility/PartialStream.cs:64-67 | writing is not supported |
| Streams.TempMemoryFile.constructor | Duplicati/Library/Utility/TempMemoryFile.cs:36-39 | a new empty open stream and no snapshot |
| Streams.TempMemoryFile.Default | Duplicati/Library/Utility/TempMemoryFile.cs:41-44 | the parameterless constructor: a new empty open stream of capacity 0 and no snapshot |
| Streams.TempMemoryFile.Dispose | Duplicati/Library/Utility/TempMemoryFile.cs:46-49 | the live stream is closed; its bytes and the snapshot are kept |
| Streams.TempMemoryFile.Length | Duplicati/Library/Utility/TempMemoryFile.cs:16-34 | while the stream is open, its length; once closed, the length of the snapshot, taken then if missing |
| Streams.TempMemoryFile.OpenRead | Duplicati/Library/Utility/TempMemoryFile.cs:51-58 | a new open stream at position 0 over the snapshot, which is taken once and then reused |
| Streams.TempMemoryFile.OpenWrite | Duplicati/Library/Utility/TempMemoryFile.cs:60-75 | as intended: the snapshot is dropped; the open stream is emptied and reused, or a closed one is replaced by a new empty one with the same capacity |
| Streams.MemStream.Capacity | Duplicati/Library/Utility/TempMemoryFile.cs:72 | reading the capacity of a closed stream is ObjectDisposed; otherwise it is the capacity |
| Streams.TempMemoryFile.OpenWriteAsWritten | Duplicati/Library/Utility/TempMemoryFile.cs:60-75 | as written: the snapshot is dropped; an open stream is emptied and returned; a closed one fails with ObjectDisposed when its capacity is read, and nothing is replaced |
| Streams.ReopenAfterClose | Duplicati/Library/Utility/TempMemoryFile.cs:60-75 | as written, opening for writing after the written stream was closed fails with ObjectDisposed |
| Streams.TempMemoryFile.OpenReadWrite | Duplicati/Library/Utility/TempMemoryFile.cs:76-79 | the same as the intended OpenWrite |
| Streams.WriteAndReadBack | Duplicati/UnitTest/TempFileTests.cs:32-41 | with the intended OpenWrite, data written and then read back, any number of rounds, gives the same data with the same length each time |


Definitions without a row have no contract of their own. They encode a rule of the source, and the rows above state what follows from them:
- `Dropbox.IsFile` (Duplicati/Library/Backend/Dropbox/DropboxHelper.cs:363): an entry is a file iff its tag is "file".
- `GoogleCommon.Retryable` (Duplicati/Library/Backend/GoogleServices/GoogleCommon.cs:196-205): a 5xx status or a socket or IO failure is worth retrying; used by `Turn` and `ChunkedUpload`.
- `CompactAudit.Step` and `CompactAudit.Replay` (Duplicati/Library/Main/Operation/CompactHandler.cs:283-300): the ordering rules a log must keep; `ReplayExplained`, `DeletesFollowCommittedMarks` and `DryRunWritesNothing` state what they imply.
- `CompactAudit.Filesize` and `CompactAudit.SealedWithin` (Duplicati/Library/Main/Operation/CompactHandler.cs:176): a volume's size and the sealing rule; `SealedBound` states the bound.
- `CompactAudit.Tally` (Duplicati/Library/Main/Operation/CompactHandler.cs:228-238): the results record; `SumNonNegBounds` and `SumNonNegAppend` state its sums.
- `Compaction.CompactHandler.ReclaimKept` and `CompactKept` (Duplicati/Library/Main/Operation/CompactHandler.cs:90-281): what a pass guarantees about the owners of blocks and the deleted volumes, stated by `DoCompact` and `Run`.
- `Compaction.IndexName` and the ghost method `Compaction.CompactHandler.Emit`: bookkeeping of the model (an optional index volume's name; appending one event to the ghost log), not source behaviour.
- `MicrosoftGraph.WalkedPaths` (Duplicati/Library/Backend/OneDrive/MicrosoftGraphBackend.cs:384-406): the paths and ids part of `WalkedTo`. `MicrosoftGraph.Missing` and `MicrosoftGraph.Reach` (Duplicati/Library/Backend/OneDrive/MicrosoftGraphBackend.cs:388-402): one component's GET, and the POST after "item not found". `MicrosoftGraph.WalkFailed`: the state of a walk that stopped at a component's error.
- `SshV2.HostFingerprint` (Duplicati/Library/Backend/SSHv2/SSHv2Backend.cs:346-347): the text a host key is compared as; used by the host-key verdict.
- `SshV2.MustChangeDirectory` (Duplicati/Library/Backend/SSHv2/SSHv2Backend.cs:385-390): the server is asked only for a non-empty path that differs from the working directory with its '/'.
- `SshV2.IsDotEntry` (Duplicati/Library/Backend/SSHv2/SSHv2Backend.cs:286) and `SshV2.IsFile` (Duplicati/Library/Backend/SSHv2/SSHv2Backend.cs:136-138): the listing skips "." and ".."; folder creation fails on an existing path that is not a directory.
- `GoogleDrive.IsLastPage` (Duplicati/Library/Backend/GoogleServices/GoogleDrive.cs:473-475): a page without a next-page token ends the listing. `GoogleDrive.ListingFails` (Duplicati/Library/Backend/GoogleServices/GoogleDrive.cs:467-478): filling an empty cache fails when the replies run out before the last page. `GoogleDrive.FolderTerm`, `FileTerm` and `ParentTerm` (Duplicati/Library/Backend/GoogleServices/GoogleDrive.cs:459-460) spell the mime type and parent terms. `GoogleDrive.Unescape` is the reading of an escaped title that `EscapeTitleRoundTrip` uses.
- `Streams.PartialStream.CanRead`, `CanSeek` and `CanWrite` (Duplicati/Library/Utility/PartialStream.cs:27-29): constants true, false and false.

## Left out

- Database queries: the SQL behind the compact report, `UseBlock`, `GetDeletableVolumes` and `GetBlocklists` is not part of this model. The report is an input; "in use" is a set of live blocks; deletable means "owns no live block".
- Volume writers and readers: compression, encryption and block contents are not modelled. A writer is a name and its list of blocks, and its file size is the sum of the block sizes.
- Backend manager: `Put`, `Delete`, `WaitForEmpty` and `WaitForComplete` are log events, with no queueing or asynchrony.
- `FilelistProcessor.VerifyRemoteList`: only its verdict is modelled, as a boolean input. `UploadVerificationFile`, `WriteResults` and the vacuum after a run appear only as events in the log, in their order; what they write is not modelled.
- Results and timing: log messages, `EndTime` and formatted sizes are not modelled.
- Concurrency: async download pipelining, `RetryAfterHelper`, cancellation tokens, `Task.Delay` and `Thread.Sleep` are left out. The waits themselves are kept as lists: `PutLarge`'s fragment delays in milliseconds, `ChunkedUpload`'s back-offs and `GetConfig`'s sleeps in seconds.
- Network, OAuth and SDK clients (HttpClient, SftpClient, MegaApiClient), and JSON and XML parsing: their results are inputs. Calls are a log where order matters.
- `UrlDecode`, Base64, URI parsing and `ParseBoolOption`: these are parameters (functions or already-parsed values). Utility.Uri is not part of this model.
- Case folding is ASCII only, so the fingerprint comparison does not fold non-ASCII letters.
- WebDav.Trim: only ASCII white space (space, tab, line feed, vertical tab, form feed, carriage return) is trimmed, while .NET's `Trim` also removes the other Unicode white-space characters. `IsNullOrWhiteSpace` uses the same ASCII set.
- Common.ParseNat: accepts plain decimal digits only, while `long.Parse` also accepts surrounding white space and a sign; such replies are a format error here.
- Mega: the Mega client's folder walk in `GetCurrentFolderAsync` and the lazy `CurrentFolder` are not modelled. The current folder id is a constant of the backend. Login and two-factor TOTP are not modelled.
- Google Drive: the lazy `CurrentFolderId` is not modelled; the folder id is set by `CreateFolder`. `GetFileEntries` always throws when nothing is found (`throwMissingException` is true at every call site). Quota, rename, uploads' metadata and the teamdrive request parameters are not modelled.
- Sia: `IsUploadCompleteAsync` compares a floating-point redundancy and is not modelled. The upload and download polling loops wait on the service and are not modelled.
- OpenStack: `SelectEndpoint` has no postcondition of its own. Its behaviour is stated by `SelectEndpointNoService` and `SelectEndpointChosen`. Token expiry and the auth request bodies are not modelled.
- WebDAV: integrated and digest authentication and the debug PROPFIND file are not modelled. The last-modified date is not modelled: a listed entry carries only its name, size and folder flag.
- SSH: connection reuse, timeouts, keep-alive and parsing the private key are not modelled.
- Dropbox: list, create-folder, download and delete are single requests whose only logic is `HandleException` (file requests pass true, folder requests false). They are not modelled separately.
- B2: the `Get*Async` accessors return a field of `GetConfig`'s result, and `AttemptParseAndThrowExceptionAsync` only formats messages; neither is modelled separately.
- Integer width: sizes and offsets are unbounded integers. The source's 32-bit casts of chunk sizes cannot overflow for the bounded chunk sizes used.
- GoogleDrive.GoogleDriveBackend.Fill: fills an empty cache with the corrected listing (`AllPerName`, every file per title), not the as-written one that keeps only the first file per title (GoogleDrive.cs:386-390, `FirstPerName`). So after a fill, `Put` of a title listed twice deletes both files and POSTs a new one, where the source updates the first-listed file in place and leaves the second (GoogleDrive.cs:159-168), and `Get` downloads the newest of both, where the source downloads the first-listed one (GoogleDrive.cs:207). The as-written listing is `ListAsWritten`.
- MicrosoftGraph.Configure: stores the corrected retry count (`FragmentRetryCount`), so a parsed count of 0 or less, which the source keeps (MicrosoftGraphBackend.cs:134-138) and with which every fragment is skipped, becomes 1 here. The as-written count is `RetryCountAsWritten`, and `Configure` states that the two agree for every parsed count of at least 1.
- Streams.TempMemoryFile.OpenWrite: states the intended replacement of a closed stream; the source as written fails there (`OpenWriteAsWritten`, listed under Findings), and `OpenReadWrite` and `WriteAndReadBack` are stated for the intended version.
- Streams: `MemStream` models only the parts of .NET's MemoryStream that the two classes use. `ReadAsync` is the same as `Read`.

## Findings

| source | as written | input that shows it | evidently intended | confidence | as-written member | corrected member |
|---|---|---|---|---|---|---|
| Duplicati/Library/Backend/OneDrive/MicrosoftGraphBackend.cs:134-138 | any parsed fragment-retry-count is used, so a count of 0 or less makes the attempt loop at line 522 never run and the fragment is skipped | option fragment-retry-count=0 | at least one attempt per fragment | not executed | MicrosoftGraph.RetryCountAsWrittenAllowsZero | MicrosoftGraph.FragmentRetryCount |
| Duplicati/Library/Backend/Sia/Sia.cs:282-283 | the filter tests StartsWith(target) without the '/', then cuts target + 1 characters | target "backup" with files "backup" (listing fails) or "backup2/x" (listed as "/x") | list only the files under target + "/" | not executed | Sia.ListAsWrittenLeaksSibling | Sia.List |
| Duplicati/Library/Backend/WEBDAV/WEBDAV.cs:301-303 | the StreamContent is created but never attached to the request, so the PUT has no body | any non-empty upload | the data is sent as the body | not executed | WebDav.PutBodyAsWrittenLosesData | WebDav.PutBody |
| Duplicati/Library/Backend/WEBDAV/WEBDAV.cs:171-187 | the try block returns ListAsync's Task unawaited, so the catch never runs and a missing folder is not reported | a PROPFIND answered with 404 | 404/409 reported as a missing folder | not executed | WebDav.ListFailureAsWrittenMissesFolder | WebDav.ListFailure |
| Duplicati/Library/Backend/Mega/MegaBackend.cs:294-307 | renaming onto the same name deletes the target, which is the file itself, and then fails on the removed key | RenameAsync("a", "a") with "a" cached | a rename onto itself leaves the file alone | not executed | Mega.RenameOntoItself | Mega.MegaBackend.Rename |
| Duplicati/Library/Utility/TempMemoryFile.cs:69-74 | once the stream was closed, the new stream is sized by reading the closed stream's Capacity, which throws ObjectDisposedException, so no new stream is ever opened | a second OpenWrite on a TempMemoryFile whose first written stream was closed | a closed stream is replaced by a new one | not executed | Streams.ReopenAfterClose | Streams.TempMemoryFile.OpenWrite |
| Duplicati/Library/Backend/GoogleServices/GoogleDrive.cs:386-390 | Array.Resize resizes the local array only, so the cache keeps only the first entry per name | two listed items named "a" | the cache keeps every entry per name | not executed | GoogleDrive.FirstPerNameDropsDuplicate | GoogleDrive.AllPerNameKeepsDuplicate |
