# Models of a resumable MEGA transfer client

This project models the parts of MegaBasterd CLI whose correctness spans several functions, several
workers or several runs, and proves the properties those parts exist for. `dafny verify dfyconfig.toml`
checks all of it.

| cluster | files |
|---|---|
| lease-fenced queue | QueueModel, QueueManager, QueueHistory, Heartbeat, QueueRunner |
| crash-safe resumable transfer | StateStore, TransferFiles, DownloadMachine, UrlRefresh, UploadMachine, UploadFiles, UploadedMac |
| chunk arithmetic, keys and MACs | Chunks, Crypto, FileMac, RoundTrip, ChunkTransport |
| authenticated container | BigEndian, Crypter, CrypterFiles |
| range streaming | Streaming |
| share links | Regex, Links, LinkRoundTrip |
| trees of public shares | FolderTree, FolderPaths, ShareImport, ShareCopy |
| quota reservations | QuotaLedger, QuotaMachine |

`Basics` holds Option, Result and a few helpers.

## How the model is built

Code that changes fields in place is a class whose methods are proved against functions of the old
state: `QueueManager`, `LiveState`, `StateFile`, `Downloader`, `Uploader`, `Runner`, `Ledger`, the
crypter's file cursor, the streaming cipher. Loops of the source are loops here. What many threads, runs
or crashes do to that state is a machine: a state, an action for every step the code can be interrupted
between, and a theorem over every run of such steps. The methods' contracts name the same functions and
steps the machines use.

* **Queue.** Every operation is one step under the lock on one shared file. Histories are any finite
  sequence of operations by any number of runs and operators.
* **Heartbeat.** The thread's waits, calls, stamps and returns run on one real-valued clock against
  arbitrary steps of the rest of the world. What is proved is that the stop signal is raised in time;
  a transfer that starts after the signal is another matter, because starting one clears the event.
* **Transfer.** The disk has a volatile and a durable side. Workers write, mark, claim snapshots and
  leave saves in flight; a crash keeps only flushed bytes and the last replaced state file.
* **Cryptography.** AES is any keyed permutation of 16-byte blocks with its inverse; the AEAD opens
  exactly what was sealed; key derivation and hashing are arbitrary functions. These laws are hypotheses
  (`Crypto.Lawful`, `Crypter.Ideal`), never axioms.
* **Links.** The patterns are data for a small backtracking matcher with greedy runs, ordered choice and
  captures, so the order in which alternatives and patterns are tried is part of the model.

## What turned out not to hold as stated

Each of these is an exact condition, and where an input is needed to show the failure, a lemma with that input.

* Presenting a run id without an epoch fences a run against others, but not its old attempt against its new
  one: exactly `QueueHistory.RunIdAloneFencesExactly`, for instance `QueueHistory.RunIdAloneDoesNotFence`.
* An id used again can repeat a grant (`QueueHistory.ReusedIdRepeatsAGrant`), and can be made to exactly when
  the job is added with a smaller epoch than was granted under its id (`QueueHistory.GrantsAreNewExactly`).
* `mark_active` and status writes without a run id can make the queue file unloadable, because they keep
  an old finish time on a job they make unfinished (`QueueHistory.StepKeepsLoadable`, for instance
  `QueueHistory.FinishedJobBreaksTheFile`).
* The heartbeat fence needs a write to be noted within 110 seconds (`Heartbeat.SourceConstantsFence`).
* `chunks_for_range` on an empty or backward range can return a chunk that overlaps nothing
  (`Chunks.RangeSelectionExact`, for instance `Chunks.EmptyRangeSelectsAChunk`).
* A repeated handle can look like a cycle to the parent walk (`FolderTree.RefusedExactlyWhenLooping`, for
  instance `FolderTree.RepeatedHandleLooksCyclic`), and copies that name different parents can hide a cycle
  and put a child before its parent (`FolderTree.FollowsParentsExactly`, for instance
  `FolderTree.DisagreeingCopiesMisorder`).
* A file in a stray folder, whose chain misses a listed root folder, is planned below the root's name but
  walked without it (`FolderPaths.PathsAgreeExactly`, for instance `FolderPaths.StrayFolderPathsDiffer`).
* On an acyclic listing without a named outside parent, the share import can start with a node that
  precedes its parent (`ShareImport.PlainFolderOrder`, for instance `ShareImport.AcyclicIsNotEnough`).
* A single file that landed although its upload, or the bookkeeping after it, raised gives its reservation
  back, so the account is promised more than it has (`QuotaMachine.OvercommittedExactly`, for instance
  `QuotaMachine.FinishFailureLeaks` and `QuotaMachine.AmbiguousRegistrationLeaks`).
* An exception that no arm of the upload loop handles ends the file with its reservation open
  (`QuotaMachine.FinishedOwesExactly`, for instance `QuotaMachine.EscapeKeepsReservation`).
* A nested link without a key is printed with the word "None" as its key, and what follows the "!" of a
  modern file link is not printed (`LinkRoundTrip.NormalizeKeepsMeaning`, for instance
  `LinkRoundTrip.KeylessNestedChanges` and `LinkRoundTrip.FilePartIsDropped`).

## Model

| member | source | states |
|---|---|---|
| QueueManager.QueueManager.Load | src/megabasterd_cli/queue/manager.py:204-251 | A file that does not parse, or holds one bad entry or a repeated id, loads as no items with the corrupt flag set; anything else loads whole |
| QueueManager.QueueManager.IdsAreUnique | src/megabasterd_cli/queue/schema.py:136-144 | The loop over seen ids accepts exactly the lists without a repeated id |
| QueueManager.QueueManager.Save | src/megabasterd_cli/queue/manager.py:253-263 | Nothing is written over a corrupt file |
| QueueManager.QueueManager.Add | src/megabasterd_cli/queue/manager.py:265-276 | The stored job is appended under its own or a generated id; a corrupt file is left as it is |
| QueueManager.QueueManager.Remove | src/megabasterd_cli/queue/manager.py:278-286 | Every job with the id goes, no other; the answer tells whether any did |
| QueueManager.QueueManager.UpdateStatus | src/megabasterd_cli/queue/manager.py:322-354 | A caller presenting a lease it does not hold is refused and the file stays; otherwise the first job with the id gets the status and loses its lease unless active |
| QueueManager.QueueManager.MarkActive | src/megabasterd_cli/queue/manager.py:356-384 | Refused while another run has a live lease; otherwise leased with the next epoch |
| QueueManager.QueueManager.Touch | src/megabasterd_cli/queue/manager.py:386-411 | The heartbeat moves only for the holder of an active job; False otherwise, and for a corrupt file |
| QueueManager.QueueManager.RecoverLoaded | src/megabasterd_cli/queue/manager.py:413-434 | Active jobs without a usable or recent heartbeat become interrupted and unleased, all others are untouched |
| QueueManager.QueueManager.RecoverInterrupted | src/megabasterd_cli/queue/manager.py:436-449 | The same pass over the file, saved only if it changed something; it returns the interrupted jobs in queue order |
| QueueManager.QueueManager.ClaimNext | src/megabasterd_cli/queue/manager.py:451-480 | After recovery the first runnable job is leased to the caller with the next epoch, in one step |
| QueueManager.QueueManager.Retry | src/megabasterd_cli/queue/manager.py:482-499 | Only a failed, interrupted or cancelled job returns to pending, cleared of error, finish time and lease |
| QueueManager.QueueManager.ClearDone | src/megabasterd_cli/queue/manager.py:512-523 | Done and cancelled jobs go, the rest stay in order; the count is exact |
| QueueHistory.EpochMonotone | src/megabasterd_cli/queue/manager.py:370-384 | In every history with fresh ids a job's lease epoch never decreases and a removed job never returns |
| QueueHistory.GrantsAreNew | src/megabasterd_cli/queue/manager.py:451-480 | As long as a job added under an id granted before starts at an epoch at least every granted one, each claim or mark yields a (job, epoch) pair never issued before, with a greater epoch |
| QueueHistory.GrantsAreNewExactly | src/megabasterd_cli/queue/manager.py:265-276 | That condition on adds is exact: a history keeps to it if and only if no continuation of it, from any point and without further adds, grants a pair twice |
| QueueHistory.FreshIsCareful | src/megabasterd_cli/queue/models.py:61-75 | Ids never used before meet it |
| QueueHistory.LostLeaseStaysLost | src/megabasterd_cli/queue/manager.py:288-308 | Once (run, epoch) stops owning a job it never owns it again: later heartbeats return False and status writes are refused, whatever others do |
| QueueHistory.RunIdAloneFencesExactly | src/megabasterd_cli/queue/manager.py:288-308 | A run that lost a lease and presents no epoch is heard by touch and by status writes if and only if it was granted the job again since and still holds that grant; otherwise it changes nothing |
| QueueHistory.RunIdAloneDoesNotFence | src/megabasterd_cli/queue/manager.py:289-291 | A concrete history in which a heartbeat that presents no epoch is accepted after the lease was lost |
| QueueHistory.ReusedIdRepeatsAGrant | src/megabasterd_cli/queue/manager.py:265-276 | A concrete history in which an id added again repeats a (job, epoch) pair |
| QueueHistory.StepKeepsLoadable | src/megabasterd_cli/queue/schema.py:110-144 | From a loadable queue every operation leaves a loadable queue if and only if its stated condition holds (only add, mark and unowned status writes have one) |
| QueueHistory.FinishedJobBreaksTheFile | src/megabasterd_cli/queue/manager.py:322-384 | A finished job whose mark, or whose unowned status write back to pending, makes the file unloadable |
| QueueHistory.HistoryKeepsLoadable | src/megabasterd_cli/queue/schema.py:62-144 | Whole histories that meet those conditions never corrupt the file |
| Heartbeat.StopPrecedesTakeover | src/megabasterd_cli/commands/queue_cmd.py:384-404 | When a recovery, claim or mark by anyone else takes a tracked job, this run's stop signal is already set, for every schedule of failing and succeeding heartbeats |
| Heartbeat.LiveJobIsSafe | src/megabasterd_cli/queue/manager.py:310-320 | Recovery, claims and marks of other runs leave a job with a live lease exactly as it is |
| Heartbeat.SourceConstantsFence | src/megabasterd_cli/commands/queue_cmd.py:42-47 | With the source's constants the fence holds in every run if and only if a heartbeat write is noted within 110 seconds |
| QueueRunner.Runner.LoseLease | src/megabasterd_cli/commands/queue_cmd.py:366-382 | The signal is raised once, and only then is the transfer in flight stopped |
| QueueRunner.Runner.Beat | src/megabasterd_cli/commands/queue_cmd.py:386-404 | One turn of the heartbeat loop, over any file, is a path of the timed machine: idle, failed, refused, or stamped and noted |
| QueueRunner.Runner.Fail | src/megabasterd_cli/commands/queue_cmd.py:337-354 | The failure is counted, and the status is written only as the lease's owner |
| QueueRunner.Runner.ClaimRound | src/megabasterd_cli/commands/queue_cmd.py:411-540 | A run that lost its lease claims nothing; otherwise one claimed job ends with at most one owner-checked status write over whatever the file holds by then: its result, or its release when the user cancels |
| QueueRunner.Runner.WorkOn | src/megabasterd_cli/commands/queue_cmd.py:438-505 | The transfer is armed before the lease is looked at again, so one whose lease was lost before the start is not started |
| StateStore.FileIsNewest | src/megabasterd_cli/core/state.py:559-614 | In whatever order snapshots are saved, the file equals the one with the highest revision saved so far |
| StateStore.RevisionNeverDecreases | src/megabasterd_cli/core/state.py:434-465 | Between clears the revision on disk never decreases |
| StateStore.SaveOrderIrrelevant | src/megabasterd_cli/core/state.py:559-614 | The final file does not depend on the order of the saves |
| StateStore.LaterSnapshotsOutrank | src/megabasterd_cli/core/state.py:310-326 | Snapshots claimed from one live state have strictly increasing revisions |
| StateStore.LaterSnapshotContains | src/megabasterd_cli/core/state.py:292-326 | A later snapshot of the same upload slot contains every chunk of an earlier one |
| StateStore.OutOfOrderSavesNeverRegress | src/megabasterd_cli/core/state.py:310-614 | At each save the file holds a snapshot at least as new, so completed chunks only grow and a pre-refresh snapshot never overwrites a post-refresh one |
| TransferFiles.Validate | src/megabasterd_cli/core/state.py:161-252 | The loop accepts exactly the documents that meet the schema |
| TransferFiles.LiveState.MarkChunkDone | src/megabasterd_cli/core/state.py:292-303 | A MAC of the wrong length changes nothing; otherwise the chunk is listed once and its MAC recorded |
| TransferFiles.LiveState.Snapshot | src/megabasterd_cli/core/state.py:310-326 | The live revision rises by one and the copy is the live state |
| TransferFiles.StateFile.ReadGuard | src/megabasterd_cli/core/state.py:434-465 | Only a usable document constrains a save; a newer format is protected by its version alone |
| TransferFiles.StateFile.FlushTransferredData | src/megabasterd_cli/core/state.py:468-527 | A download snapshot with chunks passes only behind a flush of everything written; a missing destination is tolerated only with no chunks |
| TransferFiles.StateFile.SaveState | src/megabasterd_cli/core/state.py:530-614 | The file changes only to the snapshot, only when nothing newer is there, and for chunks of a download only behind the flush |
| TransferFiles.StateFile.ClearState | src/megabasterd_cli/core/state.py:617-650 | The file goes, unless its format version is newer |
| TransferFiles.Downloader.constructor | src/megabasterd_cli/core/downloader.py:524-548 | The counters start as the sum and number of the chunks the state names |
| TransferFiles.Downloader.CommitChunk | src/megabasterd_cli/core/download_transport.py:151-162 | The locked section marks, counts and, every sixteenth chunk, snapshots: the machine's mark step |
| DownloadMachine.NamedChunksAreDurable | src/megabasterd_cli/core/state.py:468-614 | At every moment of every run, crashes included, each chunk the state file names has its plaintext durably in the destination |
| DownloadMachine.ResumeAccepts | src/megabasterd_cli/core/download_verify.py:72-115 | A state this transfer wrote is never turned away, even right after a crash |
| DownloadMachine.ResumeIsSafeAndComplete | src/megabasterd_cli/core/downloader.py:466-524 | A resume takes up exactly that state, does not truncate the destination, and skips only chunks that are correct in it |
| DownloadMachine.ResultMeansComplete | src/megabasterd_cli/core/downloader.py:600-649 | A result is returned only when every chunk is committed and the destination is the whole plaintext |
| DownloadMachine.CountersMatchCommitted | src/megabasterd_cli/core/download_transport.py:151-155 | The counters are the sum and number of committed chunks after any retries |
| DownloadMachine.CoverageIsCompletion | src/megabasterd_cli/core/downloader.py:605-606 | No chunk missing means the plaintext is complete: correct chunks over the plan are the file |
| UrlRefresh.SingleFlight | src/megabasterd_cli/core/downloader.py:338-343 | At most one call is between the checks and the store |
| UrlRefresh.OneSuccessPerGeneration | src/megabasterd_cli/core/downloader.py:332-355 | No generation is refreshed successfully twice, and the generation counts the stored answers |
| UrlRefresh.GenerationMovesByOne | src/megabasterd_cli/core/downloader.py:344-352 | One step raises the generation by at most one, and only by storing an answer; a failed resolver changes nothing |
| UrlRefresh.ReturnIsNewer | src/megabasterd_cli/core/downloader.py:332-352 | Every call that returns yields the URL of a generation later than the one its caller saw |
| UrlRefresh.NoDeadlock | src/megabasterd_cli/core/downloader.py:332-352 | While some call is unfinished, some call can move |
| UploadMachine.RegistrationIsSafe | src/megabasterd_cli/core/uploader.py:451-483 | A node is registered only with every chunk's MAC recorded against the current slot, a token that slot answered to the chunk with the last byte, and the source still of its starting identity |
| UploadMachine.ResumedStateIsSound | src/megabasterd_cli/core/uploader.py:285-346 | What a resumed or refreshed upload claims of its slot is true of that slot |
| UploadMachine.AcknowledgedIsSound | src/megabasterd_cli/core/upload_transport.py:171-227 | An answered chunk extends the state truthfully; the first token of the final chunk is kept |
| UploadedMac.RegisteredMacIsTheSources | src/megabasterd_cli/core/uploader.py:474-511 | In every run over a source that keeps its bytes, the MACs a registered upload carries combine to the MAC of that source |
| UploadFiles.Uploader.CommitChunk | src/megabasterd_cli/core/upload_transport.py:210-223 | The locked section records the MAC, moves the counters, keeps the first token and snapshots: the machine's answer step |
| UploadFiles.Uploader.TakeFreshSlot | src/megabasterd_cli/core/uploader.py:428-450 | After an expiry the URL, token, chunks and MACs of the old slot are gone before the next snapshot: the machine's refresh step |
| UploadFiles.Uploader.CollectChunkMacs | src/megabasterd_cli/core/uploader.py:475-478 | The MACs in plan order, or the news that one is missing |
| UploadFiles.Uploader.Finalize | src/megabasterd_cli/core/uploader.py:451-478 | Passes exactly when there is a token, the identity still matches and every MAC is there; names the first check that failed, and clears the state only for a changed or vanished source |
| Chunks.IterChunks | src/megabasterd_cli/core/chunks.py:42-60 | The two loops yield the reference plan |
| Chunks.PlanIsContiguous | src/megabasterd_cli/core/chunks.py:42-60 | For every size the pieces are positive, contiguous from 0 to the size, numbered in order, and start on cipher blocks |
| Chunks.PlanCoversOnce | src/megabasterd_cli/core/chunks.py:42-60 | Every byte lies in exactly one chunk |
| Chunks.FinalChunkIsLast | src/megabasterd_cli/core/upload_transport.py:51-59 | Exactly the last chunk is final |
| Chunks.ChunkCount | src/megabasterd_cli/core/chunks.py:76-93 | The closed form is the length of the plan |
| Chunks.SizeGuardAgrees | src/megabasterd_cli/core/chunks.py:68-73 | A plan has at most the maximum number of chunks if and only if the file is at most the maximum size |
| Chunks.ChunksForRange | src/megabasterd_cli/core/chunks.py:150-162 | The early exit loses no chunk that ends after the start and begins before the end |
| Chunks.RangeSelectionExact | src/megabasterd_cli/core/chunks.py:150-162 | The selection is exactly the overlapping chunks if and only if start < end, or end <= 0, or start is past the file, or end is at or before the start of the chunk holding start |
| Chunks.EmptyRangeSelectsAChunk | src/megabasterd_cli/core/chunks.py:150-162 | The empty range [5, 5) of a ten-byte file selects its only chunk |
| Crypto.WordsOfBytes | src/megabasterd_cli/core/crypto.py:69-79 | Words to bytes and back is the identity |
| Crypto.BytesOfWords | src/megabasterd_cli/core/crypto.py:69-79 | Whole-word bytes to words and back is the identity |
| Crypto.CbcInverse | src/megabasterd_cli/core/crypto.py:97-106 | CBC decryption and encryption undo each other for every key, IV and whole-block input |
| Crypto.KeyWrapEncrypt | src/megabasterd_cli/core/crypto.py:109-122 | Blocks are wrapped one by one; unaligned input and bad key lengths are refused |
| Crypto.KeyWrapDecrypt | src/megabasterd_cli/core/crypto.py:125-133 | Blocks are unwrapped one by one; the same refusals |
| Crypto.KeyWrapInverse | src/megabasterd_cli/core/crypto.py:109-133 | Wrapping and unwrapping undo each other |
| Crypto.CtrTwice | src/megabasterd_cli/core/crypto.py:198-208 | Ciphering twice from one counter gives the data back |
| Crypto.CtrSplit | src/megabasterd_cli/core/crypto.py:198-215 | A stream restarted at a block boundary with the counter advanced to match is the same stream |
| Crypto.ChunkedEqualsWhole | src/megabasterd_cli/core/upload_transport.py:123-129 | Ciphering an aligned slice at the counter of its offset gives that slice of the whole file's ciphertext |
| Crypto.UnpackPacked | src/megabasterd_cli/core/crypto.py:223-259 | Unpacking a packed file key gives its three parts back |
| Crypto.PackUnpacked | src/megabasterd_cli/core/crypto.py:223-259 | Packing an unpacked key gives its eight words back |
| FileMac.CombineChunkMacs | src/megabasterd_cli/core/chunks.py:121-135 | The CBC chain over the MACs in order; a MAC of another length is an error, not a shorter block |
| FileMac.DiskMacs | src/megabasterd_cli/core/download_verify.py:145-162 | The MACs of the chunks on disk; any short read ends the check |
| FileMac.VerifyFileOnDisk | src/megabasterd_cli/core/download_verify.py:118-164 | True if and only if the file is readable, long enough, and its first bytes have the MAC in the key |
| FileMac.ChunkMacSeesBlock | src/megabasterd_cli/core/chunks.py:101-118 | Chunks that differ in one block have different MACs |
| FileMac.CombinedSeesMac | src/megabasterd_cli/core/chunks.py:121-135 | MAC lists that differ in one entry combine differently |
| FileMac.DamagedBlockIsSeen | src/megabasterd_cli/core/chunks.py:101-135 | Damage confined to one block anywhere in a file always changes its 128-bit MAC |
| RoundTrip.CompleteTransferIsCtr | src/megabasterd_cli/core/download_transport.py:135-149 | Chunkwise transfers covering the plan, in any order and with repeats, give whole-file counter mode whatever was there before |
| RoundTrip.KeySurvives | src/megabasterd_cli/core/uploader.py:503-511 | Packing, wrapping, unwrapping and unpacking a node's key gives it back |
| RoundTrip.UploadThenDownload | src/megabasterd_cli/core/uploader.py:474-511 | For every file, the empty one included, and every order of uploads and downloads, the destination ends as the source, the stored bytes are its counter-mode image and the integrity check passes |
| RoundTrip.UncarriedBytesUntouched | src/megabasterd_cli/core/download_transport.py:146-149 | Bytes of chunks not transferred stay as they were |
| ChunkTransport.ReadBody | src/megabasterd_cli/core/download_transport.py:107-133 | Whatever the fragmentation, an uncancelled body is too long, short, or whole, and never more than the chunk is kept |
| ChunkTransport.FetchChunk | src/megabasterd_cli/core/download_transport.py:107-149 | Nothing is written unless the body has exactly the chunk's length; then the deciphered body goes to its place, with its MAC |
| ChunkTransport.HonestFetch | src/megabasterd_cli/core/download_transport.py:135-149 | From an honest server that is the source's slice, with the MAC the uploader recorded |
| ChunkTransport.PrepareChunk | src/megabasterd_cli/core/upload_transport.py:114-129 | A short local read is an error; otherwise the posted bytes are that slice of the whole file's ciphertext |
| Crypter.AcceptsExactlyItsOutputs | src/megabasterd_cli/core/crypter.py:214-285 | A stream decrypts to a plaintext if and only if it is byte for byte what encrypt_file wrote for it under a passphrase with the same key |
| Crypter.GenuineIsAccepted | src/megabasterd_cli/core/crypter.py:228-258 | None of the size and length guards rejects a genuine container, of any length and chunk size |
| Crypter.AcceptedIsGenuine | src/megabasterd_cli/core/crypter.py:240-285 | Whatever the frame loop accepts is the writer's frames in order, then the unread tail |
| Crypter.EditsAreRejected | src/megabasterd_cli/core/crypter.py:26-31 | Any other stream with the salt field of an accepted one is rejected: truncation, reordering, duplication, splicing, appending, header edits |
| Crypter.ChunkOfAad | src/megabasterd_cli/core/crypter.py:83-84 | The authenticated header, index and flag belong to one chunk of one encryption |
| Crypter.IdealIsPossible | src/megabasterd_cli/core/crypter.py:180-181 | The laws assumed of the cipher do not contradict each other |
| CrypterFiles.WriteChunks | src/megabasterd_cli/core/crypter.py:172-204 | The read-ahead loop writes exactly the container, its last chunk flagged, an empty file as one final chunk |
| CrypterFiles.EncryptFile | src/megabasterd_cli/core/crypter.py:148-175 | The destination is replaced once by the whole container, or untouched for a bad chunk size |
| CrypterFiles.NextFrame | src/megabasterd_cli/core/crypter.py:243-270 | The reads of one round cut the stream as the format says, with the same errors in the same order |
| CrypterFiles.ReadAllFrames | src/megabasterd_cli/core/crypter.py:239-275 | The loop gives the joined plaintext and leaves what follows the final frame unread |
| CrypterFiles.DecryptV2 | src/megabasterd_cli/core/crypter.py:214-285 | The destination changes only when every check passed, and then holds the plaintext |
| CrypterFiles.DecryptFile | src/megabasterd_cli/core/crypter.py:333-354 | The prefix checks, then the same |
| Streaming.AcceptedRangeExists | src/megabasterd_cli/streaming/server.py:499-522 | Every accepted header of a non-empty file gives 0 <= start <= end < size, whatever the integer parser accepts |
| Streaming.RangeMeansWhatItSays | src/megabasterd_cli/streaming/server.py:499-522 | Each of the three byte-range forms selects exactly the bytes section 14.1.2 of RFC 9110 gives it, and is refused when that is none |
| Streaming.CtrAt | src/megabasterd_cli/core/crypto.py:198-208 | Counter mode byte by byte: position p uses byte p mod 16 of block p div 16 |
| Streaming.Pump | src/megabasterd_cli/streaming/server.py:459-497 | For every fragmentation the client gets what is due of the decrypted body, and the call succeeds exactly when that is all of it |
| Streaming.ServeFrom | src/megabasterd_cli/streaming/server.py:421-457 | From an aligned offset the client gets a prefix of the wanted bytes, all of them unless the body is short |
| Streaming.ServeRange | src/megabasterd_cli/streaming/server.py:408-457 | An accepted request delivers a prefix of exactly plaintext[start..end], complete unless the call fails |
| FolderTree.WalkUp | src/megabasterd_cli/core/folder_downloader.py:435-460 | The guarded walk stops, ends or is refused as the reference climb says |
| FolderTree.RefusedExactlyWhenLooping | src/megabasterd_cli/core/folder_downloader.py:435-460 | On any parent graph and from any listed copy of a node the walk terminates, and raises if and only if the real chain never ends and never meets a stop handle, or comes back to the handle it started from before one |
| FolderTree.RepeatedHandleLooksCyclic | src/megabasterd_cli/core/folder_downloader.py:448-457 | A listing with a repeated handle on which the guard raises although the chain ends |
| FolderTree.ComputeDepths | src/megabasterd_cli/core/folder_downloader.py:489-506 | The depth loops compute the reference depths, or raise |
| FolderTree.SortRefusesExactly | src/megabasterd_cli/core/folder_downloader.py:489-507 | On any listing the sort raises if and only if it comes to a node without a depth whose chain loops without meeting one that has a depth |
| FolderTree.AgreeingSortRefusesExactly | src/megabasterd_cli/core/folder_downloader.py:489-507 | When copies of a handle agree on the parent that is so if and only if some chain is endless and avoids the root |
| FolderTree.SortIsOrdered | src/megabasterd_cli/core/folder_downloader.py:507 | The sort permutes the listing and orders it by depth |
| FolderTree.SortByDepth | src/megabasterd_cli/core/folder_downloader.py:489-507 | The method returns that sort, or the error |
| FolderTree.FollowsParentsExactly | src/megabasterd_cli/core/folder_downloader.py:507 | On any listing every node but the root comes after its listed parent if and only if that parent has a smaller depth, or the same depth and an earlier place |
| FolderTree.ParentsComeFirst | src/megabasterd_cli/core/folder_downloader.py:491 | Every node but the root comes after its listed parent, as long as copies of a handle agree on theirs |
| FolderTree.DisagreeingCopiesMisorder | src/megabasterd_cli/core/folder_downloader.py:489-507 | A listing whose copies of a handle disagree, on which nothing is refused, a cycle stays hidden and a child comes first |
| FolderPaths.BuildDirectoryPaths | src/megabasterd_cli/core/folder_downloader.py:412-433 | The loop builds the reference directory map |
| FolderPaths.PlanFileJobs | src/megabasterd_cli/core/folder_downloader.py:374-398 | One job per file in listing order, at its parent's path |
| FolderPaths.LocalPathForNode | src/megabasterd_cli/core/folder_downloader.py:462-487 | The names from the root, or from the top of the chain, down to the node |
| FolderPaths.ParentDirectory | src/megabasterd_cli/core/folder_downloader.py:424-433 | The top-down map gives a file's parent the names the bottom-up walk passes, below the root's own path |
| FolderPaths.PathsAgreeExactly | src/megabasterd_cli/core/folder_downloader.py:374-487 | The two computations give a file one path if and only if its chain reaches the root, or the root is not a listed folder, or its own parent is not listed |
| FolderPaths.FindFolderRoot | src/megabasterd_cli/core/folder_downloader.py:365-372 | The loop finds the outside parent, or the first outside node itself when its parent is empty, or the first node |
| FolderPaths.FoundRootPathsAgree | src/megabasterd_cli/core/folder_downloader.py:365-372 | Whenever the first node with an outside parent names it, both paths of every file agree |
| FolderPaths.StrayFolderPathsDiffer | src/megabasterd_cli/core/folder_downloader.py:365-487 | A listing, with the root found for it, in which a file of a stray folder has two different paths |
| ShareImport.GroupByParent | src/megabasterd_cli/core/shares.py:153-155 | Children by parent, in listing order |
| ShareImport.OrderNodes | src/megabasterd_cli/core/shares.py:157-174 | The layered traversal terminates on every listing and gives the reference order |
| ShareImport.EachHandleOnce | src/megabasterd_cli/core/shares.py:157-174 | Every handle of the listing exactly once, cyclic and repeated listings included |
| ShareImport.ReachedIsTheSubtree | src/megabasterd_cli/core/shares.py:157-169 | The nodes before the orphans are exactly those reachable from the share root |
| ShareImport.ReachedFollowParentsExactly | src/megabasterd_cli/core/shares.py:151-169 | They follow their listed parents if and only if the handle taken for the root's parent is not itself listed |
| ShareImport.PlainFolderOrder | src/megabasterd_cli/core/shares.py:126-132 | For a folder link that is so if and only if some node names an outside parent or the first node's parent is not listed |
| ShareImport.AcyclicIsNotEnough | src/megabasterd_cli/core/shares.py:129-132 | An acyclic listing whose first imported node precedes its parent |
| ShareImport.KeepSubtree | src/megabasterd_cli/core/shares.py:137-147 | The stack walk keeps the least set holding the folder and closed under children |
| ShareImport.SubfolderOrder | src/megabasterd_cli/core/shares.py:134-149 | For a subfolder link every acyclic listing is imported parents first |
| ShareCopy.KeepAncestry | src/megabasterd_cli/core/shares.py:178-185 | The filter keeps the least ancestor-closed set holding the wanted listed handles, cyclic listings included |
| ShareCopy.ImportNodes | src/megabasterd_cli/core/shares.py:188-230 | The loop makes the reference calls; skipped nodes make none, a malformed reply aborts |
| ShareCopy.ChildLandsInItsParent | src/megabasterd_cli/core/shares.py:210-227 | A node is sent to its parent's new handle if that was imported before it, else to the target |
| ShareCopy.ImportKeepsHierarchy | src/megabasterd_cli/core/shares.py:151-227 | Order, filter and copy together: every reached and kept node goes, after its listed parent, into that parent's new handle, or to the target if the parent failed |
| ShareCopy.UnfilteredImportKeepsHierarchy | src/megabasterd_cli/core/shares.py:151-227 | The same without a filter, for every node reached |
| QuotaLedger.Ledger.Reserve | src/megabasterd_cli/upload_support.py:114-127 | The roomiest account that fits and is not excluded, the last in string order among equals, is charged; None exactly when none fits |
| QuotaLedger.Ledger.Release | src/megabasterd_cli/upload_support.py:129-133 | The reservation returns to a known account |
| QuotaLedger.Ledger.ReconcileFree | src/megabasterd_cli/upload_support.py:135-145 | A balance only ever shrinks to a live reading, never below zero |
| QuotaLedger.BestIsUnique | src/megabasterd_cli/upload_support.py:125 | The pick is unique |
| QuotaLedger.UploadOne | src/megabasterd_cli/commands/upload_cmd.py:503-649 | The re-planning loop ends, reserves the best account not tried before in each round, leaves the ledger as its attempts settle it, and raises exactly when the last one escaped |
| QuotaLedger.SettleAttempt | src/megabasterd_cli/commands/upload_cmd.py:523-644 | What each ending does: give back, refresh downward, keep, or run past every arm |
| QuotaLedger.TriedOnce | src/megabasterd_cli/commands/upload_cmd.py:505-508 | No account is reserved twice for one file |
| QuotaMachine.Conservation | src/megabasterd_cli/upload_support.py:110-145 | Under any interleaving no balance is negative and free plus in flight plus kept never exceeds the initial space; without a refresh it equals it |
| QuotaMachine.SettledOnce | src/megabasterd_cli/commands/upload_cmd.py:503-649 | A settled reservation never changes again |
| QuotaMachine.FinishedOwesExactly | src/megabasterd_cli/commands/upload_cmd.py:503-649 | A file whose loop ended has an open reservation if and only if its last attempt ended by an exception that no arm handles |
| QuotaMachine.EscapeKeepsReservation | src/megabasterd_cli/commands/upload_cmd.py:534-548 | A run in which a connection error while the target is looked up keeps the space reserved for good |
| QuotaMachine.BoundedReplanning | src/megabasterd_cli/commands/upload_cmd.py:495-501 | A file reserves each account at most once, however others disturb it |
| QuotaMachine.OvercommittedExactly | src/megabasterd_cli/upload_support.py:101-108 | An account is not promised more than it had as long as no nonempty single file that may have landed on it gave its reservation back; for one never refreshed, if and only if |
| QuotaMachine.FinishFailureLeaks | src/megabasterd_cli/commands/upload_cmd.py:630-636 | A run in which an upload that landed and then failed in its bookkeeping frees its space again |
| QuotaMachine.AmbiguousRegistrationLeaks | src/megabasterd_cli/commands/upload_cmd.py:614-621 | A run in which a registration cut off after the server acted on it frees its space again |
| Regex.FirstRun | src/megabasterd_cli/core/links.py:111-139 | A greedy class is taken whole first when what follows stops it |
| LinkRoundTrip.ParseSpelling | src/megabasterd_cli/core/links.py:156-295 | Every modern and legacy spelling, on both schemes and hosts, parses to its components |
| LinkRoundTrip.SpellingsAgree | src/megabasterd_cli/core/links.py:156-295 | Two spellings parse alike if and only if their components are the same |
| LinkRoundTrip.ProtectedParses | src/megabasterd_cli/core/links.py:170-177 | A password-protected link keeps its blob |
| LinkRoundTrip.PaddingIsIgnored | src/megabasterd_cli/core/links.py:161 | Whitespace around any input changes nothing |
| LinkRoundTrip.TrailingSlashesAreIgnored | src/megabasterd_cli/core/links.py:162-166 | Slashes after a link on MEGA's host change nothing |
| LinkRoundTrip.NormalizeKeepsMeaning | src/megabasterd_cli/core/links.py:552-568 | For every input over the base64url alphabet, printing and parsing again gives the same link if and only if a nested link has its key and a file link nothing after it |
| LinkRoundTrip.KeylessNestedChanges | src/megabasterd_cli/core/links.py:552-568 | Every nested link written without a key comes back with the key None |
| LinkRoundTrip.FilePartIsDropped | src/megabasterd_cli/core/links.py:552-568 | What follows the exclamation mark of a modern file link is parsed and not printed |

## Left out

- HTTP, TLS, proxies, bandwidth limits, progress display, prompts, redaction and logging: responses and callbacks are arbitrary inputs, constrained only by the checks the code makes.
- File locks, destination claims and name sanitising: mutual exclusion and exclusive destinations are assumed, the name function is arbitrary. A lock timeout is a step that does not happen.
- Durability of the operating system: fsync is assumed to flush every earlier write and replace to be atomic and durable; the destination is assumed not to be edited by others between attempts, and the state file not to vouch for this transfer's unwritten chunks before the first run.
- Downloads from a dishonest server: over whole runs the bytes of a body of the right length are assumed to be the file's ciphertext; wrong lengths are refused by `ChunkTransport.FetchChunk`, and the on-disk MAC check is modelled on its own.
- Heartbeat failures other than lock and corruption errors: such an exception ends the thread in the source; the timed model assumes `touch` raises only those two.
- Aliasing of the queue items a caller keeps: a queue item is a value here, because every operation reloads the list.
- ISO timestamps, queue secrets, unknown extra fields and backups of corrupt files: time is real-valued and shared, timestamps are null, blank or a time.
- Python's integer parser, whitespace test and URL library in `_parse_range` and `parse_link`: parameters of the model, with the laws used stated as hypotheses.
- CrypterFiles.DecryptFile: returns the result Legacy for the version-1 format, which the source only reads; its decryption is not modelled.
- Plaintexts of 2^64 bytes or more, and a source that grows while it is encrypted, are outside the model.
- Upload identity checks beyond the one before registration: a change after it is not seen by the source either. The zero-byte upload path has its MAC, key and integrity check covered by `RoundTrip.UploadThenDownload`, not its two posts.
- Quota waits, API retry policy, the connection counters of the streaming server, the splitter and proxy weighting are outside the model.
- Encrypted, ELC and MegaCrypter links: their patterns are modelled and tried in the source's order, and nothing more is proved of them.
- Symlink containment checks on planned paths, and decryption of node names and keys in a listing.
- Password hashing, login, session caches, hashcash and link key lengths.
- QueueRunner.Runner.Fail: a lock timeout of the status write, which ends the run, is not modelled.
- QuotaMachine.OvercommittedExactly: an error answered by the server is taken to mean that the node was not made, and nothing else fills the account meanwhile.
- QuotaLedger.UploadOne: undisturbed by other uploads; what survives disturbance is stated over the runs of `QuotaMachine`. A run without `--auto-account` has no ledger and is not modelled.
- UploadFiles.Uploader.CommitChunk: does not state the byte counter's relation to the committed chunks, which the upload never relies on.
- Streaming.ServeRange: leaves out the empty file, which is answered without a range, and the status lines and headers.
- UploadedMac.RegisteredMacIsTheSources: a source edited and restored while it is read is not covered; what such a run registers is stated by `UploadMachine.RegistrationIsSafe`.
- QueueModel.ValidItem: blank ids and sources are those of ASCII whitespace; the source's test covers Unicode whitespace too.
- FileMac.VerifyFileOnDisk: bytes beyond the expected size are not seen by the check, in the source or here.
