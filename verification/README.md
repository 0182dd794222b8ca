# smb-io-rs in Dafny

This project models the SMB 2/3 client `smb-io-rs` and proves that the file its callers see is the
file on the server, although everything in between is credit-limited, answered out of order,
cancellable from other threads and liable to lose its connection.

The server is never trusted to behave. A session owns an `inbox`, an arbitrary list of messages the
peer will deliver, and every theorem holds for every such list. What a history says about the server
is stated separately, over the ghost trace of everything sent and received: `ReadTrace.Honest` (the
server returns the file's own bytes, perhaps too few), `ReadTrace.Complete` (it falls short only at
end of file), `RandomAccess.Faithful` (every READ is answered from the file as it is when the answer
is sent). Other threads, `select!` and spurious failures are nondeterministic choices; where
threads really interleave (`Credits`, `RandomRace`, `SharedFile`, `BrokerRace`, `BrokerHistory`) the
code is a transition system and the results hold for all its runs.

| files | what they model |
|---|---|
| `FileModel`, `ByteOrder`, `Common` | the abstract file (slice, overlay, resize), little-endian words, shared types |
| `Credits`, `Messages`, `AsyncResponse`, `Session` | credit window, MessageId allocator, async response correlation, one session |
| `ReadTrace`, `ReadAssembly`, `ReadAt`, `Pipeline`, `Cancellation`, `CancelableRead` | the three READ schedulers and the CANCEL discipline |
| `WriteAt`, `RandomAccess`, `RandomRace`, `SharedFile` | chunked WRITE, random-access handles, their close race, and both together: one handle under many threads |
| `Video`, `VideoPlayback`, `Broker`, `BrokerRace`, `BrokerHistory` | the read-ahead window, the broker runner, all interleavings of its handles |
| `Reconnect`, `RecoveringRead`, `Handshake` | recovery with an identity guard, NEGOTIATE and SESSION_SETUP |
| `Frame`, `Transport`, `Spnego`, `CreateContext`, `DirectoryPage`, `DirectoryWalk` | framing, stream reassembly, codecs, the directory size walk |

Loops and objects of the source are methods and classes; what they compute is tied to functions and
predicates, about which the lemmas speak. `SharedFile` takes its locks and flags from `RandomRace`, and what one
operation may do to the server's file from `RandomAccess.Performed`, which `RandomEntry.Perform` proves
of every operation that reaches a faithful server.

Two statements one might expect of the code do not hold, and are replaced by their exact condition:

- A read-ahead hint can start I/O although a seek it does not know of has completed. It happens
  exactly when a seek ends between the hint's admission and its request, and such a seek either had
  begun before the hint took its prefetch stamp or began after the hint's last check, which looks at
  the prefetch token alone (`BrokerHistory.StaleStartNeedsRace`, with a run of either kind:
  `StaleAdmission`, `StaleStart`). For reads the statement holds without a condition
  (`BrokerRace.NoStaleHintAfterRead`).
- The `closing` flag of a random-access handle does not stop every later request. One is issued
  although the flag is set exactly when the flag was stored between that thread's own check and its
  request (`RandomRace.IssueNeedsWindow`, with the run `IssueAfterMark`). Threads that wait for the
  lock when the flag is stored issue nothing (`WaitersNeverIssue`), at most one request gets through
  (`AtMostOneMore`), and the lock keeps it before CLOSE (`NothingAfterClose`).

Sizes of `usize` are 64-bit, other integer widths are explicit, and generation counters do not wrap.

## Model

| member | source | states |
|---|---|---|
| FileModel.OverlaySplit | crates/smb-client/src/write.rs:63-131 | writing a prefix and then the rest leaves the same file as writing everything at once, gaps included, wherever the data is cut |
| FileModel.ReadAfterWrite | crates/smb-client/src/write.rs:41-134 | reading what was just written returns it, and windows the write does not touch read as before |
| Credits.ChargeIsCovered | crates/smb-client/src/read.rs:547-573 | a chunk cut to the credit window is always affordable, and its charge is the least number of 64 KiB units that covers it |
| Credits.ChargeUndefined | crates/smb-client/src/read.rs:559-573 | a nonempty payload has no charge exactly when it needs more than 65535 units with multi-credit on |
| Credits.LimitIsLargestPaid | crates/smb-client/src/read.rs:547-557 | the credit limit is exactly the largest payload whose price the window covers, and one unit without multi-credit |
| Credits.PlanChunk | crates/smb-client/src/read.rs:306-333 | the next chunk is the largest that the request, the limits and the credits allow, at the price of the least number of units that hold it; it fails for a zero chunk exactly when one of them is zero |
| Credits.CreditManager.Reserve | crates/smb-client/src/credits.rs:33-42 | succeeds exactly when the window covers the charge, and credits available plus reserved stay equal to credits received |
| Credits.CreditManager.Grant | crates/smb-client/src/credits.rs:44-50 | adds the grant or, exactly on overflow, changes nothing |
| Credits.CreditManager.RequestHint | crates/smb-client/src/credits.rs:54-60 | never below the minimum or one, always enough to reach the target window, and no more than that needs |
| Credits.MessageIdAllocator.Allocate | crates/smb-client/src/message_id.rs:21-38 | hands out the next span whatever spurious exchange failures occur; all spans ever handed out tile the used numbers |
| Credits.SpansDisjoint | crates/smb-client/src/message_id.rs:21-38 | earlier spans lie wholly below later ones, so no MessageId is used twice |
| Credits.ConcurrentSpansDisjoint | crates/smb-client/src/message_id.rs:21-38 | the same for every interleaving of any number of threads in the compare-exchange loop |
| Session.SessionConnection.Conservation | crates/smb-client/src/negotiate.rs:142-159 | until MessageIds run out, available credits plus ids consumed equal initial credits plus grants, in every reachable state |
| Session.SessionConnection.Reserve | crates/smb-client/src/negotiate.rs:131-159 | credits and ids are taken together; it lacks credits exactly when the charge exceeds the window |
| Session.SessionConnection.AwaitFinal | crates/smb-client/src/write.rs:94-111 | returns only on the final, authentic response of its request, having consumed nothing but that request's interim responses before; it fails only when the link ends or on a last message at fault |
| AsyncResponse.AsyncResponseState.Accept | crates/smb-client/src/async_response.rs:37-115 | a rejected header never changes the learned AsyncId |
| AsyncResponse.AcceptedExchangeShape | crates/smb-client/src/async_response.rs:37-115 | the header sequences one request accepts are exactly: PENDINGs under one nonzero AsyncId, then one final under the same id, or a lone sync final on the right tree |
| ReadTrace.ClosedConcat | crates/smb-client/src/read.rs:150-232 | exchanges on separate MessageId ranges stay drained when put one after the other |
| ReadTrace.RefusedLater | crates/smb-client/src/read.rs:150-232 | why a message was refused in one chunk or wave is not changed by the finished ones before it: none of their READs could take it, and none of their AsyncIds counts |
| ReadTrace.DenialAt | crates/smb-client/src/read.rs:433-446 | the first denial of a history is where it says: the first final answer to one of its READs with a status other than success and end of file, with none before it |
| ReadTrace.DenialConcat | crates/smb-client/src/read.rs:150-232 | a denial belongs to its own chunk or wave: put after finished ones, the first denial is theirs if they have one and else its own |
| ReadTrace.SettlesConcat | crates/smb-client/src/read.rs:150-232 | accounts add up: requests that use up one stretch of MessageIds and then another, each exactly its price, use up both, and the credits left are what was there, less the prices, plus the grants |
| ReadTrace.TallyConcat | crates/smb-client/src/cancel.rs:60-254 | after a drained history the number of READs in flight starts from zero, so the peak of the whole is the larger of the two |
| ReadTrace.SignedMeansVerified | crates/smb-client/src/read.rs:519-538 | on a session that requires signing, every final response in an authentic history carries a signature that verifies |
| ReadAssembly.AssembledSlice | crates/smb-client/src/read.rs:461-472 | chunk results in any arrival order, cut at the first short one, are a prefix of the requested slice, and the whole slice if chunks fall short only at end of file |
| ReadAt.ReadAtWithOptions | crates/smb-client/src/read.rs:133-232 | sequential read: an Ok result is a contiguous prefix of the requested slice for an honest server and the exact slice for a complete one, and came in authentic messages only; nothing is sent for an empty target or on an encrypted session; settled outcomes leave no READ outstanding and every request paid for, each by its price in MessageIds and credits; a server status is returned exactly as the first final answer to one of its READs that is neither success nor end of file, and Ok means there was none; every other error has its cause: an exhausted link, window or limit, or a last message at fault: its header is acceptable to no READ still waiting under the AsyncId announced so far, its credits overflow the window, its signature fails, its body cannot be read, or it carries more than was asked |
| Pipeline.OutstandingReads.Insert | crates/smb-client/src/read.rs:88-96 | refuses exactly a MessageId that is already outstanding |
| Pipeline.OutstandingReads.Finish | crates/smb-client/src/read.rs:106-112 | each outstanding READ finishes once |
| Pipeline.SendKeeps | crates/smb-client/src/read.rs:301-372 | sending keeps the sliding window's invariant: every slot, MessageId and file position stay matched |
| Pipeline.FillWindow | crates/smb-client/src/read.rs:301-372 | the window is filled as far as it goes: it stops before depth or target only after an end, a failure, or without credits |
| Pipeline.InterimKeeps | crates/smb-client/src/read.rs:390-407 | an interim response only teaches its READ an AsyncId |
| Pipeline.ConcludeKeeps | crates/smb-client/src/read.rs:409-459 | a final response fills the slot of its own READ with bytes of that READ's file position, whatever the order of arrival |
| Pipeline.WaitingIsListed | crates/smb-client/src/read.rs:75-112 | a READ sent and not yet answered is in the table of outstanding ones, so a MessageId missing there has no READ waiting |
| Pipeline.RefuseHeader | crates/smb-client/src/read.rs:390-404 | a header rejected under the AsyncId in the table is acceptable to no READ that is still waiting, whatever was announced to it |
| Pipeline.ReadAtPipelinedWithStats | crates/smb-client/src/read.rs:265-473 | sliding window: same contract as the sequential read, authenticity, payment, first denial and causes of errors included, where a refused MessageId has no READ still waiting and a duplicate has had its final response; Ok, server-status and out-of-credit outcomes are drained; in the Ok case the statistics are the history's: READs sent, final responses received, and the most ever in flight, never more than allowed |
| Cancellation.ReadCancellationToken.Advance | crates/smb-client/src/cancellation.rs:53-61 | the returned generation is new and current |
| Cancellation.DisciplinedConcat | crates/smb-client/src/cancel.rs:60-258 | the CANCEL discipline of one wave is not disturbed by another |
| Cancellation.AsyncHandledConcat | crates/smb-client/src/cancel.rs:189-199 | earlier waves in which nothing was noticed owe no late CANCEL, so the promise that every READ going async after a notice is cancelled by AsyncId carries over to the whole read |
| Cancellation.CauseConcat | crates/smb-client/src/cancel.rs:60-254 | a cause of cancellation belongs to its own wave: the whole read has one exactly if one of its parts has |
| CancelableRead.SendCancelRequests | crates/smb-client/src/cancel.rs:276-291 | sends one CANCEL for each unfinished READ and for no other, with the AsyncId where one is known, using no credits and no MessageId |
| CancelableRead.AbsorbInterim | crates/smb-client/src/cancel.rs:189-199 | an interim response keeps the wave's invariant; after a noticed change a READ that goes async, or still is, gets the CANCEL that names its AsyncId, sent now unless it was sent before |
| CancelableRead.WaveNoticed | crates/smb-client/src/cancel.rs:135-199 | in a wave a noticed change means cancelled, and a READ marked as cancelled by AsyncId really was sent that CANCEL |
| CancelableRead.WaveRefusesHeader | crates/smb-client/src/cancel.rs:165-185 | a header rejected under its own READ's AsyncId is acceptable to no READ of the wave that is still waiting |
| CancelableRead.TakeWaveResponse | crates/smb-client/src/cancel.rs:165-236 | any next response keeps the wave's invariant, is authentic and its grant is booked; it is refused only if no READ still waiting can take it, for the reason reported, or its credits, signature, body or size are at fault |
| CancelableRead.DrainWave | crates/smb-client/src/cancel.rs:135-237 | the loop ends only when every READ of the wave has its final response, cancelled or not |
| CancelableRead.RunWave | crates/smb-client/src/cancel.rs:60-254 | one wave: never more READs in flight than allowed, drained, disciplined and paid for whenever it ends settled; its data is the file's, and an Ok result means the generation was still current after the last response and no READ was denied or cancelled; it ends as Cancelled only with a cause, and with a status only if that is the first denial |
| CancelableRead.ReadAtPipelinedCancelable | crates/smb-client/src/cancel.rs:32-258 | wave scheduler: same contract for Ok and for errors, payment, depth and first denial included; Ok, server-status, out-of-credit and Cancelled outcomes leave one final per READ, at most a sync then an async CANCEL per READ, none after its final, every READ unfinished at a noticed change cancelled by the AsyncId it had or synchronously, and every READ going async once there is a cause cancelled by AsyncId; it ends as Cancelled only if a change was noticed or the server answered one of its READs so, as a status only without such a cause, and as Ok only under the current generation |
| CancelableRead.SchedulersAgree | crates/smb-client/src/read.rs:133-473 | any two schedulers that succeed on the same request against a complete server return the same bytes, the file's from the offset to the clamped end, whatever their histories |
| WriteAt.AfterExchange | crates/smb-client/src/write.rs:94-131 | interim responses do not touch the server's file; only the final one applies the request |
| WriteAt.ChunkTorn | crates/smb-client/src/write.rs:87-131 | one chunk, however its exchange ends, extends the written prefix by what the server applied of it and by nothing else |
| WriteAt.TornIsPrefix | crates/smb-client/src/write.rs:54-131 | after a failed write, whatever the server makes of the bytes in doubt, its file is the old one overlaid with a prefix of the data |
| WriteAt.WriteNext | crates/smb-client/src/write.rs:54-131 | one turn confirms at least one byte and extends the written prefix by what the server confirmed, short counts included |
| WriteAt.WriteAtWithOptions | crates/smb-client/src/write.rs:41-134 | success means all data was written and the server's file is one overlay of the whole, for any chunking, credit grants and short counts, in authentic messages and with every request paid for; however it fails, exactly a prefix was written, only the bytes right after it are in doubt, and a limit, the link or the last exchange is to blame; nothing is sent for no data or on an encrypted session |
| WriteAt.SetEndOfFile | crates/smb-client/src/set_info.rs:37-57 | success means one SET_INFO was sent and confirmed by one authentic success answer, and the server's file was truncated or zero-extended to the length, which fits a signed 64-bit integer; after a failure it is the old file or the resized one, and a limit, the link or the exchange is to blame |
| WriteAt.FlushFile | crates/smb-client/src/flush.rs:15-82 | success means one FLUSH was sent and, after interim responses to it alone, one authentic success answer confirmed it; a failure is the server's status or has its cause in the link or the last message; the server's file is left as it was, whatever the outcome |
| RandomAccess.FaithfulRead | crates/smb-android/src/engine.rs:837-871 | with no other writer the file stands still during a read, so a faithful server's answers are complete |
| RandomAccess.RandomEntry.ReadRandomAt | crates/smb-android/src/engine.rs:837-871 | success returns the abstract slice; each refusal has its exact condition and sends nothing; client errors poison and have their cause |
| RandomAccess.RandomEntry.WriteRandomAt | crates/smb-android/src/engine.rs:874-928 | success overlays the abstract file and the cached length still equals the server's; each refusal has its exact condition and sends nothing; a client error poisons and leaves a prefix written |
| RandomAccess.RandomEntry.SetRandomLength | crates/smb-android/src/engine.rs:931-962 | success resizes the abstract file and the cached length with it, on a confirmed SET_INFO; failure poisons and has its cause |
| RandomAccess.RandomEntry.FlushRandom | crates/smb-android/src/engine.rs:965-985 | success means a FLUSH that the server confirmed, and changes nothing; failure poisons and has its cause |
| RandomAccess.RandomEntry.CloseRandom | crates/smb-android/src/engine.rs:988-998 | marks the handle and sends at most one CLOSE and nothing else; success means exactly that request and one authentic, readable success answer to it; every failure has its cause |
| RandomAccess.RandomEntry.Perform | crates/smb-android/src/engine.rs:837-985 | any one operation: refused exactly for its arguments or for a closing or poisoned handle, and then without a trace; a success has exactly its abstract effect and answer, with the exchange that confirms it in the history; a client failure has its cause and leaves what a torn operation may leave |
| RandomAccess.RandomEntry.PerformAll | crates/smb-android/src/engine.rs:837-985 | over any sequence of operations the handle refines an abstract byte file built by the successful ones; the first client failure may have been carried out in part, and nothing after it succeeds |
| RandomRace.StepKeeps | crates/smb-android/src/engine.rs:837-997 | every atomic step of every thread keeps one lock holder, one closer and a clean log |
| RandomRace.NothingAfterClose | crates/smb-android/src/engine.rs:837-997 | in every interleaving CLOSE is sent at most once and last, only CLOSE follows a failed request, and requests never overlap |
| RandomRace.IssueNeedsWindow | crates/smb-android/src/engine.rs:849-854 | for every request issued in every interleaving: the closing flag is set exactly when a close stored it between that thread's own check and the request |
| RandomRace.WaitersNeverIssue | crates/smb-android/src/engine.rs:386-392 | a thread that is waiting for the lock or before its check when the closing flag is stored never issues a request afterwards |
| RandomRace.AtMostOneMore | crates/smb-android/src/engine.rs:386-392 | after the closing flag is stored at most one more request is issued |
| RandomRace.IssueAfterMark | crates/smb-android/src/engine.rs:387-392 | a run in which the flag is stored in that window |
| SharedFile.CompleteKept | crates/smb-android/src/engine.rs:837-985 | when a request ends, the file it started from is still the one the answered calls have built, whatever other threads do, so its answer is right |
| SharedFile.Linearizes | crates/smb-android/src/engine.rs:837-998 | in every interleaving of calls by any number of threads, with a close among them, the calls are answered as one abstract file answers them one after the other; the server's file is that file whenever no request has failed or is in progress; a failed request may have been carried out in part and nothing after it succeeds |
| SharedFile.TakesEffectOnce | crates/smb-android/src/engine.rs:837-998 | each call takes its place in that order at one step of its own, between its beginning and its answer |
| SharedFile.RespectsRealTime | crates/smb-android/src/engine.rs:837-998 | a call begun after another was answered comes after it in that order |
| Video.SmoothingIsBounded | crates/smb-stream/src/video.rs:750-801 | a throughput sample is the floor of bytes per second, and the estimate is the midpoint, never outside the range seen |
| Video.FirstSample | crates/smb-stream/src/video.rs:750-801 | the first sample is the estimate, and a fetch without bytes or time teaches nothing |
| Video.NewReader | crates/smb-stream/src/video.rs:207-218 | a reader is made exactly from the configurations without a zero; it starts with no window and no cursor |
| Video.VideoReader.ReadAheadTarget | crates/smb-stream/src/video.rs:246-268 | the adaptive target is at least one byte and at most the cache budget, for every accepted buffer duration, those below one microsecond included |
| Video.VideoReader.TargetIsBufferTime | crates/smb-stream/src/video.rs:246-268 | with known throughput the target is what it delivers in the buffer duration, rounded down, unless one request or the budget bounds it |
| Video.VideoReader.Seek | crates/smb-stream/src/video.rs:311-316 | a new generation, no window, the cursor at the offset |
| Video.VideoReader.Invalidate | crates/smb-stream/src/video.rs:318-323 | a new generation, no window, no cursor |
| Video.VideoReader.FetchLength | crates/smb-stream/src/video.rs:580-594 | a miss fetches at least what was asked for, never past the end of the file, at most the larger of the request and the budget; beyond the request as much read-ahead as one pipeline wave, the target and the file allow |
| Video.VideoReader.PrepareRead | crates/smb-stream/src/video.rs:547-600 | a hit occurs exactly when the window holds the whole request; a miss drops the window exactly when it jumps; overflow errors are unreachable; cancellation changes nothing |
| Video.VideoReader.FinishFetch | crates/smb-stream/src/video.rs:670-698 | fetched bytes become the window if they fit; a stale generation changes nothing |
| Video.VideoReader.PlanPrefetch | crates/smb-stream/src/video.rs:602-668 | the checked subtractions never fail; a plan keeps every byte from max(start, cursor - target) on, fits the budget and stays inside the file; there is none only if the hint lies outside the window, the file ends there, or nothing can be reclaimed |
| Video.VideoReader.FinishPrefetch | crates/smb-stream/src/video.rs:700-738 | appends within the budget exactly when the window is still the planned one, else changes nothing |
| Video.VideoReader.AutomaticHint | crates/smb-stream/src/video.rs:280-308 | a refill is asked for at the cursor, exactly when at most half the target is buffered ahead and the file goes on behind the cursor |
| VideoPlayback.HitIsDirect | crates/smb-stream/src/video.rs:153-169 | a window that agrees with the file answers exactly as a direct read would |
| VideoPlayback.FetchThrough | crates/smb-stream/src/video.rs:464-506 | a missed read returns the file's own bytes and leaves the fetched bytes as the window, which agrees with the file; the fetch counts for the throughput; it fails only with a cause of the read or of staleness |
| VideoPlayback.ReadThrough | crates/smb-stream/src/video.rs:464-506 | a foreground read, hit or miss, returns what the file has there and keeps the window bounded, current and around the cursor; a hit sends nothing, returns the window's own bytes and can only fail as stale |
| VideoPlayback.PrefetchThrough | crates/smb-stream/src/video.rs:365-403 | speculative reads never move the cursor, never shrink the window's end and never drop a byte from max(start, cursor - target) on; without a plan nothing happens; with one, success appends everything fetched, which is what the plan asked for as far as the file goes, and failure leaves the window and has its cause |
| VideoPlayback.Play | crates/smb-stream/src/video.rs:207-403 | over every run of reads, prefetches, seeks and invalidations, each read under a token and generation of its own or none, with the tokens moving at any time, every successful read returns the file's bytes |
| Broker.VideoBrokerRunner.PrepareGeneration | crates/smb-stream/src/broker.rs:293-302 | admits exactly the current generation; the first work of a new one moves the reader; the active generation never goes back |
| Broker.VideoBrokerRunner.ProcessRead | crates/smb-stream/src/broker.rs:397-421 | an answer is given only under a current generation and is the file's data; a window that holds the request under the active, current generation always answers it, from its own bytes and without I/O; a refusal as stale means another generation or a recorded cause of cancellation, a stream error has its cause; a read found stale after I/O costs the reader its window |
| Broker.VideoBrokerRunner.AutomaticPrefetch | crates/smb-stream/src/broker.rs:378-395 | a refill is published exactly if neither token has moved since the read was issued and the reader wants one, and starts at the cursor |
| Broker.VideoBrokerRunner.ProcessPrefetch | crates/smb-stream/src/broker.rs:423-457 | a hint either token has left behind sends nothing and changes nothing; a live one fetches just what was planned for it and appends all of it to the window, or fails for a reason |
| Broker.VideoBrokerRunner.Run | crates/smb-stream/src/broker.rs:211-291 | whatever arrives, every turn does what the selection says, commands run in the order sent, nothing runs after shutdown, every answer is the file's data for its request, every refusal as stale has its reason, and until a shutdown exactly the backlog is left: each turn that finds a command waiting runs one |
| Broker.BacklogDrains | crates/smb-stream/src/broker.rs:221-234 | once nothing new is sent the backlog shrinks by one a turn, so every command is run |
| Broker.SelectKeepsOrder | crates/smb-stream/src/broker.rs:211-291 | no turn of the biased selection lets a command overtake another, deferred or not, or speculates while a command waits, and only the newest hint is acted on |
| Broker.HintsAreNoticedOnce | crates/smb-stream/src/broker.rs:211-291 | exactly when a hint is acted on: the newest one, not noticed before, in a turn that finds no command waiting and gets none in the grace period; until then it stays unnoticed exactly while commands wait |
| BrokerRace.StepKeeps | crates/smb-stream/src/broker.rs:122-177 | every atomic step of handles and runner keeps the stamps, the channels and the command order consistent |
| BrokerRace.ActiveGeneration | crates/smb-stream/src/broker.rs:293-302 | in every interleaving the active generation never decreases and never passes the token |
| BrokerRace.CommandsInOrder | crates/smb-stream/src/broker.rs:211-291 | in every interleaving what ran, what is deferred and what waits are together exactly what was sent, in order |
| BrokerHistory.AnsweredWhileCurrent | crates/smb-stream/src/broker.rs:127-141 | in every interleaving a read answered with data had its generation current at its final check, and no seek or close completed between the moment it took that stamp and the check |
| BrokerHistory.StampsAreTaken | crates/smb-stream/src/broker.rs:127-141 | in every interleaving a read that is queued, held, running or about to be answered carries a pair of stamps that a read took |
| BrokerHistory.OneReadStamp | crates/smb-stream/src/broker.rs:127-141 | no two reads take the same prefetch stamp, so that pair belongs to one step of one read |
| BrokerHistory.MadeBefore | crates/smb-stream/src/broker.rs:143-158 | in every interleaving the hint waiting for the runner was made by one call of one handle or by one refill of the runner: the two loads that gave its stamps, and its delivery, are steps of that same call or refill |
| BrokerHistory.HintLived | crates/smb-stream/src/broker.rs:423-457 | every I/O for a hint ends one life of that hint: its two loads, its delivery, the grace period that took it up, its admission and its last check, in this order |
| BrokerHistory.PositiveReply | crates/smb-stream/src/broker.rs:397-421 | in every interleaving a positive reply is preceded by the final check of the same read, with its data fetched and its generation current |
| BrokerRace.NoStaleHintAfterRead | crates/smb-stream/src/broker.rs:127-161 | once a read was answered, no hint stamped before it was issued starts I/O |
| BrokerHistory.HintChecksSeeSeeks | crates/smb-stream/src/broker.rs:423-457 | the prefetch checks pass exactly if no seek, close or read has begun since the hint's prefetch stamp; admission passes exactly if no seek or close has completed since its playback stamp |
| BrokerHistory.StaleStartNeedsRace | crates/smb-stream/src/broker.rs:423-457 | every I/O for a hint: a seek or close its stamps do not know of has completed exactly when one ended between the hint's admission and the request; that is, one begun before the hint's prefetch stamp, or one begun after its last check |
| BrokerHistory.StaleStart | crates/smb-stream/src/broker.rs:122-161 | a run of the second kind: the seek begins and ends after the last check |
| BrokerHistory.StaleAdmission | crates/smb-stream/src/broker.rs:122-158 | a run of the first kind: the seek begins between the two stamps and ends between admission and the last check |
| Reconnect.SamplesSpanTheFile | crates/smb-client/src/reconnect.rs:79-92 | identity samples start at the beginning, end at the end, stay inside the file and never repeat |
| Reconnect.SmallFilesFullySampled | crates/smb-client/src/reconnect.rs:79-92 | every byte of a file of up to three sample sizes is sampled |
| Reconnect.MiddleIsSampled | crates/smb-client/src/reconnect.rs:79-92 | at most three samples, the middle one centred |
| Reconnect.HandedOutAgree | crates/smb-client/src/reconnect.rs:30-77 | whatever two files one recipe hands out: if the server answered completely while they were sampled and the digest does not collide on them, they have the same length and the same bytes wherever they are sampled, every byte up to three sample sizes, and no other write time than the first where both are known |
| Reconnect.ChangedIsIncompatible | crates/smb-client/src/reconnect.rs:30-40 | the identity test fails exactly for another length, another known write time or another digest of the samples |
| Reconnect.OnlyLostConnections | crates/smb-client/src/reconnect.rs:245-260 | retryable are lost transports, timeouts and the three statuses of a lost session, and nothing else |
| Reconnect.Recipe.Capture | crates/smb-client/src/reconnect.rs:42-77 | the fingerprint is the digest of the file's own samples at exactly those places; it fails only if the file is shorter than its handle says or a READ fails for its own cause |
| Reconnect.Recipe.RememberOrValidate | crates/smb-client/src/reconnect.rs:175-211 | the first identity is kept for good, also when another task stores its own in between; a file is handed out only if, judged by a complete server, nothing of length, known write time or digest differs from the first, and turned down as changed only if something does |
| Reconnect.Recipe.ConnectDurable | crates/smb-client/src/reconnect.rs:307-368 | exactly the open requests of the durable plan are sent: a remembered open is tried first, a new one follows it only after OBJECT_NAME_NOT_FOUND or when nothing was remembered, each at most once; the path may be tried exactly if the server has refused the capability, now or earlier; any other failure ends the attempt with its own error |
| Reconnect.Recipe.OpenDurable | crates/smb-client/src/reconnect.rs:338-367 | one durable open request; the path may be tried exactly if it was refused for the capability, every other failure is final |
| Reconnect.Recipe.Connect | crates/smb-client/src/reconnect.rs:268-378 | after the durable plan a path open is sent exactly if durable mode is off or a durable request was refused for the capability; a file handed out was adopted under its own length, write time and digest; a failure is the handshake's, the last open's, or that of a file turned down |
| RecoveringRead.RecoveringReadOnlyFile.Restore | crates/smb-client/src/recovering_read.rs:193-257 | connects at most the configured number of times, each attempt begun under a current generation; every error before the last was worth another attempt, and the last is a lasting one or the attempts ran out; failure leaves session and file untouched, success installs a file adopted under its own identity |
| RecoveringRead.RecoveringReadOnlyFile.InUseIsCompatible | crates/smb-client/src/reconnect.rs:175-211 | after any number of recoveries the file in use has the first one's length and fingerprint, and its write time where both are known |
| RecoveringRead.RecoveringReadOnlyFile.InUseAgrees | crates/smb-client/src/reconnect.rs:30-77 | the file in use agrees with every file handed out before on each sampled byte, given complete answers and a digest that does not collide on them |
| RecoveringRead.RecoveringReadOnlyFile.Read | crates/smb-client/src/recovering_read.rs:95-187 | the READ is issued at most twice, the second time only after a retryable error and on a restored connection; a generation already gone issues nothing; every failure is the first READ's, the recovery's or the second READ's, with its cause; the length never changes; Ok data meets the scheduler contract |
| Handshake.CheckNegotiate | crates/smb-client/src/negotiate.rs:189-251 | a response is accepted exactly if it answers the request successfully, names an offered dialect with valid contexts, and has nonzero sizes and credits; what is kept are its own limits, each as its own, multi-credit exactly with a large MTU above 2.0.2, and signing exactly if either side requires it; every refusal names its cause |
| Handshake.Connection.Negotiate | crates/smb-client/src/negotiate.rs:165-258 | succeeds exactly on an acceptable response and keeps its limits; afterwards the preauthentication hash folds exactly the request and the response; failure leaves nothing negotiated and has its cause |
| Handshake.Connection.Conclude | crates/smb-client/src/session.rs:204-283 | a session is made exactly if the SessionId is nonzero, the provider's last step is complete with nothing more to say, and the final response is authentic, for a normal 3.1.1 session under the key of the hash that leaves that response out; the session has the negotiated limits, and its encryption, key and signing follow from the response and the provider |
| Handshake.Connection.SetUp | crates/smb-client/src/session.rs:117-289 | on success the provider is done, the SessionId is nonzero and the same in all rounds, each request carried the provider's own token, the next MessageId and one credit, the hash folds every earlier pair and the final request only, rounds never exceed the limit, and the session has the negotiated limits; on failure the round it ends in says why |
| Handshake.RoundsSnoc | crates/smb-client/src/session.rs:140-202 | one more round keeps the exchange consistent, and a success status establishes it |
| Frame.HeaderUnique | crates/smb-wire/src/frame.rs:22-31 | a length has one header |
| Frame.FrameRoundTrip | crates/smb-wire/src/frame.rs:7-41 | encoding and decoding a frame are inverse in both directions |
| Frame.OneWayToSplit | crates/smb-wire/src/frame.rs:7-41 | a stream of frames splits into payloads in only one way |
| Transport.TcpTransport.TryTakeMessage | crates/smb-client/src/transport.rs:93-116 | takes exactly the first complete frame; waits or fails exactly when the buffer is incomplete or malformed, with the error that says which |
| Transport.TcpTransport.ReceiveMessage | crates/smb-client/src/transport.rs:133-150 | wherever a receive is abandoned or fails, deliveries re-framed plus the buffer equal the bytes received; it waits on as long as data comes, and the first wait that brings none ends it in the way it came |
| Transport.TcpTransport.Pump | crates/smb-client/src/transport.rs:133-150 | however a stream of valid frames is split and however often receives are abandoned, exactly the payloads are delivered in order and nothing is left over |
| Spnego.EncodeDerLength | crates/smb-auth/src/spnego.rs:121-135 | finding the first nonzero byte of the machine word gives the minimal DER length |
| Spnego.ParseTlv | crates/smb-auth/src/spnego.rs:64-103 | the overflow-checked loop accepts exactly the definite, minimal lengths that fit the input |
| Spnego.ParseInvertsTlv | crates/smb-auth/src/spnego.rs:64-111 | parsing an encoded element with anything behind it returns its tag and content and consumes exactly it |
| Spnego.ParsedIsUniqueEncoding | crates/smb-auth/src/spnego.rs:64-111 | any accepted prefix is the one encoding of what was parsed |
| Spnego.FindNtlmInDer | crates/smb-auth/src/spnego.rs:40-62 | the loop with recursion finds the first NTLM message in preorder, within the depth limit |
| Spnego.RespRoundTrip | crates/smb-auth/src/spnego.rs:26-38 | extraction recovers every NTLM token from the response wrapper and accepts nothing else in it |
| Spnego.InitRoundTrip | crates/smb-auth/src/spnego.rs:10-38 | the same for the initial wrapper with its mechanism list |
| CreateContexts.PatchedIsOne | crates/smb-wire/src/create_context.rs:78-126 | zeroing a slot and patching its fields in place yields the format's layout |
| CreateContexts.EncodeCreateContexts | crates/smb-wire/src/create_context.rs:45-130 | the buffer built slot by slot is the encoding of the list, or the error of its first context that does not fit |
| CreateContexts.EncodesExactly | crates/smb-wire/src/create_context.rs:45-130 | encoding succeeds exactly when every context fits in its place |
| CreateContexts.ParseLayout | crates/smb-wire/src/create_context.rs:147-218 | accepted name and data ranges are disjoint and inside their own context |
| CreateContexts.AcceptsExactlyWellLaid | crates/smb-wire/src/create_context.rs:147-218 | for every value of the fixed fields, a context is accepted exactly when its reserved field is zero, everything is aligned, and name and data lie inside it, behind the fixed fields and apart from each other |
| CreateContexts.DecodeCreateContexts | crates/smb-wire/src/create_context.rs:137-239 | the cursor loop ends on all inputs with the chain's contexts or its first error |
| CreateContexts.RoundTrip | crates/smb-wire/src/create_context.rs:45-239 | whenever encoding succeeds decoding returns the identical list, with empty data, padding and chained Next |
| CreateContexts.ContextsDoNotOverlap | crates/smb-wire/src/create_context.rs:137-239 | for arbitrary accepted bytes each context comes from its own stretch of the input, later ones strictly after earlier ones |
| ByteOrder.LeValueOfLe | crates/smb-fs/src/query.rs:244-260 | a value that fits its width survives little-endian storage |
| ByteOrder.LeOfLeValue | crates/smb-fs/src/query.rs:244-260 | bytes are the one little-endian form of their value |
| DirectoryPages.Utf16RoundTrip | crates/smb-fs/src/query.rs:286-294 | every name survives UTF-16, surrogate pairs included |
| DirectoryPages.Utf16Unique | crates/smb-fs/src/query.rs:286-294 | code units that decode are the one encoding of their name |
| DirectoryPages.ReadEntry | crates/smb-fs/src/query.rs:236-303 | the checks in their order and the name loop read what the entry's bytes say: what is accepted, and what it yields, is characterised by `AcceptsExactlyPages` |
| DirectoryPages.DecodePage | crates/smb-fs/src/query.rs:230-319 | the offset loop ends on all inputs with the page's entries or its first error |
| DirectoryPages.DecodeInvertsPage | crates/smb-fs/src/query.rs:230-319 | decoding inverts the reference layout of FileIdFullDirectoryInformation, whatever padding and ignored fields hold |
| DirectoryPages.OneOfParsed | crates/smb-fs/src/query.rs:236-316 | the bytes an accepted entry takes are the layout of one record, whose name and fields are the ones returned |
| DirectoryPages.AcceptsExactlyPages | crates/smb-fs/src/query.rs:230-319 | a page is accepted with these entries exactly if it is the layout of records with these entries, the last NextEntryOffset being zero or pointing to the end of the page |
| DirectoryPages.OffsetsIncrease | crates/smb-fs/src/query.rs:305-316 | for arbitrary accepted bytes entries come from strictly increasing offsets, each from its own |
| DirectoryWalk.OneComponentIsKept | crates/smb-android/src/engine.rs:1038-1066 | the walk keeps exactly the names that are one path component |
| DirectoryWalk.AttributeBits | crates/smb-android/src/engine.rs:1038-1066 | bit 4 marks a directory and bit 10 a reparse point, whatever the other attributes are |
| DirectoryWalk.SiblingsApart | crates/smb-android/src/engine.rs:1044-1061 | different components under one directory never lead to the same path |
| DirectoryWalk.FoldersApart | crates/smb-android/src/engine.rs:1044-1061 | no two directories of a tree with distinct sibling names share a path |
| DirectoryWalk.AccumulateEntries | crates/smb-android/src/engine.rs:1038-1066 | pushes exactly the genuine subdirectories and adds file sizes with saturation at the largest signed value |
| DirectoryWalk.PushedIsRest | crates/smb-android/src/engine.rs:1038-1066 | what a listing pushes holds exactly the directories and bytes of the tree below it that are not yet counted |
| DirectoryWalk.DirectorySession.ListDirectory | crates/smb-android/src/engine.rs:677-698 | reading to the empty page accumulates the whole listing, however it is split into pages |
| DirectoryWalk.DirectorySession.DirectorySize | crates/smb-android/src/engine.rs:664-707 | the stack walk ends, opens each non-reparse directory once and closes it before the next, returns the recursive sum capped at the largest signed value, and fails exactly when an exchange fails or a page does not decode, with the first such error |

## Left out

- Draining after transport, wire and protocol errors: the source returns at once with READs outstanding, so drained means after Ok, server status and Cancelled.
- Error-for-error equality of the three READ schedulers: a later chunk's server error can beat an earlier short read, so Ok results are compared.
- No I/O after CLOSE for writable streams: `WritableSession` has no closing flag; the claim is made for random-access handles.
- Termination of the runner when all handles are dropped: it holds its own watch sender, so shutdown is by command.
- Guaranteed prefetch progress: with a full window at target equal to budget nothing can be reclaimed; `HintMakesProgress` carries the bound under which a hint always plans a fetch.
- Encrypted sessions: the source refuses READ, WRITE and the like on them, and the model does the same.
- Cryptography (SHA-512, HMAC, AES-CMAC, key derivation, NTLMv2) and the authentication provider: uninterpreted functions.
- Validation of NEGOTIATE contexts and choice of signing algorithm: two booleans of `NegotiateReply`.
- The network exchanges of CREATE inside a reconnect attempt: their outcomes are the `Attempt` value; the session of an attempt starts with any positive number of credits. The domain tag in front of the identity transcript is dropped.
- The CLOSE exchange of the broker's shutdown and the recovering source inside the broker: the runner is modelled over a direct session, and the recovering file on its own.
- A connect attempt abandoned by cancellation: modelled as completed and then discarded.
- The best-effort CLOSE of a reopened file that fails the identity check.
- Pipeline.ReadAtPipelinedWithStats: the counter of credit stalls is bounded by the messages received, not determined, because a stall leaves nothing in the history; the other three counters are read off it.
- Counters that only report (`VideoReaderMetrics`), elapsed time (any number), timeouts, the grace timer and socket setup.
- Mutex poisoning after a panic, and memory exhaustion.
- Generation counters wrapping around.
- Fixed-layout wire structs, JNI glue, the handle table with its tag bits, `encode_directory_metadata`, the names-only directory decoder: they would add only easy members.
