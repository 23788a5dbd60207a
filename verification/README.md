# Verified model of the camera firmware's stateful cores

This project models, in Dafny, the parts of the ESP32-P4 camera firmware whose correctness is a
matter of logic rather than of hardware, and proves what they are for. `dafny verify dfyconfig.toml`
checks everything.

| file | models |
|---|---|
| `FramePool.dfy`, `PoolInterleaving.dfy` | the zero-copy frame pool: intrusive lists in place, and every interleaving of its critical sections and semaphore operations for any number of tasks, and who holds what |
| `Detector.dfy`, `BoxStore.dfy` | the detector feed built on the pool, and the mutex-guarded box store |
| `DirtyRows.dfy`, `OsdPaint.dfy`, `Osd.dfy`, `Overlay.dfy` | the overlay: sorted dirty-row table, in-place drawing on packed YUV420, and publication to DMA |
| `CapturePipeline.dfy`, `FrameGrid.dfy` | the capture/encode buffer protocol for any number of buffers and any queue length, and frame pacing |
| `EncoderHandoff.dfy` | the capture protocol and the encoder's input slot together: who may touch a frame while the encoder reads it |
| `VideoSystem.dfy` | the whole video path with its bytes: camera, capture, overlay stores and write-backs, encoder and box store in every interleaving |
| `H264Encoder.dfy` | ownership of the encoder's input slot and bitstream buffers under every outcome of every driver call |
| `PackModel.dfy` | the model packer and a reader for its documented format |
| `G711.dfy`, `Speaker.dfy` | the A-law codec, and the lossy jitter buffer with its drop accounting |
| `Basics.dfy` | shared definitions |

Code that changes state in place is modelled by classes and methods over arrays and fields; each
method is proved against a specification function or predicate, and the lemmas are about those.
Concurrent code is modelled a second time as a step system: one step per critical section,
semaphore, queue or driver operation, with runs as arbitrary sequences of enabled steps. Outcomes
of driver calls, timestamps, detections and payloads are inputs.

Integers are unbounded except where the width matters: byte values, the 32-bit counters, the 32-bit
fields of a model pack and the 16-bit samples are explicit. C's `int` arithmetic in the overlay is
taken not to overflow, since signed overflow has no defined meaning there.

## Where the code and its comments differ

The model follows the code.

* `osd.c:110-111` says the corner marks never meet in the middle. They stay apart exactly when both
  half sides, rounded down, exceed OSD_CORNER_LEN (`OsdPaint.MarksStayApartIff`); on a shorter box they form solid bars
  (`OsdPaint.SolidTopIff`, `OsdPaint.SolidSideIff`), can share a row or column
  (`OsdPaint.SharedRowIff`, `OsdPaint.SharedColumnIff`) and can close into a ring, as on the
  5-pixel square of a one-pixel detection (`OsdPaint.MarksCanMeet`). The two dirty bands merge exactly when the side marks meet, and never
  overlap by more than one row (`OsdPaint.BandsTouchIff`).
* `osd.h:23` says the dirty ranges are kept merged and sorted. When the table is full that holds exactly
  if the new rows start more than one row after the last range but one
  (`DirtyRows.WidenKeepsOrderIff`).
* `task_video.cpp:193-196` releases the capture buffer on the grounds that the encoder has let go of
  it. From a free input slot that fails exactly when the frame was queued and its own DQBUF failed;
  from a slot that is already stuck it fails exactly when it is stuck on this very frame, come round
  again (`H264Encoder.FrameLetGoIff`). A stuck slot stays so and no later encode can succeed
  (`H264Encoder.DeadIsForever`). Over a whole run, encoder and camera are ever on one buffer exactly
  when an input DQBUF failed and the frame it left behind was then given back successfully
  (`EncoderHandoff.EverOverlapsIff`), and for every buffer there is such a run
  (`EncoderHandoff.BadRunOverlaps`).
* `app_config.h:25` says the driver must always keep at least one buffer. With k buffers lost, it can
  be left with none exactly when the queue length is at least N - k - 2
  (`PipelineSafety.DriverCanBeEmptyIff`), so the configured N - 2 does not prevent it. What N - 2
  does prevent is capture waiting on an empty driver while no buffer is lost
  (`PipelineSafety.StarvationIff`).
* `g711.h:13` calls the two directions exact inverses. Only encode after decode is the identity
  (`G711.EncodeInvertsDecode`); the other way round holds exactly for samples in the middle of their
  quantisation step (`G711.DecodeInvertsEncodeIff`), and zero comes back as eight
  (`G711.DecodeDoesNotInvertEncode`).
* ARCHITECTURE.md and DATAFLOW.md still describe a capture queue of length two and no pacing.

## Model

| member | source | states |
|---|---|---|
| `PoolLists.PushThenPop` | main/core/frame_pool.cpp:22-49 | popping right after a push gives back that element and the old lists: each list is a stack |
| `PoolLists.SecondPushIgnored` | main/core/frame_pool.cpp:26-29 | a second submit or release of the same element, onto either list, changes nothing |
| `PoolLists.PopKeepsPartition` | main/core/frame_pool.cpp:37-49 | a popped element is on neither list and everything else stays partitioned |
| `PoolLists.PlacesAddUp` | main/core/frame_pool.hpp:12-18 | free, ready and checked out always add up to all elements |
| `FramePool.AllocatePool` | main/core/frame_pool.cpp:51-116 | allocation succeeds exactly if every block is granted, and every failing path frees all it had |
| `FramePool.Pool.constructor` | main/core/frame_pool.cpp:66-98 | a new pool has every element on the free list, the last one first, none ready, and count zero |
| `FramePool.Pool.ListPush` | main/core/frame_pool.cpp:22-34 | the pointer update keeps both chains through the shared node field, acyclic and disjoint, and does the abstract push, or nothing if the element is on a list |
| `FramePool.Pool.ListPop` | main/core/frame_pool.cpp:36-49 | the pointer update does the abstract pop; NULL exactly on an empty list |
| `FramePool.Pool.Acquire` | main/core/frame_pool.cpp:118-121 | NULL exactly when nothing is free, else a checked-out element |
| `FramePool.Pool.Submit` | main/core/frame_pool.cpp:123-144 | status and lists for every argument; undisturbed, the semaphore count stays the ready length |
| `FramePool.Pool.Recv` | main/core/frame_pool.cpp:146-155 | the whole new state for every semaphore count; undisturbed, NULL exactly when nothing is ready, else the head of the ready list |
| `FramePool.Pool.Release` | main/core/frame_pool.cpp:157-163 | status and lists for every index, valid or not |
| `PoolInterleaving.Accounting` | main/core/frame_pool.cpp:123-155 | in every interleaving of any number of tasks, ready length = semaphore count + tasks between push and give + tasks between take and pop |
| `PoolInterleaving.RecvNeverNull` | main/core/frame_pool.cpp:151-154 | after a successful take the pop finds an element |
| `PoolInterleaving.GiveNeverRefused` | main/core/frame_pool.cpp:134-142 | no give exceeds the semaphore maximum |
| `PoolInterleaving.NoLostWakeup` | main/core/frame_pool.cpp:123-155 | while an element is ready a take can succeed or a task is about to give or pop; at rest the count is the backlog |
| `PoolCustody.HeldByExactlyOne` | main/core/frame_pool.hpp:8-17 | for any number of tasks that push only what they hold: an element is off both lists exactly when a task holds it, and then exactly one does |
| `PoolCustody.PushNeverRefused` | main/core/frame_pool.cpp:22-34 | then no push is ever refused |
| `DetectorSteps.StepRefinesPool` | main/task/task_detect.cpp:62-152 | every step of the feed and detect tasks is a step of the pool, or leaves it alone |
| `DetectorSteps.BufferLife` | main/task/task_detect.cpp:62-152 | in every interleaving each buffer is borrowed, then discarded, or submitted, taken, inferred and released, each once and in that order |
| `DetectorSteps.DeedsBalance` | main/task/task_video.cpp:128-146 | in numbers: borrows = submits + discards, submits = inferences = releases, up to the deed the buffer is waiting for |
| `DetectorSteps.PoolCallsSucceed` | main/task/task_detect.cpp:69-100 | the pool results the two tasks ignore are always success, and the detect task never gets NULL |
| `BoxStore.Store.StoreResults` | main/task/task_detect.cpp:34-53 | the store holds the first DET_MAX_BOX results that have four coordinates |
| `BoxStore.Store.GetBoxes` | main/task/task_detect.cpp:156-165 | nothing before the start, else the stored boxes cut to the caller's limit |
| `BoxStore.KeptAre` | main/task/task_detect.cpp:34-53 | a stored set is the first five results with at least four coordinates, in order, the coordinates as left, top, right and bottom |
| `BoxStoreSteps.ReadsOneSet` | main/task/task_detect.cpp:34-53 | in every interleaving of element-wise writes and reads, each read returned a prefix of one completed result set, the latest |
| `DirtyRows.OsdDirty.Add` | main/core/osd.c:51-94 | the absorb and shift loops lose no row; on a sorted list without overflow they add exactly the new rows, keep the list sorted and non-abutting and cost no more rows than asked; on overflow they always add a clean row |
| `DirtyRows.SpliceApart` | main/core/osd.c:69-93 | after the merge at least one clean row separates neighbours |
| `DirtyRows.SpliceExact` | main/core/osd.c:69-93 | the merged list covers the old rows, the new rows and no others |
| `DirtyRows.WidenNotExact` | main/core/osd.c:75-84 | the full-table fallback always covers a clean row besides |
| `DirtyRows.WidenCovers` | main/core/osd.c:75-84 | row by row what the fallback covers: the other ranges, and the hull of the last one and the new rows |
| `DirtyRows.TotalIsNumberCovered` | main/core/osd.h:20-25 | on a list in order the total the other results bound is the number of rows covered |
| `DirtyRows.WidenKeeps` | main/core/osd.c:75-84 | the full-table fallback loses no row, for any list |
| `DirtyRows.WidenKeepsOrderIff` | main/core/osd.h:23 | the full-table fallback keeps the ranges sorted and non-abutting exactly when the new rows start more than one row after the last range but one |
| `OsdPaint.PaintedUnique` | main/core/osd.c:5-9 | the pixel set decides every byte of the buffer |
| `OsdPaint.PaintedMeans` | main/core/osd.c:5-47 | painting in byte addresses and values: luma 76 at the pixel, chroma 84 or 255 by row parity at its group, other bytes as before |
| `OsdPaint.MarkShape` | main/core/osd.c:97-161 | pixel by pixel where the marks of a detection are, for corners in any order, inside or outside the frame, at any scale |
| `OsdPaint.CornersMarked` | main/core/osd.c:150-161 | both given corners of a detection in the frame are marked at their scaled places |
| `OsdPaint.MarksOfEach` | main/core/osd.c:150-161 | the marks of a list of detections are those of each |
| `OsdPaint.BoxRows` | main/core/osd.c:145-147 | the two reported bands are exactly the rows the marks touch |
| `OsdPaint.BandsTouchIff` | main/core/osd.c:110-147 | for a drawn box: when the two dirty bands touch, that this is when the side marks meet, and that they never overlap by more than a row |
| `OsdPaint.SolidTopIff` | main/core/osd.c:110-143 | every pixel of the top edge is marked exactly when the half width is within an arm and not above the half height |
| `OsdPaint.SolidSideIff` | main/core/osd.c:110-143 | the same for the left edge, transposed |
| `OsdPaint.MarksStayApartIff` | main/core/osd.c:110-111 | the marks of a drawn box stay apart exactly when both half sides exceed an arm; they close into a rectangle exactly when the half sides agree within an arm |
| `OsdPaint.SharedRowIff` | main/core/osd.c:110-143 | when an upper and a lower mark share a row, which row it is, and which boxes these are |
| `OsdPaint.SharedColumnIff` | main/core/osd.c:110-143 | the same for columns |
| `OsdPaint.MarksCanMeet` | main/core/osd.c:110-111 | a one-pixel detection at scale 4: the marks close into a ring around one pixel, sharing a row and a column, against the comment |
| `Osd.DrawHRun` | main/core/osd.c:12-35 | paints exactly pixels x1 to x2 of the row, every store in bounds |
| `Osd.DrawVRun` | main/core/osd.c:38-47 | paints exactly the pixels of the column, chroma by row parity |
| `Osd.GroupsEqualPixels` | main/core/osd.c:24-34 | writing whole groups leaves the same bytes as plotting pixel by pixel |
| `Osd.StrokeWidens` | main/core/osd.c:129-143 | the eight runs of a stroke widen the closed-form marks by exactly one pixel |
| `Osd.DrawCorners` | main/core/osd.c:97-148 | for any box: exactly its clipped marks are painted and its bands are recorded |
| `Osd.DrawBoxes` | main/core/osd.c:150-161 | for any box list and even width the buffer is the per-pixel specification; at most two ranges a box; every written row is listed, and up to DET_MAX_BOX boxes no other, at most 98 rows a box |
| `Overlay.CapturedFrame.PublishRows` | main/hal/hal_video_capture.c:102-117 | its status; on success the rows asked for, clamped to the frame, are visible to DMA and other rows stay, but for bytes their cache lines take along; on failure nothing changes |
| `Overlay.CapturedFrame.OverlayBoxes` | main/task/task_video.cpp:149-160 | after the overlay the DMA view equals the CPU view at every byte if the write-backs are accepted, although only dirty rows were written back; in any case DMA sees old or new bytes only |
| `FrameGrid.Grid.OnFrameGrid` | main/task/task_video.cpp:70-86 | the decision and the next grid point, which lies after the frame by at most an interval, and by exactly one if the frame was an interval late |
| `FrameGrid.IntervalIsLongest` | main/app_config.h:160 | the interval is the longest, in whole microseconds, that fits the frame rate into a second |
| `FrameGrid.NoBurst` | main/task/task_video.cpp:78-84 | for any timestamps, m + 1 consecutive accepted frames span more than m - 1 intervals |
| `FrameGrid.NoBurstIsTight` | main/task/task_video.cpp:70-86 | for every m some run meets that bound to the microsecond |
| `FrameGrid.RestartHoldsOff` | main/task/task_video.cpp:79-84 | over runs: after a frame that is an interval or more late - any first frame, any frame after a stall - the next accepted frame is the first that comes a whole interval later |
| `FrameGrid.OnGridHoldsOff` | main/task/task_video.cpp:75-84 | over runs: otherwise it is the first that comes an interval after the grid point, however late this frame was |
| `FrameGrid.NoDrift` | main/task/task_video.cpp:70-86 | with gaps of at most g <= I, the k-th later accepted frame lies in [n0 + kI, n0 + kI + g), counting k from zero |
| `FrameGrid.NeverRestarts` | main/task/task_video.cpp:79-84 | with such gaps the grid is never restarted after the first accepted frame |
| `FrameGrid.LongerGapCanRestart` | main/task/task_video.cpp:79-84 | for any longer gap some run restarts the grid |
| `FrameGrid.PacingMatchesRtp` | main/app_config.h:98-101 | capture time and RTP time of accepted frames agree within one sensor gap, up to k/3 microseconds |
| `FrameGrid.RtpDrift` | main/app_config.h:160 | at 12 fps, k RTP steps exceed k intervals by k/3 microseconds |
| `PipelineSafety.EachBufferInOnePlace` | main/task/task_video.cpp:93-199 | in every reachable state each buffer is in exactly one of driver, capture, queue, encode, or lost to a failed QBUF |
| `PipelineSafety.DriverEmptyIff` | main/app_config.h:25-42 | as long as queue length + 2 is within the buffers not lost, the driver is empty exactly when capture holds a frame, the queue is full, encode holds one and that is all of them |
| `PipelineSafety.DriverCanBeEmptyIff` | main/app_config.h:25-30 | with k buffers lost a state with an empty driver is reachable exactly when queue length + 2 >= N - k |
| `PipelineSafety.StarvationIff` | main/app_config.h:25-42 | with k buffers lost to failed QBUFs, capture can wait on an empty driver exactly when queue length + 2 > N - k |
| `PipelineSafety.EachFrameOneFate` | main/task/task_video.cpp:96-123 | each acquired frame is paced out, dropped, handed to encode or still on its way: exactly one of these |
| `PipelineSafety.HandedInOrder` | main/task/task_video.cpp:116-172 | frames reach encode in capture order, each at most once |
| `PipelineSafety.CountersBetweenResets` | main/task/task_video.cpp:110-120 | over any stretch between resets, from any counter values, each counter grows modulo 2^32 by what it counts: frames paced out, frames dropped, and frames accepted, one in mid-send counting |
| `PipelineSafety.CountersSinceReset` | main/task/task_video.cpp:248-250 | after a reset each counter is the number of frames since, modulo 2^32 |
| `PipelineSafety.LostCount` | main/hal/hal_video_capture.c:96-100 | in every run exactly one buffer is lost for each release whose QBUF failed |
| `VideoTasks.VideoCtx.CaptureOnce` | main/task/task_video.cpp:96-123 | one pass of the capture loop is the run of protocol steps its outcomes dictate, and ends back at acquiring |
| `VideoTasks.VideoCtx.QueueSend` | main/task/task_video.cpp:116-121 | queues the frame or counts the drop, exactly by the room in the queue |
| `VideoTasks.VideoCtx.QueueReceive` | main/task/task_video.cpp:172-174 | hands over the oldest queued frame |
| `H264Encoder.Encoder.Encode` | main/hal/hal_h264_encoder.c:120-167 | device, status and bitstream for every combination of outcomes: OK exactly when the slot is free, all four driver calls work and the frame is good, and then with the bitstream that was dequeued |
| `H264Encoder.EncodeSucceedsIff` | main/hal/hal_h264_encoder.c:120-167 | for every device and outcome when the call succeeds, what it hands on, and when it keeps a buffer from the driver |
| `H264Encoder.SentIff` | main/task/task_video.cpp:189-214 | which frames of a run are sent: the good ones whose own calls work, before any input DQBUF has failed |
| `H264Encoder.EncodeOwnership` | main/hal/hal_h264_encoder.c:120-167 | for every outcome: OK holds exactly one bitstream buffer, FAIL none, and none is missing if the re-queue worked; a free input slot is stuck afterwards exactly if its own DQBUF failed |
| `H264Encoder.StreamsReturn` | main/task/task_video.cpp:189-214 | if re-queues work, all bitstream buffers are back in the driver at every encode entry of any run |
| `H264Encoder.StreamsLeak` | main/app_config.h:64-65 | otherwise exactly one buffer is lost per failed re-queue |
| `H264Encoder.DeadIsForever` | main/hal/hal_h264_encoder.c:137-143 | a stuck input slot, or the loss of the last bitstream buffer, makes every later encode fail |
| `H264Encoder.SlotFreeIff` | main/hal/hal_h264_encoder.c:149-154 | the input slot is free after a run exactly if every input DQBUF of a queued frame worked |
| `H264Encoder.FrameLetGoIff` | main/task/task_video.cpp:193-199 | exactly when the encoder has let go of the frame as the call returns, from a free or a stuck slot |
| `EncoderHandoff.EncoderReadsItsOwnFrame` | main/task/task_video.cpp:190-199 | in every interleaving with the capture task, until an input DQBUF fails, the frame in the encoder is in nobody else's hands: not in the driver, the queue or the capture task |
| `EncoderHandoff.StuckIffFailed` | main/hal/hal_h264_encoder.c:140-152 | the slot is stuck after a run exactly if some input DQBUF in it failed |
| `EncoderHandoff.EverOverlapsIff` | main/task/task_video.cpp:193-199 | for every run: encoder and camera are ever on one buffer exactly when an input DQBUF failed and the frame left in the slot was then given back |
| `EncoderHandoff.SplitCallAgrees` | main/hal/hal_h264_encoder.c:120-167 | undisturbed, the driver calls taken one by one leave the input slot as the whole call does |
| `EncoderHandoff.BadRunOverlaps` | main/task/task_video.cpp:193-199 | for every buffer, number of buffers and queue length, a run in which they do |
| `VideoSystem.EncoderReadsMarkedFrame` | main/task/task_video.cpp:149-199 | in every interleaving, until an input DQBUF fails: what the encoder reads is the frame as captured with the marks of one prefix of one completed result set and nothing else, if the write-backs were accepted; otherwise each byte is the captured or the drawn one |
| `VideoSystem.DrawsLatestResults` | main/task/task_video.cpp:149-187 | the marks are never of an older result set than the latest one complete when the frame was fetched |
| `VideoSystem.MarksOfResults` | main/task/task_detect.cpp:34-53 | which pixels these are in terms of the model's own results: the first five usable ones, cut to the caller's limit |
| `VideoSystem.CapturedAsDelivered` | main/hal/hal_video_capture.c:77-94 | each byte of a captured frame is the last the camera put there, whatever the other tasks did in the meantime |
| `VideoSystem.StoresHitOwnFrame` | main/task/task_video.cpp:149-199 | no overlay store or write-back hits a buffer in the driver, and the encoder's slot is empty at that time, except exactly after an input DQBUF has failed |
| `H264Encoder.FrameCanStayQueued` | main/hal/hal_h264_encoder.c:140-143 | an outcome that leaves the frame queued in the encoder |
| `PackModel.PackModels` | components/pedestrian_detect/pack_model.py:120-168 | succeeds exactly on packable lists, writes the documented layout, and gives a true reason otherwise; the magic repeats the models' own format, the next word is their number, low byte first, and EDL2 models get data offsets that are multiples of 16 |
| `PackModel.PackThenRead` | components/pedestrian_detect/pack_model.py:59-168 | whatever is packed reads back: every name, character by character, and every model in order, byte by byte for EDL1, up to fewer than 16 zero bytes for EDL2 |
| `PackModel.LayOut` | components/pedestrian_detect/pack_model.py:148-165 | the running offsets are the prefix sums and the three buffers the concatenations |
| `PackModel.StructPackString` | components/pedestrian_detect/pack_model.py:7-31 | for every string and length limit: the ASCII bytes, zero-padded to the limit if it is longer; nothing for the empty string; which of the three errors otherwise |
| `PackLayout.PaddedIsPadding` | components/pedestrian_detect/pack_model.py:46-56 | reading adds nothing in EDL1 and fewer than 16 trailing zeros in EDL2 |
| `PackLayout.FormatBytes` | components/pedestrian_detect/pack_model.py:34-43 | in bytes: which files have a format, and which magic and alignment that means for the pack |
| `PackLayout.PackableIff` | components/pedestrian_detect/pack_model.py:120-168 | in bytes and characters: which lists of models can be packed |
| `PackLayout.LowByteFirst` | components/pedestrian_detect/pack_model.py:155-165 | the recursion that alone fixes the byte order of every header number |
| `PackLayout.Tiling` | components/pedestrian_detect/pack_model.py:141-166 | header, names, padding and data tile the file with no gap or overlap; PDL2 data offsets are multiples of 16 |
| `PackLayout.ReadsBack` | components/pedestrian_detect/pack_model.py:60-100 | reading any layout by the documented header recovers all models |
| `PackLayout.TextInjective` | components/pedestrian_detect/pack_model.py:24-28 | ASCII names are recoverable from their bytes |
| `G711.Encode` | main/core/g711.c:7-34 | the code whose cell contains the sample |
| `G711.CodeIffCell` | main/core/g711.c:7-60 | a sample gets a code exactly when it is within half a step of the decoded value, so the 256 cells tile the samples |
| `G711.EncodeInvertsDecode` | main/core/g711.h:12-15 | encode after decode is the identity on all bytes |
| `G711.DecodeInvertsEncodeIff` | main/core/g711.h:12-15 | decode after encode returns the sample exactly on step midpoints |
| `G711.DecodeDoesNotInvertEncode` | main/core/g711.h:12-15 | zero comes back as eight |
| `G711.ErrorBound` | main/core/g711.c:36-60 | the error is at most 2^(max(s,1)+2) in segment s |
| `G711.Monotone` | main/core/g711.c:7-60 | the transfer curve is monotone |
| `G711.StreamIdempotent` | main/core/g711.c:7-60 | a second pass through the codec changes nothing, for streams of any length |
| `G711.StreamErrorBound` | main/core/g711.c:7-60 | the error bound for every sample of every stream |
| `G711.CodeOrder` | main/core/g711.c:36-60 | the sign bit is the sign, and with the alternate bits inverted back the other seven order the magnitudes |
| `G711.Landmarks` | main/core/g711.c:7-60 | the codes and values at zero and at both ends of the range |
| `SpeakerSteps.BytesConserved` | main/task/task_speaker.cpp:32-46 | in every interleaving, bytes submitted = decoded + in hand + buffered + dropped, the counter modulo 2^32, with the backlog bounded |
| `SpeakerSteps.DropsOnlyWhenFull` | main/task/task_speaker.cpp:32-46 | in every run a submission fills the buffer as far as it goes, and exactly the bytes beyond its capacity are refused |
| `SpeakerSteps.PlaysAcceptedStream` | main/task/task_speaker.cpp:130-144 | the codec gets the accepted payload prefixes in order, each byte as its decoded value, however chunked |
| `SpeakerSteps.ReportsAddUp` | main/task/task_speaker.cpp:152-158 | the overflow reports account for every dropped byte, modulo 2^32 |
| `Speaker.SpeakerTask.SubmitG711a` | main/task/task_speaker.cpp:32-46 | true exactly when the whole payload fitted; otherwise the buffer is full and what did not fit is counted |
| `Speaker.SpeakerTask.DrainOnce` | main/task/task_speaker.cpp:130-159 | one pass takes all there is, up to a packet, writes each byte decoded, and reports an overflow if one is due |

## Left out

- Null pool handles, which every pool call rejects at once.
- FramePool.Pool.Recv: blocking is the step system's business; the method is the undisturbed case with a timeout of zero.
- `log_stats` is one step here; in the source it is separate stores that can race with an increment.
- DrawBoxes: requires an even width, the only kind the packed format has.
- The detector's scaler reads each frame before the overlay; its DMA is not modelled.
- ReadsBack: the on-device loader of model packs is not part of this repository; the reader is written from the documented format.
- PackModels: file names are non-empty, as those of existing files are; reading files, argument parsing and copying a single file through are left out.
- DrainOnce: the once-a-second limit on reports is an input; the welcome tone is floating point and left out.
- DET_FEED_EVERY_N, which only makes `feed_detector` skip frames; statistics averages and logging.
- `hal_h264_force_idr` and its latch: one flag, set once.
- Opening and configuring devices, network, signalling, task priorities, and the libpeer and srtp patches, whose code is only partly present.
- The detector model, image scaling and the H.264 bitstream: arbitrary inputs.
