# Verified model of the shamu device tree

This project models the stateful core of the Motorola shamu (Nexus 6) device repository and proves properties of it
in Dafny 4.11. `dafny verify dfyconfig.toml` checks all of it.

Five parts of the repository are covered.

* **The UTF-16 / modified UTF-8 codec** (`libshims`): `Utf16to8`, `Utf8to16`, `CodecLaws`, `BitIdentities`. The C loops
  are methods over arrays; the reference functions `Encode`, `Decode`, `Count` and `BrokenFours` say what they compute,
  and the laws relate those to each other and to RFC 3629 and RFC 2781. SIZE_MAX is a parameter, `size_t` wraps.
* **The power hint list and what sits on it** (`hidl/power`): `HintList` runs the sentinel list on heap nodes and
  follows `HintStack`, whose laws hold over every run; `PowerProfile` is profile switching with the video and display
  hints interleaved; `InteractionBoost` is the boost throttle and its clock arithmetic.
* **Two protocols of the camera HAL** (`QCamera2HWI.cpp`): the API-result rendezvous (`ApiResults` for the linked list,
  `ApiRendezvous` for the state machine, `ApiThreads` for the code) and the deferred-work engine (`DeferredWork`,
  `DeferredThreads`).
* **Buffer ownership** (`QCameraMem.cpp`): `MemoryPool` (single buffers, the recycling pool, sizes), `StreamMemory`
  (who has each ION buffer, over runs), `StreamObjects` (the code), `PreviewBuffers` (gralloc memory and the window).
* **The JPEG lane and the callback notifier**: `JpegLane` and `PostProcThread`, `CbNotifier` and `NotifierThread`, on
  top of `CameraQueue`.

A protocol is a state machine: `Next` (or `Step`, `HalStep`) is one atomic step of one thread, a step that is not
possible leaves the state alone, and a run is any sequence of actions, so a statement about all runs is a statement
about all interleavings. The thread modules hold the code itself: between two atomic steps a method such as `Interfere`
or `Others` lets the other threads take any number of steps, in any order, and every statement on shared state is
matched by its step in a ghost copy of the machine, so the laws of the machine hold of the code; what the code releases
it records in fields of its own, tied to the machine's account. What an allocator, the ION driver, the
window, the perf-lock library, the encoder and the clock answer are inputs.

Where the code does less than its comments or the callers' expectations, the code is modelled and the exact condition
under which the property holds is proved. Each of these entries names the lemma or contract with the condition first and
then, where there is one, the lemma with an input or a run that fails.

* The decoder's upper limit is U+10FFFD, so the last two code points of Unicode are replaced although both standards
  encode them (`CodecLaws.DecoderMeetsTheStandards`, exact per text). The length pass is only an upper bound on
  malformed text; the excess is exactly `BrokenFours` (`Utf8to16.LengthGap`). `strdup8to16` hands the result of
  `malloc` on unseen, so when that fails it writes through a null pointer, exactly for non-empty strings whose size
  does not overflow (`Utf8to16.StrDup8to16`).
* A lock that cannot be tracked is lost when the library has no release entry point (`HintStack.ConservationLaw` says
  with which libraries, `HintStack.RunConservesExactly` in which runs); without the library a profile is recorded
  although nothing holds it (`PowerProfile.ProfileEntryLaw`, `PowerProfile.WithoutLibraryProfileInvFails`); so is one
  disturbed by a video hint that names the profile id (`PowerProfile.ProfileEntryOverRuns`,
  `PowerProfile.VideoOnProfileId`, `PowerProfile.VideoOnProfileIdBreaksInv`).
* With a 32-bit `long` the clock difference wraps after 2147 seconds and a boost can be dropped by mistake
  (`InteractionBoost.TimespanIsRounded`, `InteractionBoost.DropIsRightUnlessWrapped`,
  `InteractionBoost.WrapDropsABoost`).
* When the ongoing queue refuses a JPEG job, a job whose encode ends well is never released, and one whose encode fails
  takes another off the queue's tail (`JpegLane.ReleasedExactlyOnce`, `JpegLane.LosingRun`).
* A result lost to a failed `malloc` leaves one caller asleep for good, as the code's own log message says
  (`ApiRendezvous.NobodyLeftBehind`, `ApiRendezvous.StrandingRun`).
* A deferred item with a null channel keeps its slot for ever and a wait on the slot never returns
  (`DeferredWork.LeakedSlotNeverReturns`, `DeferredWork.LeakingRun`).
* `allocateMore` that fails on an object sharing a pool gives back buffers the object still counts, and a second
  `allocate` forgets a buffer; that and a negative count that cuts off a buffer is all that breaks the account, step by
  step and over runs (`StreamMemory.StepConserves`, `StreamMemory.RunConserves`,
  `StreamMemory.FailingAllocateMoreDoubles`, `StreamMemory.SecondAllocateForgets`).
* A fresh ION buffer has size 0 when rounding overflows 32 bits, which of all `int` sizes only -4095 to -1 do, and for
  a secure buffer -(2^20 - 1) to -1 (`MemoryPool.FreshSizeIsLeast`, `MemoryPool.OnlySmallNegativeSizesOverflow`,
  `MemoryPool.MinusOneGetsAnEmptyBuffer`).
* The pool does not look at the secure flag (`MemoryPool.SecureIsNotMatched`,
  `MemoryPool.SecureRequestGetsPlainBuffer`).
* An ION failure inside the gralloc allocation keeps the buffer it happened on (`PreviewBuffers.AllocateTracks`,
  `PreviewBuffers.IonFailureKeepsABuffer`), and no `deallocate` gives it back, whose loop ends at the count
  (`PreviewBuffers.QCameraGrallocMemory.Deallocate`).
* The snapshot counter is 32 bits wide, so SNAPSHOT_DONE comes again after 2^32 further deliveries
  (`CbNotifier.SnapshotDoneOnce`, `CbNotifier.SnapshotDoneTwice`).
* `notifyCallback` reports an error although the callback stays queued exactly when the queue took it and the command's
  `malloc` failed (`NotifierThread.QCameraCbNotifier.NotifyCallback`). `sendDataNotify` then releases the data, unless
  its own argument struct was missing, and its callers `processJpegEvt` and, for a frame, the raw lane release them
  once more. So data may be released up to three times, or never; once exactly for the sendings of `OneRelease`
  (`NotifierThread.QCameraCbNotifier.CbNotifyRoutine`, `NotifierThread.ThreeReleases`). A command lost inside
  `sendCmd` is not reported at all.

## Model

| member | source | states |
|---|---|---|
| Utf16to8.EncodeHasNoNulAndNoFourByteLead | libshims/strdup16to8.cpp:109-140 | no byte of an encoding is NUL, so the terminator is the only one, and none starts a four-byte form |
| Utf16to8.EncodedForms | libshims/strdup16to8.cpp:121-134 | U+0000 is written as 0xc0 0x80, and every other unit in one, two or three bytes by its value |
| Utf16to8.StrnLen16to8 | libshims/strdup16to8.cpp:29-94 | for every SIZE_MAX and input both paths return min(true length, SIZE_MAX-1), although the additions wrap |
| Utf16to8.PutUnit | libshims/strdup16to8.cpp:121-134 | writes the bytes of one unit and nothing else |
| Utf16to8.StrnCpy16to8 | libshims/strdup16to8.cpp:109-140 | fills exactly the encoded length plus the terminator; the rest of the buffer keeps its contents |
| Utf16to8.StrnDup16to8 | libshims/strdup16to8.cpp:146-168 | refuses exactly on saturation or failed malloc; otherwise the buffer is full, terminated and has no other NUL |
| BitIdentities.SequenceLengthTrick | libshims/strdup8to16.cpp:31 | the shift trick is the sequence length of the leading byte |
| BitIdentities.LeadingByteMasks | libshims/strdup8to16.cpp:119-131 | the masks are the remainders the model uses |
| BitIdentities.ShiftAndMask | libshims/strdup8to16.cpp:34-35 | shift and or are times 64 plus the low six bits |
| BitIdentities.EncoderBytes | libshims/strdup16to8.cpp:121-129 | the encoder's shifts and ors are quotients, remainders and sums |
| BitIdentities.SurrogateHalves | libshims/strdup8to16.cpp:168-169 | the same for the two halves of a surrogate pair |
| BitIdentities.AlignMask | camera/QCamera2/HAL/QCameraMem.cpp:344-358 | adding and masking rounds up to a page or a megabyte |
| Utf8to16.GatherTakesExtensions | libshims/strdup8to16.cpp:136-141 | a sequence takes continuation bytes only and stops early only at the end or in front of another byte |
| Utf8to16.OnlyFirstByteLeads | libshims/strdup8to16.cpp:113-144 | all bytes of a decoded sequence but the first are continuation bytes |
| Utf8to16.ShortFormsStayInPlaneZero | libshims/strdup8to16.cpp:113-144 | only a lead with high nibble F can decode past U+FFFF |
| Utf8to16.LengthGap | libshims/strdup8to16.cpp:69-178 | on every byte string the byte-wise counter exceeds the sequence-wise decoder by exactly the F leads that do not decode to a pair |
| Utf8to16.StrLen8to16 | libshims/strdup8to16.cpp:69-100 | returns the decoded length plus the broken four-byte forms |
| Utf8to16.GetUtf32FromUtf8 | libshims/strdup8to16.cpp:113-144 | from a non-NUL byte advances one to four bytes, never past the first NUL; at the NUL not at all |
| Utf8to16.PutCode | libshims/strdup8to16.cpp:162-172 | writes the units of one code point and nothing else |
| Utf8to16.StrCpy8to16 | libshims/strdup8to16.cpp:152-178 | terminates on every C string, writes its decoding and nothing else |
| Utf8to16.StrDup8to16 | libshims/strdup8to16.cpp:44-61 | null exactly on overflow of the size, or a failed malloc for an empty string; a write through the null pointer exactly on a failed malloc for any other; otherwise the decoding, for which the counted length is always room enough |
| Utf8to16.CutsInFrontOfLeads | libshims/strdup8to16.cpp:186-215 | the end of the content and every place in front of a non-continuation byte is a decode boundary |
| Utf8to16.DecodeSplitsAtCut | libshims/strdup8to16.cpp:186-215 | decoding splits at the boundary at or behind any limit |
| Utf8to16.StrCpyLen8to16 | libshims/strdup8to16.cpp:186-215 | on a NUL-free range terminates and writes what strcpy8to16 writes for the prefix up to the next boundary |
| CodecLaws.DecodeOfEncode | libshims/strdup16to8.cpp:109-140 | decoding inverts encoding on all unit sequences |
| CodecLaws.RoundTrip | libshims/strdup8to16.cpp:69-178 | every unit sequence, zeros and lone surrogates included, comes back from its terminated encoding, and strlen8to16 is exact on it |
| CodecLaws.DecoderMeetsTheStandards | libshims/strdup8to16.cpp:28-37 | on standard UTF-8 the result is standard UTF-16, and the length exact, if and only if no character is above U+10FFFD |
| CodecLaws.TopCharactersAreReplaced | libshims/strdup8to16.cpp:164-172 | U+10FFFE and U+10FFFF each decode to U+FFFD and cost the length pass a unit too many |
| CodecLaws.StrayByteIsReplaced | libshims/strdup8to16.cpp:117-122 | a continuation byte at the head of a sequence decodes to U+FFFD on its own |
| CodecLaws.BrokenSequenceIsReplaced | libshims/strdup8to16.cpp:123-142 | a head with too few continuation bytes decodes to one U+FFFD, together with those it has |
| CodecLaws.WholeSequenceDecodes | libshims/strdup8to16.cpp:123-172 | a head with all its continuation bytes decodes to the code point of their bits, overlong forms and surrogates included; above U+10FFFD to U+FFFD |
| CodecLaws.GrammarIsTheImage | libshims/strdup8to16.cpp:152-178 | the grammar of section 4 of RFC 3629 accepts exactly the encodings of scalar values |
| CodecLaws.WellFormedStringsDecode | libshims/strdup8to16.cpp:152-178 | any string of that grammar decodes to the UTF-16 of its text with the two top characters replaced |
| CodecLaws.EncoderMeetsTheStandard | libshims/strdup16to8.cpp:109-140 | the encoder writes standard UTF-8 if and only if the text has no zero and nothing above the basic plane |
| HintStack.PerformConserves | hidl/power/utils.c:277-314 | performing keeps every lock listed or released exactly when an untrackable lock can be released |
| HintStack.PerformResult | hidl/power/utils.c:277-314 | 0 without the library or with the lock listed, -22 without a lock, -12 without memory, and what each takes, lists and gives back |
| HintStack.UndoConserves | hidl/power/utils.c:316-345 | undoing keeps every lock listed or released once |
| HintStack.ConservationLaw | hidl/power/utils.c:277-345 | over every run no lock is lost or released twice, if and only if locks can be released or cannot be acquired |
| HintStack.RunConservesExactly | hidl/power/utils.c:277-345 | a run accounts for every lock if and only if no perform of it gets an untrackable lock that the library cannot release |
| HintStack.RemovalPops | hidl/power/utils.c:316-345 | removing the first match pops that id's stack and no other |
| HintStack.RunIsIndependentStacks | hidl/power/utils.c:277-345 | under any interleaving each id sees its own LIFO stack |
| HintStack.UndoReleasesTop | hidl/power/utils.c:316-345 | an undo releases the top of its stack, once |
| HintList.AddListNode | hidl/power/list.c:37-56 | links the new node right behind the sentinel, or changes nothing |
| HintList.RemoveListNode | hidl/power/list.c:61-91 | delinks that node only and leaves a proper list; -1 without change if absent |
| HintList.FindNode | hidl/power/list.c:93-109 | the first node whose comparison matches, or null |
| HintList.PerfHints.PerformHintAction | hidl/power/utils.c:277-314 | on heap nodes does what Perform says, result code included |
| HintList.PerfHints.UndoHintAction | hidl/power/utils.c:316-345 | on heap nodes does what Undo says |
| PowerProfile.ProfileEntryOverRuns | hidl/power/power-8084.c:96-216 | with both entry points, over any run, video hints on any id included, one profile entry when the profile is not BALANCED and none when it is, at every moment, if and only if no step was a video hint on the profile id that disturbs the list |
| PowerProfile.StepKeepsProfileInv | hidl/power/power-8084.c:96-216 | the same for one step from any state in which the entry is right |
| PowerProfile.ProfileEntryLaw | hidl/power/power-8084.c:96-140 | the entry is right over every run whose video hints name other ids if and only if both library entry points were found |
| PowerProfile.WithoutLibraryProfileInvFails | hidl/power/power-8084.c:96-140 | runs that break it when an entry point is missing |
| PowerProfile.VideoOnProfileId | hidl/power/power-8084.c:163-176 | a video hint that names the profile id keeps the entry right if and only if it is ignored, gets no lock, or ends a video while BALANCED is in force |
| PowerProfile.VideoOnProfileIdBreaksInv | hidl/power/power-8084.c:163-176 | the shortest run on which one breaks it |
| PowerProfile.OthersKeepProfileEntries | hidl/power/power-8084.c:142-216 | video hints on other ids and display hints leave the profile's stack alone |
| PowerProfile.SwitchMoves | hidl/power/power-8084.c:96-140 | a switch undoes the profile in force and records the requested one exactly if it is known and granted, else BALANCED; only the stack of 0xFF00 moves |
| PowerProfile.VideoMoves | hidl/power/power-8084.c:142-216 | state 1 takes a lock under the hint id and state 0 gives its newest one back, with the interactive governor and outside POWER_SAVE; no other stack moves |
| PowerProfile.DisplayMoves | hidl/power/power-8084.c:377-412 | display on takes a lock under 0x0D00 and off gives one back; with the interactive governor the other way round under 0x0C00 |
| PowerProfile.PowerHal.SetPowerProfile | hidl/power/power-8084.c:96-140 | the routine on the heap list makes the SetProfile step |
| PowerProfile.PowerHal.TryProfile | hidl/power/power-8084.c:110-139 | from BALANCED, the half behind the undo makes the rest of the switch |
| PowerProfile.PowerHal.ProcessVideoHint | hidl/power/power-8084.c:142-216 | the two video routines behind the profile check make the Video step |
| PowerProfile.PowerHal.SwitchDisplay | hidl/power/power-8084.c:395-410 | on the heap list, the undo and perform calls of a display change in their order |
| PowerProfile.PowerHal.SetInteractiveOverride | hidl/power/power-8084.c:377-412 | the routine makes the Display step |
| InteractionBoost.TimespanIsRounded | hidl/power/utils.c:380-385 | the span is the floor or ceiling of the true microseconds if and only if the seconds fit a long |
| InteractionBoost.NanosRoundTowardZero | hidl/power/utils.c:380-385 | it is the ceiling just when the nanoseconds run backward and are no whole microseconds |
| InteractionBoost.WrapLongIsModular | hidl/power/utils.c:380-385 | a product that does not fit is off by a multiple of 2^w |
| InteractionBoost.BoostDuration | hidl/power/power-8084.c:279-292 | 500 ms at BIAS_POWER and HIGH_PERFORMANCE, else 200 ms, or a longer requested time up to 5000 ms |
| InteractionBoost.WhenBoosted | hidl/power/power-8084.c:294-320 | dropped exactly at POWER_SAVE or for at most 750 ms within 250 ms; otherwise which of the four lists |
| InteractionBoost.ShortBoostNotEarly | hidl/power/power-8084.c:294-302 | a boost of at most 750 ms is issued more than 249.999 ms after the previous one, wrapped or not |
| InteractionBoost.DropIsRightUnlessWrapped | hidl/power/power-8084.c:294-300 | only boosts of at most 750 ms are dropped, and a dropped one is within 250 ms of the previous boost if and only if the seconds fit the product |
| InteractionBoost.WrapDropsABoost | hidl/power/utils.c:380-385 | a boost dropped by a 32-bit wrap |
| InteractionBoost.BoostsAreSpaced | hidl/power/power-8084.c:270-302 | over every monotonic run boosts last 200 to 5000 ms and short ones are spaced |
| InteractionBoost.InteractionHint.ProcessInteractionHint | hidl/power/power-8084.c:270-321 | the routine issues what Issue says and remembers the time only then |
| CameraQueue.FilterPartitions | camera/QCamera2/util/QCameraQueue.cpp:302-334 | a flush by predicate keeps or releases every item |
| CameraQueue.FilterInOrder | camera/QCamera2/util/QCameraQueue.cpp:302-334 | an item is flushed exactly when it was queued and matches |
| CameraQueue.FilterSplits | camera/QCamera2/util/QCameraQueue.cpp:302-334 | a flush goes through the queue in order |
| CameraQueue.TakeUndoesPut | camera/QCamera2/util/QCameraQueue.cpp:139-248 | what is put at one end comes back from that end and leaves the queue as it was |
| CameraQueue.DrainsInOrder | camera/QCamera2/util/QCameraQueue.cpp:139-248 | taken from the head, items come first in, first out, and one put with priority comes first |
| CameraQueue.QCameraQueue.IsEmpty | camera/QCamera2/util/QCameraQueue.cpp:118-127 | the counter tells emptiness |
| CameraQueue.QCameraQueue.Flush | camera/QCamera2/util/QCameraQueue.cpp:260-289 | releases everything in order and closes the queue |
| CameraQueue.QCameraQueue.FlushMatching | camera/QCamera2/util/QCameraQueue.cpp:302-379 | releases exactly the matching items in order and keeps the rest in order |
| JpegLane.TimesStep | camera/QCamera2/HAL/QCameraPostProc.cpp:2059-2142 | no step but an accepting one changes in how many places a job is |
| JpegLane.CompletionTakesItsId | camera/QCamera2/HAL/QCameraPostProc.cpp:2403-2408 | a completion releases exactly the ongoing jobs recorded under its id and keeps exactly the others, in order |
| JpegLane.RunKeepsInv | camera/QCamera2/HAL/QCameraPostProc.cpp:2020-2229 | over every interleaving each accepted job is in exactly one place, and a job being encoded is the tail of the ongoing queue |
| JpegLane.TailWithoutIdStays | camera/QCamera2/HAL/QCameraPostProc.cpp:2403-2408 | a completion that comes before the job id is recorded does not take the tail |
| JpegLane.TailDequeueTakesTheFailedJob | camera/QCamera2/HAL/QCameraPostProc.cpp:2131-2139 | the tail dequeue of a failed encode removes precisely the job that failed |
| JpegLane.ReleasedExactlyOnce | camera/QCamera2/HAL/QCameraPostProc.cpp:2059-2142 | over every interleaving, after STOP each accepted job has been released exactly once and nothing else, if and only if no step was a losing one |
| JpegLane.NeverReleasedTwice | camera/QCamera2/HAL/QCameraPostProc.cpp:749-750 | in every interleaving at any moment a job is released at most once |
| JpegLane.LostStep | camera/QCamera2/HAL/QCameraPostProc.cpp:2131-2139 | a step loses a job if and only if the ongoing queue refused the job in hand and its encode ends well, or fails and the tail dequeue takes another |
| JpegLane.WithoutRefusalNothingIsLost | camera/QCamera2/HAL/QCameraPostProc.cpp:2131-2133 | no step is a losing one while the ongoing queue takes every job |
| JpegLane.LosingRun | camera/QCamera2/HAL/QCameraPostProc.cpp:2131-2139 | a run to STOP on which an accepted job is never released |
| PostProcThread.FlushIsCompletion | camera/QCamera2/HAL/QCameraPostProc.cpp:2403-2408 | flushing the queue of job structs by matchJobId releases and keeps what the Complete step says |
| PostProcThread.RecordIsInPlace | camera/QCamera2/HAL/QCameraPostProc.cpp:1737-1741 | writing the id into a struct changes the queued entry of that job and no other |
| PostProcThread.RecordedOnce | camera/QCamera2/HAL/QCameraPostProc.cpp:1128-1157 | the code's records of releases show each accepted job once, and no other, exactly when the lane does |
| PostProcThread.QCameraPostProcessor.ProcessData | camera/QCamera2/HAL/QCameraPostProc.cpp:622-683 | error returns; otherwise a fresh job is accepted exactly if the queue takes it, one DO_NEXT_JOB is sent, and success reported either way |
| PostProcThread.QCameraPostProcessor.FlushJob | camera/QCamera2/HAL/QCameraPostProc.cpp:748-750 | the ongoing jobs whose recorded id it is go to the queue's release record, all others stay, in order; it is the Complete step |
| PostProcThread.QCameraPostProcessor.ProcessJpegEvt | camera/QCamera2/HAL/QCameraPostProc.cpp:730-829 | without a save thread: the result by the branches, the job flushed and one DO_NEXT_JOB sent whatever becomes of the callback; the memory is sent, and on an error released again by this routine |
| PostProcThread.QCameraPostProcessor.RecordJobId | camera/QCamera2/HAL/QCameraPostProc.cpp:1738-1741 | the id lands in the queued struct, racing completions included |
| PostProcThread.QCameraPostProcessor.DequeueLast | camera/QCamera2/HAL/QCameraPostProc.cpp:2136-2137 | the tail dequeue takes the failed job if it was queued |
| PostProcThread.QCameraPostProcessor.Encode | camera/QCamera2/HAL/QCameraPostProc.cpp:2131-2141 | from the enqueue to the recorded id, the dumped raw image or the release, with other threads in between; loses nothing unless refused |
| PostProcThread.QCameraPostProcessor.EncodeFailed | camera/QCamera2/HAL/QCameraPostProc.cpp:2135-2141 | tail dequeue and release after a failed encode; loses nothing if the job was queued |
| PostProcThread.QCameraPostProcessor.NextJob | camera/QCamera2/HAL/QCameraPostProc.cpp:2119-2205 | one DO_NEXT_JOB among other threads; loses nothing unless refused |
| PostProcThread.QCameraPostProcessor.AbortOngoing | camera/QCamera2/HAL/QCameraPostProc.cpp:2068-2077 | the abort loop ends, with completions racing it, releases what it dequeues, and leaves nothing ongoing and nothing lost |
| PostProcThread.QCameraPostProcessor.FlushInput | camera/QCamera2/HAL/QCameraPostProc.cpp:2104-2105 | the flush releases what is waiting and closes the lane |
| PostProcThread.QCameraPostProcessor.StopDataProcessing | camera/QCamera2/HAL/QCameraPostProc.cpp:2059-2116 | leaves the lane stopped and loses nothing |
| PostProcThread.QCameraPostProcessor.DataProcessRoutine | camera/QCamera2/HAL/QCameraPostProc.cpp:2020-2229 | each command begins with its own step, in order; the command loop ending with STOP: the code's own records show every job accepted from any thread released exactly once, and no other, if and only if no step was a losing one |
| ApiResults.TakeIsFifo | camera/QCamera2/HAL/QCamera2HWI.cpp:3795-3814 | taking the first match pops that API's results and keeps every other API's in order |
| ApiResults.ApiResultList.Post | camera/QCamera2/HAL/QCamera2HWI.cpp:3849-3862 | on heap nodes appends at the tail, or loses the result when malloc fails |
| ApiResults.ApiResultList.TakeMatching | camera/QCamera2/HAL/QCamera2HWI.cpp:3795-3814 | on heap nodes removes the first match only, head case included, and leaves a proper list |
| ApiResults.ApiResultList.FreeAll | camera/QCamera2/HAL/QCamera2HWI.cpp:1260-1269 | frees every pending result once, in order |
| ApiRendezvous.RunIsBalanced | camera/QCamera2/HAL/QCamera2HWI.cpp:3788-3866 | per API, waiters equal outstanding plus queued plus lost, and queued results never exceed awake waiters |
| ApiRendezvous.QueuedResultHasAnAwakeCaller | camera/QCamera2/HAL/QCamera2HWI.cpp:3788-3866 | while a result is queued some caller of its API is awake and will return with the oldest one |
| ApiRendezvous.NobodyLeftBehind | camera/QCamera2/HAL/QCamera2HWI.cpp:3788-3866 | at rest the callers left asleep are the lost results: none if and only if no malloc failed in answering an accepted request |
| ApiRendezvous.StrandingRun | camera/QCamera2/HAL/QCamera2HWI.cpp:3850-3865 | a run that leaves a caller asleep behind a lost answer |
| ApiRendezvous.DeliveredInOrder | camera/QCamera2/HAL/QCamera2HWI.cpp:3788-3866 | in every run what an API's callers received, followed by what is queued for it, is what was signalled for it, unchanged and in that order |
| ApiRendezvous.PostedAreSignalled | camera/QCamera2/HAL/QCamera2HWI.cpp:3840-3876 | the results posted are those of the signals that answer an outstanding request and get their list node |
| ApiRendezvous.OutstandingAreOpen | camera/QCamera2/HAL/QCamera2HWI.cpp:3840-3876 | the outstanding requests are those accepted and not answered yet |
| ApiThreads.ApiCalls.SignalAPIResult | camera/QCamera2/HAL/QCamera2HWI.cpp:3845-3866 | on the heap list the very result is appended, or lost without its node, its request is answered and every waiter woken; it is the Signal step |
| ApiThreads.ApiCalls.ScanOnce | camera/QCamera2/HAL/QCamera2HWI.cpp:3795-3814 | one pass behind the wait takes the oldest result of its API, or goes back to sleep exactly when there is none |
| ApiThreads.ApiCalls.WaitAPIResult | camera/QCamera2/HAL/QCamera2HWI.cpp:3788-3818 | among other threads it leaves the wait with a result of its own API, the last one delivered, or is still waiting; the balance of every API holds either way |
| DeferredWork.RunKeepsShape | camera/QCamera2/HAL/QCamera2HWI.cpp:6205-6278 | over every interleaving one command per queued item and one carrier per held slot |
| DeferredWork.SlotsMatchItems | camera/QCamera2/HAL/QCamera2HWI.cpp:6303-6318 | a slot is marked exactly when one unfinished item carries it |
| DeferredWork.AtMostTwentyFive | camera/QCamera2/HAL/QCamera2HWI.cpp:6303-6318 | at most 25 items are unfinished |
| DeferredWork.RunIsFaithful | camera/QCamera2/HAL/QCamera2HWI.cpp:6195-6318 | over every run items are taken first in, first out and keep the channel they were queued with; those finished had a usable one, those dropped none |
| DeferredWork.WaitReturnsOnlyAfterFinish | camera/QCamera2/HAL/QCamera2HWI.cpp:6332-6346 | a wait on an item's id returns only when that item has finished, even if its slot was reused |
| DeferredWork.LeakedSlotNeverReturns | camera/QCamera2/HAL/QCamera2HWI.cpp:6220-6224 | from the moment a null-channel item is dropped, a wait on its slot returns at no later point of any run |
| DeferredWork.LeakingRun | camera/QCamera2/HAL/QCamera2HWI.cpp:6220-6224 | the shortest run that drops one |
| DeferredThreads.DefferedWorkQueue.QueueDefferedWork | camera/QCamera2/HAL/QCamera2HWI.cpp:6303-6318 | -1 exactly when all 25 slots are marked, otherwise the first free slot and one more item with the given channel, with the worker running in between |
| DeferredThreads.DefferedWorkQueue.TakeNext | camera/QCamera2/HAL/QCamera2HWI.cpp:6195-6213 | behind a command there is always an item, taken from the front |
| DeferredThreads.DefferedWorkQueue.EndItem | camera/QCamera2/HAL/QCamera2HWI.cpp:6216-6270 | clears the item's slot; with a null channel the item is dropped and the slot stays marked |
| DeferredThreads.DefferedWorkQueue.WaitDefferedWork | camera/QCamera2/HAL/QCamera2HWI.cpp:6332-6346 | the wait loop among other threads: when it returns on a handed-out id, the item has finished |
| CbNotifier.ReleasedExactlyOnce | camera/QCamera2/HAL/QCamera2HWICallbacks.cpp:1955-2118 | in every interleaving an accepted callback is released at most once, and exactly once after EXIT |
| CbNotifier.StopReleasesSnapshots | camera/QCamera2/HAL/QCamera2HWICallbacks.cpp:1918-1998 | STOP releases exactly the queued snapshots and keeps exactly the other callbacks, in order |
| CbNotifier.SnapshotDoneOnce | camera/QCamera2/HAL/QCamera2HWICallbacks.cpp:2057-2079 | with N expected, SNAPSHOT_DONE was raised once exactly when at least N snapshots were delivered, up to the counter's wrap |
| CbNotifier.DoneIsRaisedByTheNth | camera/QCamera2/HAL/QCamera2HWICallbacks.cpp:2059-2071 | it is raised by the N-th delivery and nothing else |
| CbNotifier.SessionIsTheRuns | camera/QCamera2/HAL/QCamera2HWICallbacks.cpp:1978-2071 | the session's counts are those of the run: the snapshots handed to the application since START, and the number asked for then on 32 bits |
| CbNotifier.SnapshotDoneTwice | camera/QCamera2/HAL/QCamera2HWICallbacks.cpp:2060-2071 | a run of one session that raises it again behind the wrap of the counter |
| NotifierThread.QCameraCbNotifier.NotifyCallback | camera/QCamera2/HAL/QCamera2HWICallbacks.cpp:2132-2154 | accepted exactly when the queue takes it; success implies accepted; an error with the callback accepted comes exactly from the command's failed malloc |
| NotifierThread.QCameraCbNotifier.SendDataNotify | camera/QCamera2/HAL/QCameraPostProc.cpp:566-603 | without its argument struct it sends and releases nothing; on an error of notifyCallback it releases the data itself, although the queue may have taken the callback |
| NotifierThread.QCameraCbNotifier.SendJpeg | camera/QCamera2/HAL/QCameraPostProc.cpp:752-826 | by the branches up to its error tail: what is returned, sent and released; on any error of sendDataNotify the memory is released again |
| NotifierThread.QCameraCbNotifier.SendRaw | camera/QCamera2/HAL/QCameraPostProc.cpp:1852-1865 | the raw lane: on an error a frame is released again, a heap copy is not |
| NotifierThread.QCameraCbNotifier.SendSaved | camera/QCamera2/HAL/QCameraPostProc.cpp:1967-1989 | the save thread sends its file name and releases nothing itself |
| NotifierThread.QCameraCbNotifier.ReleaseCallback | camera/QCamera2/HAL/QCamera2HWICallbacks.cpp:2096-2099 | the callback in hand is released and recorded, and counted as delivered exactly when it was |
| NotifierThread.QCameraCbNotifier.DoNextJob | camera/QCamera2/HAL/QCamera2HWICallbacks.cpp:2000-2104 | the oldest callback is taken and released, delivered exactly if enabled, a snapshot and with a callback set, and the local counters stay those of the session |
| NotifierThread.QCameraCbNotifier.StopSnapshots | camera/QCamera2/HAL/QCamera2HWICallbacks.cpp:1991-1998 | the queued snapshots go to the queue's release record, the other callbacks stay, in order, and the session ends |
| NotifierThread.QCameraCbNotifier.Exit | camera/QCamera2/HAL/QCamera2HWICallbacks.cpp:2105-2109 | the flush releases everything queued and the loop ends |
| NotifierThread.QCameraCbNotifier.CbNotifyRoutine | camera/QCamera2/HAL/QCamera2HWICallbacks.cpp:1955-2118 | the command loop among all senders: after EXIT the records show every accepted callback released exactly once by thread or queue, and the data of every sending released as often as thread, queue, sendDataNotify and caller together make it, once if and only if no error or exactly one of sender and caller releases; the counters are right |
| NotifierThread.ThreeReleases | camera/QCamera2/HAL/QCameraPostProc.cpp:805-826 | a picture whose command is not allocated has its memory released three times |
| MemoryPool.FreshSizeIsLeast | camera/QCamera2/HAL/QCameraMem.cpp:341-358 | the fresh size is the least multiple of 4096 (secure: 1 MiB, through both roundings) not below the request, if and only if rounding fits 32 bits |
| MemoryPool.OnlySmallNegativeSizesOverflow | camera/QCamera2/HAL/QCameraMem.cpp:341-358 | of all 32-bit sizes only 0 and the last page (megabyte) below zero give a buffer of size 0 |
| MemoryPool.MinusOneGetsAnEmptyBuffer | camera/QCamera2/HAL/QCameraMem.cpp:341-377 | a request of -1 bytes is served with a buffer of size 0 |
| MemoryPool.FirstFit | camera/QCamera2/HAL/QCameraMem.cpp:517-548 | the index is that of the earliest fitting buffer |
| MemoryPool.PoolService | camera/QCamera2/HAL/QCameraMem.cpp:517-585 | a buffer of the same heap and flag; fresh only when nothing pooled fits, otherwise the earliest fit, others in order; big enough |
| MemoryPool.GivenBackIsServedAgain | camera/QCamera2/HAL/QCameraMem.cpp:464-548 | a buffer given back is last in its own stream type's list, and a request of that type which it is the first to fit gets exactly it |
| MemoryPool.WithoutPoolFresh | camera/QCamera2/HAL/QCameraMem.cpp:323-391 | without a pool every buffer is a fresh one of the kind asked for, or nothing changes |
| MemoryPool.SecureIsNotMatched | camera/QCamera2/HAL/QCameraMem.cpp:531-541 | a request gets a buffer of its own secure kind if and only if nothing pooled fits or the earliest fit is of that kind |
| MemoryPool.SecureRequestGetsPlainBuffer | camera/QCamera2/HAL/QCameraMem.cpp:531-541 | a secure request served with a plain buffer |
| StreamMemory.GetBufferLoosens | camera/QCamera2/HAL/QCameraMem.cpp:563-585 | getting a buffer gives that handle, and only that, one holder outside the pool |
| StreamMemory.GiveBackTightens | camera/QCamera2/HAL/QCameraMem.cpp:403-478 | giving one back takes one holder away |
| StreamMemory.ReleaseUpFillsOwnList | camera/QCamera2/HAL/QCameraMem.cpp:297-306 | giving all back appends the slots, in order, to the list of the object's stream type and changes nothing else |
| StreamMemory.ReleaseDownFillsOwnList | camera/QCamera2/HAL/QCameraMem.cpp:259-282 | the error path appends them there from the last to the first |
| StreamMemory.ReleaseUpUnpooled | camera/QCamera2/HAL/QCameraMem.cpp:297-306 | without a pool exactly their handles die |
| StreamMemory.ClearFreesThePooled | camera/QCamera2/HAL/QCameraMem.cpp:484-500 | clearing the pool frees exactly the handles in its lists |
| StreamMemory.CallLeaves | camera/QCamera2/HAL/QCameraMem.cpp:879-922 | refused over 64 slots without a change; refused by ION with the slots kept, or emptied without a pool; served with the count set or added; asks for secure buffers as told |
| StreamMemory.AllocBalance | camera/QCamera2/HAL/QCameraMem.cpp:241-286 | success takes what was got, over the bound nothing, and a failure also gives back the buffers of before |
| StreamMemory.FailedFirstAllocation | camera/QCamera2/HAL/QCameraMem.cpp:241-286 | a failed first allocation gives back exactly what it took |
| StreamMemory.AcquireSucceeds | camera/QCamera2/HAL/QCameraMem.cpp:256-286 | a call gets all its buffers if and only if ION says yes to every request behind the pooled fits |
| StreamMemory.StepByResult | camera/QCamera2/HAL/QCameraMem.cpp:879-942 | from any accounted state a step keeps the account if and only if a failed call had no pool or no buffer and a success cuts off no buffer |
| StreamMemory.StepConserves | camera/QCamera2/HAL/QCameraMem.cpp:879-942 | while the pool holds buffers, a step keeps every live buffer in exactly one place if and only if, told from the bound, the count, the pool's fits and ION's answers, it is not refused with a buffer in a pooled object, not a served second allocate that forgets slots or buffers, and not a negative allocateMore that cuts off a buffer |
| StreamMemory.RunConserves | camera/QCamera2/HAL/QCameraMem.cpp:241-306 | from objects without buffers over an empty pool, all states of a run have each live buffer in exactly one place if and only if all its steps were of the kept kind |
| StreamMemory.ConservedPlaces | camera/QCamera2/HAL/QCameraMem.cpp:241-306 | that is: one occurrence in the counted slots and pool lists together for a live buffer, none for a freed one |
| StreamMemory.FailingAllocateMoreDoubles | camera/QCamera2/HAL/QCameraMem.cpp:910-922 | a run whose failing allocateMore leaves a buffer both in its slot and in the pool |
| StreamMemory.SecondAllocateForgets | camera/QCamera2/HAL/QCameraMem.cpp:879-896 | a run whose second allocate leaves a live buffer nowhere |
| StreamMemory.NothingLeaks | camera/QCamera2/HAL/QCameraMem.cpp:484-500 | with no object holding a buffer, clearing the pool leaves no live ION buffer |
| StreamObjects.Ion.AllocOneBuffer | camera/QCamera2/HAL/QCameraMem.cpp:323-391 | a new handle of the rounded size; whichever of open, ALLOC and SHARE fails, nothing is kept |
| StreamObjects.QCameraMemoryPool.FindBufferLocked | camera/QCamera2/HAL/QCameraMem.cpp:517-548 | the search loop takes the earliest fit out of its list and leaves the others in order |
| StreamObjects.QCameraMemoryPool.AllocateBuffer | camera/QCamera2/HAL/QCameraMem.cpp:563-585 | search, then a fresh buffer: the result and new store of GetBuffer |
| StreamObjects.QCameraMemoryPool.ReleaseBuffer | camera/QCamera2/HAL/QCameraMem.cpp:464-473 | appends to the list of its stream type only |
| StreamObjects.QCameraMemoryPool.Clear | camera/QCamera2/HAL/QCameraMem.cpp:484-500 | frees every pooled buffer of every stream type |
| StreamObjects.QCameraStreamMemory.Alloc | camera/QCamera2/HAL/QCameraMem.cpp:241-286 | the allocation loop and its error path have the outcome of the function Alloc |
| StreamObjects.QCameraStreamMemory.GiveBackBelow | camera/QCamera2/HAL/QCameraMem.cpp:259-282 | the error path gives back from the last slot down and empties the slots when there is no pool |
| StreamObjects.QCameraStreamMemory.AllocInto | camera/QCamera2/HAL/QCameraMem.cpp:258-275 | one buffer into one slot, from the pool or from ION |
| StreamObjects.QCameraStreamMemory.Dealloc | camera/QCamera2/HAL/QCameraMem.cpp:297-306 | gives back the counted slots from the first up; with a pool they are appended, in order, to the list of the object's stream type |
| StreamObjects.QCameraStreamMemory.Allocate | camera/QCamera2/HAL/QCameraMem.cpp:879-896 | makes the Allocate step, the count overwritten |
| StreamObjects.QCameraStreamMemory.AllocateMore | camera/QCamera2/HAL/QCameraMem.cpp:910-922 | makes the AllocateMore step, the count added |
| StreamObjects.QCameraStreamMemory.Deallocate | camera/QCamera2/HAL/QCameraMem.cpp:933-942 | gives back every counted buffer, first to last, and counts none |
| StreamObjects.QCameraBuffers.Perform | camera/QCamera2/HAL/QCameraMem.cpp:879-942 | a call on any of several objects over one pool, with or without sharing it, makes its step of the whole system |
| StreamObjects.QCameraBuffers.PerformAll | camera/QCamera2/HAL/QCameraMem.cpp:879-942 | any calls on them make the run, so the account holds all along exactly when every call was of the kept kind |
| PreviewBuffers.TakeStopsAt | camera/QCamera2/HAL/QCameraMem.cpp:1448-1538 | how the dequeue loop ends, told from the first answer of the window or ION that is a refusal |
| PreviewBuffers.AllocateTracks | camera/QCamera2/HAL/QCameraMem.cpp:1436-1551 | succeeds exactly when no answer is a refusal and then leaves the window the first min-undequeued buffers; a refused dequeue returns all; an ION failure keeps exactly its buffer |
| PreviewBuffers.AllocateKeepsOrder | camera/QCamera2/HAL/QCameraMem.cpp:1448-1551 | the object has the buffers in the order of the window's answers and owns them from the minimum on |
| PreviewBuffers.IonFailureKeepsABuffer | camera/QCamera2/HAL/QCameraMem.cpp:1483-1503 | the smallest allocation that does |
| PreviewBuffers.DisplayTracks | camera/QCamera2/HAL/QCameraMem.cpp:1338-1374 | one call keeps flags and window in step: just the shown buffer changes hands one way and the dequeued one the other; an index exactly when the dequeue worked, and it is that buffer's |
| PreviewBuffers.OwnedMeansNotWithWindow | camera/QCamera2/HAL/QCameraMem.cpp:1338-1374 | after a successful allocation and any calls a buffer is flagged owned exactly when the window does not hold it |
| PreviewBuffers.DeallocateReturnsAll | camera/QCamera2/HAL/QCameraMem.cpp:1587-1614 | every buffer is with the window afterwards if and only if there is a window or none was owned |
| PreviewBuffers.QCameraGrallocMemory.DisplayBuffer | camera/QCamera2/HAL/QCameraMem.cpp:1338-1374 | on any object a flag that is not set refuses the call; a counted index has the outcome of Display; a flag above the count, left by a failed allocation, hands that buffer to the window |
| PreviewBuffers.QCameraGrallocMemory.FlagOwned | camera/QCamera2/HAL/QCameraMem.cpp:1360-1368 | the search flags the first buffer with the dequeued handle, or none |
| PreviewBuffers.QCameraGrallocMemory.CancelBelow | camera/QCamera2/HAL/QCameraMem.cpp:1464-1471 | the error loops put the buffers of before back and clear their flags |
| PreviewBuffers.QCameraGrallocMemory.TakeBuffers | camera/QCamera2/HAL/QCameraMem.cpp:1448-1538 | the dequeue loop with its three error exits has the outcome of Take and sets the flags to match |
| PreviewBuffers.QCameraGrallocMemory.Allocate | camera/QCamera2/HAL/QCameraMem.cpp:1389-1555 | on any object, retries included, the whole call has the outcome of Allocated; what it does to the count and every flag on success and failure |
| PreviewBuffers.QCameraGrallocMemory.Deallocate | camera/QCamera2/HAL/QCameraMem.cpp:1587-1614 | cancels every counted owned buffer and counts none; a flag above the count, left by a failed allocation, stays set and its buffer lost |
| PreviewBuffers.QCameraGrallocMemory.GetRegFlags | camera/QCamera2/HAL/QCameraMem.cpp:1648-1656 | 0 below the minimum of the last allocation, failed or not, and 1 from there to the count; right after a successful allocation 1 exactly for the owned buffers |

## Left out

- Everything outside the five parts: HIDL services, sysfs I/O, thermal, lights, vibrator, audio, Bluetooth addresses,
  EXIF, frame dumping, parameters, the camera state machine. They would add only easy members or call foreign code.
- Utf8to16.StrCpyLen8to16: ranges with a NUL inside are excluded, because the loop never leaves them; a null string
  pointer is not modelled anywhere. The counters `len` and `expected` of the decoder are unbounded.
- HintStack.RunIsIndependentStacks: about the locks taken through `perform_hint_action`; the raw `perf_lock_rel(1)` of
  the first display-off and the boosts of `interaction` and the launch hint are not in the account.
- PowerProfile.ProfileEntryOverRuns: resource lists are reduced to whether a profile has one. Parsing of video
  metadata is not modelled.
- InteractionBoost.TimespanIsRounded: overflow of `long` is taken to wrap, where C leaves it undefined.
- CameraQueue.QCameraQueue.FlushMatching: the queue's list is a sequence field and not doubly linked nodes, so the
  unlinking while walking is not shown; each call is atomic under its mutex; a null item is not modelled.
- CameraQueue.QCameraQueue.Flush: the same.
- JpegLane.ReleasedExactlyOnce: jobs accepted by the input queue only; a job whose enqueue fails is leaked by the code
  before any release. The encoder is taken never to hand out job id 0. The raw and reprocess lanes and sessions are not
  modelled; aborted jobs may complete under their ids like any other.
- PostProcThread.QCameraPostProcessor.ProcessJpegEvt: the save thread's own queue is left out, and so is the branch that
  feeds it; that thread's flush is FlushJob and its callback NotifierThread.QCameraCbNotifier.SendSaved. A buffer of
  the encoder without a memory handle is not modelled.
- PostProcThread.QCameraPostProcessor.DataProcessRoutine: the activity test and the dequeue of DO_NEXT_JOB are taken in
  the other order, which no other thread can observe, since only this thread changes `is_active`.
- ApiRendezvous.RunIsBalanced: each accepted request is answered at most once; the extra STOP_AUTO_FOCUS result posted
  from autofocus events is excluded.
- ApiThreads.ApiCalls.WaitAPIResult: the loop is given up after a number of rounds, since that it ever returns depends
  on the scheduler and on the state machine thread answering.
- ApiResults.ApiResultList.FreeAll: the head pointer keeps its value, as in the code; use after close is not modelled.
- DeferredWork.WaitReturnsOnlyAfterFinish: one waiter per job variable; that a waiter is woken is not claimed, because
  `mDeffCond.signal` wakes a single one of them. `new` and `sendCmd` are taken to succeed, and all other commands of
  the thread are left out.
- DeferredThreads.DefferedWorkQueue.WaitDefferedWork: given up after a number of wake-ups, for the same reason.
- NotifierThread.QCameraCbNotifier.CbNotifyRoutine: releases are counted as calls; a second call of
  `releaseNotifyData` works on an argument struct already freed, and what that does is not modelled. A caller's send
  and its error tail are one step for the thread, which does not change the counts.
- CbNotifier.ReleasedExactlyOnce: `new` is taken to succeed; the check of `mActive` in `notifyCallback` is not used, so
  enqueues after `exit` are included; a second launch of the thread is not modelled.
- MemoryPool.PoolService: file descriptors, and the case of descriptor 0, are not modelled.
- StreamMemory.StepConserves: each object's pool type and stream type are fixed; the mapped camera memory of a slot is
  not modelled. That pool lists hold buffers is an assumption here and a result in RunConserves.
- StreamObjects.QCameraStreamMemory.Alloc: the sum of counts is not taken to overflow an `int`.
- PreviewBuffers.AllocateTracks: assumes a window that has `count` buffers after a successful set_buffer_count, hands
  out only handles it holds, takes back what is cancelled, and asks to keep no more than `count` of them.
- PreviewBuffers.QCameraGrallocMemory.Allocate: for at most 64 buffers, which is the size of its arrays; a dequeue that
  succeeds with a null handle counts as refused, where `allocate` would dereference it. Mapping and metadata of the
  buffers are not modelled, nor a window replaced while buffers are out.
- The heap and video variants of camera memory, the video metadata range, and `allocateMore` of gralloc memory, which
  only returns an error.
