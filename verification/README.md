# Verified model of the webOS graphics samples and Mali probes

This project models, in Dafny, the state machines and algorithms behind the native Wayland
renderers and the Mali kernel tools, and proves what they keep over whole runs. Check it with
`dafny verify dfyconfig.toml`.

Code that updates fields or buffers in place is a class or a method with loops. Each such method
is proved equal to a step function on values; the theorems are about those functions, over every
run and every behaviour of the environment. The GPU, the compositor, the kernel and the C library
are the environment: their answers are inputs, and what their specifications promise (in-order
completion, `glFinish`, only live proxies receive events, release only of attached buffers)
appears as a named predicate in the lemmas that need it.

- `GpuTimerRing` – the ring of GPU timer queries of the stress renderer: polling, claiming a slot,
  throttling, the fallback that finishes the GPU once a batch, and the final drain. The driver
  answers each examined slot with its own completion watermark. Main results: the frames counted are
  the calls the environment let draw; every query is collected exactly once or in flight in one
  slot; a timed offscreen run times every frame; the drain collects everything; the samples are the
  results of exactly the queries begun after the warm-up and read on a continuous clock.
- `Multipass` – ping-pong rendering refines a fold of the pass function that has no textures; the
  program-switch schedule of the draw loop.
- `Percentiles` – sorted copies, order statistics of the unsorted samples, the average.
- `ConfigChooser` – the scoring loop, the order of preference it implements, and the documented one.
- `WebosShell`, `EglRenderer` – the visibility machine composed with the frame callback chain.
- `CpuRenderer` – the three-buffer shared-memory pool and its render loop, for a 32-bit and a 64-bit
  `size_t`; scripts/build.sh builds for a 32-bit target.
- `DuplicateFilter`, `InputRouter` – focus aggregation over dynamic seats and the suppression of
  repeated key and button events. Events arrive only on live proxies (Wayland core protocol,
  Appendix A, `wl_seat`, `wl_pointer`, `wl_keyboard`).
- `ExtensionTokens` – the skipping substring search against the set of space-separated tokens.
- `TraceEvents`, `MaliTrace`, `FdTracking`, `TraceFile`, `TraceNames`, `PackedRecord` – the tracer: threads
  interleaved field by field, the descriptors it follows, the binary file, and the decoder.
- `KbaseProps`, `NumberPrinter`, `LittleEndian` – property records and number printing of the
  kbase probe.
- `RectPainter` – the clipped rectangle painter against a pointwise picture.
- `Common` – shared definitions.

## Where the code differs from its documentation or intent

The model follows the code; each point has its lemma.

- The `dropped` field of the trace header adds the overflow to a counter that already holds it: it
  is right exactly when the event counter does not exceed the capacity, else double
  (`MaliTrace.HeaderCountsLossIff`, `HeaderDoubles`).
- The signal handler flushes while calls are in progress, so the file can hold partly stored events
  (`MaliTrace.StoredSoFar`, `TraceFile.ReportOfSignal`).
- The 20 ms duplicate filter remembers only the last delivered event, so a repeat is suppressed
  exactly when that one is its twin (`DuplicateFilter.SuppressedIffLastIsTwin`); two devices whose
  press and release interleave are delivered twice (`InterleavedRepeatIsDelivered`).
- The 20 ms window is taken modulo 2^32 ms: a twin that comes that much later is suppressed too,
  and that is the only difference from elapsed time (`DuplicateFilter.AgreesWithClockIff`).
- docs/ARCHITECTURE.md asks first for no alpha, then for no depth and stencil, then for the smallest
  colour buffer. The score adds weights instead, and so looks at amounts where the documentation
  asks for presence. `ConfigChooser.FollowsDocumentedIff` gives, for all alphas and depth and
  stencil sums, exactly when the score follows the documentation, `ChoosesWellIff` the same of the
  choice, and `ScoreContradictsDocumented` two configs where it does not. The choice is the
  documented one whenever a config without alpha, depth and stencil is offered
  (`ChoiceIsDocumented`).
- In the 565 mode 80 colour bits outweigh a byte of depth, so the order of preference holds exactly
  up to 97 colour bits (`ConfigChooser.Follows565Iff`); RGB565 itself wins in any case
  (`Exact565IsChosen`).
- An open is recorded with errno whatever its outcome, so a successful one can carry the error of an
  earlier call; the other calls record an error exactly when they fail
  (`FdTracking.ErrorTellsFailureIff`).
- A poll that waits on a tracked descriptor is recorded only when the first descriptor of its list
  is tracked, and a munmap never is (`FdTracking.PollRecordedIff`, `MunmapIsFiltered`).
- The decoder's table of ioctl names has pairs for keys and is asked for triples, so every ioctl is
  shown by its numbers; those names are distinct (`TraceNames.IoctlNameInjective`).
- The property parser's printed record count is one too many whenever four or more bytes are left
  over (`KbaseProps.ParsedReencodes`).
- The CPU renderer's callback chain ends when no buffer is available, and a later release does not
  restart it (`CpuRenderer.ChainContinuesIff`, `StallPersists`, `StallIsReachable`).
- On the 32-bit target a buffer is smaller than its picture exactly when 4*w*h reaches 2^32, and a
  configure can lead there (`CpuRenderer.RunSizesExactIff`, `RunPictureFitsIff`,
  `WrongSizeIsReachable`).
- The extension search is right for exactly the space-free names
  (`ExtensionTokens.FoundIsTokenIffSpaceFree`).

## Model

| member | source | states |
|---|---|---|
| `GpuTimerRing.StressRenderer.constructor` | native/wayland_egl_stress.c:1864-1880 | no query in flight, all counters zero |
| `GpuTimerRing.StressRenderer.CollectSlot` | native/wayland_egl_stress.c:820-836 | a slot whose query the driver reports finished is freed and counted; it becomes a sample after the warm-up on a continuous clock with room left, and a discard on a disjoint clock |
| `GpuTimerRing.StressRenderer.PollGpuTimers` | native/wayland_egl_stress.c:817-838 | collects the finished queries of all slots in slot order, and nothing without timer queries |
| `GpuTimerRing.StressRenderer.BeginGpuTimer` | native/wayland_egl_stress.c:840-854 | polls, then claims the first idle slot with the next sequence number, or counts a full ring |
| `GpuTimerRing.StressRenderer.SlotAvailable` | native/wayland_egl_stress.c:864-870 | whether some slot is idle |
| `GpuTimerRing.StressRenderer.FindOldest` | native/wayland_egl_stress.c:874-880 | the active slot of least sequence |
| `GpuTimerRing.StressRenderer.ClaimSlot` | native/wayland_egl_stress.c:845-848 | the slot times the next query |
| `GpuTimerRing.StressRenderer.CountFullRing` | native/wayland_egl_stress.c:872-884 | ring-full and back-pressure are counted, and the wait if a query is active |
| `GpuTimerRing.StressRenderer.WaitForOldest` | native/wayland_egl_stress.c:871-887 | counts the full ring and polls after the wait |
| `GpuTimerRing.StressRenderer.ThrottleOffscreen` | native/wayland_egl_stress.c:860-895 | waits only in offscreen pacing and only for a full ring; without queries finishes the GPU after a full batch |
| `GpuTimerRing.StressRenderer.DrawFrame` | native/wayland_egl_stress.c:1450-1545 | begin, submit, count the frame and poll; a failed swap stops the run uncounted |
| `GpuTimerRing.StressRenderer.RenderFrame` | native/wayland_egl_stress.c:1379-1395 | the guards and the order of the scheduling part of render |
| `GpuTimerRing.StressRenderer.FinishAndPoll` | native/wayland_egl_stress.c:1956-1958 | one finish, counted, and one poll |
| `GpuTimerRing.StressRenderer.FinalDrain` | native/wayland_egl_stress.c:1956-1963 | one finish and poll, and four more with timer queries |
| `GpuTimerRing.FirstFree` | native/wayland_egl_stress.c:843-851 | no idle slot is skipped |
| `GpuTimerRing.Oldest` | native/wayland_egl_stress.c:874-880 | no active slot has a smaller sequence |
| `GpuTimerRing.PollEffect` | native/wayland_egl_stress.c:819-836 | a poll frees a slot exactly when the completion seen for it had reached its query |
| `GpuTimerRing.PollKeepsInv` | native/wayland_egl_stress.c:817-838 | a poll keeps it that each issued query was read once or is waited for by one slot, and none is missing |
| `GpuTimerRing.LedgerOf` | native/wayland_egl_stress.c:817-858 | that means: active sequences are distinct, issued and not read before, and issued = read + active |
| `GpuTimerRing.ThrottleKeepsInv` | native/wayland_egl_stress.c:860-895 | so does the throttle |
| `GpuTimerRing.BeginKeepsInv` | native/wayland_egl_stress.c:840-854 | so does beginning a query |
| `GpuTimerRing.RenderKeepsInv` | native/wayland_egl_stress.c:1379-1547 | so does a frame |
| `GpuTimerRing.RunAccountsForEveryQuery` | native/wayland_egl_stress.c:817-858 | over every run, pacing and GPU schedule: collected and in-flight queries partition 1..timer_sequence, each collected once, in-flight = active slots = issued - completed, at most timer_slots |
| `GpuTimerRing.ThrottleFreesASlot` | native/wayland_egl_stress.c:862-887 | after the throttle a slot is free and the begin that follows succeeds, if the blocking read completes the query waited for |
| `GpuTimerRing.ThrottleWaitsForOldest` | native/wayland_egl_stress.c:874-886 | the throttle waits for at most one query, in flight and older than every other one |
| `GpuTimerRing.RunWaitsInOrder` | native/wayland_egl_stress.c:862-887 | over every run the queries waited for are strictly increasing, counted by timer_waits, and everything in flight is younger than the last of them |
| `GpuTimerRing.RunTimesEveryFrame` | native/wayland_egl_stress.c:1390-1545 | timed offscreen pacing: frame == timer_sequence and timer_ring_full == timer_waits == frame_backpressure in every reachable state |
| `GpuTimerRing.DrainTimesEachFrameOnce` | native/wayland_egl_stress.c:1956-1963 | after the final drain every query is collected exactly once, no slot is active and five finishes were counted; offscreen, that is one query for every frame |
| `GpuTimerRing.PresentationAccounting` | native/wayland_egl_stress.c:840-854 | with presentation every frame is timed or counted as ring-full, and nothing ever waits |
| `GpuTimerRing.UntimedBackpressure` | native/wayland_egl_stress.c:888-893 | untimed, over every run, ended or not: frame == batch*backpressure + since_sync with since_sync <= batch and finish_count == backpressure; unless the run ended for want of a render target also 1 <= since_sync and backpressure == (frame-1)/batch |
| `GpuTimerRing.RunSamplesAreResults` | native/wayland_egl_stress.c:829-835 | over every run: the samples are the results of exactly the queries begun after the warm-up and read on a continuous clock, in the order read, up to the buffer size; exactly the disjoint readings are discarded; both together are at most the queries read; every reading is of another query and carries the time it was begun |
| `GpuTimerRing.FrameIsDrawnIff` | native/wayland_egl_stress.c:1379-1547 | in any state a frame is counted exactly when the renderer runs, the time is not up, the surface is visible or offscreen, the target is there and the frame is offscreen or its swap succeeds; running falls exactly on expiry, a missing target or a failed swap; a hidden presented call changes nothing |
| `GpuTimerRing.RunDrawsFrames` | native/wayland_egl_stress.c:1379-1547 | over every run frame is the number of calls that could draw before one that ends the run, and running holds exactly while there was none |
| `GpuTimerRing.ThrottleWaitsIff` | native/wayland_egl_stress.c:860-895 | the throttle waits exactly in timed offscreen pacing when every slot times a query its poll does not find finished |
| `GpuTimerRing.FrameQueries` | native/wayland_egl_stress.c:817-858 | a frame begins one query, at the current time, exactly when a slot is idle or found finished by the polls before it; a query in flight leaves its slot exactly when one of the polls of the frame finds it finished |
| `Multipass.PingPong.constructor` | native/wayland_egl_stress.c:708-743 | both textures are cleared, a is the source |
| `Multipass.PingPong.RenderPasses` | native/wayland_egl_stress.c:1454-1504 | the pass loop is the iterated pass on the two textures, and source and target always differ |
| `Multipass.FrameIsFold` | native/wayland_egl_stress.c:1457-1500 | one frame: each pass reads what the pass before it wrote |
| `Multipass.FramesAreFold` | native/wayland_egl_stress.c:1454-1504 | any number of frames: the source texture is the fold of the pass function over the cleared image, parity restarting each frame; the roles of the textures follow the pass count |
| `Multipass.ScheduleLength` | native/wayland_egl_stress.c:1457-1465 | the fold has frames*passes steps |
| `Multipass.DrawLoop` | native/wayland_egl_stress.c:1467-1494 | one pass from any program in use: draw d uses the alternate program exactly when min(d, switches) is odd; min(switches, draws-1) program switches, and one more to leave the alternate program |
| `Multipass.DrawPasses` | native/wayland_egl_stress.c:1456-1500 | all passes of a frame with the program carried from pass to pass: the programs of all draws and the number of switches |
| `Multipass.WorkloadSwitches` | native/wayland_egl_stress.c:1397-1405 | one pass makes min(switches, draws-1) switches, and passes of a single draw make none |
| `Percentiles.Percentile` | native/wayland_egl_stress.c:1175-1180 | for any fraction and any rounding to doubles, an order statistic of the truncated rank of the values passed in, which are left sorted; 0 for none |
| `Percentiles.AverageOf` | native/wayland_egl_stress.c:1182-1187 | the exact average; 0 for none |
| `Percentiles.CalculateStats` | native/wayland_egl_stress.c:1197-1210 | average and the three percentiles of the untouched sample buffer; zeros without samples or memory |
| `Percentiles.Qsort` | native/wayland_egl_stress.c:1177 | the sorted permutation |
| `Percentiles.Rank` | native/wayland_egl_stress.c:1178 | the index is in range and is the rounded product truncated |
| `Percentiles.RankNearFloor` | native/wayland_egl_stress.c:1178 | it is floor((n-1)*f), or the next one exactly when rounding reaches the next integer |
| `Percentiles.RankMonotone` | native/wayland_egl_stress.c:1178 | a larger fraction has no smaller rank |
| `Percentiles.RankEnds` | native/wayland_egl_stress.c:1178 | fractions 0 and 1 are the ends of the scale |
| `Percentiles.RankInSorted` | native/wayland_egl_stress.c:1175-1180 | element k of the sorted samples has at most k samples below it and more than k not above it |
| `Percentiles.OrderStatisticUnique` | native/wayland_egl_stress.c:1175-1180 | rank determines the value |
| `Percentiles.SortedFixpoint` | native/wayland_egl_stress.c:1205-1207 | sorting again for the next percentile changes nothing |
| `Percentiles.StatsOrdered` | native/wayland_egl_stress.c:1197-1210 | min <= p50 <= p95 <= p99 <= max, and the average lies between min and max |
| `Percentiles.AverageBounds` | native/wayland_egl_stress.c:1182-1187 | the average of values in [lo, hi] is in [lo, hi] |
| `Percentiles.FractionsAreNearest` | native/wayland_egl_stress.c:1203-1207 | the three fractions are the doubles nearest to 0.50, 0.95 and 0.99 |
| `Percentiles.AverageWeighs` | native/wayland_egl_stress.c:1182-1187 | one sample is its own average, and averages of two runs combine weighed by length |
| `Percentiles.AverageOfPermutation` | native/wayland_egl.c:411-422 | sorting the samples before summing them changes nothing |
| `ConfigChooser.ChooseConfig` | native/wayland_egl.c:194-238 | the first eligible config of maximal score; none exactly when no eligible one exceeds the initial score |
| `ConfigChooser.ScoreIsPreference` | native/wayland_egl.c:224-230 | in automatic mode the score orders any two configs lexicographically: alpha-free, fewer depth and stencil bits, smaller colour; when their alphas are non-zero and different, by the weighed sum of the three |
| `ConfigChooser.AlphaPenaltyOverridesBuffers` | native/wayland_egl.c:224-230 | two configs of different non-zero alpha that are scored against that order |
| `ConfigChooser.FollowsPreferenceIff` | native/wayland_egl.c:224-230 | for all configs of two given alpha sizes the score follows that order exactly when the sizes are equal or one is zero |
| `ConfigChooser.ChoiceIsPreferred` | native/wayland_egl_stress.c:498-543 | if an alpha-free config is offered the choice is alpha-free and no eligible config is preferred to it |
| `ConfigChooser.FollowsDocumentedIff` | docs/ARCHITECTURE.md:102-107 | for all alphas and all depth and stencil sums: the score orders every two eligible configs of them as documented exactly when one alpha only is zero, or one sum only is and its lead is too large for colour to outdo, or there is no lead and colour decides |
| `ConfigChooser.ScoreContradictsDocumented` | native/wayland_egl.c:224-230 | two eligible configs the score orders against the documentation |
| `ConfigChooser.ChoosesWellIff` | native/wayland_egl_stress.c:498-543 | the choice between two configs of those alphas and sums, whichever is offered first, is never one that the documentation ranks below the other, under exactly the same condition |
| `ConfigChooser.ChoiceFollowsDocumented` | native/wayland_egl_stress.c:498-543 | for offers of any length: a choice that the condition separates from every eligible config is ranked below none by the documentation |
| `ConfigChooser.ChoiceIsDocumented` | docs/ARCHITECTURE.md:93-107 | if a config without alpha, depth and stencil is offered the choice has none of them and the smallest colour buffer |
| `ConfigChooser.EligibleIff` | native/wayland_egl.c:212-226 | what takes part in each mode: usable, not slow, at least the colour sizes of the mode, and the alpha it allows |
| `ConfigChooser.Follows565Iff` | native/wayland_egl.c:217-236 | the 565 score orders configs as RGB565 first, then depth and stencil, then colour exactly up to 97 colour bits |
| `ConfigChooser.Exact565IsChosen` | native/wayland_egl.c:229-240 | an exact RGB565 config is chosen whenever one is offered, with the least depth and stencil |
| `ConfigChooser.ScoreInFixedModes` | native/wayland_egl.c:219-236 | in the modes of fixed alpha the score is the weighed sum, for equal alphas the order of preference |
| `WebosShell.ShellContext.constructor` | native/webos_shell.c:115-129 | visible, with no exposed region yet |
| `WebosShell.ShellContext.UpdateVisibility` | native/webos_shell.c:9-20 | the effective visibility is recomputed, and notified exactly when it changes |
| `WebosShell.ShellContext.HandleStateChanged` | native/webos_shell.c:22-34 | a surface is hidden by minimising |
| `WebosShell.ShellContext.HandleExposed` | native/webos_shell.c:55-84 | the exposed region decides from now on |
| `WebosShell.ScanExposed` | native/webos_shell.c:67-77 | visible exactly when some complete rectangle before the terminator has a positive size |
| `WebosShell.ExposedRectangles` | native/webos_shell.c:55-80 | for the array of a list of rectangles, terminated or cut short, the surface shows exactly when one has a positive width and height |
| `EglRenderer.EglApp.constructor` | native/wayland_egl.c:720-775 | running and visible, without a callback |
| `EglRenderer.EglApp.DestroyCallback` | native/wayland_egl.c:391-393 | the live callback is destroyed |
| `EglRenderer.EglApp.RenderFrame` | native/wayland_egl.c:485-552 | replaces the callback and submits; a failed swap stops the run |
| `EglRenderer.EglApp.WebosVisibilityChanged` | native/wayland_egl.c:387-398 | hiding drops the callback, showing renders if none is pending |
| `EglRenderer.EglApp.FrameDoneEvent` | native/wayland_egl.c:448-479 | the fired callback is destroyed and a visible, running renderer goes on |
| `EglRenderer.EglApp.StateChangedEvent` | native/webos_shell.c:22-34 | shell state and renderer move together |
| `EglRenderer.EglApp.ExposedEvent` | native/webos_shell.c:55-84 | exposed region and renderer move together |
| `EglRenderer.EglApp.WebosCloseRequested` | native/wayland_egl.c:400-403 | stops the run and nothing else |
| `EglRenderer.EglApp.SetupEvent` | native/wayland_egl.c:831-836 | the first frame after initialisation |
| `EglRenderer.StepKeepsSound` | native/wayland_egl.c:387-552 | every event keeps the three invariants |
| `EglRenderer.RunIsSound` | native/wayland_egl.c:387-552 | in every reachable state: running, visible and set up implies a live callback; a live callback implies visible; callbacks are destroyed once, in order, all but the live one; the renderer follows the shell; notifications alternate, hidden first |
| `EglRenderer.NothingSubmittedWhileHidden` | native/wayland_egl.c:485-486 | a hidden surface submits no frame and holds no callback |
| `EglRenderer.VisibleAgainRestarts` | native/wayland_egl.c:394-397 | becoming visible starts exactly one new callback at once |
| `EglRenderer.RunVisibleIff` | native/webos_shell.c:9-34 | over every run the renderer is visible exactly when the last state event was not minimized and the last exposed event showed a rectangle, judged by the events alone |
| `EglRenderer.RunEffects` | native/wayland_egl.c:387-530 | every event of a run: when a frame is submitted, which callback is destroyed, and what happens to the counters and to running |
| `EglRenderer.RunCountsFrames` | native/wayland_egl.c:448-480 | frame is the number of frame events that found the renderer running and visible; running until a close or a frame whose swap fails |
| `CpuRenderer.SizeExact64` | native/wayland_rect.c:225-236 | with a 64-bit size_t an accepted size is 4*w*h and at most INT32_MAX, and a refused one is not |
| `CpuRenderer.SizeExactIff` | native/wayland_rect.c:230-236 | for either width of size_t an accepted size is 4*w*h reduced to it, exact exactly when 4*w*h does not reach its number of values |
| `CpuRenderer.SizeWrapsAt32` | native/wayland_rect.c:230-236 | dimensions a 32-bit size_t accepts with a size 2^32 short |
| `CpuRenderer.CpuApp.constructor` | native/wayland_rect.c:740-760 | an empty pool of 1920x1080 |
| `CpuRenderer.CpuApp.InitBufferAt` | native/wayland_rect.c:224-277 | a new idle buffer of the current dimensions, or no change |
| `CpuRenderer.CpuApp.NextBuffer` | native/wayland_rect.c:299-315 | the first idle slot, stale and empty ones allocated on the way; a failed allocation ends the search |
| `CpuRenderer.CpuApp.RenderFrame` | native/wayland_rect.c:524-545 | marks the slot busy, submits it and asks for a callback, or leaves the chain as it is |
| `CpuRenderer.CpuApp.FrameDoneEvent` | native/wayland_rect.c:507-518 | the fired callback is gone before the next frame |
| `CpuRenderer.CpuApp.WebosVisibilityChanged` | native/wayland_rect.c:490-500 | hiding drops the callback, showing renders |
| `CpuRenderer.CpuApp.BufferRelease` | native/wayland_rect.c:214-218 | the slot becomes idle and nothing else happens |
| `CpuRenderer.CpuApp.ShellConfigure` | native/wayland_rect.c:559-572 | new positive dimensions destroy the pool |
| `CpuRenderer.CpuApp.DestroyBuffers` | native/wayland_rect.c:279-286 | every slot is empty |
| `CpuRenderer.NextIsSafe` | native/wayland_rect.c:299-315 | the painted slot is live, of the current size and not held by the compositor; every slot before it is busy |
| `CpuRenderer.StepKeepsSound` | native/wayland_rect.c:490-572 | every event keeps the pool invariants |
| `CpuRenderer.RunIsSound` | native/wayland_rect.c:214-315 | for either width of size_t, in every run of render, release, configure and allocation failure: live buffers are a prefix, of the current dimensions, of size 4*w*h reduced to size_t, at most INT32_MAX and exact exactly below its number of values, and busy exactly while held |
| `CpuRenderer.RunSizesExactIff` | native/wayland_rect.c:224-277 | over every run a live buffer has size 4*w*h exactly on a 64-bit machine or, on the 32-bit target, while 4*w*h < 2^32 |
| `CpuRenderer.PictureFitsIff` | native/wayland_rect.c:230-241 | the bytes of every pixel are inside the mapping exactly when 4*w*h is at most its size |
| `CpuRenderer.RunPictureFitsIff` | native/wayland_rect.c:524-535 | over every run the buffer about to be painted holds its picture exactly on a 64-bit machine or, on the 32-bit target, while 4*w*h < 2^32 |
| `CpuRenderer.WrongSizeIsReachable` | native/wayland_rect.c:527-534 | one configure on the 32-bit target after which the buffer to be painted ends before its picture |
| `CpuRenderer.NextFoundIff` | native/wayland_rect.c:299-315 | a slot is found exactly when, after busy ones, one is idle or can be allocated |
| `CpuRenderer.ChainContinuesIff` | native/wayland_rect.c:524-545 | a frame event keeps the chain alive exactly when a buffer is available |
| `CpuRenderer.StallPersists` | native/wayland_rect.c:527-532 | a stalled chain is not restarted by releases or configures; hiding or closing end it |
| `CpuRenderer.StallIsReachable` | native/wayland_rect.c:527-532 | a run of frame events alone that stalls |
| `CpuRenderer.ReleaseFrees` | native/wayland_rect.c:214-218 | the released slot is live and not busy, its buffer no longer held; nothing else changes |
| `CpuRenderer.ReleaseUnblocks` | native/wayland_rect.c:214-218 | after every possible release in any run a buffer is available, so the next frame event of a running, visible renderer goes on |
| `CpuRenderer.ConfigureEffect` | native/wayland_rect.c:559-572 | positive dimensions that differ are taken over, with every slot empty and nothing held; any other configure changes nothing |
| `CpuRenderer.DrawingEffect` | native/wayland_rect.c:490-557 | in every reachable state start, frame and becoming visible submit one slot the compositor did not hold exactly when running, visible and a buffer is available, and else leave the pool alone and the chain ended; a frame event counts the frame |
| `CpuRenderer.HideAndClose` | native/wayland_rect.c:490-505 | hiding drops the callback, closing stops the run, and neither touches the pool |
| `CpuRenderer.RunFollowsEvents` | native/wayland_rect.c:490-572 | over every run: running until a close, visible unless last hidden, and the dimensions of the last positive configure |
| `DuplicateFilter.DeliverStep` | native/webos_input.c:9-20 | an event is delivered unless it is a recent duplicate of the last delivered one |
| `DuplicateFilter.DeliveredAreFresh` | native/webos_input.c:164-178 | no delivered event is a recent duplicate of the one delivered before it |
| `DuplicateFilter.DeliverIdempotent` | native/webos_input.c:164-178 | filtering twice is filtering once |
| `DuplicateFilter.DeliverIgnoresRepeats` | native/webos_input.c:276-288 | repeating every event with its time stamp changes nothing |
| `DuplicateFilter.WrappingTestExact` | native/webos_input.c:18-19 | for clock times less than 2^32 apart the wrapping test is exactly a difference of at most 20 ms |
| `DuplicateFilter.DeliverOfCounter` | native/webos_input.c:18-19 | reducing the times to the 32-bit counter beforehand changes nothing |
| `DuplicateFilter.AgreesWithClockIff` | native/webos_input.c:18-19 | for every stream on a clock that does not go back, the filter agrees throughout with the one on real elapsed time exactly when no twin of the last delivered event comes 2^32 ms or more later yet within the window modulo 2^32 |
| `DuplicateFilter.CounterFollowsClock` | native/webos_input.c:18-19 | on every stream spanning less than 2^32 ms the filter on the counter delivers what the filter on elapsed time does |
| `DuplicateFilter.CounterComesRound` | native/webos_input.c:18-19 | a twin exactly 2^32 ms later is suppressed on the counter only |
| `DuplicateFilter.SuppressedIffLastIsTwin` | native/webos_input.c:164-178 | a repeat within the window is suppressed exactly when the last delivered event is its twin |
| `DuplicateFilter.TwinsAreInterrupted` | native/webos_input.c:164-178 | twins are delivered twice within the window only around a different event |
| `DuplicateFilter.InterleavedRepeatIsDelivered` | native/webos_input.c:276-288 | two interleaved devices are delivered in full |
| `InputRouter.InputContext.constructor` | native/webos_input.c:370-378 | all slots zero |
| `InputRouter.InputContext.ClearPointer` | native/webos_input.c:22-31 | the flag and the count go down together; the last one tells the application |
| `InputRouter.InputContext.ClearKeyboard` | native/webos_input.c:33-42 | the same for the keyboard |
| `InputRouter.InputContext.OnPointerEnter` | native/webos_input.c:80-108 | position and focus of the seat, counted once, always told |
| `InputRouter.InputContext.OnPointerMotion` | native/webos_input.c:126-145 | the position of the seat, told |
| `InputRouter.InputContext.OnPointerButton` | native/webos_input.c:147-184 | told with the position of the seat unless a recent duplicate |
| `InputRouter.InputContext.OnKeyboardEnter` | native/webos_input.c:222-244 | focus of the seat, counted once, told when it is the only one |
| `InputRouter.InputContext.OnKeyboardKey` | native/webos_input.c:261-292 | told unless a recent duplicate |
| `InputRouter.InputContext.SeatCapabilities` | native/webos_input.c:320-344 | proxies follow the capabilities, and losing one clears its focus first |
| `InputRouter.InputContext.SetPointer` | native/webos_input.c:325-333 | the pointer half |
| `InputRouter.InputContext.SetKeyboard` | native/webos_input.c:335-343 | the keyboard half |
| `InputRouter.InputContext.DestroyInputSeat` | native/webos_input.c:358-368 | focus cleared, then the slot zeroed |
| `InputRouter.InputContext.TryBind` | native/webos_input.c:380-418 | the first unbound slot takes the seat; none, and the seat is skipped |
| `InputRouter.InputContext.GlobalRemove` | native/webos_input.c:420-429 | the first bound slot of that name is destroyed |
| `InputRouter.InputContext.Destroy` | native/webos_input.c:431-435 | every bound slot is destroyed |
| `InputRouter.FreeSlot` | native/webos_input.c:390-395 | no unbound slot is skipped |
| `InputRouter.SlotNamed` | native/webos_input.c:421-422 | no bound slot of that name is skipped |
| `InputRouter.CapabilitiesSound` | native/webos_input.c:320-344 | a capability change keeps counts, flags, proxies and what the application was told in step |
| `InputRouter.DestroySeatSound` | native/webos_input.c:358-368 | so does destroying a seat |
| `InputRouter.DestroyFirstSound` | native/webos_input.c:431-435 | destroying the context leaves every slot zero |
| `InputRouter.StepSound` | native/webos_input.c:80-435 | so does every event |
| `InputRouter.RunIsSound` | native/webos_input.c:22-435 | over every run: counts equal the flags, focus implies a live proxy on a live seat, unbound slots are zero, and the last enter or leave and the last keyboard focus told say whether some seat is focused |
| `InputRouter.OtherEventsAreQuiet` | native/webos_input.c:22-145 | events other than keys and buttons tell of none and touch neither filter |
| `InputRouter.RunDeliversFiltered` | native/webos_input.c:147-292 | over every run the key (button) changes told are those the filter delivers, and the router remembers the last of them |
| `InputRouter.RunKeepsPositions` | native/webos_input.c:80-145 | over every run each slot holds where the last enter or motion of its seat put the pointer; unbound slots and fresh seats are at the origin |
| `InputRouter.ButtonTellsPosition` | native/webos_input.c:147-184 | a button that is not suppressed is told with its value and state and the position of its own seat |
| `InputRouter.RunFollowsClock` | native/webos_input.c:147-292 | when the stamps are the counter of a clock that advances by less than 2^32 ms, the changes told over a run are those the filter on elapsed time lets through |
| `InputRouter.SeatDoesNotMatter` | native/webos_input.c:147-292 | runs with the same stamped events from other seats tell the same changes |
| `InputRouter.RemovalEffect` | native/webos_input.c:420-429 | a removal zeroes the first slot bound to the name and no other; without one nothing changes |
| `InputRouter.BindEffect` | native/webos_input.c:380-418 | the first free slot takes name and next index; a failed bind leaves it zero and uses up the index; without a free slot nothing changes |
| `InputRouter.SeatEffect` | native/webos_input.c:320-344 | a capability change sets the proxies of its seat; only enter, leave, loss of the capability and removal move the focus of a seat |
| `InputRouter.RunFocusIff` | native/webos_input.c:80-125 | over every run a seat is focused exactly when an enter of it was not followed by a leave, the loss of the capability or its removal |
| `InputRouter.RunBindsNames` | native/webos_input.c:380-435 | over every run where a name is announced again only after it went out of use, a name is bound, to one slot, exactly when an announcement found a free slot and a proxy and no removal or shutdown came since |
| `InputRouter.NotesTold` | native/webos_input.c:22-148 | enter and motion tell their coordinates; a keyboard enter tells focus when one seat is focused; other events tell exactly the loss of the last focus |
| `ExtensionTokens.StrStr` | native/egl_diagnostics.c:11 | the first occurrence |
| `ExtensionTokens.EglExtensionPresent` | native/egl_diagnostics.c:7-20 | missing strings and empty names are absent; otherwise the search with skips |
| `ExtensionTokens.SkipIsSafe` | native/egl_diagnostics.c:18 | skipping the name after a misaligned hit never passes an aligned occurrence |
| `ExtensionTokens.AlignedIsFound` | native/egl_diagnostics.c:11-19 | every aligned occurrence of a space-free name is found |
| `ExtensionTokens.FoundIsAligned` | native/egl_diagnostics.c:11-19 | what is found is aligned |
| `ExtensionTokens.FoundIsToken` | native/egl_diagnostics.c:7-20 | for every text and space-free name: found exactly when it is one of the space-separated tokens |
| `ExtensionTokens.FoundIsTokenIffSpaceFree` | native/egl_diagnostics.c:7-20 | agreement on all texts holds exactly for space-free names |
| `ExtensionTokens.SkipLosesSpacedName` | native/egl_diagnostics.c:18 | a name with a space that the skip loses |
| `TraceEvents.StoredIsPrefix` | tools/mali_trace/mali_trace.c:147-151 | overflow loses a suffix, and stored + dropped is the number recorded |
| `MaliTrace.EnterKeepsInv` | tools/mali_trace/mali_trace.c:147 | a fetch-and-add claims a slot nobody holds |
| `MaliTrace.StoreKeepsInv` | tools/mali_trace/mali_trace.c:152-164 | a field store goes to a field not written before |
| `MaliTrace.DropKeepsInv` | tools/mali_trace/mali_trace.c:148-151 | a drop is counted for exactly one claim beyond the capacity |
| `MaliTrace.RunKeepsInv` | tools/mali_trace/mali_trace.c:141-165 | in every interleaving of up to 2^32 calls claims, array, calls in progress and counters agree |
| `MaliTrace.SlotsAreExclusive` | tools/mali_trace/mali_trace.c:147-165 | no two threads hold the same slot |
| `MaliTrace.StoresOnce` | tools/mali_trace/mali_trace.c:152-164 | no field is stored twice |
| `MaliTrace.StoredSoFar` | tools/mali_trace/mali_trace.c:141-165 | at every moment each claim below the capacity is stored exactly as far as its thread has come: whole, or its first fields while the thread is still inside the call; slots not claimed are untouched |
| `MaliTrace.QuiescentIsSequential` | tools/mali_trace/mali_trace.c:141-165 | whenever no call is in progress the array and the drop counter are those of recording the events one after another in claim order: exactly slots [0, min(n, capacity)) filled, stored + dropped == n |
| `MaliTrace.HeaderCountsLossIff` | tools/mali_trace/mali_trace.c:200 | the header is right exactly when event_count <= capacity, and double otherwise |
| `MaliTrace.HeaderAnytimeIff` | tools/mali_trace/mali_trace.c:200 | with calls in progress the header counts the claims past the capacity exactly until the first drop is counted |
| `MaliTrace.WholeCalls` | tools/mali_trace/mali_trace.c:141-165 | there is a run of any number of whole calls |
| `MaliTrace.HeaderDoubles` | tools/mali_trace/mali_trace.c:200 | for every number of calls past the capacity a run whose header reports twice the loss |
| `MaliTrace.CounterWraps` | tools/mali_trace/mali_trace.c:147 | the counter is the number of claims modulo 2^32 |
| `MaliTrace.SlotSharedIff` | tools/mali_trace/mali_trace.c:147 | without the bound two claims get the same slot exactly when their numbers differ by a multiple of 2^32 |
| `FdTracking.Tracer.constructor` | tools/mali_trace/mali_trace.c:70-73 | nothing tracked, nothing recorded |
| `FdTracking.Tracer.MarkFd` | tools/mali_trace/mali_trace.c:123-124 | tracked if inside the table |
| `FdTracking.Tracer.UnmarkFd` | tools/mali_trace/mali_trace.c:127-128 | untracked if inside the table |
| `FdTracking.Tracer.Append` | tools/mali_trace/mali_trace.c:147-164 | the array and counters are those of recording one event more |
| `FdTracking.Tracer.RecordEvent` | tools/mali_trace/mali_trace.c:141-165 | an event is kept when it is an open or its descriptor is tracked |
| `FdTracking.Tracer.Open` | tools/mali_trace/mali_trace.c:227-245 | open and open64 of the device mark, then record |
| `FdTracking.Tracer.OpenAt` | tools/mali_trace/mali_trace.c:247-265 | openat and openat64 likewise |
| `FdTracking.Tracer.Close` | tools/mali_trace/mali_trace.c:267-274 | recorded, then untracked whatever the result |
| `FdTracking.Tracer.Ioctl` | tools/mali_trace/mali_trace.c:276-289 | recorded; a successful counter setup marks the descriptor it returns |
| `FdTracking.Tracer.Mmap` | tools/mali_trace/mali_trace.c:291-297 | recorded for tracked descriptors |
| `FdTracking.Tracer.Munmap` | tools/mali_trace/mali_trace.c:299-305 | offered with descriptor -1 |
| `FdTracking.Tracer.AnyFollowed` | tools/mali_trace/mali_trace.c:310-311 | whether any descriptor of the list is tracked |
| `FdTracking.Tracer.Poll` | tools/mali_trace/mali_trace.c:307-315 | offered with the first descriptor when any is tracked |
| `FdTracking.Tracer.PPoll` | tools/mali_trace/mali_trace.c:317-325 | likewise |
| `FdTracking.Tracer.Read` | tools/mali_trace/mali_trace.c:327-333 | recorded for tracked descriptors |
| `FdTracking.Tracer.Write` | tools/mali_trace/mali_trace.c:335-341 | recorded for tracked descriptors |
| `FdTracking.Tracer.Perform` | tools/mali_trace/mali_trace.c:227-341 | any of the calls |
| `FdTracking.RequestFromEvent` | tools/mali_trace/mali_trace.c:162-163 | the recorded parts of an ioctl give the 32-bit request back |
| `FdTracking.SetupIsRequest` | tools/mali_trace/mali_trace.c:286 | a successful counter setup can be read off its event |
| `FdTracking.LiveMeans` | tools/mali_trace/mali_trace.c:123-128 | live means introduced by some event with no close since |
| `FdTracking.ApplyKeeps` | tools/mali_trace/mali_trace.c:227-341 | every call keeps the table equal to the live descriptors of the log |
| `FdTracking.RunIsWellBracketed` | tools/mali_trace/mali_trace.c:123-289 | over every sequential run: every event but opens is preceded by the open or setup of its descriptor with no close between, in the log and in the stored trace; a descriptor is tracked exactly when it is live |
| `FdTracking.PollRecordedIff` | tools/mali_trace/mali_trace.c:307-325 | recorded exactly when the first descriptor is tracked |
| `FdTracking.MunmapIsFiltered` | tools/mali_trace/mali_trace.c:303 | never recorded |
| `FdTracking.UnfollowedOpen` | tools/mali_trace/mali_trace.c:123-126 | a failed or out-of-table open is recorded but not followed |
| `FdTracking.UnfollowedForever` | tools/mali_trace/mali_trace.c:123-146 | over every run nothing done with a descriptor outside the table is recorded or changes anything, and the log has only opens for it |
| `PackedRecord.UnpackPack` | tools/mali_trace/decode.py:9-10 | every record of values in range is read back |
| `PackedRecord.PackUnpack` | tools/mali_trace/decode.py:9-10 | every byte string of the record size is the record of what is read from it |
| `TraceFile.DecodeEncodeEvent` | tools/mali_trace/mali_trace.c:55-68 | an event survives its 64-byte record field by field |
| `TraceFile.DecodeEncodeHeader` | tools/mali_trace/mali_trace.c:46-53 | so does the 32-byte header |
| `TraceFile.WriteFile` | tools/mali_trace/mali_trace.c:202-203 | the header, then the first slots in order |
| `TraceFile.FlushTraceFile` | tools/mali_trace/mali_trace.c:188-206 | for any tracer whose log is in range: header and the first min(event_count, capacity) slots, in order; below 2^32 events those of recording the log, which the decoder gives back |
| `TraceFile.TraceProgram` | tools/mali_trace/mali_trace.c:141-341 | a program from its first call to the flushed file: the decoder gives back the first events of its log, well bracketed |
| `FdTracking.StoresStep` | tools/mali_trace/mali_trace.c:147-164 | one more event keeps the array and the drop counter those of recording the log, also across the wrap of the counter |
| `FdTracking.MapBitsApart` | tools/mali_trace/mali_trace.c:295 | protection bits below 256 and the low byte of the mapping flags are both kept |
| `FdTracking.CallIsLogged` | tools/mali_trace/mali_trace.c:227-341 | a call adds one event, which tells its time, thread, descriptor, arguments, result and error, exactly when its descriptor is followed or it opens the device |
| `FdTracking.ErrorTellsFailureIff` | tools/mali_trace/mali_trace.c:227-341 | a recorded error is non-zero exactly for a failed call with an errno, except for an open that succeeded with errno set |
| `FdTracking.RunLogsCalls` | tools/mali_trace/mali_trace.c:227-341 | over every run the log is one such event for each recorded call, in order |
| `FdTracking.RunFollowsCalls` | tools/mali_trace/mali_trace.c:227-288 | over every run a descriptor is followed exactly when a device open or a counter setup on a followed descriptor gave it and no close came since |
| `TraceFile.EventsAtEncoded` | tools/mali_trace/decode.py:72-75 | slot i of the file is event i |
| `TraceFile.DecodeTruncated` | tools/mali_trace/decode.py:59-75 | a file cut anywhere decodes to its complete events, or is refused without a whole header |
| `TraceFile.DecodeFile` | tools/mali_trace/decode.py:59-75 | a flushed file decodes to exactly its events |
| `TraceFile.TallyEvents` | tools/mali_trace/decode.py:65-87 | the loop computes the histograms and the first and last time of the slots |
| `TraceFile.DecodeTrace` | tools/mali_trace/decode.py:59-100 | errors for short files, wrong magic or small records; otherwise header, event count, seconds and the named histograms of the decoded events |
| `TraceNames.DecimalValue` | tools/mali_trace/decode.py:76-84 | a number in a name reads back as the number |
| `TraceNames.TypeNameInjective` | tools/mali_trace/decode.py:76-77 | no two types share a name, known or not |
| `TraceNames.IoctlNameInjective` | tools/mali_trace/decode.py:82-85 | no two combinations of magic byte, number and size share a name |
| `TraceFile.HistogramsSum` | tools/mali_trace/decode.py:76-87 | type, descriptor and thread histograms each sum to the event count, the ioctl counts to the count under "ioctl", errors are among them |
| `TraceFile.EntriesCount` | tools/mali_trace/decode.py:76-87 | each entry, read under its name, is the number of events it stands for |
| `TraceFile.TimesBound` | tools/mali_trace/decode.py:80-81 | first and last are time stamps of events and bound all of them |
| `TraceFile.ReportOfLog` | tools/mali_trace/mali_trace.c:188-206 | flush and decode give back the first events of the log; the reported loss is right exactly when the log fits, else double |
| `TraceFile.RunInRange` | tools/mali_trace/mali_trace.c:227-341 | whatever is recorded fits its fields |
| `TraceFile.ReportOfRun` | tools/mali_trace/mali_trace.c:188-341 | from the calls of a program to the decoded report, which is well bracketed |
| `TraceFile.ReportOfThreads` | tools/mali_trace/mali_trace.c:141-206 | after any interleaving, at rest, the flushed array decodes to the claimed events in claim order |
| `TraceFile.ReportOfSignal` | tools/mali_trace/mali_trace.c:208-214 | a flush with any calls in progress decodes to one event for every claim below the capacity: the claimed event where it was completely stored, else its fields as far as its thread had come and zeros |
| `TraceFile.EventLayout` | tools/mali_trace/mali_trace.c:55-68 | the 64 bytes of an event have the fields of the C struct at their offsets |
| `TraceFile.HeaderLayout` | tools/mali_trace/mali_trace.c:46-53 | so has the header after its magic |
| `TraceFile.DecodePadded` | tools/mali_trace/decode.py:59-75 | records of any size from 64 bytes on, with any padding and an incomplete one at the end, decode to the complete ones within the capacity |
| `TraceFile.RefusedIff` | tools/mali_trace/decode.py:61-63 | a file with a whole header is refused exactly for another magic or a record size below 64 |
| `TraceFile.DurationIsSpan` | tools/mali_trace/decode.py:94 | in nanoseconds the duration is the difference of two time stamps that bound all others |
| `TraceFile.TallyCountsCalls` | tools/mali_trace/decode.py:65-87 | over every run each entry of the tally is the number of recorded calls it is about |
| `TraceFile.ReportCountsCalls` | tools/mali_trace/decode.py:59-99 | from calls to report: each entry, such as the errors of an ioctl request, is the number of recorded calls it is about; all of them while the log fits the capacity, else those up to the one that filled it |
| `LittleEndian.DecodeEncode` | tools/kbase_probe/kbase_probe.c:184-189 | a value in range is read back |
| `LittleEndian.EncodeDecode` | tools/kbase_probe/kbase_probe.c:184-189 | bytes are the encoding of the value they hold |
| `LittleEndian.SignedRoundTrip` | tools/mali_trace/decode.py:10 | signed fields survive their unsigned form |
| `KbaseProps.Rd16IsDecode` | tools/kbase_probe/kbase_probe.c:184-185 | rd16 reads little-endian |
| `KbaseProps.Rd32IsDecode` | tools/kbase_probe/kbase_probe.c:186-187 | rd32 reads little-endian |
| `KbaseProps.Rd64IsDecode` | tools/kbase_probe/kbase_probe.c:188-189 | rd64 reads little-endian |
| `KbaseProps.DumpProps` | tools/kbase_probe/kbase_probe.c:237-259 | the loop computes the parse, with every read in range |
| `KbaseProps.RecordReencodes` | tools/kbase_probe/kbase_probe.c:241-248 | a record read encodes to the bytes it was read from |
| `KbaseProps.RecordReadsBack` | tools/kbase_probe/kbase_probe.c:241-248 | an encoded property is read back |
| `KbaseProps.ParsedReencodes` | tools/kbase_probe/kbase_probe.c:240-256 | on arbitrary bytes the records re-encode to what was consumed; the counter is one more exactly when four or more bytes are left |
| `KbaseProps.ParsedIsLongest` | tools/kbase_probe/kbase_probe.c:240-256 | the decoded list is the longest encoded at the front, up to 256 |
| `KbaseProps.ParseEncode` | docs/KBASE_UAPI_NOTES.md:43-48 | parsing an encoded property list returns its first 256 entries |
| `KbaseProps.ParseTruncated` | tools/kbase_probe/kbase_probe.c:240-256 | the records of a truncated buffer are a prefix of those of the whole |
| `KbaseProps.CompletePayloadConsumed` | tools/kbase_probe/kbase_probe.c:240-256 | a payload of at most 256 records is consumed exactly |
| `NumberPrinter.PutU64` | tools/kbase_probe/kbase_probe.c:160-167 | the canonical numeral of the value, inside the 24-byte buffer |
| `NumberPrinter.NumeralUnique` | tools/kbase_probe/kbase_probe.c:160-167 | no other canonical numeral has that value |
| `RectPainter.Clampi` | native/wayland_rect.c:81-85 | for any ends, crossed or not: a value below the lower end moves there, another above the upper end moves there, others stay |
| `RectPainter.FillRect` | native/wayland_rect.c:317-329 | every write is in bounds; exactly the pixels the rectangle covers change colour, also for negative and off-screen ones |
| `RectPainter.Outline` | native/wayland_rect.c:331-336 | exactly the pixels under the four bars change |
| `RectPainter.FillsDeterministic` | native/wayland_rect.c:317-329 | that determines the whole buffer |
| `RectPainter.Execute` | native/wayland_rect.c:317-336 | one rect or outline call changes exactly the pixels it covers |
| `RectPainter.PaintAll` | native/wayland_rect.c:338-486 | after executing any sequence of rect and outline calls each pixel has the colour of the last one that covers it, or its old colour |
| `RectPainter.PaintedStep` | native/wayland_rect.c:317-336 | one more call over a painted picture |
| `RectPainter.PaintedDeterministic` | native/wayland_rect.c:317-336 | the sequence determines the whole buffer |
| `RectPainter.OverpaintedIsLost` | native/wayland_rect.c:317-336 | where a later call covers the pixel nothing before it matters |
| `RectPainter.OutlineIsFrame` | native/wayland_rect.c:331-336 | an outline no thicker than its rectangle is the rectangle without its inner part |
| `RectPainter.OutlineInsideIff` | native/wayland_rect.c:331-336 | an outline stays inside its rectangle exactly when it is not too thick |

## Left out

- EGL, OpenGL ES, Wayland, libc and ioctl calls: foreign; their answers are inputs.
- Environment parsing, logging, JSON and TSV output, sidecar processes, signal setup, final destruction: plumbing.
- The sprite layout, animation and shaders: floating-point geometry; a pass is an arbitrary function of its uniforms and its source image.
- measured_frames, measured_presented and the CPU and latency sample arrays: further counters with the same guards as those modelled.
- The pictures of paint and of the Android sidecar: constants over rect and outline.
- Percentiles.CalculateStats: values and the average are exact reals; only the product that selects a percentile is rounded.
- Percentiles.Qsort: states the contract of the C library sort; its algorithm is not modelled.
- GpuTimerRing.ThrottleFreesASlot: assumes that a blocking result read completes its query, as EXT_disjoint_timer_query promises.
- GpuTimerRing.StressRenderer.RenderFrame: the drawing between begin and end of a query is the separate Multipass model; counters are unbounded where the program uses 64-bit ones.
- MaliTrace.SlotsAreExclusive: bounded by 2^32 calls, because the counter wraps; SlotSharedIff says what happens beyond.
- TraceFile.ReportOfSignal: the flush reads the counters and the array at one moment; stores that other threads make while it writes are not modelled.
- FdTracking.RunIsWellBracketed: sequential programs; a descriptor reused by another thread between the real close and unmark_fd is not modelled.
- TraceFile.DecodeTrace: seconds are exact reals and the JSON printing is not modelled. Partial writes of the file appear only as truncation.
- KbaseProps.DumpProps: property names and the text around the numbers are not modelled.
- RectPainter.FillRect: requires that the rectangle's sums fit in 32-bit integers, as the C code does.
- CpuRenderer.RunIsSound: continues as if painting had no effect beyond the mapping on runs where a picture does not fit; what C does then is undefined. The wl_surface and wl_callback proxies always exist; that 4*w*h bytes are there is not promised on the 32-bit target, as RunSizesExactIff says.
- InputRouter.RunIsSound: key maps, modifiers, axis events, seat names and the null checks of optional callbacks are not modelled.
- WebosShell state codes: only being minimised matters; the protocol header is not part of this model.
- native_main.c, shell scripts, the GPU sweep summary and try_hwcnt: input and output or easy aggregation.
