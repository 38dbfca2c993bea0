# OBS-RS: verified models

This project models the parts of OBS-RS whose behaviour is decided by code rather than by a
driver, and proves what they promise. Verify with `dafny verify dfyconfig.toml`.

**Scene graph and compositor.** `Scenes.Scene` and `Runtimes.Runtime` keep the mirrors that the
engine keeps: the ordered sources beside the ordered items, the hashed membership, the item ids,
the reference counts and the running filter total. `SceneGraph` is the same graph without any
mirror, where every question is a scan. Each mutator of `Runtime` is proved to answer and act
exactly like the scan, so any run of calls, renders included, refines a run over `SceneGraph`. The
render loop, with its per-call cache, is proved equal to the reference renderer of `Compositor`.
`RenderDelays` is the bounded history behind a Render Delay filter. `LayerPlacements` says what a
scene edit means for every later render: which items are drawn, where, and through which filters.

**Media time.** The sample clock, the callback clock with its running numerator, the drifting
device clocks, A/V reconciliation (the allocating and the in-place form), the resampler's rational
accumulator, the delay line, the bounded queue and the paced worker. Times and counters are
integers with their machine widths; samples are exact reals. `ChannelMatrix` gives the channel
mapping as one table.

**Formats.** The flat settings document, as it is serialized and as people write it
(`ConfigDocuments`), the length-prefixed diagnostics bundle with exactly the bytes that it accepts
(`BundleInputs`), and the frame stream read through a reader that splits its bytes arbitrarily.

**Worker protocols.** The camera source with its capture threads, the monitor-output worker with
any number of submitters, the asynchronous session with its openers, each as a state machine over
the steps of its threads, for every interleaving; and the X11 fallback chain over any run of calls.

Where the code and its documentation disagree, the model follows the code:

- In-place silence insertion moves the payload and does not clear the head
  (`crates/obs-rs-audio/src/buffer.rs:230-233`), although it is documented as equivalent to the
  allocating form. `AvSync.InPlaceAgreesExactlyWhenHeadIsSilent` gives the exact condition and
  `AvSync.StaleHeadExample` an input that breaks it.
- Plain attachment does not check whether its generated `source-N` identity is taken
  (`crates/obs-rs-core/src/registry.rs:110-111`). `SceneGraph.AttachKeepsIdsExactlyWhenFree` gives the
  exact condition, `IdentityRuns.DuplicateIdentityExample` a run that breaks it, and
  `SceneGraph.RunKeepsIdsExact` the hypothesis on callers under which identities stay unique.
- Attaching an instance under a derived `item-N` is documented to fail only for unknown names and
  limits (`crates/obs-rs-core/src/runtime.rs:332-340`). After a detach the derived identity can still
  be taken: `IdentityRuns.IndexedAttachAcceptedExactly` gives the exact condition and
  `IdentityRuns.IndexedIdentityCollides` a run.
- Settings that a source rejects still cost it its retained picture and its delay history
  (`crates/obs-rs-core/src/runtime.rs:652-670`): the one refusal that changes something, in
  `SceneGraph.RefusalChangesNothing`.
- A restarted timeline is documented to reset the delay history, but a full history refuses the frame
  before its time stamp is looked at (`crates/obs-rs-media/src/delay.rs:163-185`).
  `RenderDelays.RestartResetsExactlyWhenNotFull` gives the exact condition,
  `RenderDelays.RestartAfterStagnationIsRefused` an input for every shape and delay, and
  `RenderDelays.PacedFramesAreNeverRefused` shows that frames at their own rate never fill it.
- Clearing filters is documented to fail for unknown scenes and unattached sources
  (`crates/obs-rs-core/src/runtime.rs:584-590`); it fails for unknown sources only, and it also drops
  the delay history, which `PictureOrigins.ClearedFiltersForgetTheHistory` is about.
- A block sent after the last drain check of the output worker is accepted although the worker
  has failed, and stays counted for ever (`crates/obs-rs-audio/src/output_worker.rs:286-297`);
  see `OutputWorker.StrandedExample` and
  `OutputWorker.CounterSettlesExactlyWhenNothingIsStranded`.
- Reconciling twice is not always reconciling once: a trim overshoots by up to a sample period, and
  settles exactly when that overshoot is within tolerance
  (`AvSync.TrimSettlesExactlyWithinTolerance`, `AvSync.FineToleranceOscillates`).
- `update` is described as the way out of a denied camera, but it returns early when no setting
  changes (`crates/obs-rs-capture/src/factories.rs:402-408`). A worker thread that panics is never
  seen as lost either. `CameraSource.RenderingRecoversExactlyTheLost` says exactly which cameras
  come back without a change of settings, and `CameraSource.StuckRecoversExactlyByChange` that the others
  need one.
- A slow device clock cannot reach every deadline, because waiting saturates:
  `DeviceClock.GaloisConnection` holds exactly for representable waits.

## Model

| member | source | states |
|---|---|---|
| Runtimes.Runtime.Perform | crates/obs-rs-core/src/runtime.rs:236-755 | every call on the runtime answers and changes the graph exactly as the scan-based graph does, and all mirrors stay equal to the scans they replace |
| Runtimes.Runtime.PerformAll | crates/obs-rs-core/src/runtime.rs:236-755 | the same for any sequence of calls |
| Runtimes.Runtime.Usage | crates/obs-rs-core/src/runtime.rs:80-89 | the constant-time scene, source and filter totals equal a walk over the graph and every filter chain |
| Runtimes.Runtime.CreateScene | crates/obs-rs-core/src/runtime.rs:236-250 | refuses in the source's order, otherwise adds an empty scene; references and totals unchanged |
| Runtimes.Runtime.CreateSource | crates/obs-rs-core/src/runtime.rs:258-302 | hands out a fresh identity, never one in use; refuses at the end of the identity space |
| Runtimes.Runtime.AttachSource | crates/obs-rs-core/src/runtime.rs:310-330 | hashed membership answers as the scan; one reference more for the source |
| Runtimes.Runtime.AttachSourceInstance | crates/obs-rs-core/src/runtime.rs:341-352 | attaches under the identity derived from the item count |
| Runtimes.Runtime.AttachSourceInstanceWithId | crates/obs-rs-core/src/runtime.rs:363-396 | refuses an identity already taken in the scene, otherwise reports the new item's index |
| Runtimes.Runtime.DetachSource | crates/obs-rs-core/src/runtime.rs:404-414 | removes the first item of the source; the reference decrement never underflows |
| Runtimes.Runtime.ClearSceneSources | crates/obs-rs-core/src/runtime.rs:422-438 | empties the scene and releases exactly its references |
| Runtimes.Runtime.DestroySource | crates/obs-rs-core/src/runtime.rs:615-628 | one hashed lookup refuses exactly the sources that a scan of every scene finds in use |
| Runtimes.Runtime.DestroyScene | crates/obs-rs-core/src/runtime.rs:635-644 | drops the scene and releases exactly its references |
| Runtimes.Runtime.AddSourceFilter | crates/obs-rs-core/src/runtime.rs:563-582 | appends within the limit; the running total follows |
| Runtimes.Runtime.ClearSourceFilters | crates/obs-rs-core/src/runtime.rs:590-599 | empties the chain and the delay history; the running total follows and never saturates |
| Runtimes.Runtime.UpdateSource | crates/obs-rs-core/src/runtime.rs:652-670 | drops the retained picture and the delay history, whether or not the device takes the settings |
| Runtimes.Runtime.RenameSource | crates/obs-rs-core/src/runtime.rs:689-699 | refuses an empty name before looking for the source, and changes the name only |
| Runtimes.Runtime.SetSourceTransform | crates/obs-rs-core/src/runtime.rs:446-461 | moves the first item of a source only |
| Runtimes.Runtime.SetSceneItemTransform | crates/obs-rs-core/src/runtime.rs:480-495 | moves the item at an index only |
| Runtimes.Runtime.SetSceneItemTransformById | crates/obs-rs-core/src/runtime.rs:526-545 | moves the first item with that identity only |
| Runtimes.Runtime.SetSceneOrder | crates/obs-rs-core/src/runtime.rs:712-755 | accepts and rearranges exactly as the stable reference rearrangement; a refusal changes nothing |
| Runtimes.Runtime.Release | crates/obs-rs-core/src/runtime.rs:765-771 | the counts stay equal to the multiset of occurrences, without zero entries |
| Runtimes.Runtime.RenderSourceFrame | crates/obs-rs-core/src/compositor.rs:28-121 | one capture: filters split, delay configured, last good frame, delay history, failure and violation counters |
| Runtimes.Runtime.RenderItem | crates/obs-rs-core/src/compositor.rs:259-314 | a turn of the loop answers from the layers, from the empty list, or asks the device on first appearance only |
| Runtimes.Runtime.RenderSceneLayers | crates/obs-rs-core/src/compositor.rs:241-317 | layers equal the memoising reference renderer's, counters equal its tally, no unknown source, violations never exceed failures |
| Scenes.Scene.Attach | crates/obs-rs-core/src/registry.rs:106-115 | the mirrored collections follow the items |
| Scenes.Scene.AttachInstanceWithId | crates/obs-rs-core/src/registry.rs:118-131 | the mirrored collections follow the items; a taken identity changes nothing |
| Scenes.Scene.Detach | crates/obs-rs-core/src/registry.rs:138-150 | membership is dropped exactly when no other item shows the source |
| Scenes.Scene.Reorder | crates/obs-rs-core/src/runtime.rs:717-754 | refuses with the source's error, or rearranges the items and all mirrors |
| Scenes.Scene.IsPermutation | crates/obs-rs-core/src/runtime.rs:724-741 | comparing the two count maps decides multiset equality |
| Scenes.Scene.PickItems | crates/obs-rs-core/src/runtime.rs:742-754 | the picking loop computes the reference rearrangement |
| References.ReferencedMeansInUse | crates/obs-rs-core/src/runtime.rs:615-628 | a source has a reference exactly when some scene shows it |
| References.CountsDecide | crates/obs-rs-core/src/runtime.rs:729-741 | zero-free count maps are equal exactly when the multisets are |
| SceneGraph.RunKeepsConsistent | crates/obs-rs-core/src/runtime.rs:236-755 | after any run no scene shows a missing source, no stale identity is kept, and new identities are fresh |
| SceneGraph.RenderNeverMissesASource | crates/obs-rs-core/src/compositor.rs:291-293 | in every reachable graph a render succeeds exactly for valid names of existing scenes |
| SceneGraph.RefusalChangesNothing | crates/obs-rs-core/src/runtime.rs:236-755 | a refused call leaves the graph as it was, except that settings rejected by the device have already dropped what the source retained |
| SceneGraph.IdsAreNeverReused | crates/obs-rs-core/src/runtime.rs:284-288 | over any run source identities only grow: no two creations share one |
| SceneGraph.OrdersAcceptedExactly | crates/obs-rs-core/src/runtime.rs:712-755 | accepted orders are exactly the permutations of the current sources, as multisets |
| SceneGraph.AttachKeepsIdsExactlyWhenFree | crates/obs-rs-core/src/registry.rs:106-115 | plain attachment keeps identities unique exactly when the generated one is free |
| SceneGraph.RunKeepsIdsExact | crates/obs-rs-core/src/registry.rs:106-150 | identities stay unique and exactly recorded over any run whose callers avoid generated names |
| IdentityRuns.DuplicateIdentityExample | crates/obs-rs-core/src/registry.rs:110-111 | for every scene name, a run from the empty runtime in which every call is accepted and two items end up with the identity `source-1` |
| IdentityRuns.IndexedAttachAcceptedExactly | crates/obs-rs-core/src/runtime.rs:341-352 | attaching under a derived identity succeeds exactly when names and limits allow it and that identity is free |
| IdentityRuns.IndexedIdentityCollides | crates/obs-rs-core/src/runtime.rs:341-352 | attach twice, detach the first, attach again: the derived identity is still taken and the call is refused |
| SceneGraph.GeneratedIdIsInjective | crates/obs-rs-core/src/registry.rs:110-111 | distinct sources have distinct generated identities |
| SceneOrder.RearrangeIsStable | crates/obs-rs-core/src/runtime.rs:742-754 | the result shows the requested sources and keeps each source's items, identity and transform included, in order |
| SceneOrder.StableIsUnique | crates/obs-rs-core/src/runtime.rs:742-754 | no other arrangement is stable |
| SceneOrder.RequestedIsPresent | crates/obs-rs-core/src/runtime.rs:744-751 | the error inside the picking loop is unreachable |
| SceneOrder.LastReorderWins | crates/obs-rs-core/src/runtime.rs:712-755 | two successive reorders equal the last one alone |
| SceneOrder.SameOrderIsIdentity | crates/obs-rs-core/src/runtime.rs:712-755 | requesting the current order changes nothing |
| Compositor.SharedSourceSharesPicture | crates/obs-rs-core/src/compositor.rs:268-286 | items of one source show the same frame and the same filters |
| Compositor.LayerShowsItsSource | crates/obs-rs-core/src/compositor.rs:291-313 | each layer shows the single capture of a source that the scene mentions |
| Compositor.ShownSourceHasLayer | crates/obs-rs-core/src/compositor.rs:259-314 | a mentioned source with a picture is never left out |
| Compositor.SourcesAfter | crates/obs-rs-core/src/compositor.rs:259-314 | each source is asked at most once per call, an unmentioned one not at all |
| Compositor.TallyOf | crates/obs-rs-core/src/compositor.rs:267-312 | requests equal items equal frames plus empty sources, and violations never exceed failures |
| Compositor.CountedTwice | crates/obs-rs-core/src/compositor.rs:267-312 | saturating counters do not depend on how their additions are split |
| Compositor.LastGoodPictureSurvives | crates/obs-rs-core/src/compositor.rs:57-121 | for every accepted filter chain, a source without a fresh frame keeps its last good one, restamped: shown at once, or fed to the delay history in its place |
| Compositor.PictureHasRequestedFormat | crates/obs-rs-core/src/compositor.rs:79-121 | no picture of another shape ever becomes a layer, delayed or not |
| Compositor.AnswerIsTakenOrCounted | crates/obs-rs-core/src/compositor.rs:57-121 | a frame of the requested shape is taken, remembered and ends a failure; any other frame or error counts as one failure; a changed delay starts an empty history |
| Compositor.ChainRefusedExactly | crates/obs-rs-core/src/compositor.rs:33-56 | a chain is refused exactly for two delays or one beyond half a second; then the device is not asked and one failure is counted |
| Compositor.HistoryDecides | crates/obs-rs-core/src/compositor.rs:107-121 | behind a delay the source shows what the history lets go; a history that refuses the picture shows nothing and counts one failure more |
| Compositor.DelayedSourceShowsOldPixels | crates/obs-rs-core/src/compositor.rs:33-121 | behind a delay of n milliseconds a source shows pixels that it had at least n milliseconds ago |
| Compositor.OneLayerTotals | crates/obs-rs-core/src/compositor.rs:267-312 | a layer counts as transformed unless it stands as captured, and with its number of filters |
| LayerPlacements.LayersDrawShownItems | crates/obs-rs-core/src/compositor.rs:259-314 | the layers are, in order, the items whose source shows a picture, each with its own identity, source and transform |
| LayerPlacements.ShownItemIsDrawn | crates/obs-rs-core/src/compositor.rs:259-314 | a shown item is drawn at the place given by the number of shown items before it |
| LayerPlacements.MovingChangesOnlyItsLayer | crates/obs-rs-core/src/compositor.rs:259-314 | moving one item changes the transform of its layer and nothing else in the render |
| LayerPlacements.MoveAcceptedExactly | crates/obs-rs-core/src/runtime.rs:446-545 | a move by index, source or identity is accepted exactly if the scene has such an item, and moves the first one only |
| LayerPlacements.MovedItemIsDrawnMoved | crates/obs-rs-core/src/runtime.rs:446-545 | after an accepted move and any calls that leave the scene alone, a render draws that item with the new transform |
| LayerPlacements.AttachAddsOneItem | crates/obs-rs-core/src/runtime.rs:310-396 | an accepted attachment adds one unmoved item behind all others, under the identity it asked for |
| LayerPlacements.AttachedItemIsDrawnLast | crates/obs-rs-core/src/runtime.rs:310-396 | after an accepted attachment and any calls that leave the scene alone, a render draws the new item last and unmoved |
| LayerPlacements.RemovingDropsOnlyItsLayer | crates/obs-rs-core/src/compositor.rs:259-314 | taking one item out takes its layer out and leaves the rest of the render as it was |
| LayerPlacements.DetachAcceptedExactly | crates/obs-rs-core/src/runtime.rs:404-414 | a detachment is accepted exactly if the scene shows the source, and takes its first item out |
| LayerPlacements.DestroyedSceneReleasesItsSources | crates/obs-rs-core/src/runtime.rs:615-644 | a destroyed scene is unknown to a render, and a source of it can be destroyed exactly if no other scene shows it |
| LayerPlacements.AddedFilterIsApplied | crates/obs-rs-core/src/runtime.rs:563-582 | a filter is added exactly within the limit; a pixel filter then runs behind all earlier ones on every layer of the source, over any later run that leaves its filters alone |
| LayerPlacements.ClearedFiltersAreNotApplied | crates/obs-rs-core/src/runtime.rs:590-599 | after clearing, and over any later run that adds none, no layer of the source carries a filter |
| LayerPlacements.RenderRemembersFrames | crates/obs-rs-core/src/compositor.rs:57-110 | a render asks each shown source once and leaves it with the frame that it delivered, or with its last good one |
| PictureOrigins.ClearedFiltersForgetTheHistory | crates/obs-rs-core/src/runtime.rs:590-599 | after its filters were cleared and over any later run, filters put back included, a source shows only its last good picture or what its device delivered since |
| PictureOrigins.UpdatedSourceForgetsEverything | crates/obs-rs-core/src/runtime.rs:652-670 | after an update of its settings, taken or rejected, and over any later run, a source shows only what its device delivered since |
| PictureOrigins.RunKeepsOrigin | crates/obs-rs-core/src/compositor.rs:28-121 | over any run every layer of a source comes from what it retained at the start or from a later answer of its device |
| RenderDelays.RenderDelayBuffer.PushFrame | crates/obs-rs-media/src/delay.rs:136-205 | the running byte count and the in-place queue answer as the specified push |
| RenderDelays.RenderDelayBuffer.AcceptFrame | crates/obs-rs-media/src/delay.rs:176-205 | a frame within the limits is queued and counted once, a restart empties the queue first, and the front frame leaves exactly when it is old enough |
| RenderDelays.RenderDelayBuffer.SetMilliseconds | crates/obs-rs-media/src/delay.rs:112-125 | a changed delay starts an empty timeline, an equal one changes nothing, one out of range is refused |
| RenderDelays.DelayedFrameIsOldEnough | crates/obs-rs-media/src/delay.rs:136-205 | what comes out has the newest stamp, the pushed shape, and pixels older by at least the delay |
| RenderDelays.ShownExactlyWhenOldEnough | crates/obs-rs-media/src/delay.rs:176-205 | on a timeline that goes on, the oldest frame is shown exactly once it is as old as the delay; an empty or restarted one shows nothing |
| RenderDelays.BudgetInPeriods | crates/obs-rs-media/src/delay.rs:148-162 | a delay is within budget exactly if the least number of frames that spans it fits 32 frames and 256 MiB |
| RenderDelays.NothingLostOrReordered | crates/obs-rs-media/src/delay.rs:136-205 | over any steady timeline the frames shown, then those retained, are those pushed, in order |
| RenderDelays.FullIsForEver | crates/obs-rs-media/src/delay.rs:163-185 | a full history refuses every later frame of its shape and never changes |
| RenderDelays.PushFailsExactlyWhenFull | crates/obs-rs-media/src/delay.rs:148-174 | a delay within budget is refused exactly when the history is full |
| RenderDelays.RestartResetsExactlyWhenNotFull | crates/obs-rs-media/src/delay.rs:163-185 | a time stamp that runs backwards or jumps a second empties the history down to the new frame if and only if the history is not full |
| RenderDelays.StagnantClockFills | crates/obs-rs-media/src/delay.rs:163-175 | for every shape and delay within budget, frames at one instant fill the history exactly up to its capacity without showing anything |
| RenderDelays.StagnantClockOutlivesRestarts | crates/obs-rs-media/src/delay.rs:163-185 | after that every later frame of the shape is refused and changes nothing, whatever its time stamp |
| RenderDelays.RestartAfterStagnationIsRefused | crates/obs-rs-media/src/delay.rs:163-185 | the input: a full history, then a frame more than a second later, which restarts the timeline and is refused |
| RenderDelays.FreshHistoryAtPaceIsNeverRefused | crates/obs-rs-media/src/delay.rs:148-212 | from an empty history, frames at the rate of their format are never refused by a delay within budget |
| RenderDelays.PacedFramesAreNeverRefused | crates/obs-rs-media/src/delay.rs:148-212 | frames at least a period of their format apart are never refused by a delay within budget |
| SampleClock.AudioScheduler.NextBlockDeadline | crates/obs-rs-audio/src/pacing.rs:121-151 | one call on the index, errors leaving it unchanged |
| SampleClock.GrantedExactlyWhenSchedulable | crates/obs-rs-audio/src/pacing.rs:137-151 | every block of a timeline is granted exactly when no block is empty, the index fits and the last block starts at a representable time |
| SampleClock.DeadlinesNeverDrift | crates/obs-rs-audio/src/pacing.rs:137-151 | on every timeline that is granted, each deadline is the exact floor of the frames before it |
| SampleClock.BlockEndMeetsNextDeadline | crates/obs-rs-audio/src/buffer.rs:115-127 | a block's end differs from the next deadline by zero or one nanosecond |
| CallbackClock.AudioCallbackClock.ObserveCallback | crates/obs-rs-audio/src/callback_clock.rs:84-127 | the incremental numerator answers as the closed form; a rejected callback changes nothing |
| CallbackClock.AudioCallbackClock.SetCorrectionPpm | crates/obs-rs-audio/src/callback_clock.rs:135-150 | the numerator is rebuilt for the new correction, or nothing changes |
| CallbackClock.NumeratorFits | crates/obs-rs-audio/src/callback_clock.rs:190-206 | the 128-bit products never overflow and never saturate |
| CallbackClock.ElapsedIsOneDivision | crates/obs-rs-audio/src/callback_clock.rs:198-201 | two divisions are one exact floor |
| CallbackClock.RunConservesFrames | crates/obs-rs-audio/src/callback_clock.rs:84-150 | over callbacks and corrections no frame is lost or counted twice and accepted times never go back |
| CallbackClock.ExpectedIsExactFloor | crates/obs-rs-audio/src/callback_clock.rs:84-127 | the expected time is the exact floor of the corrected frame time |
| CallbackClock.AcceptedExactly | crates/obs-rs-audio/src/callback_clock.rs:84-127 | a callback is accepted exactly if it carries frames, does not go back, and total and due time are representable; the first one has no drift |
| CallbackClock.DriftIsLateness | crates/obs-rs-audio/src/callback_clock.rs:84-127 | the drift is positive exactly for a callback later than the corrected time of the frames before it, and is that lateness |
| CallbackClock.CorrectionDelaysExpectation | crates/obs-rs-audio/src/callback_clock.rs:135-201 | a larger correction expects the same frames later and reads the same callback as earlier |
| DeviceClock.GaloisConnection | crates/obs-rs-clock/src/rate.rs:52-63 | reading and waiting are adjoint exactly when the wait is representable |
| DeviceClock.SlowClocksOnlySaturate | crates/obs-rs-clock/src/rate.rs:58-63 | only slow clocks can have unreachable deadlines |
| DeviceClock.NewClockRate | crates/obs-rs-clock/src/rate.rs:26-40 | exactly the drifts within bounds are accepted, and the scale is positive |
| DeviceClock.FasterClockReadsLater | crates/obs-rs-clock/src/rate.rs:52-56 | a faster rate never reads earlier |
| DeviceClock.ReadingIsExactFloor | crates/obs-rs-clock/src/rate.rs:52-56 | a reading is the reference time at the drifted rate, rounded down and kept to 64 bits |
| DeviceClock.IndependentMediaClock.SleepAll | crates/obs-rs-clock/src/rate.rs:133-156 | any interleaving of audio and video waits advances one reference time |
| DeviceClock.RunIsLeastSufficient | crates/obs-rs-clock/src/rate.rs:133-156 | the reference time is monotone and the least that meets every representable wait |
| DeviceClock.AudioLeadsExactlyWhenNotSlower | crates/obs-rs-clock/src/rate.rs:121-131 | audio is never behind video in any reachable state if and only if its clock is not the slower one |
| DeviceClock.NextPaced | crates/obs-rs-audio/src/pacing.rs:209-227 | a paced block starts at or after its deadline exactly when the clock can reach it |
| AvSync.TrimLandsOnVideo | crates/obs-rs-audio/src/sync.rs:247-265 | a trimmed buffer starts at or after video by less than one sample period |
| AvSync.SilenceDelaysPayloadByLessThanAPeriod | crates/obs-rs-audio/src/sync.rs:247-265 | inserted silence starts at video and moves the payload by less than one sample period |
| AvSync.GivenUpExactly | crates/obs-rs-audio/src/sync.rs:247-265 | a buffer is given up exactly if it is early beyond the tolerance and the gap reaches beyond the start of its last frame |
| AvSync.KeptExactly | crates/obs-rs-audio/src/sync.rs:205-265 | a buffer is handed back untouched exactly if it is within tolerance |
| AvSync.FailsExactly | crates/obs-rs-audio/src/sync.rs:205-325 | reconciling fails exactly for a gap of more frames than 64 bits count, an early buffer without a representable start left, or a late one without room for its silence |
| AvSync.TrimIsLateByTheOvershoot | crates/obs-rs-audio/src/sync.rs:247-265 | a trimmed buffer is late by exactly the overshoot of its gap |
| AvSync.TrimSettlesExactlyWithinTolerance | crates/obs-rs-audio/src/sync.rs:205-265 | reconciling a trimmed buffer again keeps it if and only if the overshoot of its gap is within tolerance; otherwise it is padded |
| AvSync.ReconcileSettlesExactly | crates/obs-rs-audio/src/sync.rs:205-265 | for every returned buffer, reconciling again keeps it if and only if it was not trimmed or its overshoot is within tolerance |
| AvSync.PaddingSettles | crates/obs-rs-audio/src/sync.rs:205-265 | reconciling a padded buffer again always keeps it |
| AvSync.CoveringToleranceSettles | crates/obs-rs-audio/src/sync.rs:205-265 | a tolerance that covers every overshoot of the rate settles every buffer |
| AvSync.FineToleranceOscillates | crates/obs-rs-audio/src/sync.rs:205-265 | the oscillation in numbers: at zero tolerance one buffer is trimmed, then padded |
| AvSync.FramesCoverGap | crates/obs-rs-audio/src/sync.rs:319-325 | the frame count covers the gap and overshoots by less than one frame |
| AvSync.SaturatedGapExceedsBuffers | crates/obs-rs-audio/src/sync.rs:205-234 | a saturated delta always needs more frames than a buffer holds |
| AvSync.SharedBuffer.TrimFrontInPlace | crates/obs-rs-audio/src/buffer.rs:166-181 | agrees with the allocating trim on every input |
| AvSync.SharedBuffer.PrependSilenceInPlace | crates/obs-rs-audio/src/buffer.rs:217-236 | moves the payload and leaves the head as it was |
| AvSync.SharedBuffer.ReconcileInPlace | crates/obs-rs-audio/src/sync.rs:279-294 | answer and final buffer for every input |
| AvSync.SharedBuffer.PrependClearedSilenceInPlace | crates/obs-rs-audio/src/buffer.rs:208-236 | the documented variant that clears the head: equal to the allocating padding on every input |
| AvSync.SharedBuffer.ReconcileClearedInPlace | crates/obs-rs-audio/src/sync.rs:267-294 | with that padding, in-place reconciliation equals the allocating form unconditionally |
| AvSync.InPlaceAgreesExactlyWhenHeadIsSilent | crates/obs-rs-audio/src/sync.rs:267-294 | both forms agree exactly when the samples left in the head were silent |
| AvSync.InPlaceAgreesOnPayload | crates/obs-rs-audio/src/sync.rs:267-294 | result, timestamp, length and moved payload agree for every input |
| AvSync.StaleHeadExample | crates/obs-rs-audio/src/buffer.rs:230-233 | a buffer whose old sample is heard where silence was promised |
| AudioBuffers.ClearedExactlyWhenSilent | crates/obs-rs-audio/src/buffer.rs:217-236 | the shift equals zero-filling exactly when the kept head was silent |
| Resampler.PositionStep | crates/obs-rs-audio/src/resampler.rs:241-287 | adding whole and remainder steps is the closed form's next value |
| Resampler.AdvancePosition | crates/obs-rs-audio/src/resampler.rs:282-287 | no 64-bit addition of the accumulator overflows |
| Resampler.BaseInsideInput | crates/obs-rs-audio/src/resampler.rs:253-264 | the base index is always a real input frame |
| Resampler.Process | crates/obs-rs-audio/src/resampler.rs:219-291 | every output sample equals its closed form, for every format pair |
| Resampler.SameFormatIsIdentity | crates/obs-rs-audio/src/resampler.rs:219-291 | equal formats give back the input samples |
| Resampler.ResamplingNeverAmplifies | crates/obs-rs-audio/src/resampler.rs:256-280 | no output sample exceeds the input's peak |
| Resampler.LengthIsNearest | crates/obs-rs-audio/src/resampler.rs:230-236 | the output length keeps the duration to the nearest frame |
| Resampler.PositionIsExactFloor | crates/obs-rs-audio/src/resampler.rs:241-251 | output frame k stands at k times the rate ratio, floored to a millionth of an input frame |
| Resampler.EvenSlopesAreReproduced | crates/obs-rs-audio/src/resampler.rs:256-280 | an evenly rising signal is reproduced exactly at every output position; the last input frame holds behind it |
| Resampler.InterpolationIsProportional | crates/obs-rs-audio/src/resampler.rs:256-280 | between two neighbouring frames the output moves in proportion to its position |
| ChannelMapping.MappedWithinPeak | crates/obs-rs-audio/src/resampler.rs:60-187 | for every layout pair a mapped sample stays within the frame's peak |
| ChannelMapping.SameLayoutIsIdentity | crates/obs-rs-audio/src/resampler.rs:150-187 | keeping the layout keeps every channel |
| ChannelMatrix.EveryChannelHearsItsRow | crates/obs-rs-audio/src/resampler.rs:19-187 | every output channel of all 36 standard mappings is the mean of the input channels that the table lists, and silent where it lists none |
| ChannelMatrix.DiscreteKeepsNumbers | crates/obs-rs-audio/src/resampler.rs:164-172 | without speaker roles a channel keeps its number, and higher numbers hear the last channel |
| AudioQueues.AudioQueue.Push | crates/obs-rs-audio/src/queue.rs:60-102 | drop-oldest removes the shortest sufficient prefix, drop-newest the incoming buffer; frames are conserved |
| AudioQueues.AudioQueue.MakeRoom | crates/obs-rs-audio/src/queue.rs:85-94 | the drop loop stops at the first sufficient prefix |
| AudioQueues.AudioQueue.Pop | crates/obs-rs-audio/src/queue.rs:105-109 | takes the head; the running frame count follows |
| AudioQueues.PrefixIsUnique | crates/obs-rs-audio/src/queue.rs:85-94 | the shortest sufficient prefix is determined by the queue |
| AudioQueues.NewAudioQueue | crates/obs-rs-audio/src/queue.rs:37-53 | a zero capacity is refused; otherwise an empty queue of the given format, capacity and policy |
| AudioWorkers.AudioWorker.Run | crates/obs-rs-audio/src/worker.rs:163-253 | succeeds exactly if every block does up to the cancellation; frames are conserved, missed deadlines and lateness are exact, and the queue keeps the longest run of newest, or of oldest, blocks that fits |
| AudioWorkers.AudioWorker.RunBlock | crates/obs-rs-audio/src/worker.rs:181-248 | succeeds exactly if the schedule has a place and the producer delivers what was asked for; the accounting and the lateness of one block |
| AudioWorkers.AudioWorker.SubmitBuffer | crates/obs-rs-audio/src/worker.rs:199-235 | the contract checks, and what the push did |
| AudioWorkers.AudioWorker.TakeNext | crates/obs-rs-audio/src/worker.rs:256-258 | hands out the oldest block and keeps the rest |
| DelayLine.NothingLostOrReordered | crates/obs-rs-audio/src/delay.rs:130-149 | whatever the block sizes, output followed by queue is old queue followed by input |
| DelayLine.DelayedStream | crates/obs-rs-audio/src/delay.rs:130-149 | the emitted stream is the configured silence followed by the input |
| DelayLine.EverySampleIsLateByTheDelay | crates/obs-rs-audio/src/delay.rs:130-149 | sample by sample: silence for the delay, and then the input that many samples later, for every cutting into blocks |
| DelayLine.DelayIsWholeFrames | crates/obs-rs-audio/src/delay.rs:45-79 | the delay is the number of whole frames within the milliseconds |
| DelayLine.AudioDelayLine.Process | crates/obs-rs-audio/src/delay.rs:130-149 | the in-place exchange of one block, or a format error that changes nothing |
| DelayLine.AudioDelayLine.SetDelayMilliseconds | crates/obs-rs-audio/src/delay.rs:117-122 | a replacement with the same reserved block starts from silence; one that does not fit is refused and changes nothing |
| DelayLine.WithBlockFrames | crates/obs-rs-audio/src/delay.rs:45-79 | succeeds exactly when delay and reserved block are within bounds |
| Configs.RoundTrip | crates/obs-rs-config/src/lib.rs:60-159 | a document that fits reads back as exactly the settings written, for every Unicode value |
| Configs.SerializationIsInjective | crates/obs-rs-config/src/lib.rs:140-159 | different settings have different documents |
| Configs.FixedPoint | crates/obs-rs-config/src/lib.rs:60-159 | serializing what was parsed is a fixed point |
| ConfigDocuments.WrittenDocumentIsRead | crates/obs-rs-config/src/lib.rs:60-89 | a document that someone writes, with any order, spacing, spelling, comments, blank lines and line endings, reads back as exactly its settings |
| ConfigDocuments.LineIsRead | crates/obs-rs-config/src/lib.rs:66-86 | a comment or blank line changes nothing; a setting is stored however it is spaced and spelled, with or without a comment behind it |
| ConfigDocuments.WrittenIsRead | crates/obs-rs-config/src/lib.rs:234-342 | each of the three spellings of a value reads as the value, whatever comment follows |
| ConfigDocuments.SingleIsRead | crates/obs-rs-config/src/lib.rs:316-331 | a single-quoted text reads as itself exactly if it holds no control character |
| ConfigDocuments.SecondSettingIsRefused | crates/obs-rs-config/src/lib.rs:161-169 | a key that is set twice is refused with the line where it comes again |
| ConfigDocuments.MalformedLinesAreNamed | crates/obs-rs-config/src/lib.rs:66-83 | a table header and a line without separator are refused with their own error |
| ConfigDocuments.UnquotedWord | crates/obs-rs-config/src/lib.rs:241-250 | an unquoted word is taken exactly if it is a canonical literal, whatever comment follows |
| ConfigDocuments.QuotesMustClose | crates/obs-rs-config/src/lib.rs:254-292 | an open quote, and anything but a comment behind a closed one, is an invalid value |
| ConfigDocuments.BadCharactersAreRefused | crates/obs-rs-config/src/lib.rs:254-292 | behind any text a raw control character or an unknown escape makes the value invalid |
| ConfigDocuments.BadSettingsAreNamed | crates/obs-rs-config/src/lib.rs:79-86 | a key that is no identifier and a missing value are refused with their own error |
| ConfigDocuments.UnicodeEscapeIsRead | crates/obs-rs-config/src/lib.rs:275-313 | four or eight hexadecimal digits of either case give their scalar value; a code that is none is refused |
| ConfigDocuments.EscapedExactly | crates/obs-rs-config/src/lib.rs:212-231 | quotes, backslashes and control characters are escaped, by name or by four digits, and nothing else is |
| ConfigDocuments.PlainTextIsVerbatim | crates/obs-rs-config/src/lib.rs:212-231 | text without such characters is written verbatim |
| Configs.LookAlikes | crates/obs-rs-config/src/lib.rs:191-209 | how `007`, `-0` and `-` are spelled |
| Configs.Parse | crates/obs-rs-config/src/lib.rs:60-89 | the loop over lines parses as the recursive specification, error by error |
| Configs.Config.Set | crates/obs-rs-config/src/lib.rs:97-101 | stores the value in key order and leaves every other key alone, or refuses and changes nothing |
| Configs.Config.Remove | crates/obs-rs-config/src/lib.rs:104-106 | that key is gone, every other key keeps its value, and the old value is returned |
| Configs.Config.Insert | crates/obs-rs-config/src/lib.rs:161-169 | refuses a repeated key |
| Configs.Config.Serialize | crates/obs-rs-config/src/lib.rs:140-159 | the pushes produce the specified document |
| Configs.DecodeBasicString | crates/obs-rs-config/src/lib.rs:254-292 | the character loop decodes as specified |
| Configs.DecodeEscapeCode | crates/obs-rs-config/src/lib.rs:295-313 | the 32-bit accumulator of an escape never overflows |
| ConfigText.LiteralRoundTrip | crates/obs-rs-config/src/lib.rs:191-331 | every value is read back from its own spelling |
| ConfigText.BareExactly | crates/obs-rs-config/src/lib.rs:191-209 | bare are exactly the booleans, the canonical spellings of 64-bit integers, and `-0` |
| ConfigText.DecodeOne | crates/obs-rs-config/src/lib.rs:212-292 | decoding one escaped character yields it and moves past it |
| SortedMaps.PutCommutes | crates/obs-rs-config/src/lib.rs:97-101 | insertion order leaves no trace |
| SortedMaps.Extensional | crates/obs-rs-config/src/lib.rs:115-119 | two ordered maps with the same lookups iterate alike |
| SortedMaps.LessIsLexicographic | crates/obs-rs-config/src/lib.rs:115-119 | keys iterate in the order of words: the end of the one, or the first difference, decides |
| Identifiers.IdentifierAlphabet | crates/obs-rs-util/src/lib.rs:130-157 | an identifier holds no whitespace, separator, comment or table mark |
| Identifiers.IdentifiersExactly | crates/obs-rs-util/src/lib.rs:130-157 | identifiers are exactly the names of 1 to 64 letters, digits, underscores and hyphens that start with a letter or an underscore |
| BundleFormat.RoundTrip | crates/obs-rs-diagnostics/src/bundle.rs:122-188 | decoding an encoding gives back the bundle |
| BundleFormat.AcceptedInputs | crates/obs-rs-diagnostics/src/bundle.rs:152-188 | an accepted input is an ordering of its sections' encodings and has the length of the name-sorted re-encoding |
| BundleFormat.PrefixFree | crates/obs-rs-diagnostics/src/bundle.rs:152-188 | no accepted input is a proper prefix of another |
| BundleInputs.AcceptedExactly | crates/obs-rs-diagnostics/src/bundle.rs:152-188 | the accepted inputs are exactly the encodings, in any order, of sections with distinct names within the bounds |
| BundleInputs.EveryOrderIsAccepted | crates/obs-rs-diagnostics/src/bundle.rs:152-188 | any ordering of such sections decodes to the name-ordered bundle of them |
| BundleInputs.LongerInputTrails | crates/obs-rs-diagnostics/src/bundle.rs:152-188 | bytes behind a complete bundle are refused as trailing |
| BundleInputs.ShorterInputIsTruncated | crates/obs-rs-diagnostics/src/bundle.rs:152-188 | a bundle that is cut anywhere is refused as truncated |
| BundleFormat.SizeIsLength | crates/obs-rs-diagnostics/src/bundle.rs:112-114 | the counted size is the length of the encoding |
| BundleFormat.InsertKeepsBundle | crates/obs-rs-diagnostics/src/bundle.rs:57-87 | an accepted insertion keeps every bound |
| DiagnosticBundles.DiagnosticBundle.InsertBytes | crates/obs-rs-diagnostics/src/bundle.rs:57-87 | the running length stays the length of the encoding |
| DiagnosticBundles.DiagnosticBundle.Encode | crates/obs-rs-diagnostics/src/bundle.rs:122-144 | succeeds with exactly `encoded_len` bytes |
| DiagnosticBundles.Decode | crates/obs-rs-diagnostics/src/bundle.rs:152-188 | the cursor loop decodes as specified, error by error |
| DiagnosticBundles.Cursor.Take | crates/obs-rs-diagnostics/src/cursor.rs:12-23 | bounded read; a failed one does not move |
| DiagnosticBundles.Cursor.Field | crates/obs-rs-diagnostics/src/cursor.rs:25-40 | little-endian field at the cursor |
| LittleEndian.FromLEToLE | crates/obs-rs-diagnostics/src/bundle.rs:216-229 | a written field is read back |
| LittleEndian.ByteIsDigit | crates/obs-rs-diagnostics/src/bundle.rs:216-229 | byte i of a field is its base-256 digit i, the least significant first |
| VideoFormats.RebuildFrameRate | crates/obs-rs-media/src/time.rs:53-67 | rebuilding a reduced rate from its components is the identity |
| VideoFormats.ReducedComponents | crates/obs-rs-media/src/time.rs:53-95 | dividing by the greatest common divisor leaves coprime components |
| VideoFormats.SameRateExactly | crates/obs-rs-media/src/time.rs:53-67 | two pairs of components give the same rate exactly if they are equal as fractions |
| FrameStream.WholeStream | crates/obs-rs-capture/src/stream_device.rs:56-131 | a stream of written frames yields exactly those frames, then the end |
| FrameStream.CutStream | crates/obs-rs-capture/src/stream_device.rs:56-131 | a cut inside a packet yields the frames before it, then a truncation error |
| FrameStream.ReadThrough | crates/obs-rs-capture/src/stream_device.rs:56-131 | any tail is reached only after every whole packet |
| FrameStream.ReadWritten | crates/obs-rs-capture/src/protocol.rs:39-89 | one written packet is read back and nothing behind it is touched |
| FrameStream.AcceptedPacketsExactly | crates/obs-rs-capture/src/stream_device.rs:56-131 | exactly the packets with the magic, size, frame rate, pixel count and all pixels of the expected format are accepted; stamp and pixels are handed on |
| FrameStream.PacketsFit | crates/obs-rs-capture/src/protocol.rs:67-77 | a valid frame never exceeds the packet bound |
| FrameStream.WriteFramePacket | crates/obs-rs-capture/src/protocol.rs:39-64 | the bytes of one packet |
| FrameStream.ByteReader.ReadUpTo | crates/obs-rs-capture/src/protocol.rs:78-89 | short reads add up to the requested bytes or the end |
| FrameStream.StreamCaptureDevice.Start | crates/obs-rs-capture/src/stream_device.rs:142-155 | starts exactly when stopped and permitted; a refusal changes nothing |
| FrameStream.StreamCaptureDevice.ReadPacket | crates/obs-rs-capture/src/stream_device.rs:56-131 | the answer and the bytes consumed do not depend on how the reader splits |
| FrameStream.StreamCaptureDevice.NextFrame | crates/obs-rs-capture/src/stream_device.rs:165-177 | delivers the packet and counts it |
| FrameStream.StreamCaptureDevice.ReadToEnd | crates/obs-rs-capture/src/stream_device.rs:165-177 | polling to the end gives the specified stream for every splitting |
| Letterbox.Fit | crates/obs-rs-capture/src/nokhwa_camera.rs:488-510 | the scaled rectangle fits the canvas and touches two of its sides |
| Letterbox.FitKeepsProportions | crates/obs-rs-capture/src/nokhwa_camera.rs:488-510 | the rectangle keeps the proportions, rounded down to whole pixels but never to none, and is centred to half a pixel |
| Letterbox.NearestIsExactFloor | crates/obs-rs-capture/src/nokhwa_camera.rs:511-522 | a covered coordinate shows the source coordinate at its share of the extent, rounded down |
| Letterbox.SameSizeIsACopy | crates/obs-rs-capture/src/nokhwa_camera.rs:459-531 | at its own size a picture is copied byte by byte |
| Letterbox.ScaledFits | crates/obs-rs-capture/src/nokhwa_camera.rs:488-508 | 32-bit products never saturate and the scaled extent fits |
| Letterbox.NearestInside | crates/obs-rs-capture/src/nokhwa_camera.rs:511-522 | the source coordinate is inside and its clamps never fire |
| Letterbox.IndexInside | crates/obs-rs-capture/src/nokhwa_camera.rs:523-527 | every byte index is in bounds |
| Letterbox.IndexSurjective | crates/obs-rs-capture/src/nokhwa_camera.rs:480-529 | every output byte is a channel of a pixel, so the pixel statement leaves no byte out |
| Letterbox.ResizeLetterbox | crates/obs-rs-capture/src/nokhwa_camera.rs:459-531 | each output byte is the nearest source pixel inside the rectangle and opaque black outside |
| Letterbox.RgbToRgba | crates/obs-rs-capture/src/nokhwa_camera.rs:448-455 | every three colour bytes gain an opaque alpha |
| CameraSource.NeverTwoWorkers | crates/obs-rs-capture/src/factories.rs:334-368 | under every interleaving all worker threads but the newest have exited |
| CameraSource.HeldWorkerIsCurrent | crates/obs-rs-capture/src/factories.rs:390-414 | between calls an unblocked source holds a worker opened with the current settings |
| CameraSource.ObservedStatesAdvance | crates/obs-rs-capture/src/threaded.rs:134-146 | over any run a worker's observed states only advance, and lost or denied is final |
| CameraSource.StepKeepsSound | crates/obs-rs-capture/src/threaded.rs:227-325 | nothing is published after `finished`; each step advances the observed state |
| CameraSource.FailureIsReported | crates/obs-rs-capture/src/threaded.rs:227-325 | a permission denial, or any other failure, of a driver call is published as just that within two steps, whatever follows |
| CameraSource.DeniedExactlyWhenRefused | crates/obs-rs-capture/src/threaded.rs:134-146 | over any interleaving a finished worker is seen as denied exactly if its driver refused permission, and as lost exactly if it did not |
| CameraSource.RefusedWorkerIsKept | crates/obs-rs-capture/src/factories.rs:443-454 | a worker that was refused permission is never replaced without a settings change |
| CameraSource.StoppedWorkerExits | crates/obs-rs-capture/src/threaded.rs:227-308 | a worker that is told to stop exits within five of its own steps, whatever the driver answers |
| CameraSource.WillingDriverGetsReady | crates/obs-rs-capture/src/threaded.rs:227-280 | a driver that plays along brings a fresh worker to ready and to its first capture |
| CameraSource.RenderingRecoversExactlyTheLost | crates/obs-rs-capture/src/factories.rs:416-489 | an ended worker is replaced without a settings change exactly when it is seen as lost |
| CameraSource.OnlyLostWorkersAreReplaced | crates/obs-rs-capture/src/factories.rs:416-489 | over any interleaving without a settings change, every worker that is replaced had been seen lost |
| CameraSource.ChangedSettingsReplaceEndedWorker | crates/obs-rs-capture/src/factories.rs:390-414 | an update that changes a setting replaces an ended worker, denied or panicked included, by one with the new settings |
| CameraSource.StuckRecoversExactlyByChange | crates/obs-rs-capture/src/factories.rs:390-454 | a denied or panicked camera gets a new worker only by a run that changes a setting, and some such run gives it one |
| CameraSource.StuckStaysStuck | crates/obs-rs-capture/src/factories.rs:443-454 | a denied or panicked camera is never reopened without a settings change |
| CameraSource.LostWorkerIsReplaced | crates/obs-rs-capture/src/factories.rs:458-469 | renders count a lost worker down and replace it |
| CameraSource.CountdownIsExact | crates/obs-rs-capture/src/factories.rs:458-469 | a lost worker is left alone for exactly the renders that the countdown says, at most fifteen, and the last of them starts its replacement |
| CameraSource.OpensAreRationed | crates/obs-rs-capture/src/factories.rs:320-368 | workers opened: the first, one per settings change, one per fifteen renders |
| CameraSource.RunKeepsValid | crates/obs-rs-capture/src/threaded.rs:188-215 | a replacement is opened only after the old worker was joined |
| OutputWorker.CounterNeverWraps | crates/obs-rs-audio/src/output_worker.rs:96-110 | the counter is channel plus calls in flight plus block in hand plus stranded blocks, and never negative |
| OutputWorker.EveryTryIsAccountedFor | crates/obs-rs-audio/src/output_worker.rs:96-110 | every finished call was accepted or counted as dropped |
| OutputWorker.CallAcceptedExactlyWithRoom | crates/obs-rs-audio/src/output_worker.rs:96-110 | a call by itself is accepted exactly while the worker listens, is not cancelled and the channel has room; otherwise it is dropped without a trace |
| OutputWorker.BurstFillsTheChannel | crates/obs-rs-audio/src/output_worker.rs:96-110 | a burst of calls fills the channel up to its capacity in order, and every later call is dropped and counted |
| OutputWorker.WorkerWritesTheChannel | crates/obs-rs-audio/src/output_worker.rs:262-285 | with five steps a block a working device gets every accepted block, and the counter settles |
| OutputWorker.CancelledWorkerEnds | crates/obs-rs-audio/src/output_worker.rs:225-297 | a cancelled worker ends by its own steps, within two a block and seven more |
| OutputWorker.QuietDrainStrandsNothing | crates/obs-rs-audio/src/output_worker.rs:286-297 | a drain that is not disturbed takes every queued block, writes none and strands none |
| OutputWorker.WrittenIsAPrefixOfAccepted | crates/obs-rs-audio/src/output_worker.rs:262-297 | the device gets the accepted blocks in order without gaps |
| OutputWorker.CounterSettlesExactlyWhenNothingIsStranded | crates/obs-rs-audio/src/output_worker.rs:286-297 | whatever calls are in flight at the drop and whatever happens later, the channel's blocks stay counted, and with every call returned the counter is zero exactly when the channel was empty at the drop |
| OutputWorker.StrandedExample | crates/obs-rs-audio/src/output_worker.rs:286-297 | a reachable end in which a block accepted after failure is counted, in every later state too |
| OutputWorker.GoneIsForEver | crates/obs-rs-audio/src/output_worker.rs:286-297 | after the thread is gone nothing is accepted or written any more, and what it stranded stays stranded |
| OutputWorker.CounterAtRest | crates/obs-rs-audio/src/output_worker.rs:96-110 | with the thread gone and every call returned the counter is the number of stranded blocks |
| OutputWorker.StateAdvances | crates/obs-rs-audio/src/output_worker.rs:235-304 | the published state only advances, running means a block was written, an orderly end is published |
| OutputWorker.CancellationIsPrompt | crates/obs-rs-audio/src/output_worker.rs:262-291 | after cancellation only calls past their check are accepted and at most one more block is written |
| OutputWorker.RunKeepsValid | crates/obs-rs-audio/src/output_worker.rs:96-297 | the accounting, order and state invariants over every interleaving |
| X11Source.X11CaptureSource.Render | crates/obs-rs-builtins/src/x11.rs:150-225 | the two-attempt loop answers and falls back as specified |
| X11Source.X11CaptureSource.Update | crates/obs-rs-builtins/src/x11.rs:128-148 | reopens exactly for changed settings |
| X11Source.X11CaptureSource.Serve | crates/obs-rs-builtins/src/x11.rs:128-225 | any run of calls |
| X11Source.ErrorsReplaceAtMostOnce | crates/obs-rs-builtins/src/x11.rs:171-221 | one render replaces the backend at most once because of an error, one step down |
| X11Source.OpensAreRationed | crates/obs-rs-builtins/src/x11.rs:128-225 | native opens at most one plus changes plus fallback renders over 120, helper processes never more than native opens |
| X11Source.FallbackIsLeftOnTime | crates/obs-rs-builtins/src/x11.rs:157-169 | whatever the devices answer, the 120th fallback render and no earlier one tries direct capture |
| X11Source.WorkingDeviceIsKept | crates/obs-rs-builtins/src/x11.rs:150-190 | over any run a device that answers is kept, and its frames are handed on one by one |
| X11Source.FailuresDescendTheChain | crates/obs-rs-builtins/src/x11.rs:150-225 | when nothing answers, each render goes exactly one step down the chain, and the 120th in the fallback starts over |
| X11Source.StoppedWorkerIsReplaced | crates/obs-rs-builtins/src/x11.rs:171-190 | a stopped worker is replaced without being asked |
| AsyncCapture.DeviceIsTheNewestAttempts | crates/obs-rs-capture/src/lifecycle.rs:164-239 | a device is held exactly while ready, and only the newest attempt's; older attempts are cancelled |
| AsyncCapture.SilentEndMeansPanic | crates/obs-rs-capture/src/lifecycle.rs:203-207 | an opener ends without a result exactly when it panicked |
| AsyncCapture.DenialIsFinal | crates/obs-rs-capture/src/lifecycle.rs:156-239 | nothing leaves the denied state and no further opener starts |
| AsyncCapture.RefusalIsReported | crates/obs-rs-capture/src/lifecycle.rs:190-265 | a permission denial, or any other failure, that a driver answers to the newest attempt ends the session as denied, or as lost |
| AsyncCapture.FailedPollIsReported | crates/obs-rs-capture/src/lifecycle.rs:211-239 | a device that fails a poll is given up, as denied or as lost |
| AsyncCapture.DenialHasACause | crates/obs-rs-capture/src/lifecycle.rs:190-239 | over any run a session is seen as denied only if some driver refused permission |
| AsyncCapture.AttemptsAreRetriesOfLosses | crates/obs-rs-capture/src/lifecycle.rs:164-179 | over any run the attempts are the first and one per retry of a loss, and no loss is retried twice |
| AsyncCapture.LostSessionsCanRecover | crates/obs-rs-capture/src/lifecycle.rs:164-209 | a lost session can become ready again |

## Left out

- Threads are modelled as sequentially consistent interleavings of steps over values; memory
  ordering, mutex poisoning and the length of grace periods are not modelled (a grace period may
  expire at any step at which the code would give up).
- Drivers, processes, the display server, the portal and the files behind them appear as arbitrary
  answers. Reader I/O errors other than the end of the stream are not modelled.
- Runtimes.Runtime.RenderSourceFrame: capture latency is not recorded, and a source instance carries
  its delay history as a value; the history object that is updated in place is
  `RenderDelays.RenderDelayBuffer`.
- Runtimes.Runtime.Perform: does not model plugin registration and the pull of settings that a device
  reports, which touch none of the mirrors; the answers of factories and devices are parameters.
- Runtimes.Runtime.Usage: the plugin, source-kind and dock totals are lengths of registry maps.
- Runtimes.Runtime.AddSourceFilter: the running filter total is an unbounded natural; the 64-bit
  saturation of the source is out of reach of the configured limits.
- Blending, transforms and pixel filters, audio dynamics and gains: floating-point signal
  processing, not data movement. Transforms and pixel filters are carried as opaque values.
- Resampler.Process: samples are exact reals, so rounding of 32-bit floats is not modelled.
- AvSync.SharedBuffer.ReconcileInPlace: the running metrics of the A/V monitor are left out.
- AudioQueues.AudioQueue.Push: a buffer carries its frame count as a field instead of deriving it
  from its samples.
- Letterbox.ResizeLetterbox: assumes a 64-bit `usize`, on which no intermediate product saturates.
- OutputWorker.CounterNeverWraps: `dropped_blocks` is an unbounded natural; its 64-bit wrap-around is
  not modelled. A zero capacity is refused before a worker exists and is a precondition here.
- CameraSource.NeverTwoWorkers: speaks of one camera source. Dropping a source whose worker is wedged
  detaches that worker, and what a later source for the same camera then meets is not modelled.
  Failure texts and the frames in the mailbox are left out.
- X11Source.OpensAreRationed: creating a native or helper backend always succeeds, as in the source,
  where their failures show up in later polls.
- Session orchestration, catalogs, descriptors, validation-only constructors, display texts, demo
  fixtures and the user interface are settled by single branches and would only add easy members.
