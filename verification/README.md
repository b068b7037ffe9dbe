# Shadow clone jutsu: a Dafny model of the sequencer and the trainer

The project has two pages, and this model covers the core of each.

- `script.js` is the live effect. Each camera frame it asks a trained classifier whether the two hands make the clone sign. On the first positive answer it latches a trigger time. It then brings in sixteen "clones" of the segmented person, each after a fixed delay. Each clone is announced by a pair of smoke puffs, animated as five sprite frames over 600 ms. The clones are drawn in descending-delay order with the person on top, and an overlay image switches once from state "1" to state "2".
- `trainer.js` is the training page. It records normalised hand-landmark samples for two classes: the clone sign, and everything else. Recording runs through a 3-second countdown followed by 4 seconds of recording. It refuses to train with fewer than five samples of either class. Otherwise it builds a labelled dataset and shuffles it in place with Fisher–Yates, moving inputs and labels in lockstep.

Modules:

- `Wrappers`: `Option`.
- `Random`: the injected `Math.random()`.
- `Landmarks`: `normalizeHand`/`normalize`/`extract`, which both pages carry as identical copies.
- `Gesture`: `predictGesture`.
- `Render`: the draw commands that stand in for canvas calls.
- `Smoke`: the particle and expiry rules.
- `Timeline`: the clone table, activation passes and draw order.
- `Sequencer`: class `Session`, which holds the module state of `script.js`. Its per-frame handler is `OnResults`.
- `Dataset`: assembly and shuffle.
- `Recorder`: the countdown/record state machine as a value.
- `Trainer`: class `TrainerState`, which holds the module state of `trainer.js`.

Conventions:

- Times are integer milliseconds, and one frame reads one `now`.
- Canvas drawing becomes a returned list of `Draw` commands.
- The classifier is an uninterpreted function from the 126 features to a probability; `None` means the model has not loaded.
- `Math.random()` values are parameters in [0, 1).
- `Math.sqrt` is a parameter, and coordinates are exact reals.
- Each `setInterval` callback is one explicit tick.

Two points of the code worth stating directly:

- The hand scale falls back to 1 only when the wrist-to-middle-knuckle distance is exactly 0 (`|| 1`, trainer.js:84-86). A non-zero distance below 1 is kept as it is. See `Landmarks.ScaleOrOne`.
- `toggleImage` runs before `drawClones` (script.js:216-217) and draws nothing.

## Model

| member | source | states |
|---|---|---|
| `Landmarks.ScaleOrOne` | trainer.js:84-86 | the fallback to 1: the scale is never 0, and any non-zero distance is kept as it is (not clamped to at least 1) |
| `Landmarks.HandScale` | script.js:24-29 | the wrist-to-middle-MCP scale of a hand is never zero, so every division in the loop is defined |
| `Landmarks.NormalizedPrefixAt` | script.js:32-36 | after n points the vector holds 3n values, and values 3i..3i+2 are point i's x, y, z relative to the wrist, divided by the scale |
| `Landmarks.NormalizedPrefixLength` | script.js:31-37 | the loop's output after n points has length 3n |
| `Landmarks.NormalizedShape` | trainer.js:82-94 | `normalize` yields 63 values in point order x, y, z; the first triple (the wrist minus itself) is all zero |
| `Landmarks.NormalizeHand` | script.js:23-38 | the push loop of `normalizeHand` computes the specified normalised vector |
| `Landmarks.Extract` | trainer.js:96-98 | `extract` yields 126 values: the right hand's 63 first, then the left hand's |
| `Landmarks.TranslatePrefix` | trainer.js:88-92 | moving every point by one vector leaves each pushed triple unchanged |
| `Landmarks.TranslationInvariant` | trainer.js:82-94 | moving a hand in the image leaves its normalised vector unchanged |
| `Landmarks.ScaledDistance` | script.js:26-29 | scaling about the wrist by k multiplies the squared wrist-to-MCP distance by k² |
| `Landmarks.ScalePrefix` | script.js:31-36 | scaling a hand about the wrist, with the scale multiplied to match, leaves each pushed triple unchanged |
| `Landmarks.ScaleInvariant` | script.js:23-38 | for an exact square root and a hand whose wrist and middle knuckle are apart, scaling the hand about its wrist by k > 0 leaves its normalised vector unchanged |
| `Landmarks.DegenerateHandNotScaleInvariant` | script.js:26-29 | when the middle knuckle sits on the wrist, the fallback to 1 keeps the scale at 1 for every size, so scaling by k ≠ 1 changes the vector of any hand with point 1 off the wrist in x |
| `Gesture.PredictGesture` | script.js:40-53 | false unless the model and both hands are present; with all three, true exactly when the classifier's probability for the right-then-left features strictly exceeds the threshold |
| `Sequencer.Skeletons` | script.js:223-224 | one finger-skeleton overlay per present hand, the right hand first |
| `Gesture.ClassifierNotConsulted` | script.js:41 | with a hand missing the answer is false, and it is the same for any two classifiers |
| `Gesture.ThresholdMonotone` | script.js:52 | raising the threshold can only turn a detection off |
| `Gesture.PredictTranslationInvariant` | script.js:40-46 | moving either hand in the image does not change the decision |
| `Gesture.DefaultThresholdIsStrict` | script.js:40 | at the default threshold 0.999, a probability of 0.9995 fires and a probability of exactly 0.999 does not |
| `Random.RandomIndex` | script.js:148 | `Math.floor(Math.random() * n)` is an index in [0, n) |
| `Smoke.NewParticle` | script.js:145-158 | `spawnSmoke` makes a particle anchored at (x, y), 1.2 times the requested scale, started now, with a folder index in [0, 3) |
| `Smoke.FrameIndex` | script.js:164-168 | the frame index `floor(elapsed / 120)` is below 5 exactly when less than 600 ms have passed; it is non-negative and brackets the elapsed time |
| `Smoke.LiveMembers` | script.js:166-170 | after a pass, exactly the particles with `now - start < 600` remain |
| `Smoke.Live` | script.js:166-170 | the particles a `drawSmokes` pass keeps: no more than it had, each with less than 600 ms elapsed |
| `Smoke.SmokeDraws` | script.js:160-180 | a `drawSmokes` pass draws one frame per surviving particle |
| `Smoke.LiveAppend` | script.js:162-171 | removal keeps the survivors' relative order: filtering a concatenation filters each part |
| `Smoke.SmokeDrawsReverseLive` | script.js:162-178 | the pass draws each survivor once, walking the pool from its last particle to its first |
| `Smoke.DrawnFramesInRange` | script.js:166-173 | with no particle started in the future, every drawn frame index lies in [0, 4] |
| `Timeline.Puffs` | script.js:209-212 | an activated clone's pair sits at (cx − 15, cy) and (cx + 15, cy), with cx = x + W/2 and cy = y + H/2 − 40, at 1.2 times the clone's scale and started now |
| `Timeline.StepFlags` | script.js:206-208 | the flags after one activation pass, one per clone table entry; `FlagsAfterDue` and `FlagNeverReverts` state what they hold |
| `Timeline.NewPuffs` | script.js:206-213 | a pass over the first n clones appends at most one pair of puffs per clone; `NewPuffsPaired` gives the exact pairs |
| `Timeline.Activations` | script.js:206-208 | the clones a pass over the first n entries activates are indices below n; `ActivationsExact` says which |
| `Timeline.NewPuffsStartNow` | script.js:211-212 | every particle a pass appends starts now and uses a valid folder |
| `Timeline.ActivationsExact` | script.js:206-208 | a pass activates exactly the clones that are not yet spawned and are due, each once, in table order |
| `Timeline.NewPuffsPaired` | script.js:207-213 | each activation appends exactly two particles, the k-th activated clone's pair at positions 2k and 2k+1, and nothing else is appended |
| `Timeline.PassIsIdempotent` | script.js:206-208 | a second pass at the same time activates nothing |
| `Timeline.FlagsAfterDue` | script.js:206-208 | with a monotone clock, a clone's flag is set exactly when the clone is due at the latest frame |
| `Timeline.FlagsAfter` | script.js:206-208 | the flags after a run of activation passes at the given frame times, one per clone table entry |
| `Timeline.FlagNeverReverts` | script.js:207-208 | once set, a flag stays set for the rest of the session |
| `Timeline.ActivatedAtFirstDueFrame` | script.js:206-208 | a frame flips a clone's flag from false to true exactly when it is the first frame at which the clone is due |
| `Timeline.ActivatedOnce` | script.js:206-213 | no clone is activated in two different frames of a session |
| `Timeline.ScenarioAt1300` | script.js:60-77 | triggered at 0, a pass at 1300 activates the clones with delays 1000, 1150 and 1300 and appends six puffs; a second pass at 1300 activates nothing |
| `Timeline.InsertByDelay` | script.js:240 | one insertion step of the descending-delay sort adds exactly the inserted clone |
| `Timeline.InsertByDelaySorted` | script.js:240 | insertion keeps the sequence in non-increasing delay order and adds no delay above the inserted clone's and those already present |
| `Timeline.SortByDelay` | script.js:240 | the comparator sort yields a permutation in non-increasing delay order |
| `Timeline.DrawOrder` | script.js:240 | `[...customClones].sort((a, b) => b.delay - a.delay)` is a descending-delay permutation of the table |
| `Timeline.DistinctCounts` | script.js:240 | an index occurs at most once in a sequence without repeats |
| `Timeline.DistinctPermutation` | script.js:240 | a permutation of a sequence without repeats has no repeats |
| `Timeline.DrawOrderIsPermutation` | script.js:240 | the draw order lists every clone exactly once |
| `Timeline.ClonePass` | script.js:242-250 | a pass draws at most one copy per entry of the order, each a clone copy of a table entry |
| `Timeline.CloneDraw` | script.js:245-247 | a clone copy is drawn at its own scale and y, shifted so that its centre lands where the full-size frame shifted by the clone x would have its centre |
| `Timeline.ClonePassSnoc` | script.js:242-250 | one more clone in the order adds its copy at the end of the pass, if it is due |
| `Timeline.ClonePassMembers` | script.js:243-248 | a pass draws exactly the due clones of the order, each with the transform `(x + W(1 − scale)/2, y)` and its own scale |
| `Timeline.ClonePassFromOrder` | script.js:242-243 | every copy drawn comes from the order |
| `Timeline.ClonePassOrdered` | script.js:240-250 | drawing along a descending-delay order draws the copies in non-increasing delay order |
| `Timeline.ClonePassDistinct` | script.js:242-250 | along an order without repeats, no clone is drawn twice |
| `Timeline.DrawClonesExactlyDue` | script.js:238-253 | `drawClones` draws exactly the due clones, each once, with its transform, in non-increasing delay order |
| `Timeline.PuffsCentredOnClone` | script.js:209-212 | the smoke pair is centred horizontally on the clone's drawn copy |
| `Sequencer.Session.constructor` | script.js:5-6 | page load at time 0: latch open, no start time, every flag clear, no smoke, overlay in state "1", so frames at any time from 0 on can follow |
| `Sequencer.Session.ResetClones` | script.js:82-100 | whatever the prior state, afterwards the latch is false, the start time is null, the pool is empty, every flag is false and the overlay is in state "1" |
| `Sequencer.Session.ToggleImage` | script.js:315-326 | the overlay ends in state "2"; it changes nothing else, so a second call changes nothing |
| `Sequencer.Session.SpawnSmoke` | script.js:145-158 | appends exactly one particle, the one `NewParticle` describes |
| `Sequencer.Session.DetectTrigger` | script.js:196-202 | once the latch is closed, the start time is never overwritten; while it is open, it closes exactly when the gesture is predicted, recording now as the start |
| `Sequencer.Session.ActivateDueClones` | script.js:204-214 | the `forEach` sets exactly the due flags and appends the pass's puffs, two per activated clone, in table order |
| `Sequencer.Session.DrawClones` | script.js:238-253 | the due clones along the descending-delay order, then one untransformed draw of the person |
| `Sequencer.Session.DrawEachDue` | script.js:242-250 | the `forEach` over the sorted clones emits exactly the specified pass |
| `Sequencer.Session.DrawSmokes` | script.js:160-180 | the backward splice loop leaves exactly the live particles, in their order, and draws them last-first |
| `Sequencer.Session.TriggeredFrame` | script.js:204-218 | a triggered frame sets exactly the due flags, leaves exactly the live particles of the pool plus the new puffs, draws the due clones in descending-delay order, then the person, then the smoke, and restores the session invariant |
| `Sequencer.Session.OnResults` | script.js:185-233 | one frame: without a mask nothing changes and nothing is drawn; the latch and start time behave as in `DetectTrigger`; a triggered frame updates the flags and pool and draws the video, the clones, the person, the smoke and the skeletons; an untriggered frame draws the video, the person and the skeletons; the session invariant is kept |
| `Dataset.Assemble` | trainer.js:207-209 | the two `forEach` loops give `xs = clone samples ++ other samples`, with label 1 for the first nP entries and 0 for the rest |
| `Dataset.Swap` | trainer.js:214-215 | a destructuring swap exchanges two positions and keeps the rest |
| `Dataset.FisherYates` | trainer.js:212-216 | the reference shuffle from index i down to 1 keeps the length; `FisherYatesPermutes` shows it is a permutation |
| `Dataset.SwapPermutes` | trainer.js:214-215 | a swap is a permutation |
| `Dataset.FisherYatesPermutes` | trainer.js:212-216 | the shuffle is a permutation of its input |
| `Dataset.ZipSwap` | trainer.js:214-215 | swapping `xs` and `ys` at the same positions swaps their (x, y) pairs |
| `Dataset.FisherYatesStep` | trainer.js:212-216 | one iteration of the lockstep loop is one step of the pair shuffle |
| `Dataset.Shuffle` | trainer.js:211-216 | the in-place lockstep loop over two arrays performs the pair shuffle |
| `Dataset.ToArrays` | trainer.js:207 | the mutable `xs` and `ys` lists become fresh arrays holding the assembled values |
| `Dataset.ShuffledCopy` | trainer.js:211-216 | the assembled lists, shuffled in place, have their length and hold the pair shuffle of their pairs |
| `Dataset.BuildTrainingSet` | trainer.js:207-216 | the fitted set has nP + nN pairs, ordered as the shuffle leaves them, and is a permutation of the labelled pairs |
| `Recorder.Key` | trainer.js:185 | the store key of a label; "clone_sign" belongs to the clone-sign class only |
| `Recorder.Cancelled` | trainer.js:174-181 | `cancelRecording` clears both timers and `recording` |
| `Recorder.CountdownStarted` | trainer.js:122-131 | `startCountdown` cancels first and then counts down from 3 under the label, with nothing being recorded |
| `Recorder.RecStarted` | trainer.js:146-156 | `startRec` sets `recording` to the label and a 4-second record timer |
| `Recorder.Stopped` | trainer.js:167-172 | `stopRec` clears `recording` and the record timer |
| `Recorder.CountdownTick` | trainer.js:133-143 | a countdown callback takes one second off; at zero it clears its timer and starts recording under its label |
| `Recorder.RecordTick` | trainer.js:156-164 | a record callback takes one second off; at zero it stops recording |
| `Recorder.KeyDown` | trainer.js:191-193 | a mapped key that is not an auto-repeat starts a countdown; anything else does nothing |
| `Recorder.Tick` | trainer.js:133-164 | one second of the running interval: it never starts a countdown, only runs one down by one second under the same label, and with no interval running nothing changes |
| `Recorder.Ticks` | trainer.js:133-164 | time alone never starts a countdown: one present after n seconds was already running under the same label |
| `Recorder.KeyMapLabels` | trainer.js:190 | "1" starts a clone-sign countdown, "2" an other-pose countdown, and no other key starts anything |
| `Recorder.TickPreservesWellFormed` | trainer.js:133-164 | a second passing keeps at most one timer running, with `recording` set exactly while recording |
| `Recorder.TicksPreserveWellFormed` | trainer.js:133-164 | the same holds after any number of seconds |
| `Recorder.StartRecReplacesNoTimer` | trainer.js:139-141 | when the countdown expires no record timer is running, so `startRec` never orphans an interval |
| `Recorder.TicksAdd` | trainer.js:133-164 | m seconds followed by n seconds is m + n seconds |
| `Recorder.CountdownRuns` | trainer.js:133-143 | a countdown with r seconds left is still counting, with nothing recorded, for r − 1 ticks, and is recording under its label after r |
| `Recorder.RecordRuns` | trainer.js:156-164 | a recording with r seconds left keeps recording for r − 1 ticks and is idle, with no timer left, after r |
| `Recorder.IdleStays` | trainer.js:133-164 | with no timer running, nothing changes |
| `Recorder.Session` | trainer.js:122-172 | after `startCountdown(label)` from any state: nothing is recorded for 3 seconds, the label is recorded for the next 4, and the machine is idle with no timer from then on |
| `Trainer.Imported` | trainer.js:285-286 | an imported key's list, or the empty list when the key is missing |
| `Trainer.TrainerState.constructor` | trainer.js:103-105 | page load: both lists empty, nothing recording, no timers, no model, and the controls well formed |
| `Trainer.TrainerState.CaptureFrame` | trainer.js:109-114 | only while recording and with both hands present, exactly one sample (the frame's `extract`) is appended to the recorded label's list; otherwise, and always for the other label, that list is unchanged; the controls stay well formed |
| `Trainer.TrainerState.CancelRecording` | trainer.js:174-181 | the state becomes `Recorder.Cancelled`, which is well formed whatever came before |
| `Trainer.TrainerState.StartCountdown` | trainer.js:122-144 | the state becomes `Recorder.CountdownStarted`, which is well formed |
| `Trainer.TrainerState.StartRec` | trainer.js:146-165 | the state becomes `Recorder.RecStarted` |
| `Trainer.TrainerState.StopRec` | trainer.js:167-172 | the state becomes `Recorder.Stopped` |
| `Trainer.TrainerState.CountdownTick` | trainer.js:133-143 | one countdown callback is `Recorder.CountdownTick`, and it keeps the state well formed |
| `Trainer.TrainerState.RecordTick` | trainer.js:156-164 | one record callback is `Recorder.RecordTick`, and it keeps the state well formed |
| `Trainer.TrainerState.KeyDown` | trainer.js:190-193 | the keydown handler is `Recorder.KeyDown`, and it keeps the controls well formed |
| `Trainer.TrainerState.Train` | trainer.js:198-216 | training happens exactly when both classes hold at least 5 samples; otherwise the model is unchanged; the samples never change; a new model is fitted on a shuffled permutation of the labelled pairs |
| `Trainer.TrainerState.ImportData` | trainer.js:281-292 | the imported lists are appended after the existing ones, and a missing key appends nothing |
| `Trainer.TrainerState.ClearData` | trainer.js:306-311 | both lists become empty |

## Left out

- MediaPipe Holistic and SelfieSegmentation, the camera loop, and `grabPerson` mask compositing are external I/O. The person image is the `Person` draw command, and the mask's presence is a boolean.
- Canvas drawing, `drawFingerSkeleton`/`drawHand` pixel math, the trainer's mirroring and the watermark are rendering only. Draws are emitted as commands in order.
- TensorFlow.js model loading, construction, `fit`, `predict`, `dispose` and `model.save` are foreign calls. The classifier is an uninterpreted function, and a trained model is represented by the training set it was fitted on.
- The network topology, the epochs and the training progress text are left out.
- Floating-point arithmetic and `Math.sqrt` are left out: coordinates are exact reals and the square root is a parameter.
- `Landmarks.HandScale`: a NaN distance, which the fallback would also turn into 1, cannot arise with exact reals.
- `performance.now()` is read once per frame. The source reads it separately in the trigger block, the activation pass, `spawnSmoke`, `drawClones` and `drawSmokes`, so the model collapses those readings to one `now`. Times are integers, so sub-millisecond timestamps are not modelled.
- `setInterval`/`setTimeout` scheduling and the async `onFrame` chain are left out. Each interval callback is one tick. The closure variable `remaining` is kept inside the timer value.
- The 200 ms "pop" class timeout of `toggleImage` is left out.
- Interleavings of the async train handler with other handlers during `await model.fit` are not modelled. `Train` is atomic.
- DOM text, badges, the sample counters, the confidence readout of `predictGesture` and the trainer's `updateConf` are left out. So are the export button's Blob download, the FileReader and JSON parsing: an import is modelled as a map from keys to sample lists.
- `Trainer.TrainerState.ImportData`: falsy non-list values under a key are not modelled; the map holds lists only.
- The trainer's live inference (trainer.js:39-44) is the same `extract`-then-classify step as `predictGesture` and is left out.
- The order of `Math.random()` calls is not modelled. The injected values are indexed by the loop index of the shuffle and by the slots 2i and 2i+1 of clone i's smoke pair. Any sequence of draws can be laid out this way.
- The trainer's label strings are the datatype `Label`, and `Key` maps it to the store key.
- `window.onload` (script.js:331-334) clears only the latch and the start time. It leaves the flags, the smoke pool and the overlay alone. It therefore matches the constructor's state only when no frame has run before load, and it is not modelled separately.
- `Sequencer.Session.ToggleImage`: the `img` and `btn` lookups are assumed to succeed. If the elements are missing the source would throw, and that path is not modelled.
- The initial `data-state` of the overlay comes from the page's HTML, which is not part of this model. It is taken to be "1", the state `resetClones` restores.
