# Camera assistant sensor core and LED animations, modelled in Dafny

This project models two parts of an always-on camera assistant.

- The camera pipeline of `services/camera_service.py`:
  - the gaze test that decides whether a detected face looks at the device;
  - one iteration of the wake-face detector, which reports an event and feeds the face queue;
  - the recogniser, which votes one store name per face, debounces repeated recognitions through a name history and reports `face_recognized`;
  - the enrolment loop, which appends one embedding per frame with a looking face to the face store and its `;`-separated file and reports progress;
  - the reordering of pixel boxes into face_recognition's `(top, right, bottom, left)` tuples.
- The LED ring animations of `services/eva_led.py`:
  - the state classes (`Joy`, `Loop`, `Progress`, `Breath`, `StaticColor`, `Close`) with their tables, `get_next_color` and equality;
  - the driver `EvaLed`, whose `set`, run loop and `stop` call `led.set`.

Modules:

- `Wrappers`: Python's `None`-or-value.
- `Numeric`: `int()` on floats, which truncates toward zero.
- `Vision`: shared values (keypoints, boxes, detections, frames, callback events).
- `Gaze`: `check_looking` and the looking-face filter.
- `Wakeface`: the face queue, the detector step, the vote, the gate and history update, the recogniser loop.
- `FaceDb`: the in-memory lists and the encodings file.
- `RecordFace`: the enrolment loop.
- `Leds`: the LED states and the driver.

The outside world becomes inputs:

- Camera frames and the face detector's output (keypoints, boxes) are inputs.
- So is the embedding face_recognition yields for each box. A `Detection` carries it.
- So are the `compare_faces` match vectors of each embedding against the store.
- The stop flag is a `Stopped` tick (enrolment) or a number of iterations (LED loop).
- `str(float)` is a formatting function parameter.
- The LED hardware is a log of `led.set` arguments.
- The callback is a list of returned events.

Three behaviours of the code that the model keeps as written:

- `check_looking` divides by the tragion span and the eye-to-mouth span on lines 142 and 147 without a guard. The model therefore requires both spans to be non-zero (see Left out).
- `face_queue` is an unbounded `queue.Queue` (line 155). Only the no-face paths of the detector drain it. A looking frame is appended without dropping anything.
- The gate on line 167 closes as soon as the history holds any non-empty name. A real name is therefore reported once per episode and then holds count one.

## Model

| member | source | states |
|---|---|---|
| `Vision.CssBox` | services/camera_service.py:175 | The same reordering as line 255. A box with ordered, non-negative sides gives `0 <= top <= bottom` and `0 <= left <= right`. |
| `Vision.CssBoxRoundTrip` | services/camera_service.py:255 | A box on whole pixels is recovered unchanged from its `(top, right, bottom, left)` tuple. |
| `Gaze.CheckLooking` | services/camera_service.py:131-152 | The test accepts exactly when the nose tip lies in both spans, with `incr` of each span cut from both ends. The spans run from tragion to tragion and from eye midpoint to mouth, in either direction. |
| `Gaze.NormalisedInTrimmed` | services/camera_service.py:142-152 | Normalising a coordinate into [0, 1] and comparing with `[incr, 1 - incr]` equals comparing the raw coordinate with the trimmed segment. |
| `Gaze.MidpointIsLooking` | services/camera_service.py:131 | A nose at the midpoint of both spans passes at the default tolerance 0.25. |
| `Gaze.TragionIsNotLooking` | services/camera_service.py:142-152 | A nose on either tragion fails for every positive tolerance. |
| `Gaze.LookingIsInvariant` | services/camera_service.py:142-147 | Moving the face or rescaling an axis by a non-zero factor does not change the verdict; pixel or normalised keypoints give the same answer. |
| `Gaze.LookingDetections` | services/camera_service.py:99-103 | The filtered detections are drawn from the input, all pass the test, every passing detection is kept, and there are no more of them than detections. |
| `Gaze.LookingDetectionsSingle` | services/camera_service.py:99-103 | One detection is kept, once, exactly when it passes the test, and dropped otherwise. |
| `Gaze.LookingDetectionsConcat` | services/camera_service.py:99-103 | Filtering a concatenation is filtering each part and concatenating the results. With the single-detection case this fixes the order and multiplicity of the kept detections. |
| `Gaze.NoneLookingIff` | services/camera_service.py:105 | The looking list is empty exactly when no detection passes the test. |
| `Gaze.FirstLookingIsEarliest` | services/camera_service.py:259 | The first looking detection is the earliest passing one; no detection before it passes. |
| `Gaze.LookingBoxesSingle` | services/camera_service.py:99-103 | A single detection gives its box scaled by `(w, h)` when it passes the test, and no box otherwise. |
| `Gaze.LookingBoxesConcat` | services/camera_service.py:99-103 | `LookingBoxes` models the comprehension. The boxes of a concatenation are the boxes of each part, in order. With the single-detection case: one scaled box per looking detection, in detection order. |
| `Wakeface.FaceQueue.Put` | services/camera_service.py:117 | `put` appends at the back; nothing else changes. |
| `Wakeface.FaceQueue.Get` | services/camera_service.py:161-163 | `get` takes the front item; on an empty queue it reports the `queue.Empty` case and leaves the queue empty. |
| `Wakeface.Drain` | services/camera_service.py:95 | The emptying loop leaves the queue empty. |
| `Wakeface.DetectorStep` | services/camera_service.py:93-117 | No detections: `not_faces`, and the queue holds only `(None, [])`. Detections but nobody looking: `face_not_listen`, and the queue holds only `(None, [])`. Someone looking: `face_listen`, and `(frame, looking boxes)` is appended to the queue. |
| `Wakeface.VoteIsUnique` | services/camera_service.py:199-202 | At most one result satisfies the vote's definition, so the vote is a function of the matches and the store names. |
| `Wakeface.Tally` | services/camera_service.py:192-198 | Every name is counted with its number of matching store entries, and no other name. Names are in order of first match. |
| `Wakeface.TallyWinner` | services/camera_service.py:202 | The first name in insertion order with the largest count is the vote, as `max(counts, key=counts.get)` picks it. |
| `Wakeface.Vote` | services/camera_service.py:184-205 | `None` when no entry matched. Otherwise a name with the most matching entries; on a tie, the one matched first. |
| `Wakeface.Recognize` | services/camera_service.py:174-207 | One vote per embedding, in embedding order, each satisfying the vote's definition. |
| `Wakeface.GateOpenIff` | services/camera_service.py:167 | `GateOpen` models the test of line 167. The gate is open exactly when every key is an unknown face with a count below 3. Any real name closes it. |
| `Wakeface.UpdateThroughOpenGate` | services/camera_service.py:168-170 | `Updated` models the counter of line 170. After an update through an open gate, a real name has count 1 and an unknown face a count from 1 to 3. |
| `Wakeface.RecognisedNameClosesGate` | services/camera_service.py:167-170 | Recognising a real name gives it count 1 and closes the gate. |
| `Wakeface.UnknownRetriedThreeTimes` | services/camera_service.py:167-170 | An unknown face alone is recognised on three consecutive frames. Its count goes 1, 2, 3 and the gate then closes. |
| `Wakeface.RecognizeStep` | services/camera_service.py:165-171 | A `(None, [])` item clears the history with no event. A closed gate changes nothing. An open gate runs `recognize`: the new history has one key per distinct recognised name, each at its old count plus one, and it is reported. The invariant on histories is preserved. |
| `Wakeface.Receive` | services/camera_service.py:160-171 | One loop pass. A `queue.Empty` timeout or a closed gate keeps the history, and an item without boxes empties it. Through an open gate, every box gets a vote satisfying the vote's definition, and each distinct vote is recorded at its old count plus one. An event is reported exactly when the item has boxes and the gate was open, and it carries the new history. |
| `Wakeface.RunRecognize` | services/camera_service.py:154-171 | The histories start empty, and each receive moves them by one such pass. The events are exactly the new histories of the receives that report, in receive order. Every history held and every payload satisfies the invariant, and there is at most one event per receive. |
| `Wakeface.ReportedInvariant` | services/camera_service.py:167-171 | There is at most one report per receive, and each payload is a history in the invariant. |
| `FaceDb.SplitJoin` | services/camera_service.py:39 | Splitting on `;` undoes joining when no field holds `;`. |
| `FaceDb.RowRoundTrip` | services/camera_service.py:39-40 | A stored row read back gives the name followed by every component's text, when neither holds `;`. |
| `FaceDb.Render` | services/camera_service.py:39 | One text per component, in order, each `str(val)`. |
| `FaceDb.FaceDb.Empty` | services/camera_service.py:30-31 | An empty file loads as empty lists. |
| `FaceDb.FaceDb.Loaded` | services/camera_service.py:25-29 | A parsed file loads as its names and 128-wide embeddings. |
| `FaceDb.FaceDb.Append` | services/camera_service.py:34-40 | The name and the embedding go at the end of their lists, the lists stay parallel and 128 wide, and the file gains exactly one `;`-joined row ending in a newline. |
| `RecordFace.FirstEncodingOfLooking` | services/camera_service.py:246-259 | The embedding stored for a frame is that of its first looking face, and a frame without one stores nothing. |
| `RecordFace.Recorded` | services/camera_service.py:232-261 | The loop never stores more than `n_frames` embeddings. |
| `RecordFace.RecordedCount` | services/camera_service.py:232-261 | It stores exactly `n_frames` when at least that many frames before a stop show a looking face, and one per such frame otherwise. |
| `RecordFace.ProgressWithinRange` | services/camera_service.py:263 | `Progress` models the percentage of line 263. For any `n_frames` of at least one, every stored embedding reports progress above 0 and at most 100, and the last reports exactly 100. |
| `RecordFace.ProgressIncreases` | services/camera_service.py:263 | Reported progress is positive and strictly increasing with the counter, and never above 100. |
| `RecordFace.Store` | services/camera_service.py:260 | One append keeps the store equal to the starting store plus the samples so far. |
| `RecordFace.Turn` | services/camera_service.py:236-263 | One loop turn on a captured frame appends that frame's contribution to the store, the counter and the progress events. |
| `RecordFace.Run` | services/camera_service.py:228-263 | The store ends as its old contents plus the recorded embeddings under the given name, with the file extended by their rows. The counter is their number, at most `n_frames`. The events are one `recording_face` per stored sample with progress `k*100/n_frames`. |
| `Leds.QuotientFloor` | services/eva_led.py:20 | `int(a / d)` with true division is the integer quotient. |
| `Leds.Interval` | services/eva_led.py:38 | The step is `255 // length`, and `length` steps fit in 255. |
| `Leds.Ramp` | services/eva_led.py:21 | The ramp has one level per LED, starts at 255, stays within 0..255 and never increases. |
| `Leds.Reverse` | services/eva_led.py:22 | `s[::-1]`: same length, entry `i` equals entry `len - 1 - i` of the input. |
| `Leds.BrightTableShape` | services/eva_led.py:68-70 | The `Joy`/`Breath` table has `2 * length` levels, reads the same backwards, stays within 0..255, and starts and ends at 255. |
| `Leds.LoopWindow` | services/eva_led.py:38-44 | `LoopTable` models the doubled lap of lines 38-40. `bright[index : index + length]` is always a whole ring, namely the lap rotated to start at `index`. |
| `Leds.ModSucc` | services/eva_led.py:45 | Stepping an index modulo `d` once more is stepping the count by one. |
| `Leds.CycleFrames` | services/eva_led.py:25-29 | Tick `j` of a periodic state writes the frame at index `start + j` modulo its period. |
| `Leds.CycleRepeats` | services/eva_led.py:73-77 | After one period (`2 * length` ticks for `Joy`/`Breath`, `length` for `Loop`) the writes repeat. |
| `Leds.LitCountBounds` | services/eva_led.py:57 | `LitCount` models `int(percentage * led.length / 100)`. For a percentage in 0..100, the lit count is between 0 and `length`, and 100% lights every LED. |
| `Leds.LitCountMonotone` | services/eva_led.py:57 | A larger percentage never lights fewer LEDs. |
| `Leds.Repeat` | services/eva_led.py:59 | `[c] * k` has `k` copies of `c`, or none when `k` is not positive. |
| `Leds.DrainFrames` | services/eva_led.py:98-102 | Tick `j` of `Close` shows `lit - 1 - j` LEDs while any remain, and black after. |
| `Leds.EqualsIsSameKind` | services/eva_led.py:13-14 | `Leds.LedState.Equals` models the `__eq__` methods. Two states compare equal exactly when they are of the same class with the same constructor arguments. The position of an animation never matters. |
| `Leds.EqualsIsEquivalence` | services/eva_led.py:104-105 | State equality is reflexive, symmetric and transitive. |
| `Leds.LedState.constructor` | services/eva_led.py:6-8 | A plain state writes black when installed. |
| `Leds.LedState.Joy` | services/eva_led.py:17-23 | Starts at index 0 on the mirrored table and writes black when installed. |
| `Leds.LedState.Loop` | services/eva_led.py:33-40 | Starts at index 0 on the doubled ring and writes black when installed. |
| `Leds.LedState.Progress` | services/eva_led.py:52-59 | Installing writes `LitCount` copies of the colour. |
| `Leds.LedState.Breath` | services/eva_led.py:64-71 | Starts at index 0 on the mirrored table and writes black when installed. |
| `Leds.LedState.StaticColor` | services/eva_led.py:83-86 | Installing writes the colour. |
| `Leds.LedState.Close` | services/eva_led.py:91-96 | Starts with every LED lit in the colour and installs that array. |
| `Leds.LedState.GetNextColor` | services/eva_led.py:10-102 | A periodic state returns its frame and moves the index one step round its period. `Close` drops its last lit LED and returns the rest, or returns black when none is left. The other states return `None` and change nothing. |
| `Leds.EvaLed.constructor` | services/eva_led.py:131-133 | The driver starts on static black and has written black once. |
| `Leds.EvaLed.Set` | services/eva_led.py:138-142 | A state equal to the installed one changes nothing. Any other is installed, and its initial colours are written once. Afterwards the installed state equals the argument. |
| `Leds.EvaLed.SetTwice` | services/eva_led.py:140 | Setting the same state twice has the effect of setting it once. |
| `Leds.EvaLed.Tick` | services/eva_led.py:146-148 | One loop pass writes what `get_next_color` returned, unless it is `None`. |
| `Leds.EvaLed.Run` | services/eva_led.py:144-149 | After `steps` passes, a periodic state's index has advanced by `steps` modulo its period and the log gained exactly that run of frames. `Close` has `steps` fewer lit LEDs (never fewer than none) and the log gained its draining frames. The other states wrote nothing. |
| `Leds.EvaLed.Stop` | services/eva_led.py:156-159 | Stopping writes black once and changes nothing else: the installed state and the driver's invariant are kept. |

## Left out

- Threads, `Event`s, the lock around `set`, `sleep`, `get(timeout=.5)` and thread joins: the model treats each loop as a sequence of iterations given as input. Interleavings of the detector and recogniser threads are not modelled.
- The `print` calls on lines 169 and 234 of `services/camera_service.py`: console output only.
- `CameraService`, camera start/stop and frame capture are foreign calls; frames are inputs. The presence detector module is not part of this model.
- The face detector, `face_recognition.face_encodings` and `compare_faces` are foreign models. Their outputs are inputs: keypoints and boxes, one embedding per detection, and one boolean per store entry. `Wakeface.RecognizeStep` and `Wakeface.RunRecognize` require one match vector per box of the item, as `face_encodings` with known locations yields one embedding per location.
- `FaceDB.load` parsing of the CSV through pandas: the store starts empty or from already parsed lists (`FaceDb.FaceDb.Loaded`). `FaceDB.dump` calls `to_csv` on a dictionary, which has no such method, and is not modelled.
- `str(val)` for floats is an uninterpreted `fmt` parameter; floating point is modelled by exact reals, so rounding is not captured.
- `Gaze.CheckLooking`: requires non-zero tragion and eye-to-mouth spans, because the code divides by both spans without a guard. What it does on a zero span is not modelled: an exception on Python floats, an infinite or undefined quotient (and so `False`) on numpy scalars. `Wakeface.DetectorStep` and `RecordFace.Run` exclude such detections through `NonDegenerate`.
- Dictionary order: `max(counts, key=counts.get)` is modelled by insertion order, which Python guarantees. The key order of the history built from `set(names)` is not modelled.
- `RecordFace.Recorded`: the 128-component width of each stored embedding is kept by the store's invariant (`FaceDb.FaceDb.Valid`) rather than stated in this function's ensures.
- `RecordFace.Run`: `encodings[0]` is taken to be the embedding of the first looking box. The model gives each detection its embedding, so a face_recognition call that returns none for a box is not modelled.
- `Rainbow`: its constructor skips `LedState.__init__`, so it has no `initial_led_state` and `set` on it would fail. It animates with `sin` and `round` on floats. Not modelled.
- `Leds.LedState.Joy`, `Leds.LedState.Loop`, `Leds.LedState.Breath`: require at least one LED, because `int(255 / led.length)` raises `ZeroDivisionError` on an empty ring. `led.length` is a field of each state rather than a global, and `EvaLed.Set` requires it to match the driver's.
- `Wakeface.RunRecognize`: the `face_recognized` payload on line 171 is the `face_history` dictionary object itself, which the next `face_history.clear()` on line 166 empties in place unless an update on line 170 has rebound the name to a new dictionary first. The model's event holds the history's value at the time of the call, not the live aliasing.
- `Leds.LedState.Progress`: the code's defaults `color='green'` and `percentage=0` are not modelled; the constructor takes both explicitly.
- `Leds.LedState.Close`: the code hands `led.set` the same list object that later pops shrink. The write log records the list's contents at the time of the call, not the live aliasing.
- Channel dictionaries such as `{'r': v, 'g': v}` are maps with no key order.
