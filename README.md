# Dictation pipeline: a verified model

This project models the core of a browser dictation client. The client takes
microphone audio and resamples it to 16 kHz by block averaging. It encodes the
result as 16-bit samples and batches the samples into frames on a 20 ms
wall-clock window. The frames go to a streaming transcription socket. Inbound
transcripts are spliced into a text field at the caret, with a one-space
separator rule.

Modules:

- `AudioUtils` (audio_utils.dfy) is the resampler `decreaseSampleRate` and the
  encoder `convertFloat32ToInt16`.
  - Each is given first as a pure specification function on sequences
    (`Resample`, `Encode`).
  - Each is then given as a method with the source's loops over arrays
    (`DecreaseSampleRate`, `ConvertFloat32ToInt16`). The method is proved to
    compute the specification function.
  - Samples are exact reals. The resampling ratio is the exact rational
    `inRate/outRate`. `Math.round` is `Floor(x + 1/2)`.
  - The window grid and the output length are proved equal to integer closed
    forms. On those forms rest the lemmas about length, contiguity, coverage,
    clipping and the integer-ratio case.
- `Arith` (arith.dfy) holds small lemmas about integer division and
  multiplication that the grid proofs use.
- `TextInsertion` (text_insertion.dfy) is the spacing and splicing rule of
  `insertAtCursor`, on plain strings.
- `Batching` (batching.dfy) is steps 3 and 4 of `processAudio`: accumulate,
  then flush on the window. It also gives a run of the batcher over a
  sequence of `(block, now)` ticks, with its order, non-emptiness and spacing
  lemmas.
- `Dictation` (dictation.dfy) is the `DictationApp` object.
  - It is a class with the source's fields. Each method and each socket
    handler (`onopen`, `onmessage`, `onerror`, `onclose`) is one atomic
    method with a `modifies` frame.
  - The text field is a small class whose value and selection are updated
    in place.
  - Two ghost logs record what the object does. `sent` holds the frames
    written to the socket. `log` holds the callbacks fired and the resources
    released.
  - The clock is an integer `now` parameter.
  - The browser's answers are boolean parameters of `OnOpen`: microphone
    granted, worklet supported, module loaded. An audio context records
    whether the worklet module was added to it, and creating the worklet
    node fails on a context without it.
  - Four scenario methods drive the object through whole dictations:
    - `TranscriptScenario`: start, then open; the transcript "patient
      stable" goes into an empty field and the caret ends at 14; a status
      message is ignored.
    - `CloseScenario`: the user stops while the socket is open; the socket's
      close then fires `onclose`, whose second stop changes nothing but
      repeats the callback; a start without a microphone is refused.
    - `ErrorThenClose`: a socket error during a dictation is reported and
      stops it; the close event that follows stops again, changing no field
      and firing the callback a second time.
    - `StaleWorkletScenario`: the double start described under "## Findings".

Where the code and the system's written description differ, the model follows
the code:

- Spacing checks only the literal space character `' '`, not all whitespace.
  A newline or a tab before the caret still gets a space added
  (`InsertSeparatorExamples`).
- Inserting "hello" at offset 5 of "world " gives "world hello " with caret
  11. Offset 5 lies before the trailing space, so a space is added and the old
  space follows the fragment. Offset 6 gives "world hello".
- A flush happens when strictly more than 20 ms have passed. That is true even
  when the accumulator is empty: the timestamp is then reset and nothing is
  sent. Frames are spaced by more than 20 ms, not by at least 20 ms.
- The start guard is `isRecording` alone, and it is set only in `onopen`. So a
  second start while the handshake is under way is not blocked. The socket it
  opens replaces the old one without closing it.
- The captured caret is `selectionStart || value.length`. A caret at offset 0
  is therefore captured as the end of the value. Insertion ignores the captured
  `cursorPos` and uses the field's live `selectionStart`.
- Stopping is not a pure no-op when already stopped. It fires the
  recording-state callback again, with `false`. The state is then unchanged
  (`StopEffectsExact`, `AfterStopIdempotent`, `CloseScenario`). This repeat
  happens when a stop is issued while the socket is open (the page's toggle
  or Escape key): its `ws.close()` later fires `onclose`. After an unexpected
  close the socket is already closed, `ws.close()` does nothing, and the
  callback fires once. After a socket error it fires twice: once from the
  stop in `onerror`, and once from the `onclose` that a WebSocket always
  fires after an `error` event, since stopping drops the socket but does not
  detach its handlers (`ErrorThenClose`).
- Stopping clears `activeInput` but keeps `cursorPos`.
- If the microphone or the worklet fails in `onopen`, the context is closed.
  A stream already acquired is kept until the next stop.

## Model

| member | source | states |
|---|---|---|
| AudioUtils.RoundHalfUp | audioUtils.js:27 | `Math.round` gives the unique integer within one half of x; a tie goes to the upper integer |
| AudioUtils.Ceil | audioUtils.js:21 | `Math.ceil` gives the least integer not below x |
| AudioUtils.BoundaryClosedForm | audioUtils.js:27 | grid point k, `round(k * in/out)`, equals `(2k*in + out) div (2*out)` |
| AudioUtils.OutLengthClosedForm | audioUtils.js:20-21 | the output length `ceil(len / (in/out))` equals `-((-len*out) div in)` |
| AudioUtils.OutLengthIsCeiling | audioUtils.js:20-22 | the output length n is non-negative, and `(n-1)*in < len*out <= n*in`: it is `ceil(len*out/in)` |
| AudioUtils.BoundaryZero | audioUtils.js:24-27 | the first window starts at index 0 |
| AudioUtils.BoundaryStrictlyIncreasing | audioUtils.js:27 | when downsampling, each grid point is at least one past the previous one |
| AudioUtils.BoundaryMonotone | audioUtils.js:27-36 | the grid is monotone, so windows never go backwards |
| AudioUtils.WindowStartsInBuffer | audioUtils.js:26-30 | every output window starts inside the buffer or exactly at its end |
| AudioUtils.LastBoundaryCoversInput | audioUtils.js:21-30 | the grid point after the last window is at or past the buffer's end, so the windows cover the input |
| AudioUtils.ResampleIdentity | audioUtils.js:16-18 | with `inRate <= outRate` the buffer comes back unchanged |
| AudioUtils.ResampleAt | audioUtils.js:20-37 | the downsampled buffer has the output length; sample i is the sum over `[round(i*r), min(round((i+1)*r), len))` divided by the window's size |
| AudioUtils.WindowsContiguous | audioUtils.js:27-36 | a window ends no later than any later window starts; an unclipped window ends exactly where the next begins |
| AudioUtils.EveryIndexInOneWindow | audioUtils.js:26-37 | every input index lies in some output window, and in only one |
| AudioUtils.FindWindow | audioUtils.js:26-36 | an index between grid points 0 and m lies in the window of some grid point below m |
| AudioUtils.IntegerRatioBoundary | audioUtils.js:27 | with integer ratio r, grid point k is exactly `k*r` |
| AudioUtils.IntegerRatioWindows | audioUtils.js:21-30 | with integer ratio r, window i is `[i*r, min((i+1)*r, len))` and is non-empty for every output index |
| AudioUtils.IntegerRatioCoverage | audioUtils.js:21-27 | with integer ratio r, every output window starts strictly inside the buffer |
| AudioUtils.EmptyLastWindow | audioUtils.js:21-34 | for a non-integer ratio the last window can be empty (7 Hz to 5 Hz on 6 samples), where the source computes 0/0 |
| AudioUtils.OnlyLastWindowEmpty | audioUtils.js:26-34 | every window but the last holds at least one index |
| AudioUtils.SumBounds | audioUtils.js:28-33 | a sum of samples within [lo, hi] lies within count*lo and count*hi |
| AudioUtils.MeanBounds | audioUtils.js:28-34 | an average lies within the bounds of the samples averaged |
| AudioUtils.ResampleBounded | audioUtils.js:26-37 | downsampling never leaves the range of the input: every output of a non-empty window lies within the input's bounds |
| AudioUtils.AverageWindow | audioUtils.js:28-34 | the inner loop returns the mean of the buffer from the window's start up to its end clipped to `buffer.length`, and never reads past that length |
| AudioUtils.DecreaseSampleRate | audioUtils.js:11-39 | returns the same array when not downsampling, a fresh one otherwise; its contents equal `Resample` of the input |
| AudioUtils.Clamp | audioUtils.js:52 | the clamp lies in [-1, 1], keeps values inside it and saturates outside it |
| AudioUtils.EncodeSample | audioUtils.js:49-53 | an encoded sample lies in [-32767, 32767]; inputs >= 1 give 32767, inputs <= -1 give -32767 |
| AudioUtils.EncodeSampleNearest | audioUtils.js:52-53 | the encoded sample is within half a step of the scaled clamped input |
| AudioUtils.EncodeTiesRoundUp | audioUtils.js:53 | ties round toward +infinity: +0.5 encodes as 1, -0.5 as 0 |
| AudioUtils.EncodeSampleMonotone | audioUtils.js:52-53 | a larger input never encodes lower |
| AudioUtils.ConvertFloat32ToInt16 | audioUtils.js:46-56 | a fresh array of the same length; each element is `round(clamp(x[k]) * 32767)` of the input at the same index; the whole equals `Encode` of the input |
| TextInsertion.Spaced | dictation-app.js:44-51 | the text inserted always ends with the whole fragment; it is one character longer exactly when pos > 0, the character before pos is not ' ' and the fragment does not start with ' '; the extra character is a space |
| TextInsertion.SpaceAddedIff | dictation-app.js:44-55 | the value grows by `|text|+1` exactly when pos > 0, the character before pos is not ' ' and the text does not start with ' '; it grows by `|text|` exactly when that fails |
| TextInsertion.InsertSplices | dictation-app.js:54-61 | the new value keeps the prefix before pos and the suffix after it, holds the inserted text between them, grows by exactly its length, and the caret ends right after it |
| TextInsertion.NoWordsGlued | dictation-app.js:47-55 | after inserting a non-empty fragment past the start, a space separates the old text from the new |
| TextInsertion.NoDoubleSpace | dictation-app.js:47-55 | an added space is never next to another space |
| TextInsertion.VerbatimInsertion | dictation-app.js:49-55 | at offset 0, after a space, or for a fragment that already starts with one, the fragment goes in verbatim |
| TextInsertion.InsertExamples | dictation-app.js:44-61 | worked examples: "world " at 6 gives "world hello", at 5 gives "world hello ", an empty field takes the fragment as it is, each with its caret |
| TextInsertion.InsertSeparatorExamples | dictation-app.js:44-61 | worked examples: a fragment with and without its own leading space gives the same text; a newline before the caret still gets a space |
| Batching.Accumulate | dictation-app.js:99-115 | nothing is lost or reordered: the frame sent (if any) followed by the new accumulator is the old accumulator followed by the block; a sent frame is non-empty and leaves nothing behind; a frame goes out iff more than 20 ms have passed and there is data; the timestamp never goes back, and it moves, to now, iff the window elapsed |
| Batching.RunPreservesOrder | dictation-app.js:100-115 | over any run, the flushed frames followed by the remaining accumulator are the initial accumulator followed by every block, in order |
| Batching.RunFramesNonEmpty | dictation-app.js:110-112 | no flushed frame is empty |
| Batching.RunFramesSpaced | dictation-app.js:108-115 | each frame comes more than 20 ms after the previous one, the first more than 20 ms after the initial timestamp; the timestamp never decreases |
| Dictation.DispatchOnlyTranscripts | dictation-app.js:217-234 | a dispatched text determines its message: a parsed "transcript" message carrying that non-empty text; and every non-empty text sent in such a message comes back out, while the empty one does not |
| Dictation.CapturedCursorBounds | dictation-app.js:165 | the captured caret stays within the value; it is 0 only for an empty value; a non-zero selection start is kept |
| Dictation.AfterStop | dictation-app.js:251-277 | definition, no contract of its own: the state once stopDictation has run; `AfterStopIdempotent` and `ReleasedIsAfterStop` state its meaning |
| Dictation.AfterStopIdempotent | dictation-app.js:251-277 | stopping twice leaves the same state as stopping once; a released state is a fixed point |
| Dictation.ReleasedIsAfterStop | dictation-app.js:251-277 | a released state with the same language, caret and timestamp is exactly the state after a stop |
| Dictation.StopEffectsExact | dictation-app.js:252-271 | from a released state a stop only fires the callback; the tracks are stopped iff there is a stream; the socket is closed iff there is one; the context is closed iff it is open |
| Dictation.DictationApp.constructor | dictation-app.js:9-28 | the given language, "fr" by default; not recording, no handles, no target, caret 0, empty accumulator, timestamp 0, the worklet not loaded |
| Dictation.DictationApp.InsertAtCursor | dictation-app.js:37-68 | without an active field, only an error is reported and the caret is kept; otherwise the field's value and selection become those of `Insert` at the live selection start, `cursorPos` is the new caret, and an input event and the full new value are reported |
| Dictation.DictationApp.SendData | dictation-app.js:75-79 | a frame is sent iff a socket exists and is open |
| Dictation.DictationApp.ProcessAudio | dictation-app.js:85-116 | without a context, or with a closed one, nothing changes; otherwise the accumulator, timestamp and sent frames are those of `Accumulate` on the encoded, resampled block, the frame going out only through an open socket |
| Dictation.DictationApp.StartDictation | dictation-app.js:147-171 | returns at once when recording; changes nothing when the microphone id is empty; reports an error and changes nothing else for a target that is not INPUT/TEXTAREA; otherwise captures the target and the caret, empties the accumulator and sets the timestamp to now |
| Dictation.DictationApp.OpenConnection | dictation-app.js:179-180 | the new socket is connecting and replaces any previous one |
| Dictation.DictationApp.OnOpen | dictation-app.js:182-214 | with setupRecordingWorkletNode (lines 122-138) folded in, recording starts iff the microphone is granted, worklets are supported, the object's flag is not yet set and the module loads; when the flag is already set the fresh context lacks the module and the node cannot be created; on success the context is open with the module, the node set and `true` reported; on failure the context is closed, the stream already acquired is kept, and `false` and the error are reported |
| Dictation.DictationApp.OnOpenPerContext | dictation-app.js:122-138 | the corrected open, checking the module on the context: recording starts iff the microphone is granted, worklets are supported and the module loads, whatever the object's flag says; otherwise as `OnOpen` |
| Dictation.DictationApp.OnMessage | dictation-app.js:217-234 | a dispatched transcript is inserted as by `InsertAtCursor`; any other message changes no field of the object or of the text field and fires no callback |
| Dictation.DictationApp.ReleaseStream | dictation-app.js:255-258 | the stream is dropped, its tracks stopped iff there was one |
| Dictation.DictationApp.ReleaseAudioContext | dictation-app.js:260-265 | the context and node are dropped, the context closed iff it was open |
| Dictation.DictationApp.ReleaseSocket | dictation-app.js:267-271 | the socket is dropped, and closed iff there was one |
| Dictation.DictationApp.ReleaseHandles | dictation-app.js:255-271 | stream, context, node and socket are dropped, their releases logged in that order |
| Dictation.DictationApp.StopDictation | dictation-app.js:251-277 | after a stop the state is released (not recording, no handles, no target, empty accumulator, worklet not loaded); language, caret and timestamp are kept; the log gains exactly `StopEffects` of the old state |
| Dictation.DictationApp.OnSocketError | dictation-app.js:236-240 | the transport error is reported, then the object stops as by `StopDictation` |
| AudioUtils.Boundary | audioUtils.js:27 | definition, no contract of its own: grid point k, `round(k * ratio)`; `BoundaryClosedForm` and the grid lemmas state its meaning |
| AudioUtils.OutLength | audioUtils.js:20-21 | definition, no contract of its own: `ceil(len / ratio)`; `OutLengthIsCeiling` states its meaning |
| AudioUtils.Mean | audioUtils.js:28-34 | definition, no contract of its own: the average of a range, 0.0 for an empty one; `MeanBounds` states its meaning |
| AudioUtils.WindowMean | audioUtils.js:28-34 | definition, no contract of its own: output sample i, the mean of window i clipped to the buffer |
| AudioUtils.Resample | audioUtils.js:11-39 | definition, no contract of its own: the downsampled buffer; `ResampleIdentity`, `ResampleAt`, `ResampleBounded` and `DecreaseSampleRate` state its meaning |
| AudioUtils.Encode | audioUtils.js:46-56 | definition, no contract of its own: the sample-by-sample encoding; `ConvertFloat32ToInt16` is proved to compute it |
| TextInsertion.NeedsSpace | dictation-app.js:49 | definition, no contract of its own: the spacing condition |
| TextInsertion.Insert | dictation-app.js:44-61 | definition, no contract of its own: the new value and caret; `InsertSplices` and `SpaceAddedIff` state its meaning |
| Batching.Run | dictation-app.js:100-115 | definition, no contract of its own: repeated processAudio batching over a sequence of ticks; the three `Run` lemmas state its meaning |
| Dictation.Dispatch | dictation-app.js:220-224 | definition, no contract of its own: the text onmessage forwards; `DispatchOnlyTranscripts` states its meaning |
| Dictation.CapturedCursor | dictation-app.js:165 | definition, no contract of its own: `selectionStart || value.length`; `CapturedCursorBounds` states its meaning |
| Dictation.IsTextTarget | dictation-app.js:152-158 | definition, no contract of its own: a target whose tag is INPUT or TEXTAREA |
| Dictation.TextField.Valid | dictation-app.js:44-60 | definition, no contract of its own: the selection lies inside the value |
| Dictation.TextField.constructor | dictation-app.js:44-60 | a field with the given tag and value and the caret at the given offset |
| Dictation.DictationApp.SocketOpen | dictation-app.js:76 | definition, no contract of its own: a socket exists and is open |
| Dictation.Released | dictation-app.js:251-277 | definition, no contract of its own: nothing held and not recording |
| Dictation.StopEffects | dictation-app.js:251-277 | definition, no contract of its own: the callback and the releases a stop causes, in order; `StopEffectsExact` states its meaning |
| Dictation.TranscriptScenario | dictation-app.js:147-234 | a whole dictation, checked by assertions: the transcript "patient stable" fills an empty field with the caret at 14, and a status message changes nothing |
| Dictation.CloseScenario | dictation-app.js:242-277 | checked by assertions: a user stop releases everything, the onclose that follows changes no field and only repeats the callback, and a start without a microphone is refused |
| Dictation.StaleWorkletScenario | dictation-app.js:122-214 | checked by assertions: after a double start the second open fails although the module would load; with `OnOpenPerContext` both opens succeed |
| AudioUtils.Ratio | audioUtils.js:20 | definition, no contract of its own: the exact ratio inRate/outRate, `sampleRateRatio` |
| AudioUtils.WindowStart | audioUtils.js:24-27 | definition, no contract of its own: window i starts at grid point i, where `offsetBuffer` stands when output i is computed |
| AudioUtils.WindowEnd | audioUtils.js:27-30 | definition, no contract of its own: window i ends at grid point i+1 (`nextOffsetBuffer`), clipped to the buffer length as the loop's `i < buffer.length` does |
| AudioUtils.Sum | audioUtils.js:28-33 | definition, no contract of its own: the `accum` of a range, 0 for an empty one; `SumBounds` states its meaning |
| Batching.WindowElapsed | dictation-app.js:109 | definition, no contract of its own: strictly more than 20 ms since the last flush |
| Dictation.StreamRelease | dictation-app.js:255-258 | definition, no contract of its own: the tracks are stopped iff there is a stream |
| Dictation.ContextRelease | dictation-app.js:261-263 | definition, no contract of its own: the context is closed iff there is one and it is not closed |
| Dictation.SocketRelease | dictation-app.js:268-271 | definition, no contract of its own: the socket is closed iff there is one |
| Dictation.DictationApp.InsertedAtCursor | dictation-app.js:37-67 | definition, no contract of its own: the effect of insertAtCursor between two states; without a field only the error is reported; otherwise the field holds `Insert` of its old value at its old selection start, the caret and `cursorPos` are after the text, and the input event and the new value are reported |
| Dictation.ErrorThenClose | dictation-app.js:236-277 | checked by assertions: a socket error reports the error and releases everything; the close that follows changes no field and fires the recording-state callback a second time, giving the exact effect log |
| Dictation.DictationApp.OnSocketClose | dictation-app.js:242-245 | the object stops as by `StopDictation` |

## Left out

- The token request (`fetch` and its JSON, dictation-app.js:174-176) is an HTTP call. The model goes straight from `StartDictation` to `OpenConnection`. A failed request is not modelled; in the source it leaves the target captured.
- The WebSocket URL and its query string (dictation-app.js:179) are network configuration. Only the socket's ready state is kept.
- `getUserMedia`, the `AudioContext`, `createMediaStreamSource`, `AudioWorkletNode` and `addModule` are browser APIs. The outcomes of `getUserMedia`, the worklet support check and `addModule` are the three boolean parameters of `OnOpen`, and the context's rate is a parameter. `AudioWorkletNode` is modelled only by the rule that it fails on a context the module was not added to.
- `Dictation.DictationApp.OnOpen` marks the socket the object holds as open. After a double start two sockets exist and both fire `onopen`; which one opened is not tracked, and the first context, overwritten by the second open, is not closed.
- The worklet's message port and audio-processor.js are not part of this model. Each block is a call of `ProcessAudio`.
- `focus()`, `setSelectionRange` beyond its effect on the selection, `dispatchEvent` beyond a logged `InputEventDispatched`, and `console` output are left out. None of them changes the object's state.
- The messages passed to `onError` are modelled as an `ErrorKind`, not as the French text.
- Asynchronous ordering is not captured: every handler is one atomic step. This covers the awaits inside `onopen`, the rethrow at its end, and the `onclose` that `ws.close()` on an open socket triggers later. `CloseScenario` shows that later stop as a second call. The `close` event that a WebSocket always fires after an `error` event is modelled the same way, as a separate `OnSocketClose` call after `OnSocketError` (`ErrorThenClose`).
- `DecreaseSampleRate` works on exact reals, not float32. Neither the float rounding of the ratio nor float storage of the output is modelled.
- `Mean` and `AverageWindow`: an empty window divides 0 by 0 in the source, giving NaN. The model gives it 0.0. The Int16Array store turns NaN into 0, which is also what 0.0 encodes to.
- `ConvertFloat32ToInt16` works on real-valued input: a NaN sample is not modelled.
- `Dictation.Inbound`: JSON parsing is abstracted to a parsed `type` with an optional string transcript, or `Malformed`. A truthy transcript that is not a string is not modelled.
- `SendData` sends a sequence of samples. The little-endian byte layout of `Int16Array.buffer` is not modelled.
- Strings are sequences of characters, without UTF-16 surrogate pairs. A field whose `selectionStart` is null is not modelled.
- app.js (page UI, device lists, language files, `setActiveElement`) and backend/server.js (the token proxy) are not part of this model. They are UI glue and HTTP plumbing.

## Findings

| source | as written | input that shows it | evidently intended | confidence | as-written member | corrected member |
|---|---|---|---|---|---|---|
| dictation-app.js:127-137 | whether to add the worklet module is decided by the object's `isWorkletLoaded` flag, but each `onopen` creates a fresh context and a module is registered per context; once the flag is set, the module is not added to the new context and `new AudioWorkletNode` fails there | two `startDictation` calls before the first socket opens (the `isRecording` guard is not yet set), then both sockets open, microphone granted and module loadable: the second open fails and reports a microphone error | the module is added to every context that lacks it, so the open succeeds whenever the microphone is granted, worklets are supported and the module loads | medium, not executed | Dictation.DictationApp.OnOpen, Dictation.StaleWorkletScenario | Dictation.DictationApp.OnOpenPerContext |
