/** The dictation object: lifecycle flags, the capture step (resample,
    encode, batch, send), inbound message dispatch and text insertion.

    Every browser handler (the socket's open, message, error and close
    events, the worklet's audio messages) is one atomic method. The socket,
    the microphone stream, the audio context and the worklet node are
    handles with just the state the object looks at. What the object sends
    and which callbacks it fires are recorded in two ghost logs. */
module Dictation {

  import opened Wrappers
  import AudioUtils
  import TextInsertion
  import Batching

  type Sample = AudioUtils.int16

  /** The socket's readyState. */
  datatype ReadyState = Connecting | Open | Closing | Closed

  datatype Socket = Socket(readyState: ReadyState)

  /** The microphone stream, acquired for exactly one device id. */
  datatype MediaStream = MediaStream(deviceId: string)

  /** The audio processing context: its native rate, whether it is closed,
      and whether the "audio-processor" module has been added to it. A
      worklet module is registered per context, so a fresh context never
      has it. */
  datatype AudioContextHandle = AudioContextHandle(sampleRate: int, closed: bool, moduleLoaded: bool)

  /** The node running the "audio-processor" worklet. */
  datatype WorkletNode = AudioProcessorNode

  /** The errors reported through the error callback. */
  datatype ErrorKind = NoActiveInput | InvalidTarget | MicrophoneAccess | Transport

  /** Observable effects: callbacks fired, events dispatched, resources released. */
  datatype Effect =
    | RecordingStateChanged(isRecording: bool)
    | TranscriptUpdated(fieldValue: string)
    | ErrorReported(error: ErrorKind)
    | InputEventDispatched
    | TracksStopped
    | AudioContextClosed
    | SocketClosed

  /** An inbound socket message once parsed: a JSON object with its "type"
      and, when present and a string, its message.transcript; or a payload
      that did not parse. */
  datatype Inbound = Parsed(kind: string, transcript: Option<string>) | Malformed

  /** What startDictation does with its arguments. */
  datatype StartOutcome =
    | AlreadyRecording       // returns at once
    | MicrophoneMissing      // throws before touching anything
    | TargetRejected         // reports an error, then throws
    | AwaitingHandshake      // target captured, token request under way

  /** The text that ws.onmessage forwards to insertion, if any: only a
      "transcript" message with a non-empty transcript. */
  function Dispatch(msg: Inbound): Option<string>
  {
    match msg
    case Parsed(kind, transcript) =>
      if kind == "transcript" && transcript.Some? && transcript.value != "" then transcript else None
    case Malformed => None
  }

  /** Dispatch and the message it came from: a dispatched text determines
      the message (a "transcript" message carrying that non-empty text), and
      any non-empty text sent in a "transcript" message comes back out.
      Status messages and unparsable payloads therefore never reach
      insertion. */
  lemma DispatchOnlyTranscripts(msg: Inbound, t: string)
    ensures Dispatch(msg).Some? ==> msg == Parsed("transcript", Dispatch(msg)) && Dispatch(msg).value != ""
    ensures Dispatch(Parsed("transcript", Some(t))) == Some(t) <==> t != ""
  {
  }

  /** The caret captured at start: selectionStart || value.length || 0. A
      caret at offset 0 is falsy, so it is replaced by the end of the value. */
  function CapturedCursor(selectionStart: nat, valueLength: nat): nat
  {
    if selectionStart != 0 then selectionStart else valueLength
  }

  lemma CapturedCursorBounds(selectionStart: nat, valueLength: nat)
    requires selectionStart <= valueLength
    ensures CapturedCursor(selectionStart, valueLength) <= valueLength
    ensures CapturedCursor(selectionStart, valueLength) == 0 <==> valueLength == 0
    ensures selectionStart > 0 ==> CapturedCursor(selectionStart, valueLength) == selectionStart
  {
  }

  /** A text field of the page: its tag, value and selection. */
  class TextField {
    const tagName: string
    var value: string
    var selectionStart: nat
    var selectionEnd: nat

    /** The page keeps the selection inside the value. */
    ghost predicate Valid()
      reads this
    {
      selectionStart <= selectionEnd <= |value|
    }

    constructor (tagName: string, value: string, caret: nat)
      requires caret <= |value|
      ensures Valid()
      ensures this.tagName == tagName && this.value == value
      ensures selectionStart == caret && selectionEnd == caret
    {
      this.tagName := tagName;
      this.value := value;
      selectionStart := caret;
      selectionEnd := caret;
    }
  }

  /** startDictation's target check: a field whose tag is INPUT or TEXTAREA. */
  predicate IsTextTarget(target: TextField?)
  {
    target != null && (target.tagName == "INPUT" || target.tagName == "TEXTAREA")
  }

  /** Every field of the object, for stating what a method leaves alone. */
  datatype AppState = AppState(
    isRecording: bool,
    language: string,
    ws: Option<Socket>,
    stream: Option<MediaStream>,
    audioContext: Option<AudioContextHandle>,
    workletNode: Option<WorkletNode>,
    activeInput: TextField?,
    cursorPos: int,
    refreshData: seq<Sample>,
    previousSendTime: int,
    isWorkletLoaded: bool)

  /** Stopping the microphone's tracks, if there is a stream. */
  function StreamRelease(stream: Option<MediaStream>): seq<Effect>
  {
    if stream.Some? then [TracksStopped] else []
  }

  /** Closing the audio context, unless there is none or it is closed. */
  function ContextRelease(audioContext: Option<AudioContextHandle>): seq<Effect>
  {
    if audioContext.Some? && !audioContext.value.closed then [AudioContextClosed] else []
  }

  /** Closing the socket, if there is one. */
  function SocketRelease(ws: Option<Socket>): seq<Effect>
  {
    if ws.Some? then [SocketClosed] else []
  }

  /** The effects of stopDictation on a given state, in the order it causes
      them: the callback, then the releases of what it holds. */
  function StopEffects(s: AppState): seq<Effect>
  {
    [RecordingStateChanged(false)] + StreamRelease(s.stream) + ContextRelease(s.audioContext)
    + SocketRelease(s.ws)
  }

  /** The state stopDictation leaves: nothing held, not recording. */
  predicate Released(s: AppState)
  {
    !s.isRecording && s.ws.None? && s.stream.None? && s.audioContext.None? &&
    s.workletNode.None? && s.activeInput == null && s.refreshData == [] && !s.isWorkletLoaded
  }

  /** The state stopDictation leaves behind: every handle and the target
      dropped, the accumulator emptied, the language, caret and flush
      timestamp kept. */
  function AfterStop(s: AppState): AppState
  {
    s.(isRecording := false, ws := None, stream := None, audioContext := None,
       workletNode := None, activeInput := null, refreshData := [], isWorkletLoaded := false)
  }

  /** A released state is determined by what stopping keeps, so a second
      stop leaves the very same state as the first. */
  lemma AfterStopIdempotent(s: AppState)
    ensures AfterStop(AfterStop(s)) == AfterStop(s)
    ensures Released(s) ==> AfterStop(s) == s
  {
  }

  /** Released, plus the three fields stopping keeps, pins a state down to
      AfterStop of the state it came from. */
  lemma ReleasedIsAfterStop(s: AppState, t: AppState)
    requires Released(t)
    requires t.language == s.language && t.cursorPos == s.cursorPos
    requires t.previousSendTime == s.previousSendTime
    ensures t == AfterStop(s)
  {
  }

  /** Appending four pieces one after the other appends their concatenation. */
  lemma AppendFour<T>(s: seq<T>, a: seq<T>, b: seq<T>, c: seq<T>, d: seq<T>)
    ensures s + a + b + c + d == s + (a + b + c + d)
  {
  }

  /** Stopping is idempotent: once everything is released, stopping again
      releases nothing and only fires the state-change callback; and
      stopping from any other state releases exactly what is held. */
  lemma StopEffectsExact(s: AppState)
    ensures Released(s) ==> StopEffects(s) == [RecordingStateChanged(false)]
    ensures TracksStopped in StopEffects(s) <==> s.stream.Some?
    ensures SocketClosed in StopEffects(s) <==> s.ws.Some?
    ensures AudioContextClosed in StopEffects(s) <==> s.audioContext.Some? && !s.audioContext.value.closed
  {
  }

  class DictationApp {
    var isRecording: bool
    var language: string
    var ws: Option<Socket>
    var stream: Option<MediaStream>
    var audioContext: Option<AudioContextHandle>
    var workletNode: Option<WorkletNode>
    var activeInput: TextField?
    var cursorPos: int
    var refreshData: seq<Sample>
    var previousSendTime: int
    var isWorkletLoaded: bool

    /** Frames written to the socket, in order. */
    ghost var sent: seq<seq<Sample>>
    /** Callbacks fired and resources released, in order. */
    ghost var log: seq<Effect>

    ghost predicate Valid()
      reads this, activeInput
    {
      activeInput != null ==> activeInput.Valid()
    }

    ghost function State(): AppState
      reads this
    {
      AppState(isRecording, language, ws, stream, audioContext, workletNode,
               activeInput, cursorPos, refreshData, previousSendTime, isWorkletLoaded)
    }

    /** sendData's gate: a socket exists and is open. */
    ghost predicate SocketOpen()
      reads this
    {
      ws.Some? && ws.value.readyState == Open
    }

    constructor (language: string := "fr")
      ensures Valid()
      ensures State() == AppState(false, language, None, None, None, None, null, 0, [], 0, false)
      ensures sent == [] && log == []
    {
      isRecording := false;
      this.language := language;
      ws, stream, audioContext, workletNode := None, None, None, None;
      activeInput := null;
      cursorPos := 0;
      refreshData := [];
      previousSendTime := 0;
      isWorkletLoaded := false;
      sent, log := [], [];
    }

    /** insertAtCursor, stated on the old value and selection start of the
        active field. */
    twostate predicate InsertedAtCursor(text: string)
      reads this, activeInput
    {
      && activeInput == old(activeInput)
      && (activeInput == null ==>
            cursorPos == old(cursorPos) && log == old(log) + [ErrorReported(NoActiveInput)])
      && (activeInput != null ==>
            old(activeInput.selectionStart) <= |old(activeInput.value)| &&
            var ins := TextInsertion.Insert(old(activeInput.value), old(activeInput.selectionStart), text);
            && activeInput.value == ins.value
            && activeInput.selectionStart == ins.caret && activeInput.selectionEnd == ins.caret
            && cursorPos == ins.caret
            && log == old(log) + [InputEventDispatched, TranscriptUpdated(ins.value)])
    }

    /** insertAtCursor: splices the text into the active field at its
        selection start, moves the caret after it and reports the field's
        full new value; without an active field it only reports an error. */
    method InsertAtCursor(text: string)
      requires Valid()
      modifies this`cursorPos, this`log, activeInput
      ensures Valid()
      ensures InsertedAtCursor(text)
    {
      var input := activeInput;
      if input == null {
        log := log + [ErrorReported(NoActiveInput)];
        return;
      }
      var pos := input.selectionStart;
      var textToInsert := TextInsertion.Spaced(input.value, pos, text);
      var newValue := input.value[..pos] + textToInsert + input.value[pos..];
      input.value := newValue;
      var newPos := pos + |textToInsert|;
      input.selectionStart, input.selectionEnd := newPos, newPos;
      cursorPos := newPos;
      log := log + [InputEventDispatched, TranscriptUpdated(newValue)];
    }

    /** sendData: a frame reaches the socket only when it is open. */
    method SendData(frame: seq<Sample>)
      modifies this`sent
      ensures sent == if SocketOpen() then old(sent) + [frame] else old(sent)
    {
      if ws.Some? && ws.value.readyState == Open {
        sent := sent + [frame];
      }
    }

    /** processAudio: one block from the worklet at clock time now. Nothing
        happens without an open audio context; otherwise the block is
        resampled to 16 kHz, encoded, and batched, and a flushed frame is
        sent through the open-socket gate. */
    method ProcessAudio(sampleData: array<real>, now: int)
      modifies this`refreshData, this`previousSendTime, this`sent
      ensures audioContext.None? || audioContext.value.closed ==>
                refreshData == old(refreshData) && previousSendTime == old(previousSendTime) &&
                sent == old(sent)
      ensures audioContext.Some? && !audioContext.value.closed ==>
                var block := AudioUtils.Encode(AudioUtils.Resample(sampleData[..],
                               audioContext.value.sampleRate, AudioUtils.OutputSampleRate));
                var st := Batching.Accumulate(
                            Batching.Batcher(old(refreshData), old(previousSendTime)), block, now);
                && refreshData == st.next.acc
                && previousSendTime == st.next.lastFlush
                && sent == old(sent) + (if st.frame.Some? && SocketOpen() then [st.frame.value] else [])
    {
      if audioContext.None? || audioContext.value.closed {
        return;
      }
      // 1. Resampling (the result is an array, never falsy, so the
      //    source's emptiness check never returns).
      var decreaseResultBuffer := AudioUtils.DecreaseSampleRate(
        sampleData, audioContext.value.sampleRate, AudioUtils.OutputSampleRate);
      // 2. Conversion to 16 bits.
      var audioDataInt16 := AudioUtils.ConvertFloat32ToInt16(decreaseResultBuffer);
      // 3. Accumulation: a new buffer holding the old one, then the block.
      refreshData := refreshData + audioDataInt16[..];
      // 4. Flush check.
      if now - previousSendTime > Batching.RefreshRateMs {
        if |refreshData| > 0 {
          SendData(refreshData);
        }
        refreshData := [];
        previousSendTime := now;
      }
    }

    /** The synchronous part of startDictation, up to the token request. */
    method StartDictation(selectedMicId: string, targetElement: TextField?, now: int)
      returns (outcome: StartOutcome)
      requires Valid()
      requires targetElement != null ==> targetElement.Valid()
      modifies this`activeInput, this`cursorPos, this`refreshData, this`previousSendTime, this`log
      ensures Valid()
      ensures old(isRecording) ==> outcome == AlreadyRecording && State() == old(State()) && log == old(log)
      ensures !old(isRecording) && selectedMicId == "" ==>
                outcome == MicrophoneMissing && State() == old(State()) && log == old(log)
      ensures !old(isRecording) && selectedMicId != "" && !IsTextTarget(targetElement) ==>
                outcome == TargetRejected && State() == old(State()) &&
                log == old(log) + [ErrorReported(InvalidTarget)]
      ensures !old(isRecording) && selectedMicId != "" && IsTextTarget(targetElement) ==>
                && outcome == AwaitingHandshake
                && State() == old(State()).(activeInput := targetElement,
                     cursorPos := CapturedCursor(targetElement.selectionStart, |targetElement.value|),
                     refreshData := [], previousSendTime := now)
                && log == old(log)
    {
      if isRecording {
        return AlreadyRecording;
      }
      if selectedMicId == "" {
        return MicrophoneMissing;
      }
      if !IsTextTarget(targetElement) {
        log := log + [ErrorReported(InvalidTarget)];
        return TargetRejected;
      }
      activeInput := targetElement;
      cursorPos := CapturedCursor(targetElement.selectionStart, |targetElement.value|);
      refreshData := [];
      previousSendTime := now;
      return AwaitingHandshake;
    }

    /** The token arrived: the streaming socket is created, still connecting.
        A socket held from an earlier start is replaced, not closed. */
    method OpenConnection()
      modifies this`ws
      ensures ws == Some(Socket(Connecting))
    {
      ws := Some(Socket(Connecting));
    }

    /** ws.onopen: a fresh audio context is created; then the microphone
        (micGranted), worklet support (workletSupported) and, unless the
        object's flag says it is already loaded, the worklet module
        (moduleLoads) are acquired in that order, and the node is created on
        the new context. On success recording starts; on the first failure
        the context is closed, the stream already acquired is kept, and the
        error is reported.

        The flag belongs to the object but the module belongs to a context:
        when the flag is already set, the module is not added to the fresh
        context, so creating the node there fails. */
    method OnOpen(selectedMicId: string, sampleRate: int,
                  micGranted: bool, workletSupported: bool, moduleLoads: bool)
      returns (started: bool)
      modifies this`ws, this`audioContext, this`stream, this`workletNode, this`isRecording,
               this`isWorkletLoaded, this`log
      ensures started == (micGranted && workletSupported && !old(isWorkletLoaded) && moduleLoads)
      ensures ws == if old(ws).Some? then Some(Socket(Open)) else None
      ensures stream == if micGranted then Some(MediaStream(selectedMicId)) else old(stream)
      ensures isWorkletLoaded == (old(isWorkletLoaded) || (micGranted && workletSupported && moduleLoads))
      ensures isRecording == started
      ensures started ==>
                && audioContext == Some(AudioContextHandle(sampleRate, false, true))
                && workletNode == Some(AudioProcessorNode)
                && log == old(log) + [RecordingStateChanged(true)]
      ensures !started ==>
                && audioContext == Some(AudioContextHandle(sampleRate, true, false))
                && workletNode == old(workletNode)
                && log == old(log) + [AudioContextClosed, RecordingStateChanged(false),
                                      ErrorReported(MicrophoneAccess)]
    {
      if ws.Some? {
        ws := Some(Socket(Open));
      }
      audioContext := Some(AudioContextHandle(sampleRate, false, false));
      var ok := micGranted;
      if ok {
        stream := Some(MediaStream(selectedMicId));
        // setupRecordingWorkletNode
        if !workletSupported {
          ok := false;
        } else {
          if !isWorkletLoaded {
            if moduleLoads {
              audioContext := Some(audioContext.value.(moduleLoaded := true));
              isWorkletLoaded := true;
            } else {
              ok := false;
            }
          }
          // The node constructor fails on a context without the module.
          if ok && !audioContext.value.moduleLoaded {
            ok := false;
          }
        }
      }
      if ok {
        workletNode := Some(AudioProcessorNode);
        isRecording := true;
        log := log + [RecordingStateChanged(true)];
      } else {
        if !audioContext.value.closed {
          audioContext := Some(audioContext.value.(closed := true));
          log := log + [AudioContextClosed];
        }
        isRecording := false;
        log := log + [RecordingStateChanged(false), ErrorReported(MicrophoneAccess)];
      }
      started := ok;
    }

    /** ws.onopen with the module check made on the context, where the module
        is registered, instead of on the object: the module is added to
        every fresh context, so a stale object flag no longer makes the
        start fail. */
    method OnOpenPerContext(selectedMicId: string, sampleRate: int,
                            micGranted: bool, workletSupported: bool, moduleLoads: bool)
      returns (started: bool)
      modifies this`ws, this`audioContext, this`stream, this`workletNode, this`isRecording,
               this`isWorkletLoaded, this`log
      ensures started == (micGranted && workletSupported && moduleLoads)
      ensures ws == if old(ws).Some? then Some(Socket(Open)) else None
      ensures stream == if micGranted then Some(MediaStream(selectedMicId)) else old(stream)
      ensures isWorkletLoaded == (old(isWorkletLoaded) || started)
      ensures isRecording == started
      ensures started ==>
                && audioContext == Some(AudioContextHandle(sampleRate, false, true))
                && workletNode == Some(AudioProcessorNode)
                && log == old(log) + [RecordingStateChanged(true)]
      ensures !started ==>
                && audioContext == Some(AudioContextHandle(sampleRate, true, false))
                && workletNode == old(workletNode)
                && log == old(log) + [AudioContextClosed, RecordingStateChanged(false),
                                      ErrorReported(MicrophoneAccess)]
    {
      if ws.Some? {
        ws := Some(Socket(Open));
      }
      audioContext := Some(AudioContextHandle(sampleRate, false, false));
      var ok := micGranted;
      if ok {
        stream := Some(MediaStream(selectedMicId));
        if !workletSupported {
          ok := false;
        } else if !audioContext.value.moduleLoaded {
          if moduleLoads {
            audioContext := Some(audioContext.value.(moduleLoaded := true));
            isWorkletLoaded := true;
          } else {
            ok := false;
          }
        }
      }
      if ok {
        workletNode := Some(AudioProcessorNode);
        isRecording := true;
        log := log + [RecordingStateChanged(true)];
      } else {
        if !audioContext.value.closed {
          audioContext := Some(audioContext.value.(closed := true));
          log := log + [AudioContextClosed];
        }
        isRecording := false;
        log := log + [RecordingStateChanged(false), ErrorReported(MicrophoneAccess)];
      }
      started := ok;
    }

    /** ws.onmessage: a transcript is inserted; anything else changes no
        field, touches no text field and fires no callback. */
    method OnMessage(msg: Inbound)
      requires Valid()
      modifies this`cursorPos, this`log, activeInput
      ensures Valid()
      ensures Dispatch(msg).Some? ==> InsertedAtCursor(Dispatch(msg).value)
      ensures Dispatch(msg).None? ==> State() == old(State()) && log == old(log)
      ensures Dispatch(msg).None? && activeInput != null ==> unchanged(activeInput)
    {
      match msg {
        case Parsed(kind, transcript) =>
          if kind == "transcript" && transcript.Some? && transcript.value != "" {
            InsertAtCursor(transcript.value);
          }
        case Malformed =>
      }
    }

    /** Stops the microphone stream's tracks, if there is a stream. */
    method ReleaseStream()
      modifies this`stream, this`log
      ensures stream.None?
      ensures log == old(log) + StreamRelease(old(stream))
    {
      if stream.Some? {
        log := log + [TracksStopped];
        stream := None;
      }
    }

    /** Closes the audio context unless it is already closed, and forgets it
        and the worklet node. */
    method ReleaseAudioContext()
      modifies this`audioContext, this`workletNode, this`log
      ensures audioContext.None? && workletNode.None?
      ensures log == old(log) + ContextRelease(old(audioContext))
    {
      if audioContext.Some? && !audioContext.value.closed {
        log := log + [AudioContextClosed];
      }
      audioContext := None;
      workletNode := None;
    }

    /** Closes the socket, if there is one. */
    method ReleaseSocket()
      modifies this`ws, this`log
      ensures ws.None?
      ensures log == old(log) + SocketRelease(old(ws))
    {
      if ws.Some? {
        log := log + [SocketClosed];
        ws := None;
      }
    }

    /** The releases of stopDictation, in its order: the stream's tracks,
        the audio context, the socket. */
    method ReleaseHandles()
      modifies this`ws, this`stream, this`audioContext, this`workletNode, this`log
      ensures ws.None? && stream.None? && audioContext.None? && workletNode.None?
      ensures log == old(log) + StreamRelease(old(stream)) + ContextRelease(old(audioContext))
                     + SocketRelease(old(ws))
    {
      ReleaseStream();
      ReleaseAudioContext();
      ReleaseSocket();
    }

    /** stopDictation: releases everything it holds, in any state. */
    method StopDictation()
      modifies this`isRecording, this`ws, this`stream, this`audioContext, this`workletNode,
               this`activeInput, this`refreshData, this`isWorkletLoaded, this`log
      ensures Valid()
      ensures Released(State())
      ensures language == old(language) && cursorPos == old(cursorPos)
      ensures previousSendTime == old(previousSendTime)
      ensures log == old(log) + StopEffects(old(State()))
    {
      isRecording := false;
      log := log + [RecordingStateChanged(false)];
      ReleaseHandles();
      refreshData := [];
      isWorkletLoaded := false;
      activeInput := null;
      AppendFour(old(log), [RecordingStateChanged(false)], StreamRelease(old(stream)),
                 ContextRelease(old(audioContext)), SocketRelease(old(ws)));
    }

    /** ws.onerror: the error is reported, then the dictation stops. */
    method OnSocketError()
      modifies this`isRecording, this`ws, this`stream, this`audioContext, this`workletNode,
               this`activeInput, this`refreshData, this`isWorkletLoaded, this`log
      ensures Valid()
      ensures Released(State())
      ensures language == old(language) && cursorPos == old(cursorPos)
      ensures previousSendTime == old(previousSendTime)
      ensures log == old(log) + [ErrorReported(Transport)] + StopEffects(old(State()))
    {
      log := log + [ErrorReported(Transport)];
      StopDictation();
    }

    /** ws.onclose: the dictation stops. */
    method OnSocketClose()
      modifies this`isRecording, this`ws, this`stream, this`audioContext, this`workletNode,
               this`activeInput, this`refreshData, this`isWorkletLoaded, this`log
      ensures Valid()
      ensures Released(State())
      ensures language == old(language) && cursorPos == old(cursorPos)
      ensures previousSendTime == old(previousSendTime)
      ensures log == old(log) + StopEffects(old(State()))
    {
      StopDictation();
    }
  }

  /** A dictation that inserts one transcript into an empty text area and
      ignores a status message. */
  method TranscriptScenario()
  {
    var field := new TextField("TEXTAREA", "", 0);
    var app := new DictationApp();
    assert app.language == "fr";
    var outcome := app.StartDictation("mic-1", field, 1000);
    assert outcome == AwaitingHandshake;
    app.OpenConnection();
    var started := app.OnOpen("mic-1", 48000, true, true, true);
    assert started && app.isRecording && app.SocketOpen();
    TextInsertion.VerbatimInsertion("", 0, "patient stable");
    assert TextInsertion.Insert("", 0, "patient stable") == TextInsertion.Insertion("patient stable", 14);
    app.OnMessage(Parsed("transcript", Some("patient stable")));
    assert field.value == "patient stable";
    assert app.cursorPos == 14 && field.selectionStart == 14;
    app.OnMessage(Parsed("status", None));
    assert field.value == "patient stable" && app.cursorPos == 14;
  }

  /** The user stops a dictation while the socket is open: everything is
      released, and the socket's close later fires onclose, whose second
      stop changes no field and only repeats the state-change callback. A
      later start without a microphone is refused. */
  method CloseScenario()
  {
    var field := new TextField("INPUT", "note", 4);
    var app := new DictationApp("fr");
    var outcome := app.StartDictation("mic-1", field, 1000);
    app.OpenConnection();
    var started := app.OnOpen("mic-1", 48000, true, true, true);
    app.StopDictation();
    assert !app.isRecording && app.stream.None? && app.activeInput == null;
    assert app.cursorPos == 4;
    ghost var s1, log1 := app.State(), app.log;
    app.OnSocketClose();
    ReleasedIsAfterStop(s1, app.State());
    AfterStopIdempotent(s1);
    StopEffectsExact(s1);
    assert app.State() == s1 && app.log == log1 + [RecordingStateChanged(false)];
    var again := app.StartDictation("", field, 2000);
    assert again == MicrophoneMissing;
  }

  /** A socket error during a dictation: onerror reports it and stops; the
      close event that always follows an error then runs onclose, whose stop
      changes no field and fires the recording-state callback a second time. */
  method ErrorThenClose()
  {
    var field := new TextField("TEXTAREA", "", 0);
    var app := new DictationApp("fr");
    var outcome := app.StartDictation("mic-1", field, 1000);
    app.OpenConnection();
    var started := app.OnOpen("mic-1", 48000, true, true, true);
    assert started && app.isRecording;
    ghost var log0 := app.log;
    app.OnSocketError();
    assert app.log == log0 + [ErrorReported(Transport), RecordingStateChanged(false),
                              TracksStopped, AudioContextClosed, SocketClosed];
    ghost var s1, log1 := app.State(), app.log;
    app.OnSocketClose();
    ReleasedIsAfterStop(s1, app.State());
    AfterStopIdempotent(s1);
    StopEffectsExact(s1);
    assert app.State() == s1;
    assert app.log == log0 + [ErrorReported(Transport), RecordingStateChanged(false),
                              TracksStopped, AudioContextClosed, SocketClosed,
                              RecordingStateChanged(false)];
  }

  /** Two starts before the first socket opens: the first open succeeds and
      sets the object's module flag; the second open makes a fresh context,
      skips the module because of the flag, and fails to create the node,
      although the module would load. With the check made on the context,
      the second open succeeds. */
  method StaleWorkletScenario()
  {
    var field := new TextField("INPUT", "", 0);
    var app := new DictationApp("fr");
    var first := app.StartDictation("mic-1", field, 1000);
    app.OpenConnection();
    var second := app.StartDictation("mic-1", field, 1005);
    assert first == AwaitingHandshake && second == AwaitingHandshake;
    app.OpenConnection();
    var started1 := app.OnOpen("mic-1", 48000, true, true, true);
    assert started1 && app.isWorkletLoaded;
    var started2 := app.OnOpen("mic-1", 48000, true, true, true);
    assert !started2 && !app.isRecording;
    assert app.log[|app.log| - 1] == ErrorReported(MicrophoneAccess);

    var fixedApp := new DictationApp("fr");
    first := fixedApp.StartDictation("mic-1", field, 1000);
    fixedApp.OpenConnection();
    second := fixedApp.StartDictation("mic-1", field, 1005);
    fixedApp.OpenConnection();
    started1 := fixedApp.OnOpenPerContext("mic-1", 48000, true, true, true);
    started2 := fixedApp.OnOpenPerContext("mic-1", 48000, true, true, true);
    assert started1 && started2 && fixedApp.isRecording;
  }
}
