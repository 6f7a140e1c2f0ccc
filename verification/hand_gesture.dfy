/** The hand-gesture hook (`hooks/useHandGesture.ts`): the detection state,
    the status labels of the set-up sequence, and the per-frame results
    handler that classifies the hand as open or closed and maps the wrist to a
    centred coordinate. Camera, video and detector objects are not modelled;
    what they report arrives here as events. */
module HandGestureHook {
  import opened Vectors
  import opened Types

  /** The status shown to the user. */
  datatype Status =
    | Inactive
    | RequestingCamera
    | CameraObtained
    | LoadingMediaPipe
    | InitializingDetector
    | Ready
    | HandDetected
    | NoHandDetected
    | Failed(message: string)

  /** The exact text of each status. */
  function Label(st: Status): string {
    match st
    case Inactive => "Inactive"
    case RequestingCamera => "Requesting camera..."
    case CameraObtained => "Camera obtained"
    case LoadingMediaPipe => "Loading MediaPipe..."
    case InitializingDetector => "Initializing hand detector..."
    case Ready => "Ready - waiting for hand..."
    case HandDetected => "Hand detected!"
    case NoHandDetected => "No hand detected"
    case Failed(message) => "Error: " + message
  }

  /** The hook's state. `session` counts the times detection has been
      switched on; the callbacks of session `k` are live while detection is
      on and `k` is the current session (the source's `mounted` flag of that
      effect run). `detecting` says whether the current session's detector
      delivers frames: its set-up has registered the results callback and
      handed the camera to the detector, and has not failed since. */
  datatype HookState = HookState(
    gesture: HandGesture,
    enabled: bool,
    error: Option<string>,
    status: Status,
    session: nat,
    detecting: bool)

  const Initial: HookState := HookState(HandGesture(false, Origin), false, None, Inactive, 0, false)

  /** Before detection is first switched on the hand is closed at the
      origin, the status reads "Inactive", no error is set, and no callback
      of any session is live. */
  lemma InitialState(k: nat)
    ensures !Initial.gesture.isOpen && Initial.gesture.position == Origin
    ensures Label(Initial.status) == "Inactive" && Initial.error == None
    ensures !Live(Initial, k) && !Initial.detecting
  {
  }

  /** Whether the callbacks of session `k` still apply their results. */
  predicate Live(h: HookState, k: nat) {
    h.enabled && h.session == k
  }

  /** `enableDetection`: switching on starts a new session, whose detector
      is not yet set up; switching on while already on changes nothing. */
  function Enable(h: HookState): (h': HookState)
    ensures h'.enabled && Live(h', h'.session)
    ensures h'.gesture == h.gesture && h'.status == h.status && h'.error == h.error
    ensures !h.enabled ==> h'.session == h.session + 1 && !h'.detecting
    ensures h.enabled ==> h' == h
  {
    if h.enabled then h else h.(enabled := true, session := h.session + 1, detecting := false)
  }

  /** `disableDetection`: the current session's callbacks stop applying;
      gesture, status and error keep their last values. */
  function Disable(h: HookState): (h': HookState)
    ensures !h'.enabled && forall k :: !Live(h', k)
    ensures h'.gesture == h.gesture && h'.status == h.status && h'.error == h.error
    ensures h'.session == h.session
  {
    h.(enabled := false)
  }

  // ---------------------------------------------------------------------
  // Set-up sequence
  // ---------------------------------------------------------------------

  /** What a failed set-up step threw: an `Error` object with a message, or
      anything else. */
  datatype Thrown = ErrorObject(message: string) | OtherValue

  function ErrorMessage(t: Thrown): string {
    match t
    case ErrorObject(message) => message
    case OtherValue => "Unknown error"
  }

  /** The milestones of the asynchronous set-up, and its failure. */
  datatype InitStep =
    | Started
    | StreamGranted
    | VideoPlaying
    | LibrariesLoaded
    | DetectorConfigured
    | CameraStarted
    | Threw(thrown: Thrown)

  /** The effect of a milestone of session `k`'s set-up on the hook's state.
      The status and error writes do not consult the session: a set-up that
      outlives its session still writes them. Reaching `DetectorConfigured`
      registers session `k`'s results callback and starts its camera, which
      runs synchronously up to the camera's start; a failure leaves session
      `k` without frames (never registered, or the camera did not start). Only
      the current session's detector matters, since the results callback of
      any other session is not live. */
  function ApplyInit(h: HookState, k: nat, step: InitStep): (h': HookState)
    ensures h'.gesture == h.gesture && h'.enabled == h.enabled && h'.session == h.session
    ensures step.Threw? ==> h'.status == Failed(ErrorMessage(step.thrown)) && h'.error == Some(ErrorMessage(step.thrown))
    ensures step.Threw? && k == h.session ==> !h'.detecting
    ensures step == DetectorConfigured && k == h.session ==> h'.detecting
    ensures step != DetectorConfigured && !step.Threw? ==> h'.detecting == h.detecting
    ensures k != h.session ==> h'.detecting == h.detecting
    ensures step == CameraStarted ==> h'.status == h.status && h'.error == None
  {
    var mine := k == h.session;
    match step
    case Started => h.(status := RequestingCamera)
    case StreamGranted => h.(status := CameraObtained)
    case VideoPlaying => h.(status := LoadingMediaPipe)
    case LibrariesLoaded => h.(status := InitializingDetector)
    case DetectorConfigured => h.(status := Ready, detecting := mine || h.detecting)
    case CameraStarted => h.(error := None)
    case Threw(t) =>
      h.(error := Some(ErrorMessage(t)), status := Failed(ErrorMessage(t)), detecting := !mine && h.detecting)
  }

  /** The milestones of a set-up that succeeds, in order. */
  const SuccessfulRun: seq<InitStep> :=
    [Started, StreamGranted, VideoPlaying, LibrariesLoaded, DetectorConfigured, CameraStarted]

  /** The status labels a successful set-up passes through, in order. */
  const SetupStatuses: seq<Status> :=
    [RequestingCamera, CameraObtained, LoadingMediaPipe, InitializingDetector, Ready]

  /** Applies the milestones of session `session`'s set-up in order. */
  function RunInit(h: HookState, session: nat, steps: seq<InitStep>): HookState
    decreases |steps|
  {
    if |steps| == 0 then h else RunInit(ApplyInit(h, session, steps[0]), session, steps[1..])
  }

  /** A run that reached milestone `k` (1 ≤ k ≤ 5) has status
      `SetupStatuses[k-1]` and has left gesture, error and session alone; the
      detector delivers frames from milestone 5 on, and only for the current
      session. */
  lemma {:induction false} SetupAdvancesInOrder(h: HookState, session: nat, k: nat)
    requires 1 <= k <= 5
    ensures var h' := RunInit(h, session, SuccessfulRun[..k]);
            h'.status == SetupStatuses[k - 1] &&
            h'.gesture == h.gesture && h'.error == h.error &&
            h'.session == h.session && h'.enabled == h.enabled &&
            h'.detecting == (h.detecting || (k == 5 && session == h.session))
  {
    RunInitPrefix(h, session, SuccessfulRun[..k]);
    assert SuccessfulRun[..k][k - 1] == SuccessfulRun[k - 1];
    if k < 5 {
      assert forall i :: 0 <= i < k ==> SuccessfulRun[..k][i] == SuccessfulRun[i] != DetectorConfigured;
    } else {
      assert SuccessfulRun[..k][4] == DetectorConfigured;
    }
  }

  /** Helper: a run of status-only milestones ends with the last one's
      status, and registers the detector when it passes `DetectorConfigured`
      for the current session. */
  lemma {:induction false} RunInitPrefix(h: HookState, session: nat, steps: seq<InitStep>)
    requires |steps| > 0
    requires forall i :: 0 <= i < |steps| ==> steps[i] in SuccessfulRun[..5]
    ensures var h' := RunInit(h, session, steps);
            h' == h.(status := h'.status, detecting := h'.detecting) &&
            h'.status == ApplyInit(h, session, steps[|steps| - 1]).status &&
            h'.detecting == (h.detecting || (session == h.session && DetectorConfigured in steps))
    decreases |steps|
  {
    var h1 := ApplyInit(h, session, steps[0]);
    assert steps[0] in SuccessfulRun[..5];
    if |steps| > 1 {
      RunInitPrefix(h1, session, steps[1..]);
      assert steps[1..][|steps| - 2] == steps[|steps| - 1];
      assert steps == [steps[0]] + steps[1..];
    }
  }

  /** A successful set-up ends ready, with the error cleared; when it is the
      current session's, its detector is delivering frames. */
  lemma SetupSucceeds(h: HookState, session: nat)
    ensures var h' := RunInit(h, session, SuccessfulRun);
            h'.status == Ready && h'.error == None && h'.gesture == h.gesture &&
            h'.session == h.session && (session == h.session ==> h'.detecting)
  {
    SetupAdvancesInOrder(h, session, 5);
    RunInitSplit(h, session, SuccessfulRun[..5], [CameraStarted]);
    assert SuccessfulRun == SuccessfulRun[..5] + [CameraStarted];
  }

  /** A set-up that throws after reaching milestone `k` (the last statement
      that can throw precedes the final error reset, so `k` ≤ 5) ends in the
      error status carrying the thrown message, with the message also stored
      as the error; the current session is left without frames. */
  lemma SetupFails(h: HookState, session: nat, k: nat, t: Thrown)
    requires 1 <= k <= 5
    ensures var h' := RunInit(h, session, SuccessfulRun[..k] + [Threw(t)]);
            h'.status == Failed(ErrorMessage(t)) && h'.error == Some(ErrorMessage(t)) &&
            Label(h'.status) == "Error: " + ErrorMessage(t) &&
            (session == h.session ==> !h'.detecting)
  {
    RunInitSplit(h, session, SuccessfulRun[..k], [Threw(t)]);
    RunInitKeepsSession(h, session, SuccessfulRun[..k]);
  }

  /** Helper: running two lists of milestones is running their concatenation. */
  lemma {:induction false} RunInitSplit(h: HookState, session: nat, a: seq<InitStep>, b: seq<InitStep>)
    ensures RunInit(h, session, a + b) == RunInit(RunInit(h, session, a), session, b)
    decreases |a|
  {
    if |a| > 0 {
      assert (a + b)[1..] == a[1..] + b;
      RunInitSplit(ApplyInit(h, session, a[0]), session, a[1..], b);
    } else {
      assert a + b == b;
    }
  }

  // ---------------------------------------------------------------------
  // Results handler
  // ---------------------------------------------------------------------

  /** Landmark indices: the wrist (palm base) and the five fingertips. */
  const Wrist: nat := 0
  const ThumbTip: nat := 4
  const IndexTip: nat := 8
  const MiddleTip: nat := 12
  const RingTip: nat := 16
  const PinkyTip: nat := 20

  /** Mean fingertip-to-wrist distance above which the hand counts as open. */
  const OpenThreshold: real := 0.3

  /** The detector's output for one frame: the landmark lists of the hands it
      found, or nothing. */
  datatype Results = Results(multiHandLandmarks: Option<seq<seq<Vec3>>>)

  predicate HasHand(r: Results) {
    r.multiHandLandmarks.Some? && |r.multiHandLandmarks.value| > 0
  }

  /** Euclidean distance, with the square root supplied. */
  function Distance(p: Vec3, q: Vec3, sqrt: real -> real): real {
    sqrt((p.x - q.x) * (p.x - q.x) + (p.y - q.y) * (p.y - q.y) + (p.z - q.z) * (p.z - q.z))
  }

  /** The open/closed rule on the five fingertip distances: open exactly when
      their mean exceeds the threshold. */
  function IsOpen(d4: real, d8: real, d12: real, d16: real, d20: real): (open: bool)
    ensures (d4 <= OpenThreshold && d8 <= OpenThreshold && d12 <= OpenThreshold &&
             d16 <= OpenThreshold && d20 <= OpenThreshold) ==> !open
    ensures (d4 > OpenThreshold && d8 > OpenThreshold && d12 > OpenThreshold &&
             d16 > OpenThreshold && d20 > OpenThreshold) ==> open
  {
    (d4 + d8 + d12 + d16 + d20) / 5.0 > OpenThreshold
  }

  /** Spreading any one finger further never closes an open hand. */
  lemma OpenIsMonotone(d4: real, d8: real, d12: real, d16: real, d20: real, d4': real)
    requires d4 <= d4'
    ensures IsOpen(d4, d8, d12, d16, d20) ==> IsOpen(d4', d8, d12, d16, d20)
  {
  }

  /** Classifies a hand from its landmark list. */
  function ClassifyHand(hand: seq<Vec3>, sqrt: real -> real): bool
    requires |hand| > PinkyTip
  {
    var palm := hand[Wrist];
    IsOpen(Distance(hand[ThumbTip], palm, sqrt), Distance(hand[IndexTip], palm, sqrt),
           Distance(hand[MiddleTip], palm, sqrt), Distance(hand[RingTip], palm, sqrt),
           Distance(hand[PinkyTip], palm, sqrt))
  }

  /** `((x − 0.5)·2, −(y − 0.5)·2, −10z)`: the wrist in centred coordinates. */
  function HandCenter(wrist: Vec3): (c: Vec3)
    ensures 0.0 <= wrist.x <= 1.0 ==> -1.0 <= c.x <= 1.0
    ensures 0.0 <= wrist.y <= 1.0 ==> -1.0 <= c.y <= 1.0
  {
    Vec3((wrist.x - 0.5) * 2.0, -(wrist.y - 0.5) * 2.0, -wrist.z * 10.0)
  }

  /** The inverse map, from centred coordinates back to the wrist landmark. */
  function WristOf(c: Vec3): Vec3 {
    Vec3(c.x / 2.0 + 0.5, 0.5 - c.y / 2.0, -c.z / 10.0)
  }

  /** The centring is a bijection: the image centre maps to the origin, a
      lower wrist (larger image y) maps lower, and `WristOf` undoes it. */
  lemma HandCenterBijective(w: Vec3, w': Vec3, c: Vec3)
    ensures HandCenter(Vec3(0.5, 0.5, 0.0)) == Origin
    ensures w.y < w'.y ==> HandCenter(w).y > HandCenter(w').y
    ensures w.x < w'.x ==> HandCenter(w).x < HandCenter(w').x
    ensures WristOf(HandCenter(w)) == w
    ensures HandCenter(WristOf(c)) == c
  {
  }

  /** The results callback of session `k`. A callback whose session is no
      longer live changes nothing. A frame with a hand sets the status and
      replaces both openness and position; one whose landmark list is too
      short to hold every fingertip throws after the status is set, leaving
      the gesture alone. A frame without a hand sets the status and clears
      openness but keeps the last position. */
  function OnResults(h: HookState, k: nat, r: Results, sqrt: real -> real): (h': HookState)
    ensures !Live(h, k) ==> h' == h
    ensures h'.enabled == h.enabled && h'.session == h.session && h'.error == h.error
    ensures Live(h, k) && !HasHand(r) ==>
              h'.status == NoHandDetected && !h'.gesture.isOpen && h'.gesture.position == h.gesture.position
    ensures Live(h, k) && HasHand(r) ==> h'.status == HandDetected
    ensures Live(h, k) && HasHand(r) && |r.multiHandLandmarks.value[0]| > PinkyTip ==>
              h'.gesture == HandGesture(ClassifyHand(r.multiHandLandmarks.value[0], sqrt),
                                        HandCenter(r.multiHandLandmarks.value[0][Wrist]))
    ensures Live(h, k) && HasHand(r) && |r.multiHandLandmarks.value[0]| <= PinkyTip ==>
              h'.gesture == h.gesture
    ensures h'.detecting == h.detecting
  {
    if !Live(h, k) then h
    else if HasHand(r) then
      var hand := r.multiHandLandmarks.value[0];
      if |hand| <= PinkyTip then h.(status := HandDetected)
      else h.(status := HandDetected, gesture := HandGesture(ClassifyHand(hand, sqrt), HandCenter(hand[Wrist])))
    else
      h.(status := NoHandDetected, gesture := h.gesture.(isOpen := false))
  }

  /** The set-up step of session `k` with the liveness check the cleanup
      relies on: once the session is over, its late milestones change
      nothing; while it is live, a milestone has its as-written effect. The
      source applies set-up milestones without this check (see `ApplyInit`
      and `StaleSetupCorruptsNewSession`). */
  function SetupStep(h: HookState, k: nat, step: InitStep): (h': HookState)
    ensures !Live(h, k) ==> h' == h
    ensures h'.gesture == h.gesture && h'.enabled == h.enabled && h'.session == h.session
    ensures Live(h, k) && step.Threw? ==>
              h'.status == Failed(ErrorMessage(step.thrown)) && h'.error == Some(ErrorMessage(step.thrown))
    ensures Live(h, k) && step == CameraStarted ==> h'.status == h.status && h'.error == None
  {
    if Live(h, k) then ApplyInit(h, k, step) else h
  }

  /** As written, a set-up that outlives its session keeps writing: the user
      switches detection on, off and on again; the second session completes
      its set-up; then the first session's pending camera request fails. The
      failure replaces the ready status of the healthy second session with an
      error status and stores the error, although the second session's
      detector is running. */
  lemma StaleSetupCorruptsNewSession(t: Thrown)
    ensures var first := ApplyInit(Enable(Initial), 1, Started);
            var second := RunInit(Enable(Disable(first)), 2, SuccessfulRun);
            var late := ApplyInit(second, 1, Threw(t));
            Live(second, 2) && !Live(second, 1) && second.detecting &&
            second.status == Ready && second.error == None &&
            late.status == Failed(ErrorMessage(t)) && late.error.Some? && Live(late, 2) &&
            late.detecting
  {
    var first := ApplyInit(Enable(Initial), 1, Started);
    SetupSucceeds(Enable(Disable(first)), 2);
    RunInitKeepsSession(Enable(Disable(first)), 2, SuccessfulRun);
  }

  /** Helper: set-up milestones never change the session or the switch. */
  lemma {:induction false} RunInitKeepsSession(h: HookState, session: nat, steps: seq<InitStep>)
    ensures RunInit(h, session, steps).session == h.session
    ensures RunInit(h, session, steps).enabled == h.enabled
    decreases |steps|
  {
    if |steps| > 0 {
      RunInitKeepsSession(ApplyInit(h, session, steps[0]), session, steps[1..]);
    }
  }

  /** With the liveness check, the same stale failure leaves the second
      session's ready status and cleared error in place. */
  lemma GuardedSetupProtectsNewSession(t: Thrown)
    ensures var first := ApplyInit(Enable(Initial), 1, Started);
            var second := RunInit(Enable(Disable(first)), 2, SuccessfulRun);
            SetupStep(second, 1, Threw(t)).status == Ready &&
            SetupStep(second, 1, Threw(t)).error == None &&
            SetupStep(second, 2, Threw(t)).status == Failed(ErrorMessage(t))
  {
    var first := ApplyInit(Enable(Initial), 1, Started);
    SetupSucceeds(Enable(Disable(first)), 2);
    RunInitKeepsSession(Enable(Disable(first)), 2, SuccessfulRun);
  }

  /** Everything that can happen to the hook: the two switches, and the
      set-up milestones and detector frames of a session. */
  datatype HookEvent =
    | EnableDetection
    | DisableDetection
    | InitProgress(session: nat, step: InitStep)
    | ResultsArrived(session: nat, results: Results)

  /** The hook as written: set-up milestones write status and error whatever
      their session. A detector frame reaches the results callback only while
      the current session's detector is running, and then goes through the
      callback's session check. */
  function HookStep(h: HookState, ev: HookEvent, sqrt: real -> real): HookState {
    match ev
    case EnableDetection => Enable(h)
    case DisableDetection => Disable(h)
    case InitProgress(k, step) => ApplyInit(h, k, step)
    case ResultsArrived(k, r) => if h.detecting then OnResults(h, k, r, sqrt) else h
  }

  /** Applies hook events in order. */
  function RunHook(h: HookState, evs: seq<HookEvent>, sqrt: real -> real): HookState
    decreases |evs|
  {
    if |evs| == 0 then h else RunHook(HookStep(h, evs[0], sqrt), evs[1..], sqrt)
  }

  /** What switching off guarantees as written: until detection is switched
      on again, the hand reading is frozen and no detector frame changes
      anything, while a late set-up milestone may still rewrite status and
      error. Switching on again starts a session none of the old callbacks
      belongs to. */
  lemma TeardownIsFinal(h: HookState, evs: seq<HookEvent>, sqrt: real -> real, k: nat)
    requires forall i :: 0 <= i < |evs| ==> !evs[i].EnableDetection?
    requires k <= h.session
    ensures var z := RunHook(Disable(h), evs, sqrt);
            z.gesture == h.gesture && !z.enabled && z.session == h.session
    ensures (forall i :: 0 <= i < |evs| ==> evs[i].ResultsArrived?) ==>
              RunHook(Disable(h), evs, sqrt) == Disable(h)
    ensures !Live(Enable(Disable(h)), k)
    ensures HookStep(Disable(h), InitProgress(k, StreamGranted), sqrt).status == CameraObtained
  {
    TeardownFreezesGesture(Disable(h), evs, sqrt);
  }

  /** The events that neither switch detection on nor let session `k`'s
      set-up register its detector. */
  predicate KeepsDetectorOff(ev: HookEvent, k: nat) {
    !ev.EnableDetection? && ev != InitProgress(k, DetectorConfigured)
  }

  /** Without a running detector the hand reading cannot change: until
      detection is switched on again or the current session's set-up
      registers its detector, the gesture stays as it is and no detector
      frame changes anything. */
  lemma {:induction false} FramesNeedDetector(h: HookState, evs: seq<HookEvent>, sqrt: real -> real)
    requires !h.detecting
    requires forall i :: 0 <= i < |evs| ==> KeepsDetectorOff(evs[i], h.session)
    ensures var z := RunHook(h, evs, sqrt);
            z.gesture == h.gesture && !z.detecting && z.session == h.session
    ensures (forall i :: 0 <= i < |evs| ==> evs[i].ResultsArrived?) ==> RunHook(h, evs, sqrt) == h
    decreases |evs|
  {
    if |evs| > 0 {
      assert KeepsDetectorOff(evs[0], h.session);
      var h1 := HookStep(h, evs[0], sqrt);
      assert h1.gesture == h.gesture && !h1.detecting && h1.session == h.session;
      FramesNeedDetector(h1, evs[1..], sqrt);
      if forall i :: 0 <= i < |evs| ==> evs[i].ResultsArrived? {
        assert evs[0].ResultsArrived?;
        assert h1 == h;
        assert forall i :: 0 <= i < |evs[1..]| ==> evs[1..][i] == evs[i + 1];
      }
    }
  }

  /** A failure of the current session's set-up is terminal: it shows the
      error status, and from then on, until detection is switched on again,
      the hand reading stays as it was and detector frames change nothing. */
  lemma FailureIsTerminal(h: HookState, t: Thrown, evs: seq<HookEvent>, sqrt: real -> real)
    requires forall i :: 0 <= i < |evs| ==> KeepsDetectorOff(evs[i], h.session)
    ensures var f := ApplyInit(h, h.session, Threw(t));
            f.status == Failed(ErrorMessage(t)) && !f.detecting &&
            RunHook(f, evs, sqrt).gesture == h.gesture
    ensures var f := ApplyInit(h, h.session, Threw(t));
            (forall i :: 0 <= i < |evs| ==> evs[i].ResultsArrived?) ==> RunHook(f, evs, sqrt) == f
  {
    FramesNeedDetector(ApplyInit(h, h.session, Threw(t)), evs, sqrt);
  }

  /** After switching on, a frame of the new session changes nothing while
      its set-up is short of `DetectorConfigured`, and reaches the results
      callback from then on. */
  lemma DetectorStartsAtReady(h: HookState, k: nat, r: Results, sqrt: real -> real)
    requires !h.enabled && k <= 5
    ensures var on := Enable(h);
            var s := RunInit(on, on.session, SuccessfulRun[..k]);
            Live(s, on.session) &&
            (k < 5 ==> HookStep(s, ResultsArrived(on.session, r), sqrt) == s) &&
            (k == 5 ==> HookStep(s, ResultsArrived(on.session, r), sqrt) == OnResults(s, on.session, r, sqrt))
  {
    var on := Enable(h);
    if k == 0 {
      assert SuccessfulRun[..k] == [];
    } else {
      SetupAdvancesInOrder(on, on.session, k);
    }
  }

  lemma {:induction false} TeardownFreezesGesture(h: HookState, evs: seq<HookEvent>, sqrt: real -> real)
    requires !h.enabled
    requires forall i :: 0 <= i < |evs| ==> !evs[i].EnableDetection?
    ensures var z := RunHook(h, evs, sqrt);
            z.gesture == h.gesture && !z.enabled && z.session == h.session
    ensures (forall i :: 0 <= i < |evs| ==> evs[i].ResultsArrived?) ==> RunHook(h, evs, sqrt) == h
    decreases |evs|
  {
    if |evs| > 0 {
      assert !evs[0].EnableDetection?;
      var h1 := HookStep(h, evs[0], sqrt);
      TeardownFreezesGesture(h1, evs[1..], sqrt);
      if forall i :: 0 <= i < |evs| ==> evs[i].ResultsArrived? {
        assert evs[0].ResultsArrived?;
        assert h1 == h;
        assert forall i :: 0 <= i < |evs[1..]| ==> evs[1..][i] == evs[i + 1];
      }
    }
  }

  /** The corrected hook: set-up milestones go through `SetupStep`. */
  function GuardedHookStep(h: HookState, ev: HookEvent, sqrt: real -> real): HookState {
    match ev
    case InitProgress(k, step) => SetupStep(h, k, step)
    case _ => HookStep(h, ev, sqrt)
  }

  function RunGuardedHook(h: HookState, evs: seq<HookEvent>, sqrt: real -> real): HookState
    decreases |evs|
  {
    if |evs| == 0 then h else RunGuardedHook(GuardedHookStep(h, evs[0], sqrt), evs[1..], sqrt)
  }

  /** In the corrected hook switching off is final: until detection is
      switched on again, no callback of any session changes anything. */
  lemma {:induction false} GuardedTeardownIsFinal(h: HookState, evs: seq<HookEvent>, sqrt: real -> real)
    requires !h.enabled
    requires forall i :: 0 <= i < |evs| ==> !evs[i].EnableDetection?
    ensures RunGuardedHook(h, evs, sqrt) == h
    decreases |evs|
  {
    if |evs| > 0 {
      assert !evs[0].EnableDetection?;
      GuardedTeardownIsFinal(h, evs[1..], sqrt);
    }
  }
}
