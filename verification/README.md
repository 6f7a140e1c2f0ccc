# Christmas tree scene: a Dafny model of its control and motion logic

The scene shows a Christmas tree made of three populations: foliage points,
ornaments (gifts, balls and lights) and photo "polaroids". Each of them moves
between a scattered cloud (CHAOS) and the tree shape (FORMED). The model covers
five parts of it:

- **Layout helpers.** Easing, component-wise blending, and the linear part of
  the tree layout: height ratio, height and cone radius.
- **Progress controllers.** Each population has one. Every frame moves the
  progress toward the current state's target and clamps it to [0, 1]. Ornament
  classes then apply their weighted variant.
- **Instance building.** Ornament, photo and foliage instances are built,
  including the index arithmetic that places them on the tree.
- **Hand-gesture hook.** The hook's status sequence during set-up, and its
  per-frame classification of the hand as open or closed.
- **App-level state machine.** It decides the tree state from the manual
  button, the gesture-control switch and the hand, and it steers the camera.

Randomness, `π`, `sqrt`, `sin` and `cos` are parameters. The random draws come
in as values in [0, 1); the maths functions are fields of `Vectors.MathLib`. So
every operation is a pure function of its inputs. React state and effects are
flattened into explicit states and step functions:

- a frame callback is a `Tick`;
- the gesture effect runs after an event exactly when one of its dependencies
  changed (`App.Dispatch`);
- each run of the detection effect is a numbered session. A detector frame
  reaches the results callback only while the current session's detector runs
  (registered at `DetectorConfigured`, stopped by a failure), and applies only
  while its session is live (the `mounted` check of the results callback); a
  set-up milestone writes status and error whatever its session, as in the
  code.

Modules: one per source file — `Types` (`types.ts`), `Positions`
(`positions.ts`), `Ornaments`, `Polaroids`, `Foliage`, `HandGestureHook`
(`useHandGesture.ts`) and `App` — plus two shared ones: `Vectors`, the
three.js maths helpers the components call, and `Progress`, the controller
step that `Ornaments.tsx`, `Polaroids.tsx` and `Foliage.tsx` each repeat.

## Model

| member | source | states |
|---|---|---|
| Vectors.Clamp | src/components/Ornaments.tsx:123 | the result lies in [lo, hi]; a value already inside is unchanged; a value below becomes lo and one above becomes hi |
| Vectors.LerpBetween | src/utils/positions.ts:49-51 | for a blend factor in [0, 1], the scalar blend lies between its two ends |
| Positions.SmoothStep | src/utils/positions.ts:55-57 | smoothStep fixes 0, 1 and 0.5 and maps [0, 1] into [0, 1] |
| Positions.SmoothStepMonotone | src/utils/positions.ts:55-57 | smoothStep is non-decreasing on [0, 1] |
| Positions.LerpVector3 | src/utils/positions.ts:43-53 | alpha 0 gives the start and alpha 1 the end; for alpha in [0, 1] each component lies between the matching components of start and end |
| Positions.HeightRatio | src/utils/positions.ts:17 | the height ratio is non-negative, below 1 for an index below the total, and at most 1 up to the total |
| Positions.TreeYShape | src/utils/positions.ts:17-18 | index 0 sits at height −2; every slot up to the total lies in [−2, 8]; height is strictly increasing in the index |
| Positions.BaseRadiusShape | src/utils/positions.ts:20-21 | the cone radius lies in [0.7, 3.5] and never grows with the index |
| Positions.TreePosition | src/utils/positions.ts:16-34 | a tree position's height is the linear height of its slot, whatever the spiral placement |
| Positions.GenerateDualPositions | src/utils/positions.ts:36-41 | exactly count entries; entry i pairs the i-th chaos sample with the tree position of slot i of count |
| Positions.DualTargetsRise | src/utils/positions.ts:36-41 | entry 0's target is at height −2, later entries' targets are strictly higher, and all stay below 8 |
| Progress.Target | src/components/Ornaments.tsx:121 | the target progress is 1 exactly for FORMED and 0 exactly for CHAOS |
| Progress.Step | src/components/Ornaments.tsx:121-123 | one controller step keeps progress in [0, 1] and leaves progress already at the target unchanged |
| Progress.StepTowardTarget | src/components/Ornaments.tsx:121-123 | with non-negative speed and frame time, progress never decreases toward FORMED and never increases toward CHAOS, and its distance to the target never grows |
| Progress.StepStrictlyCloser | src/components/Foliage.tsx:107-110 | with positive speed and frame time, progress not yet at the target strictly approaches it |
| Progress.StepGap | src/components/Foliage.tsx:107-110 | while speed·Δ ≤ 1 the step shrinks the distance to the target by exactly the factor 1 − speed·Δ |
| Progress.StepOvershoot | src/components/Foliage.tsx:107-110 | a frame with speed·Δ ≥ 1 (a frame-time spike) lands exactly on the target |
| Progress.Settle | src/components/Foliage.tsx:104-116 | for any non-negative speed and frame time, after n equal frames progress is in [0, 1], no farther from the target, and its distance d satisfies d·(1 + n·speed·Δ) ≤ the initial distance |
| Progress.ConvergesWithin | src/components/Foliage.tsx:107-110 | once n·speed·Δ·ε ≥ 1, the distance bound of `Settle` puts progress within ε of the target |
| Progress.EasedStepTowardTarget | src/components/Foliage.tsx:112 | the eased progress moves in the same direction as the raw progress |
| Ornaments.CatalogueWeights | src/components/Ornaments.tsx:19-32 | every configuration's weight is its class weight: gift 3.0, ball 1.5, light 0.5 |
| Ornaments.CataloguePick | src/components/Ornaments.tsx:53 | a uniform draw in [0, 1) picks a valid configuration index |
| Ornaments.TreeSlot | src/components/Ornaments.tsx:58-60 | the floor of i·(15000/200) is exactly 75·i |
| Ornaments.TreeSlotsInRange | src/components/Ornaments.tsx:50-60 | the 200 ornament slots are strictly increasing and stay in [0, 15000) |
| Ornaments.JitterBounded | src/components/Ornaments.tsx:61-65 | the random offset stays within ±0.25 horizontally and ±0.15 vertically |
| Ornaments.BuildInstances | src/components/Ornaments.tsx:48-78 | exactly 200 instances; each has a catalogue configuration picked by its draw, its own chaos sample, and its tree slot's position plus jitter as target |
| Ornaments.BuiltTargetsNearSlots | src/components/Ornaments.tsx:58-65 | every built target lies within the jitter bounds of its tree slot's position |
| Ornaments.OfKind | src/components/Ornaments.tsx:83-93 | the filter keeps exactly the instances of the given class, all taken from the input |
| Ornaments.Partition | src/components/Ornaments.tsx:83-97 | the gift, ball and light groups together are the whole population as a multiset, and their sizes sum to its size |
| Ornaments.ExactlyOneGroup | src/components/Ornaments.tsx:83-93 | an instance is in a class's group exactly when that is its class |
| Ornaments.GroupsCoverPopulation | src/components/Ornaments.tsx:48-97 | the three groups of the built population have sizes summing to 200 |
| Ornaments.WeightedProgress | src/components/Ornaments.tsx:128-132 | weighted progress always lies in [0, 1] |
| Ornaments.WeightedProgressOrder | src/components/Ornaments.tsx:128-132 | for group progress in [0, 1] and non-negative weights, a class is never behind the group, a heavier class never behind a lighter one, and a class never moves back while the group advances |
| Ornaments.ClassOrder | src/components/Ornaments.tsx:128-132 | gifts are never behind balls, balls never behind lights, lights never behind the group |
| Ornaments.GiftsLandFirst | src/components/Ornaments.tsx:128-132 | for group progress in [10/13, 20/21), gifts have arrived while lights have not |
| Ornaments.InstancePosition | src/components/Ornaments.tsx:134-136 | at group progress 0 an ornament is at its chaos position, at group progress 1 it is at its target, and it always lies between the two in every coordinate |
| Ornaments.GroupTick | src/components/Ornaments.tsx:118-123 | a frame keeps group progress in [0, 1], and a frame before the mesh exists leaves it alone |
| Ornaments.GroupFrame | src/components/Ornaments.tsx:127-136 | a frame writes one position per instance, each between that instance's chaos and target positions in every coordinate; at progress 0 every instance is at its chaos position |
| Ornaments.GroupAtRest | src/components/Ornaments.tsx:111-136 | a group mounted in a state stays at that state's progress, and draws every instance exactly at its tree or chaos position |
| Ornaments.InstancesFollowGroup | src/components/Ornaments.tsx:121-132 | no instance's blend factor moves against the group's direction |
| Polaroids.InstanceCount | src/components/Polaroids.tsx:84 | the photo count is min(3·images, 30): at most 30, at most three per image, one of the two, and at least 1 when an image is given |
| Polaroids.ImageIndex | src/components/Polaroids.tsx:113 | the image index is a valid texture index, and the first round of photos uses each image in turn |
| Polaroids.EveryImageShown | src/components/Polaroids.tsx:84-113 | every image appears on some photo exactly when there are at most 30 images |
| Polaroids.TreeSlotInRange | src/components/Polaroids.tsx:87-90 | for 1 ≤ count ≤ 30 and a draw in [0, 1), the jittered slot stays in [0, 15000) |
| Polaroids.TreeSlotNeedsCap | src/components/Polaroids.tsx:84-90 | without the cap of 30, a 31st photo can land past slot 15000 |
| Polaroids.BuildInstances | src/components/Polaroids.tsx:82-120 | exactly InstanceCount photos; photo i shows texture i mod images and has its own chaos sample; its target is built from a jittered slot that lies in [0, 15000) |
| Polaroids.BuiltPhotosShowEveryImage | src/components/Polaroids.tsx:84-113 | with between 1 and 30 images, every image appears on some built photo |
| Polaroids.Tick | src/components/Polaroids.tsx:36-41 | a frame keeps progress in [0, 1], and a frame before the mesh exists leaves it alone |
| Polaroids.TickTowardTarget | src/components/Polaroids.tsx:39-43 | at rate 0.7, raw and eased progress move monotonically toward the state's target |
| Polaroids.PhotoPosition | src/components/Polaroids.tsx:43-49 | the eased progress alone blends the positions: chaos at 0, target at 1, between them in every coordinate in between |
| Polaroids.MountedAtRest | src/components/Polaroids.tsx:34-49 | a photo mounted in a state stays at that state's progress and is drawn at its tree or chaos position |
| Foliage.Mount | src/components/Foliage.tsx:89-92 | the foliage starts with stored progress and progress uniform both at the state's target, and time 0 |
| Foliage.TickInvariant | src/components/Foliage.tsx:104-116 | each frame keeps the uniform equal to smoothStep of the stored progress and in [0, 1]; time never decreases; distance to the target never grows; progress at the target stays there |
| Foliage.Buffers | src/components/Foliage.tsx:59-79 | the three arrays have length 3·count; slot 3i+k of chaos and target holds component k of entry i; positions equal chaos |
| Foliage.BufferLayout | src/components/Foliage.tsx:65-72 | the layout read at 3i+k gives component k of entry i |
| Foliage.Geometry | src/components/Foliage.tsx:59-80 | the flattened chaos array holds the chaos samples, and the target array holds the tree positions of slots 0 to count−1 |
| HandGestureHook.InitialState | src/hooks/useHandGesture.ts:5-11 | the hand starts closed at the origin, status "Inactive", no error, with no session live and no detector running |
| HandGestureHook.Enable | src/hooks/useHandGesture.ts:211 | switching on starts a fresh live session whose detector is not yet running, and switching on while on changes nothing |
| HandGestureHook.Disable | src/hooks/useHandGesture.ts:212 | switching off makes every session dead and keeps gesture, status and error |
| HandGestureHook.ApplyInit | src/hooks/useHandGesture.ts:21-180 | a set-up failure sets the error status and the error to the thrown message, or to "Unknown error" for a non-Error value, and leaves its session without a detector; reaching Ready registers the current session's detector; a started camera clears the error; another session's milestones leave the current detector alone |
| HandGestureHook.SetupAdvancesInOrder | src/hooks/useHandGesture.ts:24-90 | during set-up the status runs through Requesting camera, Camera obtained, Loading MediaPipe, Initializing hand detector, Ready, in that order, touching nothing else; the detector runs from Ready on, and only for the current session |
| HandGestureHook.SetupSucceeds | src/hooks/useHandGesture.ts:90-173 | a set-up that succeeds ends "Ready - waiting for hand..." with no error, and the current session's detector running |
| HandGestureHook.SetupFails | src/hooks/useHandGesture.ts:175-179 | a failure after any of the five set-up statuses ends in "Error: " + message, with the message stored as the error and the current session left without a detector |
| HandGestureHook.IsOpen | src/hooks/useHandGesture.ts:124-132 | all five fingertip distances ≤ 0.3 give closed; all five > 0.3 give open |
| HandGestureHook.OpenIsMonotone | src/hooks/useHandGesture.ts:124-132 | spreading a finger further never closes an open hand |
| HandGestureHook.HandCenter | src/hooks/useHandGesture.ts:134-139 | a wrist inside the image maps into [−1, 1] on both axes |
| HandGestureHook.HandCenterBijective | src/hooks/useHandGesture.ts:134-139 | the image centre maps to the origin, y is flipped, x keeps its order, and `WristOf` inverts the map both ways |
| HandGestureHook.OnResults | src/hooks/useHandGesture.ts:93-155 | a dead session's frame changes nothing. A hand frame sets "Hand detected!"; with all 21 landmarks it replaces openness and position, and with fewer it leaves the gesture alone. A no-hand frame sets "No hand detected", clears openness and keeps the position |
| HandGestureHook.SetupStep | src/hooks/useHandGesture.ts:21-90 | corrected: a set-up milestone of a dead session changes nothing; a live one has its as-written effect on status and error |
| HandGestureHook.StaleSetupCorruptsNewSession | src/hooks/useHandGesture.ts:175-186 | as written, a failure of an abandoned first set-up overwrites the healthy second session's Ready status with the error status and sets the error, while that session stays live and its detector keeps running |
| HandGestureHook.GuardedSetupProtectsNewSession | src/hooks/useHandGesture.ts:175-186 | with the liveness check, the stale failure leaves the second session's Ready status and cleared error alone, while the live session's own failure still registers |
| HandGestureHook.FramesNeedDetector | src/hooks/useHandGesture.ts:90-171 | while the current session's detector is not running, and until detection is switched on again or that session's set-up reaches Ready, the hand reading never changes and detector frames change nothing |
| HandGestureHook.FailureIsTerminal | src/hooks/useHandGesture.ts:175-179 | a failure of the current session's set-up shows the error status and stops its detector; from then on, until detection is switched on again, the hand reading stays as it was and detector frames change nothing |
| HandGestureHook.DetectorStartsAtReady | src/hooks/useHandGesture.ts:24-93 | after switching on, a frame of the new session changes nothing before its set-up reaches Ready, and is handed to the results callback from Ready on |
| HandGestureHook.TeardownIsFinal | src/hooks/useHandGesture.ts:93-94 | after switching off and until switching on, the hand reading stays frozen and detector frames change nothing; a late set-up milestone can still rewrite the status; switching on again makes every older session dead |
| HandGestureHook.GuardedTeardownIsFinal | src/hooks/useHandGesture.ts:185-186 | in the corrected hook, after switching off and until switching on, no callback of any session changes anything |
| App.Derived | src/App.tsx:12 | the hand asks for CHAOS exactly when open and FORMED exactly when closed |
| App.GestureEffect | src/App.tsx:10-14 | with gesture control on the tree follows the hand; with it off nothing changes |
| App.ManualToggle | src/App.tsx:25-29 | with gesture control off the tree changes; with it on nothing changes |
| App.ToggleGestureControl | src/App.tsx:16-23 | the switch flips; switching off forms the tree; switching on leaves the tree as it was; the hand reading is kept |
| App.DispatchKeepsSynced | src/App.tsx:10-14 | every event keeps the tree equal to what the hand asks for while gesture control is on |
| App.ReachableSynced | src/App.tsx:10-29 | after any sequence of events from a synced state, with gesture control on the tree is CHAOS exactly when the hand is open |
| App.FramesIgnoredWithoutDetector | src/hooks/useHandGesture.ts:93-171 | while no detector runs, any sequence of detector frames leaves the app state, the tree included, unchanged |
| App.FailedSetupFreezesTree | src/hooks/useHandGesture.ts:175-179 | a failed set-up of the current session leaves the tree and the hand reading as they were, and no detector frame after it moves the tree |
| App.InitialSynced | src/App.tsx:7-14 | the app starts FORMED with control off, and every reachable state is synced |
| App.ManualToggleInvolution | src/App.tsx:25-29 | with control off one press flips the tree and two presses restore it; with control on a press does nothing |
| App.DisablingForms | src/App.tsx:16-19 | switching gesture control off always leaves the tree FORMED |
| App.EnablingDerivesFromLastGesture | src/App.tsx:10-23 | switching control on does not set the tree itself; the effect derives it from the last hand reading |
| App.ManualScenario | src/App.tsx:7-29 | from start, one press gives CHAOS and a second FORMED; switching control on at CHAOS and off again gives FORMED |
| App.ManualButtonLabelNamesNext | src/App.tsx:55 | the manual button reads "Form Tree" exactly when a press forms the tree, and "Unleash Chaos" exactly when it scatters it |
| App.CameraPosition | src/App.tsx:31-33 | with gesture control off the camera target is (0, 4, 20) |
| App.CameraFollowsHand | src/App.tsx:31-33 | with control on the camera target determines the hand position; a hand at the origin gives the resting target; a wrist inside the image keeps x in [−10, 10] and y in [−1, 9] |

## Left out

- Chaos-cloud sampling (`generateChaosPosition`) is left out. It uses
  `Math.random`, `acos`, `cbrt`, `sin` and `cos`, so its samples are parameters.
  The claim that they fill a ball uniformly is statistical.
- The spiral placement of tree positions is left out. Its `cos`/`sin` of the
  golden angle and the `sin` ripple are computed through the supplied `MathLib`,
  but nothing is proved about them.
- Positions.TreePosition: states only the height of the position. The
  horizontal radius identity needs the trigonometric identity `cos² + sin² = 1`,
  which an uninterpreted `sin`/`cos` cannot supply.
- Rotations are left out: Euler angles, quaternions, `slerp` and the random
  rotations. They are three.js library calls.
- Instance matrix composition and mesh updates are left out.
- Rendering is left out: the GLSL shaders, geometries, materials and all of
  `src/components/Scene.tsx`. It is drawing code, not logic.
- Floating point is left out. Numbers are exact reals, so float32 storage in
  the foliage arrays, rounding and NaN are not modelled.
- The camera, DOM and CDN I/O is not modelled: the camera permission request,
  the video element, script loading, and the MediaPipe `Hands`/`Camera`
  objects and their cleanup. Their outcomes arrive as `InitStep` events and
  detector `Results`.
- The `onFrame` callback and the `Camera` object are folded into the
  `detecting` flag of the hook state and the session check on `OnResults`.
- The shared refs are not modelled. A set-up that finishes after a newer one
  overwrites `videoRef`, `handsRef` and `cameraRef` (lines 42, 158, 170); the
  live camera then feeds the stale detector, whose callback returns at line
  94. The model keeps the live session's detector running in that case.
- The Euclidean distance's square root is a parameter.
- The frame counter in the results callback is left out; it only throttles
  console logging.
- Polaroids.BuildInstances: states the slot each target is built from and its
  range, but no geometric property of the target itself. The outward push
  divides by the tree position's length, which needs `sqrt`.
- Treating malformed landmark values such as NaN as "no hand" is not modelled,
  because the code does not do it. A frame whose hand has fewer than 21
  landmarks throws after setting the status; `OnResults` models that.
- React scheduling is left out: batching, render timing and effect ordering
  across components. Each event is followed by at most one run of the gesture
  effect.
- The build configuration (`tailwind.config.js`, `vite.config.ts`) is left out.

Three behaviours of the code that the model keeps as they are:

- **Liveness check.** The results callback and the camera's frame callback
  check `mounted` (`useHandGesture.ts:94, 162`); the set-up's status and error
  writes (lines 24-90, 173, 178-179) do not. `HookStep`, and through it the
  app model, applies set-up milestones unguarded with `ApplyInit`. The
  guarded `SetupStep` and `GuardedHookStep` stand apart; see Findings.
- **Failures.** A failure before line 93 leaves the results callback
  unregistered. If `camera.start()` fails (line 171), the callback is already
  registered and `handsRef` set, but with the camera not started no frames
  arrive. Either way no gesture update follows until detection is switched
  on again: `ApplyInit` stops the session's detector on a failure, and
  `FailureIsTerminal` and `App.FailedSetupFreezesTree` prove the rest.
- **Switching off.** `Disable` keeps gesture, status and error, because
  `disableDetection` resets none of them. On switching back on, the tree
  therefore follows the last hand reading (`App.EnablingDerivesFromLastGesture`).

## Findings

| source | as written | input that shows it | evidently intended | confidence | as-written member | corrected member |
|---|---|---|---|---|---|---|
| src/hooks/useHandGesture.ts:21-180 | set-up writes status and error without checking its effect run's `mounted` flag; it also overwrites `videoRef`, `handsRef` and `cameraRef` (lines 42, 158, 170), so a stale set-up that finishes late hands the live camera's frames to its own detector, whose callback returns at line 94, and the live video and stream escape cleanup | switch detection on, off before the camera is granted, then on again; the second set-up reaches Ready; the first set-up's camera request then fails | a set-up whose effect run was cleaned up no longer writes, as the results callback already ensures at line 94 | medium, not executed | HandGestureHook.StaleSetupCorruptsNewSession | HandGestureHook.GuardedSetupProtectsNewSession |

In the as-written version, the healthy second session shows
"Error: <message>" and an error while its detector runs. `HandGestureHook.SetupStep`
is the corrected set-up step and `HandGestureHook.GuardedHookStep` the corrected
hook. `HandGestureHook.GuardedTeardownIsFinal` proves that in it switching off
is final. `HandGestureHook.HookStep` and the app model keep the code's
unguarded behaviour. The app's sync invariant holds either way, because
set-up milestones touch neither the hand reading nor the switch.
