/** The top-level control logic (`App.tsx`): the authoritative tree state,
    the manual toggle, the gesture-control switch, the effect that derives
    the tree state from the hand while gesture control is on, and the camera
    target handed to the scene. React's state updates and effects are
    flattened into one transition per event: the event's own writes, then
    the effect if one of its dependencies changed. */
module App {
  import opened Vectors
  import opened Types
  import HandGestureHook

  datatype AppState = AppState(tree: TreeState, hook: HandGestureHook.HookState)

  /** The first render: the tree formed, detection off. */
  const Initial: AppState := AppState(Formed, HandGestureHook.Initial)

  /** The tree state the hand asks for: an open hand scatters the tree, a
      closed one forms it. */
  function Derived(isOpen: bool): (s: TreeState)
    ensures s == Chaos <==> isOpen
    ensures s == Formed <==> !isOpen
  {
    if isOpen then Chaos else Formed
  }

  function Flip(s: TreeState): TreeState {
    if s == Chaos then Formed else Chaos
  }

  /** The dependencies of the gesture effect. */
  function Deps(a: AppState): (bool, bool) {
    (a.hook.gesture.isOpen, a.hook.enabled)
  }

  /** The gesture effect's body: only while gesture control is on, the tree
      follows the hand. */
  function GestureEffect(a: AppState): (a': AppState)
    ensures a'.hook == a.hook
    ensures a.hook.enabled ==> a'.tree == Derived(a.hook.gesture.isOpen)
    ensures !a.hook.enabled ==> a' == a
  {
    if a.hook.enabled then a.(tree := Derived(a.hook.gesture.isOpen)) else a
  }

  /** `manualToggle`: flips the tree while gesture control is off; ignored
      while it is on. */
  function ManualToggle(a: AppState): (a': AppState)
    ensures a'.hook == a.hook
    ensures a.hook.enabled ==> a' == a
    ensures !a.hook.enabled ==> a'.tree != a.tree
  {
    if !a.hook.enabled then a.(tree := Flip(a.tree)) else a
  }

  /** `toggleGestureControl`: switching off also forms the tree; switching on
      leaves the tree to the effect. */
  function ToggleGestureControl(a: AppState): (a': AppState)
    ensures a'.hook.enabled == !a.hook.enabled
    ensures a.hook.enabled ==> a'.tree == Formed
    ensures !a.hook.enabled ==> a'.tree == a.tree
    ensures a'.hook.gesture == a.hook.gesture
  {
    if a.hook.enabled then AppState(Formed, HandGestureHook.Disable(a.hook))
    else a.(hook := HandGestureHook.Enable(a.hook))
  }

  /** What can happen: the two buttons, and what the hook's set-up and
      detector report. The hook is switched only through the gesture button. */
  datatype AppEvent =
    | ManualButton
    | GestureButton
    | SetupProgress(session: nat, step: HandGestureHook.InitStep)
    | Frame(session: nat, results: HandGestureHook.Results)

  /** The writes an event makes directly, before effects run. */
  function Apply(a: AppState, ev: AppEvent, sqrt: real -> real): AppState {
    match ev
    case ManualButton => ManualToggle(a)
    case GestureButton => ToggleGestureControl(a)
    case SetupProgress(k, step) => a.(hook := HandGestureHook.HookStep(a.hook, HandGestureHook.InitProgress(k, step), sqrt))
    case Frame(k, r) => a.(hook := HandGestureHook.HookStep(a.hook, HandGestureHook.ResultsArrived(k, r), sqrt))
  }

  /** One event followed by a re-render: the gesture effect runs when its
      dependencies changed. */
  function Dispatch(a: AppState, ev: AppEvent, sqrt: real -> real): AppState {
    var b := Apply(a, ev, sqrt);
    if Deps(b) != Deps(a) then GestureEffect(b) else b
  }

  function Run(a: AppState, evs: seq<AppEvent>, sqrt: real -> real): AppState
    decreases |evs|
  {
    if |evs| == 0 then a else Run(Dispatch(a, evs[0], sqrt), evs[1..], sqrt)
  }

  /** While gesture control is on, the tree is what the hand asks for. */
  predicate Synced(a: AppState) {
    a.hook.enabled ==> a.tree == Derived(a.hook.gesture.isOpen)
  }

  /** Every event keeps the tree in step with the hand while gesture control
      is on: the effect only has to run when its dependencies change. */
  lemma DispatchKeepsSynced(a: AppState, ev: AppEvent, sqrt: real -> real)
    requires Synced(a)
    ensures Synced(Dispatch(a, ev, sqrt))
  {
  }


  /** Every reachable state is synced: while gesture control is on, the tree
      is CHAOS exactly when the hand is open. */
  lemma {:induction false} ReachableSynced(a: AppState, evs: seq<AppEvent>, sqrt: real -> real)
    requires Synced(a)
    ensures var z := Run(a, evs, sqrt);
            z.hook.enabled ==> (z.tree == Chaos <==> z.hook.gesture.isOpen)
    ensures Synced(Run(a, evs, sqrt))
    decreases |evs|
  {
    if |evs| > 0 {
      DispatchKeepsSynced(a, evs[0], sqrt);
      ReachableSynced(Dispatch(a, evs[0], sqrt), evs[1..], sqrt);
    }
  }

  /** Without a running detector, frames leave the whole app as it is. */
  lemma {:induction false} FramesIgnoredWithoutDetector(a: AppState, evs: seq<AppEvent>, sqrt: real -> real)
    requires !a.hook.detecting
    requires forall i :: 0 <= i < |evs| ==> evs[i].Frame?
    ensures Run(a, evs, sqrt) == a
    decreases |evs|
  {
    if |evs| > 0 {
      assert evs[0].Frame?;
      assert Dispatch(a, evs[0], sqrt) == a;
      FramesIgnoredWithoutDetector(a, evs[1..], sqrt);
    }
  }

  /** A failed set-up of the current session freezes the tree: the failure
      leaves the tree where it was, and no detector frame after it moves the
      tree until gesture control is switched again. */
  lemma FailedSetupFreezesTree(a: AppState, t: HandGestureHook.Thrown, evs: seq<AppEvent>, sqrt: real -> real)
    requires forall i :: 0 <= i < |evs| ==> evs[i].Frame?
    ensures var b := Dispatch(a, SetupProgress(a.hook.session, HandGestureHook.Threw(t)), sqrt);
            b.tree == a.tree && b.hook.gesture == a.hook.gesture && !b.hook.detecting &&
            Run(b, evs, sqrt) == b
  {
    FramesIgnoredWithoutDetector(Dispatch(a, SetupProgress(a.hook.session, HandGestureHook.Threw(t)), sqrt), evs, sqrt);
  }

  /** From the first render, every reachable state is synced. */
  lemma InitialSynced(evs: seq<AppEvent>, sqrt: real -> real)
    ensures Initial.tree == Formed && !Initial.hook.enabled
    ensures var z := Run(Initial, evs, sqrt);
            z.hook.enabled ==> (z.tree == Chaos <==> z.hook.gesture.isOpen)
  {
    ReachableSynced(Initial, evs, sqrt);
  }

  /** With gesture control off, the manual button flips the tree and pressing
      it twice restores it; with gesture control on, it does nothing. */
  lemma ManualToggleInvolution(a: AppState, sqrt: real -> real)
    ensures !a.hook.enabled ==>
              Dispatch(a, ManualButton, sqrt).tree == Flip(a.tree) &&
              Dispatch(Dispatch(a, ManualButton, sqrt), ManualButton, sqrt) == a
    ensures a.hook.enabled ==> Dispatch(a, ManualButton, sqrt) == a
  {
  }

  /** Switching gesture control off always leaves the tree formed, whatever
      the hand was doing. */
  lemma DisablingForms(a: AppState, sqrt: real -> real)
    requires a.hook.enabled
    ensures var z := Dispatch(a, GestureButton, sqrt);
            !z.hook.enabled && z.tree == Formed
  {
  }

  /** Switching gesture control on does not set the tree itself: the effect
      then derives it from the last hand reading, which detection kept while
      it was off. */
  lemma EnablingDerivesFromLastGesture(a: AppState, sqrt: real -> real)
    requires !a.hook.enabled
    ensures var z := Dispatch(a, GestureButton, sqrt);
            z.hook.enabled && z.tree == Derived(a.hook.gesture.isOpen) &&
            z.hook.gesture == a.hook.gesture
    ensures ToggleGestureControl(a).tree == a.tree
  {
  }

  /** The manual scenario: from the first render, one press scatters the
      tree, a second forms it again; switching gesture control on while the
      tree is scattered and off again leaves it formed. */
  lemma ManualScenario(sqrt: real -> real)
    ensures var one := Dispatch(Initial, ManualButton, sqrt);
            var two := Dispatch(one, ManualButton, sqrt);
            var on := Dispatch(one, GestureButton, sqrt);
            var off := Dispatch(on, GestureButton, sqrt);
            one.tree == Chaos && two.tree == Formed && on.hook.enabled && off.tree == Formed
  {
  }

  /** The label of the manual button names the state a press leads to. */
  function ManualButtonLabel(s: TreeState): string {
    if s == Chaos then "Form Tree" else "Unleash Chaos"
  }

  lemma ManualButtonLabelNamesNext(a: AppState, sqrt: real -> real)
    requires !a.hook.enabled
    ensures ManualButtonLabel(a.tree) == "Form Tree" <==> Dispatch(a, ManualButton, sqrt).tree == Formed
    ensures ManualButtonLabel(a.tree) == "Unleash Chaos" <==> Dispatch(a, ManualButton, sqrt).tree == Chaos
  {
  }

  /** Camera target: steered by the hand while gesture control is on, fixed
      at `(0, 4, 20)` otherwise. */
  const DefaultCamera: Vec3 := Vec3(0.0, 4.0, 20.0)

  function CameraPosition(a: AppState): (c: Vec3)
    ensures !a.hook.enabled ==> c == DefaultCamera
  {
    if a.hook.enabled then
      var p := a.hook.gesture.position;
      Vec3(p.x * 10.0, 4.0 + p.y * 5.0, 20.0 + p.z)
    else DefaultCamera
  }

  /** Reading the hand position back from a camera target. */
  function HandFromCamera(c: Vec3): Vec3 {
    Vec3(c.x / 10.0, (c.y - 4.0) / 5.0, c.z - 20.0)
  }

  /** While gesture control is on, the camera target determines the hand
      position (`HandFromCamera` undoes the map), a hand at the origin puts
      the camera where it rests when control is off, and a wrist inside the
      image keeps the camera within x ∈ [−10, 10], y ∈ [−1, 9]. */
  lemma CameraFollowsHand(a: AppState, w: Vec3)
    requires a.hook.enabled
    ensures HandFromCamera(CameraPosition(a)) == a.hook.gesture.position
    ensures a.hook.gesture.position == Origin ==> CameraPosition(a) == DefaultCamera
    ensures a.hook.gesture.position == HandGestureHook.HandCenter(w) &&
            0.0 <= w.x <= 1.0 && 0.0 <= w.y <= 1.0 ==>
              -10.0 <= CameraPosition(a).x <= 10.0 && -1.0 <= CameraPosition(a).y <= 9.0
  {
  }
}
