/**
 * The scene-transition controller of src/animation/ScrollAnimations.js as a
 * state machine over values.
 *
 * `Ctl` is everything the controller's closure and the objects it drives hold:
 * the current scene, the transition lock, the wheel and touch bookkeeping, the
 * scene groups, the section panels, the indicator dots, the camera and the
 * progress bar, and the animations (tweens and the fallback timer) that are
 * still in flight. An animation is not run against a clock: each of its
 * callbacks is an `Event` that the scheduler may deliver while the animation
 * is pending, and `Step` gives the state after it.
 */
module Transitions {
  import opened Wrappers
  import opened SceneGraph

  const TOTAL_SCENES: int := 14

  /** Depth of each scene along the camera axis. */
  const SCENE_POSITIONS: seq<int> :=
    [0, -25, -50, -75, -100, -125, -150, -175, -200, -225, -250, -275, -300, -325]

  /** The camera stops this far in front of the scene it shows. */
  const CAMERA_OFFSET: int := 10

  /** Minimum gap, in milliseconds, between two accepted wheel events. */
  const WHEEL_DEADTIME: real := 600.0

  /** A swipe must cover strictly more than this many pixels. */
  const SWIPE_THRESHOLD: real := 60.0

  /** Keys that step one scene forward or back. */
  const KEY_STEPS: map<string, int> :=
    map["ArrowDown" := 1, "PageDown" := 1, " " := 1, "ArrowUp" := -1, "PageUp" := -1]

  /** A section element: without a `.content` block, or with one whose `visible` class is `shown`. */
  datatype Panel = Bare | WithCard(shown: bool)

  /** An animation in flight, with the scene or value it was started for. */
  datatype Tween =
    | CardOut(card: int)       // old card fades out; on completion it loses `visible`
    | SceneOut(scene: int)     // old scene fades 1 -> 0; on completion it is hidden
    | CameraTo(z: int)         // camera depth tween
    | SceneIn(scene: int)      // new scene fades 0 -> 1
    | CardIn(card: int)        // new card fades in; on completion the lock is released
    | FallbackTimer            // 500 ms timer when the target has no card; releases the lock
    | ProgressTo(scaleX: real) // progress-bar tween

  datatype Ctl = Ctl(
    current: int,              // `currentScene`
    locked: bool,              // `isTransitioning`
    lastWheel: real,           // time of the last accepted wheel event
    touchY: real,              // vertical position recorded at touch start
    groups: seq<Node>,         // `sceneGroups`
    panels: seq<Panel>,        // `sections`
    dots: seq<bool>,           // `active` class of each `.scene-dot`
    hasProgressBar: bool,      // whether `.progress-bar` was found
    cameraZ: real,             // `camera.position.z`
    progress: real,            // progress-bar `scaleX`
    pending: seq<Tween>)       // animations in flight

  /** What an input handler did: the new state and whether it called `preventDefault`. */
  datatype Handled = Handled(state: Ctl, prevented: bool)

  datatype Event =
    | Wheel(now: real, deltaY: real)
    | TouchStart(startY: real)
    | TouchEnd(endY: real)
    | Key(key: string)
    | DotClick(dot: int)
    | OldCardFadeDone(k: int)
    | SceneFadeFrame(k: int, v: real)
    | OldSceneFadeDone(k: int)
    | NewSceneFadeDone(k: int)
    | CameraDone(k: int)
    | IncomingCardDone(k: int)
    | FallbackTimeout(k: int)
    | ProgressDone(k: int)

  // ---------------------------------------------------------------------------
  // Derived values

  /** Camera depth for scene `idx`: `SCENE_POSITIONS[idx] + 10`. */
  function CameraTarget(idx: int): (z: int)
    requires 0 <= idx < TOTAL_SCENES
    ensures z == -25 * idx + CAMERA_OFFSET
  {
    SCENE_POSITIONS[idx] + CAMERA_OFFSET
  }

  /** Progress-bar fill for scene `idx`: `idx / (TOTAL_SCENES - 1)`. */
  function ProgressFraction(idx: int): (r: real)
    ensures r * (TOTAL_SCENES - 1) as real == idx as real
    ensures 0 <= idx < TOTAL_SCENES ==> 0.0 <= r <= 1.0
    ensures idx == 0 ==> r == 0.0
    ensures idx == TOTAL_SCENES - 1 ==> r == 1.0
  {
    idx as real / (TOTAL_SCENES - 1) as real
  }

  /** The dots after `setActiveDot(idx)`: dot `i` is active exactly when `i == idx`. */
  function ActiveDots(n: nat, idx: int): (r: seq<bool>)
    ensures |r| == n
    ensures forall i :: 0 <= i < n ==> (r[i] <==> i == idx)
  {
    seq(n, i => i == idx)
  }

  predicate HasCard(s: Ctl, i: int) {
    0 <= i < |s.panels| && s.panels[i].WithCard?
  }

  function ShowCard(s: Ctl, i: int): seq<Panel> {
    if HasCard(s, i) then s.panels[i := WithCard(true)] else s.panels
  }

  function Remove(p: seq<Tween>, k: int): (r: seq<Tween>)
    requires 0 <= k < |p|
    ensures |r| == |p| - 1
    ensures forall j :: 0 <= j < k ==> r[j] == p[j]
    ensures forall j :: k <= j < |r| ==> r[j] == p[j + 1]
  {
    p[..k] + p[k + 1..]
  }

  predicate IsRelease(t: Tween) {
    t.CardIn? || t.FallbackTimer?
  }

  /** Number of pending animations whose completion releases the lock. */
  function Releases(p: seq<Tween>): nat
    decreases |p|
  {
    if p == [] then 0 else (if IsRelease(p[0]) then 1 else 0) + Releases(p[1..])
  }

  // ---------------------------------------------------------------------------
  // `goToScene`

  /** The guard of `goToScene`: everything else is a complete no-op. */
  predicate Accepts(s: Ctl, idx: int) {
    !(idx == s.current || s.locked || idx < 0 || idx >= TOTAL_SCENES)
  }

  /** `[t]` when the source starts `t`, `[]` when its guard skips it. */
  function StartIf(b: bool, t: Tween): seq<Tween> {
    if b then [t] else []
  }

  /** The animation that will release the lock: the new card's fade-in, or the fallback timer. */
  function Release(s: Ctl, idx: int): Tween {
    if HasCard(s, idx) then CardIn(idx) else FallbackTimer
  }

  /**
   * The animations an accepted `goToScene(idx)` starts before the indicator
   * updates, in the order the source starts them: old card out, old scene
   * out, camera, new scene in, and the new card's fade-in or the fallback timer.
   */
  function Started(s: Ctl, idx: int): seq<Tween>
    requires 0 <= idx < TOTAL_SCENES
  {
    var from := s.current;
    StartIf(HasCard(s, from), CardOut(from)) +
    StartIf(0 <= from < |s.groups|, SceneOut(from)) +
    [CameraTo(CameraTarget(idx))] +
    StartIf(idx < |s.groups|, SceneIn(idx)) +
    [Release(s, idx)]
  }

  /** All animations an accepted `goToScene(idx)` starts, the progress-bar tween last. */
  function Launched(s: Ctl, idx: int): seq<Tween>
    requires 0 <= idx < TOTAL_SCENES
  {
    Started(s, idx) + StartIf(s.hasProgressBar, ProgressTo(ProgressFraction(idx)))
  }

  /** What a transition starts depends only on the scene indices, the groups and the panels. */
  lemma StartedFrame(s: Ctl, t: Ctl, idx: int)
    requires 0 <= idx < TOTAL_SCENES
    requires s.current == t.current && s.groups == t.groups && s.panels == t.panels
    ensures Started(s, idx) == Started(t, idx)
  {
  }

  /** `newScene.visible = true`, when the scene exists. */
  function ShowScene(s: Ctl, idx: int): seq<Node> {
    if 0 <= idx < |s.groups| then s.groups[idx := s.groups[idx].(visible := true)] else s.groups
  }

  function GoTo(s: Ctl, idx: int): Ctl {
    if !Accepts(s, idx) then s
    else
      s.(locked := true,
         groups := ShowScene(s, idx),
         panels := ShowCard(s, idx),
         pending := s.pending + Launched(s, idx),
         dots := ActiveDots(|s.dots|, idx),
         current := idx)
  }

  /** The accepted branch of `GoTo`, field by field, with the progress tween after the others. */
  lemma GoToParts(s: Ctl, idx: int)
    requires Accepts(s, idx)
    ensures GoTo(s, idx) == s.(locked := true, groups := ShowScene(s, idx), panels := ShowCard(s, idx),
      pending := s.pending + Started(s, idx) + StartIf(s.hasProgressBar, ProgressTo(ProgressFraction(idx))),
      dots := ActiveDots(|s.dots|, idx), current := idx)
  {
    var g := StartIf(s.hasProgressBar, ProgressTo(ProgressFraction(idx)));
    assert s.pending + Started(s, idx) + g == s.pending + (Started(s, idx) + g);
  }

  // ---------------------------------------------------------------------------
  // Input handlers

  /** Wheel direction: `deltaY > 0` goes forward, anything else (zero included) back. */
  function WheelDirection(deltaY: real): int {
    if deltaY > 0.0 then 1 else -1
  }

  function OnWheel(s: Ctl, now: real, deltaY: real): Handled {
    if s.locked || now - s.lastWheel < WHEEL_DEADTIME then Handled(s, true)
    else
      var next := s.current + WheelDirection(deltaY);
      if 0 <= next < TOTAL_SCENES then Handled(GoTo(s.(lastWheel := now), next), true)
      else Handled(s, false)
  }

  function Abs(x: real): real {
    if x < 0.0 then -x else x
  }

  function OnTouchEnd(s: Ctl, endY: real): Ctl {
    if s.locked then s
    else
      var diff := s.touchY - endY;
      if Abs(diff) > SWIPE_THRESHOLD then GoTo(s, s.current + (if diff > 0.0 then 1 else -1))
      else s
  }

  /** The scene a key asks for, or `None` for a key the controller does not handle. */
  function KeyTarget(current: int, key: string): Option<int> {
    if key in KEY_STEPS then Some(current + KEY_STEPS[key])
    else if key == "Home" then Some(0)
    else if key == "End" then Some(TOTAL_SCENES - 1)
    else None
  }

  function OnKey(s: Ctl, key: string): Handled {
    if s.locked then Handled(s, false)
    else
      match KeyTarget(s.current, key)
      case None => Handled(s, false)
      case Some(t) => Handled(GoTo(s, t), true)
  }

  // ---------------------------------------------------------------------------
  // Events

  /** The scene or panel an animation refers to exists. */
  predicate TargetsExist(s: Ctl, t: Tween) {
    match t
    case CardOut(c) => HasCard(s, c)
    case CardIn(c) => HasCard(s, c)
    case SceneOut(i) => 0 <= i < |s.groups|
    case SceneIn(i) => 0 <= i < |s.groups|
    case _ => true
  }

  /**
   * No fade-out is in flight. The release of a transition comes after the
   * fade-outs it started: the old card fades for 0.25 s and the old scene for
   * 0.4 s, while the new card's fade-in ends after 0.2 + 0.35 s and the
   * fallback timer after 0.5 s.
   */
  predicate FadeOutsDone(p: seq<Tween>) {
    forall k :: 0 <= k < |p| ==> !p[k].CardOut? && !p[k].SceneOut?
  }

  /**
   * A callback can only fire for an animation that is in flight and whose
   * target exists; a release only once the fade-outs are over.
   */
  predicate Enabled(s: Ctl, e: Event) {
    match e
    case Wheel(_, _) => true
    case TouchStart(_) => true
    case TouchEnd(_) => true
    case Key(_) => true
    case DotClick(i) => 0 <= i < |s.dots|
    case OldCardFadeDone(k) => 0 <= k < |s.pending| && s.pending[k].CardOut? && TargetsExist(s, s.pending[k])
    case SceneFadeFrame(k, v) =>
      0 <= k < |s.pending| && (s.pending[k].SceneOut? || s.pending[k].SceneIn?) &&
      TargetsExist(s, s.pending[k]) && 0.0 <= v <= 1.0
    case OldSceneFadeDone(k) => 0 <= k < |s.pending| && s.pending[k].SceneOut? && TargetsExist(s, s.pending[k])
    case NewSceneFadeDone(k) => 0 <= k < |s.pending| && s.pending[k].SceneIn?
    case CameraDone(k) => 0 <= k < |s.pending| && s.pending[k].CameraTo?
    case IncomingCardDone(k) => 0 <= k < |s.pending| && s.pending[k].CardIn? && FadeOutsDone(s.pending)
    case FallbackTimeout(k) => 0 <= k < |s.pending| && s.pending[k].FallbackTimer? && FadeOutsDone(s.pending)
    case ProgressDone(k) => 0 <= k < |s.pending| && s.pending[k].ProgressTo?
  }

  function Step(s: Ctl, e: Event): Ctl
    requires Enabled(s, e)
  {
    match e
    case Wheel(now, dy) => OnWheel(s, now, dy).state
    case TouchStart(y) => s.(touchY := y)
    case TouchEnd(y) => OnTouchEnd(s, y)
    case Key(key) => OnKey(s, key).state
    case DotClick(i) => GoTo(s, i)
    case OldCardFadeDone(k) =>
      s.(panels := s.panels[s.pending[k].card := WithCard(false)], pending := Remove(s.pending, k))
    case SceneFadeFrame(k, v) =>
      var i := s.pending[k].scene;
      s.(groups := s.groups[i := Faded(s.groups[i], v)])
    case OldSceneFadeDone(k) =>
      var i := s.pending[k].scene;
      s.(groups := s.groups[i := s.groups[i].(visible := false)], pending := Remove(s.pending, k))
    case NewSceneFadeDone(k) => s.(pending := Remove(s.pending, k))
    case CameraDone(k) => s.(cameraZ := s.pending[k].z as real, pending := Remove(s.pending, k))
    case IncomingCardDone(k) => s.(locked := false, pending := Remove(s.pending, k))
    case FallbackTimeout(k) => s.(locked := false, pending := Remove(s.pending, k))
    case ProgressDone(k) => s.(progress := s.pending[k].scaleX, pending := Remove(s.pending, k))
  }

  /** Delivers events in order; a callback for an animation that is not in flight never fires. */
  function Run(s: Ctl, es: seq<Event>): Ctl
    decreases |es|
  {
    if es == [] then s
    else Run(if Enabled(s, es[0]) then Step(s, es[0]) else s, es[1..])
  }

  // ---------------------------------------------------------------------------
  // The controller invariant

  /**
   * The scene index is in range; the lock is held exactly while one animation
   * that can release it is in flight (and never more than one); and every
   * animation in flight refers to a scene or panel that exists.
   */
  predicate Inv(s: Ctl) {
    0 <= s.current < TOTAL_SCENES &&
    Releases(s.pending) == (if s.locked then 1 else 0) &&
    forall k :: 0 <= k < |s.pending| ==> TargetsExist(s, s.pending[k])
  }

  lemma {:induction false} ReleasesAppend(a: seq<Tween>, b: seq<Tween>)
    ensures Releases(a + b) == Releases(a) + Releases(b)
    decreases |a|
  {
    if a == [] {
      assert a + b == b;
    } else {
      assert (a + b)[1..] == a[1..] + b;
      ReleasesAppend(a[1..], b);
    }
  }

  lemma ReleasesRemove(p: seq<Tween>, k: int)
    requires 0 <= k < |p|
    ensures Releases(Remove(p, k)) == Releases(p) - (if IsRelease(p[k]) then 1 else 0)
  {
    assert p == p[..k] + p[k..];
    ReleasesAppend(p[..k], p[k..]);
    ReleasesAppend(p[..k], p[k + 1..]);
    assert p[k..][1..] == p[k + 1..];
  }

  /** A list with a release in it has a release at some index. */
  lemma {:induction false} ReleaseIndex(p: seq<Tween>)
    requires Releases(p) > 0
    ensures exists k :: 0 <= k < |p| && IsRelease(p[k])
    decreases |p|
  {
    if !IsRelease(p[0]) {
      ReleaseIndex(p[1..]);
      var k :| 0 <= k < |p[1..]| && IsRelease(p[1..][k]);
      assert IsRelease(p[k + 1]);
    }
  }

  /** An accepted transition starts exactly one animation that can release the lock. */
  lemma LaunchedReleases(s: Ctl, idx: int)
    requires 0 <= idx < TOTAL_SCENES
    ensures Releases(Launched(s, idx)) == 1
  {
    var from := s.current;
    var a := StartIf(HasCard(s, from), CardOut(from));
    var b := StartIf(0 <= from < |s.groups|, SceneOut(from));
    var c := [CameraTo(CameraTarget(idx))];
    var d := StartIf(idx < |s.groups|, SceneIn(idx));
    var r := [Release(s, idx)];
    var g := StartIf(s.hasProgressBar, ProgressTo(ProgressFraction(idx)));
    ReleasesAppend(a, b);
    ReleasesAppend(a + b, c);
    ReleasesAppend(a + b + c, d);
    ReleasesAppend(a + b + c + d, r);
    ReleasesAppend(Started(s, idx), g);
  }

  /** The scenes and panels an animation may refer to are the same in `s` and `t`. */
  predicate SameTargets(s: Ctl, t: Ctl) {
    |t.groups| == |s.groups| && |t.panels| == |s.panels| &&
    forall i :: 0 <= i < |s.panels| ==> (t.panels[i].WithCard? <==> s.panels[i].WithCard?)
  }

  lemma TargetsTransfer(s: Ctl, t: Ctl, x: Tween)
    requires SameTargets(s, t) && TargetsExist(s, x)
    ensures TargetsExist(t, x)
  {
  }

  /** Every animation `goToScene` starts refers to a scene or panel that exists. */
  lemma LaunchedTargets(s: Ctl, idx: int)
    requires 0 <= idx < TOTAL_SCENES
    ensures forall x :: x in Launched(s, idx) ==> TargetsExist(s, x)
  {
  }

  /** An accepted `goToScene` takes the lock and starts exactly one releasing animation. */
  lemma GoToPreservesInv(s: Ctl, idx: int)
    requires Inv(s)
    ensures Inv(GoTo(s, idx))
  {
    if Accepts(s, idx) {
      var t := GoTo(s, idx);
      var l := Launched(s, idx);
      LaunchedReleases(s, idx);
      ReleasesAppend(s.pending, l);
      LaunchedTargets(s, idx);
      assert SameTargets(s, t);
      forall k | 0 <= k < |t.pending| ensures TargetsExist(t, t.pending[k]) {
        if k < |s.pending| {
          assert t.pending[k] == s.pending[k];
          TargetsTransfer(s, t, s.pending[k]);
        } else {
          assert t.pending[k] == l[k - |s.pending|];
          TargetsTransfer(s, t, l[k - |s.pending|]);
        }
      }
    }
  }

  /** Completing animation `k` keeps the invariant, provided the lock follows the animation's kind. */
  lemma CompletionPreservesInv(s: Ctl, t: Ctl, k: int)
    requires Inv(s) && 0 <= k < |s.pending| && SameTargets(s, t)
    requires t.current == s.current && t.pending == Remove(s.pending, k)
    requires t.locked == (if IsRelease(s.pending[k]) then false else s.locked)
    ensures Inv(t)
  {
    ReleasesRemove(s.pending, k);
    forall j | 0 <= j < |t.pending| ensures TargetsExist(t, t.pending[j]) {
      var j' := if j < k then j else j + 1;
      assert t.pending[j] == s.pending[j'];
      assert TargetsExist(s, s.pending[j']);
    }
  }

  /** Recording the time of an accepted wheel event keeps the invariant. */
  lemma WheelClockKeepsInv(s: Ctl, now: real)
    requires Inv(s)
    ensures Inv(s.(lastWheel := now))
  {
    var t := s.(lastWheel := now);
    forall k | 0 <= k < |t.pending| ensures TargetsExist(t, t.pending[k]) {
      assert TargetsExist(s, s.pending[k]);
    }
  }

  lemma WheelPreservesInv(s: Ctl, now: real, deltaY: real)
    requires Inv(s)
    ensures Inv(OnWheel(s, now, deltaY).state)
  {
    if !(s.locked || now - s.lastWheel < WHEEL_DEADTIME) {
      WheelClockKeepsInv(s, now);
      GoToPreservesInv(s.(lastWheel := now), s.current + WheelDirection(deltaY));
    }
  }

  lemma TouchEndPreservesInv(s: Ctl, endY: real)
    requires Inv(s)
    ensures Inv(OnTouchEnd(s, endY))
  {
    var diff := s.touchY - endY;
    if !s.locked && Abs(diff) > SWIPE_THRESHOLD {
      var idx := s.current + (if diff > 0.0 then 1 else -1);
      GoToPreservesInv(s, idx);
      assert OnTouchEnd(s, endY) == GoTo(s, idx);
    }
  }

  lemma KeyPreservesInv(s: Ctl, key: string)
    requires Inv(s)
    ensures Inv(OnKey(s, key).state)
  {
    if !s.locked && KeyTarget(s.current, key).Some? {
      GoToPreservesInv(s, KeyTarget(s.current, key).value);
    }
  }

  lemma InputPreservesInv(s: Ctl, e: Event)
    requires Inv(s) && Enabled(s, e)
    requires e.Wheel? || e.TouchStart? || e.TouchEnd? || e.Key? || e.DotClick?
    ensures Inv(Step(s, e))
  {
    match e
    case Wheel(now, dy) => WheelPreservesInv(s, now, dy);
    case TouchStart(_) =>
    case TouchEnd(y) => TouchEndPreservesInv(s, y);
    case Key(key) => KeyPreservesInv(s, key);
    case DotClick(i) => GoToPreservesInv(s, i);
  }

  lemma SceneFramePreservesInv(s: Ctl, k: int, v: real)
    requires Inv(s) && Enabled(s, SceneFadeFrame(k, v))
    ensures Inv(Step(s, SceneFadeFrame(k, v)))
  {
    var t := Step(s, SceneFadeFrame(k, v));
    forall j | 0 <= j < |t.pending| ensures TargetsExist(t, t.pending[j]) {
      assert TargetsExist(s, s.pending[j]);
    }
  }

  /** Every input handler and every callback keeps the invariant. */
  lemma StepPreservesInv(s: Ctl, e: Event)
    requires Inv(s) && Enabled(s, e)
    ensures Inv(Step(s, e))
  {
    if e.Wheel? || e.TouchStart? || e.TouchEnd? || e.Key? || e.DotClick? {
      InputPreservesInv(s, e);
    } else if e.SceneFadeFrame? {
      SceneFramePreservesInv(s, e.k, e.v);
    } else {
      CompletionPreservesInv(s, Step(s, e), e.k);
    }
  }

  /** Along any sequence of events the invariant holds, so the scene index never leaves [0, 13]. */
  lemma {:induction false} RunPreservesInv(s: Ctl, es: seq<Event>)
    requires Inv(s)
    ensures Inv(Run(s, es))
    ensures 0 <= Run(s, es).current < TOTAL_SCENES
    decreases |es|
  {
    if es != [] {
      var next := if Enabled(s, es[0]) then Step(s, es[0]) else s;
      if Enabled(s, es[0]) { StepPreservesInv(s, es[0]); }
      RunPreservesInv(next, es[1..]);
    }
  }

  // ---------------------------------------------------------------------------
  // `goToScene`: the guard and the accepted transition

  /**
   * `goToScene(idx)` leaves the whole state alone (scene, lock, groups, panels,
   * dots and animations) exactly when `idx` is the current scene, the lock is
   * held, or `idx` is outside [0, 13].
   */
  lemma GoToNoOpIff(s: Ctl, idx: int)
    ensures GoTo(s, idx) == s <==> (idx == s.current || s.locked || idx < 0 || idx >= TOTAL_SCENES)
  {
    if Accepts(s, idx) {
      assert GoTo(s, idx).locked != s.locked;
    }
  }

  /**
   * What an accepted transition starts: the old card's and the old scene's
   * fade-outs (when they exist), the camera move, the new scene's fade-in
   * (when it exists), the release, and the progress-bar tween (when the bar
   * exists); and nothing else.
   */
  lemma LaunchedContents(s: Ctl, idx: int)
    requires 0 <= idx < TOTAL_SCENES
    ensures var l := Launched(s, idx);
      CameraTo(-25 * idx + 10) in l &&
      (HasCard(s, s.current) ==> CardOut(s.current) in l) &&
      (0 <= s.current < |s.groups| ==> SceneOut(s.current) in l) &&
      (idx < |s.groups| ==> SceneIn(idx) in l) &&
      (HasCard(s, idx) ==> CardIn(idx) in l) &&
      (!HasCard(s, idx) ==> FallbackTimer in l) &&
      (s.hasProgressBar ==> ProgressTo(idx as real / 13.0) in l)
  {
    var l := Launched(s, idx);
    assert Started(s, idx) <= l;
    assert CameraTo(CameraTarget(idx)) in Started(s, idx);
    assert Release(s, idx) in Started(s, idx);
    assert 0 <= s.current < |s.groups| ==> SceneOut(s.current) in Started(s, idx);
    assert idx < |s.groups| ==> SceneIn(idx) in Started(s, idx);
  }

  /** An accepted transition starts nothing besides the animations `LaunchedContents` lists. */
  lemma LaunchedOnly(s: Ctl, idx: int)
    requires 0 <= idx < TOTAL_SCENES
    ensures forall x :: x in Launched(s, idx) ==>
      x == CardOut(s.current) || x == SceneOut(s.current) || x == CameraTo(-25 * idx + 10) ||
      x == SceneIn(idx) || x == CardIn(idx) || x == FallbackTimer || x == ProgressTo(idx as real / 13.0)
  {
    var from := s.current;
    var a := StartIf(HasCard(s, from), CardOut(from));
    var b := StartIf(0 <= from < |s.groups|, SceneOut(from));
    var c := [CameraTo(CameraTarget(idx))];
    var d := StartIf(idx < |s.groups|, SceneIn(idx));
    var r := [Release(s, idx)];
    var g := StartIf(s.hasProgressBar, ProgressTo(ProgressFraction(idx)));
    assert Launched(s, idx) == a + b + c + d + r + g;
    forall x | x in Launched(s, idx)
      ensures x in a || x in b || x in c || x in d || x in r || x in g
    {
    }
  }

  /**
   * An accepted `goToScene(idx)` takes the lock, moves to `idx`, makes the
   * new scene visible (its materials untouched) and shows its card at once, leaves every other scene and card as it
   * was (the old ones are hidden only when their fade-outs complete), marks
   * only dot `idx` active, keeps the clock, touch, camera and progress values,
   * and appends to the animations in flight exactly those `LaunchedContents`
   * lists: among them the camera move to `SCENE_POSITIONS[idx] + 10`, the
   * fade-outs of the old card and scene, the new scene's fade-in, the
   * progress tween to `idx / 13`, and the release of the lock (the new card's
   * fade-in when the target has a card, otherwise the fallback timer).
   */
  lemma GoToAccepted(s: Ctl, idx: int)
    requires Inv(s) && Accepts(s, idx)
    ensures var t := GoTo(s, idx);
      t.locked && t.current == idx &&
      t.lastWheel == s.lastWheel && t.touchY == s.touchY && t.hasProgressBar == s.hasProgressBar &&
      t.cameraZ == s.cameraZ && t.progress == s.progress &&
      |t.groups| == |s.groups| && |t.panels| == |s.panels| &&
      (idx < |s.groups| ==> t.groups[idx] == s.groups[idx].(visible := true)) &&
      (forall i :: 0 <= i < |s.groups| && i != idx ==> t.groups[i] == s.groups[i]) &&
      (forall i :: 0 <= i < |s.panels| && i != idx ==> t.panels[i] == s.panels[i]) &&
      (HasCard(s, idx) ==> t.panels[idx] == WithCard(true)) &&
      (!HasCard(s, idx) ==> t.panels == s.panels) &&
      (forall i :: 0 <= i < |t.dots| ==> (t.dots[i] <==> i == idx)) && |t.dots| == |s.dots|
    ensures var t := GoTo(s, idx);
      t.pending == s.pending + Launched(s, idx) &&
      CameraTo(-25 * idx + 10) in t.pending &&
      (HasCard(s, s.current) ==> CardOut(s.current) in t.pending) &&
      (s.current < |s.groups| ==> SceneOut(s.current) in t.pending) &&
      (idx < |s.groups| ==> SceneIn(idx) in t.pending) &&
      (HasCard(s, idx) ==> CardIn(idx) in t.pending) &&
      (!HasCard(s, idx) ==> FallbackTimer in t.pending) &&
      (s.hasProgressBar ==> ProgressTo(idx as real / 13.0) in t.pending)
  {
    var l := Launched(s, idx);
    LaunchedContents(s, idx);
    assert GoTo(s, idx).pending == s.pending + l;
  }

  /**
   * A dot click asks for exactly that scene; rejection is left to the guard:
   * a click while the lock is held, or on the current scene's dot, or on a dot
   * past the last scene, changes nothing, and any other click moves there.
   */
  lemma DotClickIsGoTo(s: Ctl, i: int)
    requires Inv(s) && 0 <= i < |s.dots|
    ensures Step(s, DotClick(i)) == GoTo(s, i)
    ensures s.locked || i == s.current || i >= TOTAL_SCENES ==> Step(s, DotClick(i)) == s
    ensures !s.locked && i != s.current && i < TOTAL_SCENES ==>
      Step(s, DotClick(i)).current == i && Step(s, DotClick(i)).locked
  {
  }

  // ---------------------------------------------------------------------------
  // The lock

  /** While the lock is held, no input changes anything except the recorded touch start. */
  lemma LockedInputsInert(s: Ctl, e: Event)
    requires s.locked && Enabled(s, e)
    requires e.Wheel? || e.TouchStart? || e.TouchEnd? || e.Key? || e.DotClick?
    ensures Step(s, e) == s.(touchY := Step(s, e).touchY)
    ensures e.Wheel? ==> OnWheel(s, e.now, e.deltaY).prevented
    ensures e.Key? ==> !OnKey(s, e.key).prevented
  {
  }

  /** The lock is released only by the new card's fade-in completing or by the fallback timer. */
  lemma OnlyReleasesUnlock(s: Ctl, e: Event)
    requires Inv(s) && Enabled(s, e) && s.locked && !Step(s, e).locked
    ensures e.IncomingCardDone? || e.FallbackTimeout?
  {
    match e
    case Wheel(now, dy) =>
    case TouchEnd(y) =>
    case Key(key) =>
    case DotClick(i) =>
    case _ =>
  }

  /**
   * A held lock can be released: a releasing animation is in flight, and once
   * no fade-out is left it can fire and frees the lock.
   */
  lemma LockReleasable(s: Ctl)
    requires Inv(s) && s.locked
    ensures exists k :: (0 <= k < |s.pending| && IsRelease(s.pending[k]) &&
      (FadeOutsDone(s.pending) ==>
        ((Enabled(s, IncomingCardDone(k)) && !Step(s, IncomingCardDone(k)).locked) ||
         (Enabled(s, FallbackTimeout(k)) && !Step(s, FallbackTimeout(k)).locked))))
  {
    ReleaseIndex(s.pending);
    var k :| 0 <= k < |s.pending| && IsRelease(s.pending[k]);
    if FadeOutsDone(s.pending) {
      if s.pending[k].CardIn? {
        assert Enabled(s, IncomingCardDone(k));
      } else {
        assert Enabled(s, FallbackTimeout(k));
      }
    }
  }

  /** Every fade-out in flight can complete (its target exists). */
  lemma FadeOutsCompletable(s: Ctl, k: int)
    requires Inv(s) && 0 <= k < |s.pending|
    ensures s.pending[k].CardOut? ==> Enabled(s, OldCardFadeDone(k))
    ensures s.pending[k].SceneOut? ==> Enabled(s, OldSceneFadeDone(k))
  {
    assert TargetsExist(s, s.pending[k]);
  }

  /** Releasing the lock leaves no other releasing animation behind. */
  lemma ReleaseIsLast(s: Ctl, e: Event)
    requires Inv(s) && Enabled(s, e) && (e.IncomingCardDone? || e.FallbackTimeout?)
    ensures s.locked && !Step(s, e).locked && Releases(Step(s, e).pending) == 0
  {
    ReleasesRemove(s.pending, e.k);
  }

  /** A scene is hidden only by the completion of a fade-out started for it. */
  lemma HiddenOnlyByFadeOut(s: Ctl, e: Event, i: int)
    requires Inv(s) && Enabled(s, e)
    requires 0 <= i < |s.groups| && s.groups[i].visible
    requires i < |Step(s, e).groups| && !Step(s, e).groups[i].visible
    ensures e.OldSceneFadeDone? && s.pending[e.k] == SceneOut(i)
  {
    match e
    case Wheel(now, dy) =>
    case TouchEnd(y) =>
    case Key(key) =>
    case DotClick(d) =>
    case _ =>
  }

  // ---------------------------------------------------------------------------
  // What is on screen

  /** The current scene is rendered and, when its section has a card, the card is shown. */
  predicate ShowsCurrent(s: Ctl) {
    (0 <= s.current < |s.groups| ==> s.groups[s.current].visible) &&
    (HasCard(s, s.current) ==> s.panels[s.current] == WithCard(true))
  }

  /** Animation `t` hides neither scene `cur` nor its card. */
  predicate Spares(t: Tween, cur: int) {
    (t.CardOut? ==> t.card != cur) && (t.SceneOut? ==> t.scene != cur)
  }

  /**
   * The display invariant: the current scene and its card are on screen, no
   * fade-out in flight is aimed at them, and none at all is in flight while
   * the lock is free.
   */
  predicate Displayed(s: Ctl) {
    ShowsCurrent(s) &&
    (!s.locked ==> FadeOutsDone(s.pending)) &&
    forall k :: 0 <= k < |s.pending| ==> Spares(s.pending[k], s.current)
  }

  lemma GoToPreservesDisplayed(s: Ctl, idx: int)
    requires Displayed(s)
    ensures Displayed(GoTo(s, idx))
  {
    if Accepts(s, idx) {
      var t := GoTo(s, idx);
      var l := Launched(s, idx);
      LaunchedOnly(s, idx);
      assert t.pending == s.pending + l;
      forall k | 0 <= k < |t.pending| ensures Spares(t.pending[k], idx) {
        if k < |s.pending| {
          assert t.pending[k] == s.pending[k];
        } else {
          assert t.pending[k] in l;
        }
      }
    }
  }

  /** Completing animation `k` removes it; what remains still spares the current scene. */
  lemma RemoveSpares(p: seq<Tween>, k: int, cur: int)
    requires 0 <= k < |p|
    requires forall j :: 0 <= j < |p| ==> Spares(p[j], cur)
    ensures forall j :: 0 <= j < |Remove(p, k)| ==> Spares(Remove(p, k)[j], cur)
    ensures FadeOutsDone(p) ==> FadeOutsDone(Remove(p, k))
  {
    var r := Remove(p, k);
    forall j | 0 <= j < |r| ensures Spares(r[j], cur) && (FadeOutsDone(p) ==> !r[j].CardOut? && !r[j].SceneOut?) {
      var j' := if j < k then j else j + 1;
      assert r[j] == p[j'];
    }
  }

  /** Only the clock or the touch start recorded: the display invariant is unaffected. */
  lemma InputFieldsKeepDisplayed(s: Ctl, now: real, y: real)
    requires Displayed(s)
    ensures Displayed(s.(lastWheel := now)) && Displayed(s.(touchY := y))
  {
    forall k | 0 <= k < |s.pending| ensures Spares(s.(lastWheel := now).pending[k], s.current) &&
      Spares(s.(touchY := y).pending[k], s.current) {
      assert Spares(s.pending[k], s.current);
    }
  }

  lemma WheelPreservesDisplayed(s: Ctl, now: real, deltaY: real)
    requires Displayed(s)
    ensures Displayed(OnWheel(s, now, deltaY).state)
  {
    if !(s.locked || now - s.lastWheel < WHEEL_DEADTIME) {
      var w := s.(lastWheel := now);
      var next := s.current + WheelDirection(deltaY);
      InputFieldsKeepDisplayed(s, now, 0.0);
      GoToPreservesDisplayed(w, next);
      assert 0 <= next < TOTAL_SCENES ==> OnWheel(s, now, deltaY).state == GoTo(w, next);
    }
  }

  lemma TouchEndPreservesDisplayed(s: Ctl, endY: real)
    requires Displayed(s)
    ensures Displayed(OnTouchEnd(s, endY))
  {
    var diff := s.touchY - endY;
    if !s.locked && Abs(diff) > SWIPE_THRESHOLD {
      var idx := s.current + (if diff > 0.0 then 1 else -1);
      GoToPreservesDisplayed(s, idx);
      assert OnTouchEnd(s, endY) == GoTo(s, idx);
    }
  }

  lemma KeyPreservesDisplayed(s: Ctl, key: string)
    requires Displayed(s)
    ensures Displayed(OnKey(s, key).state)
  {
    if !s.locked && KeyTarget(s.current, key).Some? {
      GoToPreservesDisplayed(s, KeyTarget(s.current, key).value);
    }
  }

  lemma InputPreservesDisplayed(s: Ctl, e: Event)
    requires Displayed(s) && Enabled(s, e)
    requires e.Wheel? || e.TouchStart? || e.TouchEnd? || e.Key? || e.DotClick?
    ensures Displayed(Step(s, e))
  {
    match e
    case Wheel(now, dy) => WheelPreservesDisplayed(s, now, dy);
    case TouchStart(y) => InputFieldsKeepDisplayed(s, 0.0, y);
    case TouchEnd(y) => TouchEndPreservesDisplayed(s, y);
    case Key(key) => KeyPreservesDisplayed(s, key);
    case DotClick(i) => GoToPreservesDisplayed(s, i);
  }

  /** A frame of a crossfade changes opacities only; every scene keeps its `visible` flag. */
  lemma SceneFramePreservesDisplayed(s: Ctl, k: int, v: real)
    requires Displayed(s) && Enabled(s, SceneFadeFrame(k, v))
    ensures Displayed(Step(s, SceneFadeFrame(k, v)))
  {
    var t := Step(s, SceneFadeFrame(k, v));
    forall j | 0 <= j < |t.pending| ensures Spares(t.pending[j], t.current) {
      assert Spares(s.pending[j], s.current);
    }
  }

  /** A completion hides only a scene or card other than the current one, and a release waits for the fade-outs. */
  lemma CompletionPreservesDisplayed(s: Ctl, e: Event)
    requires Displayed(s) && Enabled(s, e)
    requires !(e.Wheel? || e.TouchStart? || e.TouchEnd? || e.Key? || e.DotClick? || e.SceneFadeFrame?)
    ensures Displayed(Step(s, e))
  {
    assert Spares(s.pending[e.k], s.current);
    RemoveSpares(s.pending, e.k, s.current);
  }

  /** Every input handler and every callback keeps the display invariant. */
  lemma StepPreservesDisplayed(s: Ctl, e: Event)
    requires Displayed(s) && Enabled(s, e)
    ensures Displayed(Step(s, e))
  {
    if e.Wheel? || e.TouchStart? || e.TouchEnd? || e.Key? || e.DotClick? {
      InputPreservesDisplayed(s, e);
    } else if e.SceneFadeFrame? {
      SceneFramePreservesDisplayed(s, e.k, e.v);
    } else {
      CompletionPreservesDisplayed(s, e);
    }
  }

  /**
   * Along any sequence of events the current scene stays rendered and its card
   * shown, and whenever the lock is free no fade-out is left in flight.
   */
  lemma {:induction false} RunShowsCurrent(s: Ctl, es: seq<Event>)
    requires Displayed(s)
    ensures Displayed(Run(s, es))
    ensures ShowsCurrent(Run(s, es))
    ensures !Run(s, es).locked ==> FadeOutsDone(Run(s, es).pending)
    decreases |es|
  {
    if es != [] {
      var next := if Enabled(s, es[0]) then Step(s, es[0]) else s;
      if Enabled(s, es[0]) { StepPreservesDisplayed(s, es[0]); }
      RunShowsCurrent(next, es[1..]);
    }
  }

  // ---------------------------------------------------------------------------
  // Nothing else is on screen

  /**
   * The other half of the display invariant: a scene other than the current
   * one is rendered only while its fade-out is in flight, and another card is
   * shown only while its fade-out is in flight.
   */
  predicate Exclusive(s: Ctl) {
    (forall i :: 0 <= i < |s.groups| && s.groups[i].visible ==> i == s.current || SceneOut(i) in s.pending) &&
    (forall i :: 0 <= i < |s.panels| && s.panels[i] == WithCard(true) ==> i == s.current || CardOut(i) in s.pending)
  }

  /** An animation other than the completed one is still in flight after it completes. */
  lemma InRemove(p: seq<Tween>, k: int, x: Tween)
    requires 0 <= k < |p| && x in p && x != p[k]
    ensures x in Remove(p, k)
  {
    var j :| 0 <= j < |p| && p[j] == x;
    if j < k {
      assert Remove(p, k)[j] == x;
    } else {
      assert Remove(p, k)[j - 1] == x;
    }
  }

  /** `goToScene` starts the fade-outs of the scene and card it leaves on screen. */
  lemma GoToExclusive(s: Ctl, idx: int)
    requires Exclusive(s)
    ensures Exclusive(GoTo(s, idx))
  {
    if Accepts(s, idx) {
      var t := GoTo(s, idx);
      var l := Launched(s, idx);
      LaunchedContents(s, idx);
      assert t.pending == s.pending + l;
      forall i | 0 <= i < |t.groups| && t.groups[i].visible && i != idx
        ensures SceneOut(i) in t.pending
      {
        assert s.groups[i].visible;
        if i == s.current {
          assert SceneOut(i) in l;
        }
      }
      forall i | 0 <= i < |t.panels| && t.panels[i] == WithCard(true) && i != idx
        ensures CardOut(i) in t.pending
      {
        assert s.panels[i] == WithCard(true);
        if i == s.current {
          assert HasCard(s, s.current);
        }
      }
    }
  }

  /** Only the clock or the touch start recorded: nothing appears on screen. */
  lemma InputFieldsKeepExclusive(s: Ctl, now: real, y: real)
    requires Exclusive(s)
    ensures Exclusive(s.(lastWheel := now)) && Exclusive(s.(touchY := y))
  {
  }

  lemma WheelPreservesExclusive(s: Ctl, now: real, deltaY: real)
    requires Exclusive(s)
    ensures Exclusive(OnWheel(s, now, deltaY).state)
  {
    if !(s.locked || now - s.lastWheel < WHEEL_DEADTIME) {
      var w := s.(lastWheel := now);
      var next := s.current + WheelDirection(deltaY);
      InputFieldsKeepExclusive(s, now, 0.0);
      GoToExclusive(w, next);
      assert 0 <= next < TOTAL_SCENES ==> OnWheel(s, now, deltaY).state == GoTo(w, next);
    }
  }

  lemma TouchEndPreservesExclusive(s: Ctl, endY: real)
    requires Exclusive(s)
    ensures Exclusive(OnTouchEnd(s, endY))
  {
    var diff := s.touchY - endY;
    if !s.locked && Abs(diff) > SWIPE_THRESHOLD {
      var idx := s.current + (if diff > 0.0 then 1 else -1);
      GoToExclusive(s, idx);
      assert OnTouchEnd(s, endY) == GoTo(s, idx);
    }
  }

  lemma KeyPreservesExclusive(s: Ctl, key: string)
    requires Exclusive(s)
    ensures Exclusive(OnKey(s, key).state)
  {
    if !s.locked && KeyTarget(s.current, key).Some? {
      GoToExclusive(s, KeyTarget(s.current, key).value);
    }
  }

  lemma InputPreservesExclusive(s: Ctl, e: Event)
    requires Exclusive(s) && Enabled(s, e)
    requires e.Wheel? || e.TouchStart? || e.TouchEnd? || e.Key? || e.DotClick?
    ensures Exclusive(Step(s, e))
  {
    match e
    case Wheel(now, dy) => WheelPreservesExclusive(s, now, dy);
    case TouchStart(y) => InputFieldsKeepExclusive(s, 0.0, y);
    case TouchEnd(y) => TouchEndPreservesExclusive(s, y);
    case Key(key) => KeyPreservesExclusive(s, key);
    case DotClick(i) => GoToExclusive(s, i);
  }

  /**
   * A callback keeps the invariant: a frame changes no `visible` flag, a
   * completed fade-out takes its own scene or card off screen, and any other
   * completion removes no fade-out.
   */
  lemma CallbackPreservesExclusive(s: Ctl, e: Event)
    requires Exclusive(s) && Enabled(s, e)
    requires !(e.Wheel? || e.TouchStart? || e.TouchEnd? || e.Key? || e.DotClick?)
    ensures Exclusive(Step(s, e))
  {
    var t := Step(s, e);
    if !e.SceneFadeFrame? {
      var p := s.pending;
      forall i | 0 <= i < |t.groups| && t.groups[i].visible && i != t.current
        ensures SceneOut(i) in t.pending
      {
        assert s.groups[i].visible && SceneOut(i) in p;
        InRemove(p, e.k, SceneOut(i));
      }
      forall i | 0 <= i < |t.panels| && t.panels[i] == WithCard(true) && i != t.current
        ensures CardOut(i) in t.pending
      {
        assert s.panels[i] == WithCard(true) && CardOut(i) in p;
        InRemove(p, e.k, CardOut(i));
      }
    }
  }

  /** Every input handler and every callback keeps the exclusive half of the display invariant. */
  lemma StepPreservesExclusive(s: Ctl, e: Event)
    requires Exclusive(s) && Enabled(s, e)
    ensures Exclusive(Step(s, e))
  {
    if e.Wheel? || e.TouchStart? || e.TouchEnd? || e.Key? || e.DotClick? {
      InputPreservesExclusive(s, e);
    } else {
      CallbackPreservesExclusive(s, e);
    }
  }

  /**
   * While the lock is free the screen is consistent with the scene index in
   * both directions: a scene is rendered exactly when it is the current one,
   * and a card is shown exactly when it belongs to the current scene.
   */
  lemma IdleOnlyCurrent(s: Ctl)
    requires Displayed(s) && Exclusive(s) && !s.locked
    ensures forall i :: 0 <= i < |s.groups| ==> (s.groups[i].visible <==> i == s.current)
    ensures forall i :: 0 <= i < |s.panels| && s.panels[i].WithCard? ==>
      (s.panels[i] == WithCard(true) <==> i == s.current)
  {
  }

  /**
   * Along any sequence of events both halves of the display invariant hold,
   * so whenever the lock is free the current scene is the only one rendered
   * and its card the only one shown.
   */
  lemma {:induction false} RunOnlyCurrent(s: Ctl, es: seq<Event>)
    requires Displayed(s) && Exclusive(s)
    ensures Exclusive(Run(s, es))
    ensures !Run(s, es).locked ==>
      forall i :: 0 <= i < |Run(s, es).groups| ==> (Run(s, es).groups[i].visible <==> i == Run(s, es).current)
    ensures !Run(s, es).locked ==>
      forall i :: 0 <= i < |Run(s, es).panels| && Run(s, es).panels[i].WithCard? ==>
        (Run(s, es).panels[i] == WithCard(true) <==> i == Run(s, es).current)
    decreases |es|
  {
    if es == [] {
      if !s.locked { IdleOnlyCurrent(s); }
    } else {
      var next := if Enabled(s, es[0]) then Step(s, es[0]) else s;
      if Enabled(s, es[0]) {
        StepPreservesDisplayed(s, es[0]);
        StepPreservesExclusive(s, es[0]);
      }
      RunOnlyCurrent(next, es[1..]);
    }
  }

  // ---------------------------------------------------------------------------
  // Wheel gating

  /**
   * A wheel event moves to the next scene exactly when the lock is free, at
   * least 600 ms have passed since the last accepted wheel event, and
   * `current + dir` is in range; it then records `now` and moves by `dir`.
   */
  lemma WheelGate(s: Ctl, now: real, deltaY: real)
    requires Inv(s)
    ensures var h := OnWheel(s, now, deltaY);
      var next := s.current + WheelDirection(deltaY);
      var pass := !s.locked && now - s.lastWheel >= WHEEL_DEADTIME && 0 <= next < TOTAL_SCENES;
      (h.state.current != s.current <==> pass) &&
      (pass ==> h.state.current == next && h.state.lastWheel == now && h.state.locked) &&
      (pass ==> h.state == GoTo(s.(lastWheel := now), next)) &&
      (!pass ==> h.state == s)
  {
  }

  /** `preventDefault` is called unless the event passes the gates and its target is out of range. */
  lemma WheelPrevents(s: Ctl, now: real, deltaY: real)
    ensures var next := s.current + WheelDirection(deltaY);
      OnWheel(s, now, deltaY).prevented <==>
        (s.locked || now - s.lastWheel < WHEEL_DEADTIME || 0 <= next < TOTAL_SCENES)
  {
  }

  /** A gap of exactly 600 ms passes; `deltaY == 0` scrolls back. */
  lemma WheelBoundary(s: Ctl)
    requires Inv(s) && !s.locked && 1 <= s.current
    ensures OnWheel(s, s.lastWheel + WHEEL_DEADTIME, 0.0).state.current == s.current - 1
  {
  }

  // ---------------------------------------------------------------------------
  // Touch gating

  /**
   * A touch end moves exactly when the lock is free, the swipe covered
   * strictly more than 60 px and the neighbouring scene exists; an upward
   * swipe (`touchY > endY`) goes forward.
   */
  lemma TouchGate(s: Ctl, endY: real)
    requires Inv(s)
    ensures var diff := s.touchY - endY;
      var next := s.current + (if diff > 0.0 then 1 else -1);
      var pass := !s.locked && (diff > 60.0 || diff < -60.0) && 0 <= next < TOTAL_SCENES;
      (OnTouchEnd(s, endY).current != s.current <==> pass) &&
      (pass ==> OnTouchEnd(s, endY).current == next) &&
      (pass ==> OnTouchEnd(s, endY) == GoTo(s, next)) &&
      (!pass ==> OnTouchEnd(s, endY) == s)
  {
  }

  /** A swipe of exactly 60 px does nothing. */
  lemma TouchAtThreshold(s: Ctl)
    ensures OnTouchEnd(s, s.touchY - SWIPE_THRESHOLD) == s
    ensures OnTouchEnd(s, s.touchY + SWIPE_THRESHOLD) == s
  {
  }

  // ---------------------------------------------------------------------------
  // Keys

  /** The seven handled keys, and no others, call `preventDefault` when the lock is free. */
  lemma KeyPrevents(s: Ctl, key: string)
    ensures OnKey(s, key).prevented <==>
      (!s.locked && key in {"ArrowDown", "PageDown", " ", "ArrowUp", "PageUp", "Home", "End"})
    ensures !OnKey(s, key).prevented ==> OnKey(s, key).state == s
  {
  }

  /** The step keys move by one scene, when that scene exists. */
  lemma KeySteps(s: Ctl, key: string)
    requires Inv(s) && !s.locked
    ensures key in {"ArrowDown", "PageDown", " "} && s.current < TOTAL_SCENES - 1 ==>
      OnKey(s, key).state.current == s.current + 1
    ensures key in {"ArrowUp", "PageUp"} && 0 < s.current ==>
      OnKey(s, key).state.current == s.current - 1
    ensures key in {"ArrowDown", "PageDown", " "} && s.current == TOTAL_SCENES - 1 ==>
      OnKey(s, key) == Handled(s, true)
    ensures key in {"ArrowUp", "PageUp"} && s.current == 0 ==>
      OnKey(s, key) == Handled(s, true)
  {
  }

  /** Home and End jump straight to the first and last scene in one transition. */
  lemma HomeEndJump(s: Ctl)
    requires Inv(s) && !s.locked
    ensures OnKey(s, "Home").state.current == 0
    ensures OnKey(s, "End").state.current == TOTAL_SCENES - 1
    ensures s.current != 0 ==> OnKey(s, "Home").state.locked
    ensures s.current != TOTAL_SCENES - 1 ==> OnKey(s, "End").state.locked
  {
  }

  // ---------------------------------------------------------------------------
  // Constants

  /** The precomputed depths are 25 units apart, starting at 0. */
  lemma ScenePositionsSpacing()
    ensures |SCENE_POSITIONS| == TOTAL_SCENES
    ensures forall i :: 0 <= i < TOTAL_SCENES ==> SCENE_POSITIONS[i] == -25 * i
  {
  }
}
