/**
 * The controller object of src/animation/ScrollAnimations.js: the state
 * `createScrollAnimations` keeps in its closure (and in the module-level
 * cached DOM handles), with one method per handler, per animation callback,
 * and per helper that updates that state in place.
 *
 * Each method is proved to leave `Model()` where the state machine of module
 * `Transitions` says it goes, and to keep the controller invariant `Inv`.
 */
module ScrollAnimations {
  import opened Wrappers
  import opened SceneGraph
  import opened Transitions

  class Controller {
    var currentScene: int
    var isTransitioning: bool
    var lastWheel: real
    var touchY: real
    var sceneGroups: seq<Node>
    var sections: seq<Panel>
    var dots: seq<bool>
    var hasProgressBar: bool
    var cameraZ: real
    var progress: real
    /** Animations started and not yet completed. */
    var pending: seq<Tween>

    /** The controller's state as a value. */
    function Model(): Ctl
      reads this
    {
      Ctl(currentScene, isTransitioning, lastWheel, touchY, sceneGroups, sections, dots,
          hasProgressBar, cameraZ, progress, pending)
    }

    /** The lock, animation and display invariants of module `Transitions`. */
    ghost predicate Valid()
      reads this
    {
      Inv(Model()) && Displayed(Model()) && Exclusive(Model())
    }

    /**
     * `createScrollAnimations`: only scene 0 is visible and set to full
     * opacity, the first card is shown, dot 0 alone is active, the lock is
     * free and nothing is animating.
     */
    constructor (groups: seq<Node>, panels: seq<Panel>, initialDots: seq<bool>,
                 progressBar: bool, cameraDepth: real, progressScale: real)
      requires forall i :: 1 <= i < |panels| ==> panels[i] != WithCard(true)
      ensures Valid()
      ensures currentScene == 0 && !isTransitioning && pending == []
      ensures lastWheel == 0.0 && touchY == 0.0
      ensures |sceneGroups| == |groups|
      ensures forall i :: 0 <= i < |groups| ==> (sceneGroups[i].visible <==> i == 0)
      ensures |groups| > 0 ==> sceneGroups[0] == Faded(groups[0].(visible := true), 1.0)
      ensures forall i :: 1 <= i < |groups| ==> sceneGroups[i] == groups[i].(visible := false)
      ensures sections == if |panels| > 0 && panels[0].WithCard? then panels[0 := WithCard(true)] else panels
      ensures |dots| == |initialDots| && forall i :: 0 <= i < |dots| ==> (dots[i] <==> i == 0)
      ensures hasProgressBar == progressBar && cameraZ == cameraDepth && progress == progressScale
    {
      var gs := groups;
      var i := 0;
      while i < |gs|
        invariant 0 <= i <= |gs| == |groups|
        invariant forall j :: 0 <= j < i ==> (gs[j].visible <==> j == 0)
        invariant i > 0 ==> gs[0] == Faded(groups[0].(visible := true), 1.0)
        invariant forall j :: 1 <= j < i ==> gs[j] == groups[j].(visible := false)
        invariant forall j :: i <= j < |gs| ==> gs[j] == groups[j]
      {
        gs := gs[i := gs[i].(visible := i == 0)];
        if i == 0 {
          var full := SetOpacity(gs[0], 1.0);
          gs := gs[0 := full];
        }
        i := i + 1;
      }
      currentScene, isTransitioning := 0, false;
      lastWheel, touchY := 0.0, 0.0;
      sceneGroups := gs;
      sections := if |panels| > 0 && panels[0].WithCard? then panels[0 := WithCard(true)] else panels;
      dots := initialDots;
      hasProgressBar, cameraZ, progress := progressBar, cameraDepth, progressScale;
      pending := [];
      new;
      SetActiveDot(0);
    }

    /** `setActiveDot(idx)`: toggles `active` on every dot, on for `idx` only. */
    method SetActiveDot(idx: int)
      modifies this`dots
      ensures dots == ActiveDots(|old(dots)|, idx)
    {
      var i := 0;
      while i < |dots|
        invariant 0 <= i <= |dots| == |old(dots)|
        invariant forall j :: 0 <= j < i ==> (dots[j] <==> j == idx)
      {
        dots := dots[i := i == idx];
        i := i + 1;
      }
    }

    /** `setProgress(idx)`: starts the progress-bar tween to `idx / 13`, if there is a bar. */
    method SetProgress(idx: int)
      modifies this`pending
      ensures pending == old(pending) + if hasProgressBar then [ProgressTo(ProgressFraction(idx))] else []
    {
      if hasProgressBar {
        pending := pending + [ProgressTo(ProgressFraction(idx))];
      }
    }

    /**
     * The part of `goToScene` that starts the crossfade: old card and old
     * scene out, camera move, new scene shown and faded in, new card shown and
     * faded in (or the fallback timer started).
     */
    method StartTransition(idx: int)
      requires 0 <= idx < TOTAL_SCENES
      modifies this`sceneGroups, this`sections, this`pending
      ensures sceneGroups == ShowScene(old(Model()), idx)
      ensures sections == ShowCard(old(Model()), idx)
      ensures pending == old(pending) + Started(old(Model()), idx)
    {
      ghost var before := Model();
      var from := currentScene;
      var started: seq<Tween> := [];
      if 0 <= from < |sections| && sections[from].WithCard? {
        started := started + [CardOut(from)];
      }
      if 0 <= from < |sceneGroups| {
        started := started + [SceneOut(from)];
      }
      ghost var outgoing := started;
      assert outgoing == StartIf(HasCard(before, from), CardOut(from)) +
                         StartIf(0 <= from < |before.groups|, SceneOut(from));
      started := started + [CameraTo(CameraTarget(idx))];
      if idx < |sceneGroups| {
        sceneGroups := sceneGroups[idx := sceneGroups[idx].(visible := true)];
        started := started + [SceneIn(idx)];
      }
      assert started == outgoing + [CameraTo(CameraTarget(idx))] + StartIf(idx < |before.groups|, SceneIn(idx));
      ghost var moving := started;
      if idx < |sections| && sections[idx].WithCard? {
        sections := sections[idx := WithCard(true)];
        started := started + [CardIn(idx)];
      } else {
        started := started + [FallbackTimer];
      }
      assert started == moving + [Release(before, idx)];
      pending := pending + started;
    }

    /** `goToScene(idx)`, exposed to the dots as `window.voyageGoToScene`. */
    method GoToScene(idx: int)
      requires Valid()
      modifies this
      ensures Valid()
      ensures Model() == GoTo(old(Model()), idx)
    {
      GoToPreservesInv(Model(), idx);
      GoToPreservesDisplayed(Model(), idx);
      GoToExclusive(Model(), idx);
      if idx == currentScene || isTransitioning || idx < 0 || idx >= TOTAL_SCENES {
        return;
      }
      Transition(idx);
    }

    /** The body of `goToScene` once the guard has let `idx` through. */
    method Transition(idx: int)
      requires Accepts(Model(), idx)
      modifies this
      ensures Model() == GoTo(old(Model()), idx)
    {
      ghost var before := Model();
      GoToParts(before, idx);
      isTransitioning := true;
      StartedFrame(Model(), before, idx);
      StartTransition(idx);
      SetActiveDot(idx);
      SetProgress(idx);
      currentScene := idx;
    }

    /** `onWheel`, with `performance.now()` passed in as `now`. */
    method OnWheel(now: real, deltaY: real) returns (prevented: bool)
      requires Valid()
      modifies this
      ensures Valid()
      ensures Model() == Transitions.OnWheel(old(Model()), now, deltaY).state
      ensures prevented == Transitions.OnWheel(old(Model()), now, deltaY).prevented
    {
      if isTransitioning || now - lastWheel < WHEEL_DEADTIME {
        prevented := true;
        return;
      }
      var dir := if deltaY > 0.0 then 1 else -1;
      var next := currentScene + dir;
      prevented := false;
      if 0 <= next < TOTAL_SCENES {
        prevented := true;
        WheelStep(now, next);
      }
    }

    /** An accepted wheel event: records its time, then `goToScene(next)`. */
    method WheelStep(now: real, next: int)
      requires Valid()
      modifies this
      ensures Valid()
      ensures Model() == GoTo(old(Model()).(lastWheel := now), next)
    {
      ghost var clocked := Model().(lastWheel := now);
      WheelClockKeepsInv(Model(), now);
      InputFieldsKeepDisplayed(Model(), now, 0.0);
      InputFieldsKeepExclusive(Model(), now, 0.0);
      lastWheel := now;
      assert Model() == clocked;
      GoToScene(next);
    }

    /** `onTouchStart`: records the first touch's vertical position. */
    method OnTouchStart(startY: real)
      requires Valid()
      modifies this`touchY
      ensures Valid()
      ensures Model() == Step(old(Model()), TouchStart(startY))
    {
      InputFieldsKeepDisplayed(Model(), 0.0, startY);
      InputFieldsKeepExclusive(Model(), 0.0, startY);
      touchY := startY;
    }

    /** `onTouchEnd`, with the first changed touch's vertical position as `endY`. */
    method OnTouchEnd(endY: real)
      requires Valid()
      modifies this
      ensures Valid()
      ensures Model() == Transitions.OnTouchEnd(old(Model()), endY)
    {
      TouchEndPreservesInv(Model(), endY);
      TouchEndPreservesDisplayed(Model(), endY);
      TouchEndPreservesExclusive(Model(), endY);
      if isTransitioning {
        return;
      }
      var diff := touchY - endY;
      if Abs(diff) > SWIPE_THRESHOLD {
        GoToScene(currentScene + (if diff > 0.0 then 1 else -1));
      }
    }

    /** `onKey`. */
    method OnKey(key: string) returns (prevented: bool)
      requires Valid()
      modifies this
      ensures Valid()
      ensures Model() == Transitions.OnKey(old(Model()), key).state
      ensures prevented == Transitions.OnKey(old(Model()), key).prevented
    {
      KeyPreservesInv(Model(), key);
      KeyPreservesDisplayed(Model(), key);
      KeyPreservesExclusive(Model(), key);
      prevented := false;
      if isTransitioning {
        return;
      }
      if key in KEY_STEPS {
        prevented := true;
        GoToScene(currentScene + KEY_STEPS[key]);
      } else if key == "Home" {
        prevented := true;
        GoToScene(0);
      } else if key == "End" {
        prevented := true;
        GoToScene(TOTAL_SCENES - 1);
      }
    }

    /** The click handler `setupDotNavigation` attaches to dot `i`. */
    method OnDotClick(i: int)
      requires Valid() && 0 <= i < |dots|
      modifies this
      ensures Valid()
      ensures Model() == Step(old(Model()), DotClick(i))
    {
      GoToScene(i);
    }

    // -------------------------------------------------------------------------
    // Animation callbacks: animation `k` of `pending` reports a frame or completes.

    /** The old card's fade-out completed: it loses its `visible` class. */
    method OnOldCardFadeDone(k: int)
      requires Valid() && Enabled(Model(), OldCardFadeDone(k))
      modifies this
      ensures Valid()
      ensures Model() == Step(old(Model()), OldCardFadeDone(k))
    {
      StepPreservesInv(Model(), OldCardFadeDone(k));
      StepPreservesDisplayed(Model(), OldCardFadeDone(k));
      CallbackPreservesExclusive(Model(), OldCardFadeDone(k));
      var c := pending[k].card;
      sections := sections[c := WithCard(false)];
      pending := Remove(pending, k);
    }

    /** A frame of a scene crossfade: `setOpacity(scene, v)`. */
    method OnSceneFadeFrame(k: int, v: real)
      requires Valid() && Enabled(Model(), SceneFadeFrame(k, v))
      modifies this
      ensures Valid()
      ensures Model() == Step(old(Model()), SceneFadeFrame(k, v))
    {
      StepPreservesInv(Model(), SceneFadeFrame(k, v));
      StepPreservesDisplayed(Model(), SceneFadeFrame(k, v));
      CallbackPreservesExclusive(Model(), SceneFadeFrame(k, v));
      var i := pending[k].scene;
      var faded := SetOpacity(sceneGroups[i], v);
      sceneGroups := sceneGroups[i := faded];
    }

    /** The old scene's fade-out completed: the scene stops being rendered. */
    method OnOldSceneFadeDone(k: int)
      requires Valid() && Enabled(Model(), OldSceneFadeDone(k))
      modifies this
      ensures Valid()
      ensures Model() == Step(old(Model()), OldSceneFadeDone(k))
    {
      StepPreservesInv(Model(), OldSceneFadeDone(k));
      StepPreservesDisplayed(Model(), OldSceneFadeDone(k));
      CallbackPreservesExclusive(Model(), OldSceneFadeDone(k));
      var i := pending[k].scene;
      sceneGroups := sceneGroups[i := sceneGroups[i].(visible := false)];
      pending := Remove(pending, k);
    }

    /** The new scene's fade-in completed (it has no completion callback). */
    method OnNewSceneFadeDone(k: int)
      requires Valid() && Enabled(Model(), NewSceneFadeDone(k))
      modifies this
      ensures Valid()
      ensures Model() == Step(old(Model()), NewSceneFadeDone(k))
    {
      StepPreservesInv(Model(), NewSceneFadeDone(k));
      StepPreservesDisplayed(Model(), NewSceneFadeDone(k));
      CallbackPreservesExclusive(Model(), NewSceneFadeDone(k));
      pending := Remove(pending, k);
    }

    /** The camera tween completed: the camera is at its target depth. */
    method OnCameraDone(k: int)
      requires Valid() && Enabled(Model(), CameraDone(k))
      modifies this
      ensures Valid()
      ensures Model() == Step(old(Model()), CameraDone(k))
    {
      StepPreservesInv(Model(), CameraDone(k));
      StepPreservesDisplayed(Model(), CameraDone(k));
      CallbackPreservesExclusive(Model(), CameraDone(k));
      cameraZ := pending[k].z as real;
      pending := Remove(pending, k);
    }

    /** The new card's fade-in completed: the lock is released. */
    method OnIncomingCardDone(k: int)
      requires Valid() && Enabled(Model(), IncomingCardDone(k))
      modifies this
      ensures Valid()
      ensures Model() == Step(old(Model()), IncomingCardDone(k))
    {
      StepPreservesInv(Model(), IncomingCardDone(k));
      StepPreservesDisplayed(Model(), IncomingCardDone(k));
      CallbackPreservesExclusive(Model(), IncomingCardDone(k));
      isTransitioning := false;
      pending := Remove(pending, k);
    }

    /** The 500 ms fallback timer fired: the lock is released. */
    method OnFallbackTimeout(k: int)
      requires Valid() && Enabled(Model(), FallbackTimeout(k))
      modifies this
      ensures Valid()
      ensures Model() == Step(old(Model()), FallbackTimeout(k))
    {
      StepPreservesInv(Model(), FallbackTimeout(k));
      StepPreservesDisplayed(Model(), FallbackTimeout(k));
      CallbackPreservesExclusive(Model(), FallbackTimeout(k));
      isTransitioning := false;
      pending := Remove(pending, k);
    }

    /** The progress-bar tween completed: the bar is at its target scale. */
    method OnProgressDone(k: int)
      requires Valid() && Enabled(Model(), ProgressDone(k))
      modifies this
      ensures Valid()
      ensures Model() == Step(old(Model()), ProgressDone(k))
    {
      StepPreservesInv(Model(), ProgressDone(k));
      StepPreservesDisplayed(Model(), ProgressDone(k));
      CallbackPreservesExclusive(Model(), ProgressDone(k));
      progress := pending[k].scaleX;
      pending := Remove(pending, k);
    }
  }
}
