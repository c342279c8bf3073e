# Scroll-driven scene voyage: transition controller and page markup

This project models the navigation core of a fourteen-scene Three.js "voyage"
page. One scene is shown at a time. Wheel, touch, keyboard and dot-click
inputs move to a neighbouring scene, or jump to a given one, through a
locked crossfade:

- the old card and scene fade out;
- the camera moves to the new scene's depth;
- the new scene and card fade in;
- the lock is released when the new card's fade-in completes, or by a 500 ms
  fallback timer when the target section has no card.

The opacity propagator rewrites every material below a scene group relative
to its authored baseline. The page's markup (one `<section>` per scene and one
indicator dot per scene) is generated from a fixed table of scenes.

Modules:

- `SceneGraph` (scene_graph.dfy): the scene graph as a value tree, and the
  propagator `setOpacity`. It is specified by `Faded`, with an independent
  characterisation (`Strip`, `BelowFadedAt`) and the lemmas relating the two.
  The propagator itself is a method with the source's two loops and its
  recursion.
- `Transitions` (transitions.dfy): the controller as a state machine over the
  value `Ctl`. Animations in flight are a list of `Tween`s, and every
  animation callback is an `Event` that may be delivered while its animation
  is pending. It holds the constants, `goToScene` (`GoTo`), the three input
  handlers, `Step`, `Run` and three invariants. `Inv`: the lock is held
  exactly while one releasing animation is in flight, and every animation
  refers to an existing scene or panel. `Displayed`: the current scene is
  rendered and its card shown, no fade-out in flight is aimed at them, and no
  fade-out is in flight once the lock is free. `Exclusive`: every other
  scene that is still rendered, and every other card still shown, has its
  fade-out in flight. Together they give that, with the lock free, the
  current scene is the only one rendered and its card the only one shown.
- `ScrollAnimations` (scroll_animations.dfy): class `Controller` holds the
  closure variables and the DOM and scene state as fields. It has one method
  per handler, per animation callback and per helper (`setActiveDot`,
  `setProgress`). Each handler and each callback keeps `Valid()` (all three
  invariants) and leaves `Model()` where `Transitions` says.
- `Sections` (sections.dfy): the scene table, `createSections` and
  `createSceneIndicator` as string functions, with lemmas that read the
  generated markup back.
- `Wrappers` (wrappers.dfy): `Option`.

Time is not modelled. A clock, an easing curve or a delay is visible only as
the order in which callbacks are delivered. One ordering the durations fix is
built into `Transitions.Enabled`: a transition's release (the new card's fade-in,
ending after 0.2 + 0.35 s, or the 500 ms fallback timer) fires only after the old
card's 0.25 s and the old scene's 0.4 s fade-outs have completed.
`performance.now()` and the touch coordinates are handler parameters.

## Model

| member | source | states |
|---|---|---|
| `SceneGraph.SetOpacity` | src/animation/ScrollAnimations.js:158-171 | the propagator's result is `Faded(group, f)`: every material strictly below `group` is rewritten, recursing into children that have children, and the group's own material is kept |
| `SceneGraph.SetSlotOpacity` | src/animation/ScrollAnimations.js:162-168 | the material loop: a single material or each material of an array becomes transparent with opacity `(baseOpacity ?? 1) * f`; an absent material is left alone |
| `SceneGraph.Faded` | src/animation/ScrollAnimations.js:158-171 | `setOpacity(group, f)` as a function of the tree; stated by `FadedFacts`, `FadedUnique`, `FadedLastWins`, `FadedIdempotent` and `RestoreBaseline` |
| `SceneGraph.SubtreeFaded` | src/animation/ScrollAnimations.js:160-170 | a child after the loop body: its own material faded, its children recursively; stated by `SubtreeFadedFacts` and `SubtreeUnique` |
| `SceneGraph.FadedAll` | src/animation/ScrollAnimations.js:59-63 | the frames of a fade, one `setOpacity` call per frame value in order; stated by `RestoreBaseline` |
| `SceneGraph.FadeMaterial` | src/animation/ScrollAnimations.js:165-166 | one write keeps the baseline, sets `transparent` and sets opacity to baseline times the factor, where a missing baseline counts as 1 |
| `SceneGraph.FadedFacts` | src/animation/ScrollAnimations.js:158-171 | `setOpacity` keeps the tree shape, the visibility flags and every baseline, does not touch the root's material, and leaves every descendant faded to `f` |
| `SceneGraph.SubtreeFadedFacts` | src/animation/ScrollAnimations.js:160-170 | the same for a child and all its descendants, by induction on the tree |
| `SceneGraph.FadedUnique` | src/animation/ScrollAnimations.js:158-171 | the converse: any tree with the same shape and baselines, the root material unchanged and everything below faded to `f` is exactly `setOpacity`'s result |
| `SceneGraph.FadedLastWins` | src/animation/ScrollAnimations.js:166 | opacity is computed from the baseline, not the current opacity, so two calls equal the last one alone: no drift across tween frames |
| `SceneGraph.FadedIdempotent` | src/animation/ScrollAnimations.js:166 | repeating a call with the same factor changes nothing |
| `SceneGraph.RestoreBaseline` | src/animation/ScrollAnimations.js:26 | after any sequence of fade frames, a call with factor 1 (as at start-up, or at the end of a fade-in) restores every descendant material to exactly its baseline |
| `Transitions.CameraTarget` | src/animation/ScrollAnimations.js:4 | the camera depth for scene `idx` is `SCENE_POSITIONS[idx] + 10 = -25 * idx + 10` |
| `Transitions.ScenePositionsSpacing` | src/animation/ScrollAnimations.js:4-5 | the table has `TOTAL_SCENES` = 14 entries, evenly spaced 25 units apart from 0 |
| `Transitions.ProgressFraction` | src/animation/ScrollAnimations.js:180-184 | the progress fill is `idx / 13`, in [0, 1] for a valid scene, 0 for the first scene and 1 for the last |
| `Transitions.ActiveDots` | src/animation/ScrollAnimations.js:174-178 | after `setActiveDot(idx)` there are as many dots as before, and dot `i` is active exactly when `i == idx` |
| `Transitions.GoTo` | src/animation/ScrollAnimations.js:38-102 | `goToScene(idx)` as a function of the state; its properties are stated by `GoToNoOpIff`, `GoToAccepted`, `LaunchedContents` and `LaunchedOnly` |
| `Transitions.OnWheel` | src/animation/ScrollAnimations.js:106-118 | `onWheel`: the new state and whether `preventDefault` was called; stated by `WheelGate`, `WheelPrevents` and `WheelBoundary` |
| `Transitions.OnTouchEnd` | src/animation/ScrollAnimations.js:123-127 | `onTouchEnd`; stated by `TouchGate` and `TouchAtThreshold` |
| `Transitions.KeyTarget` | src/animation/ScrollAnimations.js:132-137 | the scene a key asks for: current plus the key's step, 0 for Home, 13 for End, none for any other key; stated through `KeySteps` and `HomeEndJump` |
| `Transitions.OnKey` | src/animation/ScrollAnimations.js:130-138 | `onKey`; stated by `KeyPrevents`, `KeySteps` and `HomeEndJump` |
| `Transitions.Step` | src/animation/ScrollAnimations.js:38-138 | one input or one callback of an animation in flight; stated by `StepPreservesInv`, `StepPreservesDisplayed`, `StepPreservesExclusive`, `LockedInputsInert`, `OnlyReleasesUnlock` and `HiddenOnlyByFadeOut` |
| `Transitions.Run` | src/animation/ScrollAnimations.js:14-15 | a sequence of events, each delivered only when enabled; stated by `RunPreservesInv`, `RunShowsCurrent` and `RunOnlyCurrent` |
| `Transitions.Inv` | src/animation/ScrollAnimations.js:15 | the lock invariant: the scene index is in [0, 13], exactly one releasing animation is in flight while the lock is held and none otherwise, and every animation's target exists; kept by `StepPreservesInv` |
| `Transitions.Displayed` | src/animation/ScrollAnimations.js:23-101 | the display invariant: the current scene is rendered and its card shown, no fade-out in flight is aimed at either, and none is in flight while the lock is free; kept by `StepPreservesDisplayed`. Its other half is `Exclusive`, and `IdleOnlyCurrent` combines the two |
| `Transitions.Exclusive` | src/animation/ScrollAnimations.js:24-31 | the other half of the display invariant: a scene other than the current one is rendered only while its fade-out is in flight, and the same holds for cards. The initial state has it, and `goToScene` (lines 48-63) starts exactly those fade-outs for the scene and card it leaves; kept by `StepPreservesExclusive` |
| `Transitions.GoToNoOpIff` | src/animation/ScrollAnimations.js:39 | `goToScene(idx)` leaves the whole state unchanged if and only if `idx` is the current scene, the lock is held, or `idx` is outside [0, 13] |
| `Transitions.GoToAccepted` | src/animation/ScrollAnimations.js:40-101 | an accepted transition takes the lock and moves to `idx`. The new scene is made visible and otherwise left as it was, and the new card, when there is one, is shown at once. Every other scene and card is left as it was, the old ones included: they are hidden only when their fade-outs complete. Only dot `idx` is marked. The clock, touch, camera and progress values are unchanged. The animations already in flight are kept, and exactly those of `Launched` are appended: among them the old card's and scene's fade-outs, the camera tween to `-25 * idx + 10`, the new scene's fade-in, the progress tween to `idx / 13` when the bar exists, and the new card's fade-in or the fallback timer |
| `Transitions.LaunchedContents` | src/animation/ScrollAnimations.js:42-100 | a transition starts the old card's fade-out when that card exists, the old scene's fade-out when it exists, the camera move, the new scene's fade-in when it exists, the new card's fade-in or else the fallback timer, and the progress tween to `idx / 13` when the bar exists |
| `Transitions.LaunchedOnly` | src/animation/ScrollAnimations.js:42-100 | a transition starts nothing besides those animations |
| `Transitions.LaunchedReleases` | src/animation/ScrollAnimations.js:82-94 | a transition starts exactly one animation that can release the lock |
| `Transitions.LaunchedTargets` | src/animation/ScrollAnimations.js:42-94 | every animation a transition starts refers to a scene or section that exists (the source's `if (oldCard)`, `if (oldScene)`, `if (newScene)` and `if (newCard)` guards) |
| `Transitions.StartedFrame` | src/animation/ScrollAnimations.js:42-45 | what a transition starts depends only on the current scene, the scene groups and the sections |
| `Transitions.GoToPreservesInv` | src/animation/ScrollAnimations.js:38-102 | `goToScene` keeps the controller invariant |
| `Transitions.CompletionPreservesInv` | src/animation/ScrollAnimations.js:53-93 | completing an animation keeps the invariant when the lock is released exactly by a releasing animation |
| `Transitions.WheelClockKeepsInv` | src/animation/ScrollAnimations.js:115 | recording the time of an accepted wheel event keeps the invariant |
| `Transitions.WheelPreservesInv` | src/animation/ScrollAnimations.js:106-118 | the wheel handler keeps the invariant |
| `Transitions.TouchEndPreservesInv` | src/animation/ScrollAnimations.js:123-127 | the touch-end handler keeps the invariant |
| `Transitions.KeyPreservesInv` | src/animation/ScrollAnimations.js:130-138 | the key handler keeps the invariant |
| `Transitions.InputPreservesInv` | src/animation/ScrollAnimations.js:106-138 | every input handler, dot clicks included, keeps the invariant |
| `Transitions.SceneFramePreservesInv` | src/animation/ScrollAnimations.js:61 | a fade frame of either scene keeps the invariant |
| `Transitions.StepPreservesInv` | src/animation/ScrollAnimations.js:38-138 | every input and every animation callback keeps the invariant |
| `Transitions.RunPreservesInv` | src/animation/ScrollAnimations.js:14-15 | along any sequence of events the invariant holds, so `currentScene` never leaves [0, 13] |
| `Transitions.GoToPreservesDisplayed` | src/animation/ScrollAnimations.js:39-101 | `goToScene` keeps the display invariant: the new scene and card are shown, and the fade-outs it starts are aimed at the old ones |
| `Transitions.InputFieldsKeepDisplayed` | src/animation/ScrollAnimations.js:115-122 | recording the wheel time or the touch start keeps the display invariant |
| `Transitions.WheelPreservesDisplayed` | src/animation/ScrollAnimations.js:106-118 | the wheel handler keeps the display invariant |
| `Transitions.TouchEndPreservesDisplayed` | src/animation/ScrollAnimations.js:123-127 | the touch-end handler keeps the display invariant |
| `Transitions.KeyPreservesDisplayed` | src/animation/ScrollAnimations.js:130-138 | the key handler keeps the display invariant |
| `Transitions.InputPreservesDisplayed` | src/animation/ScrollAnimations.js:106-138 | every input handler, dot clicks included, keeps the display invariant |
| `Transitions.SceneFramePreservesDisplayed` | src/animation/ScrollAnimations.js:61 | a fade frame changes opacities only, so it keeps the display invariant |
| `Transitions.CompletionPreservesDisplayed` | src/animation/ScrollAnimations.js:53-93 | a completion hides only a card or scene other than the current one, and a release waits for the fade-outs, so the display invariant is kept |
| `Transitions.StepPreservesDisplayed` | src/animation/ScrollAnimations.js:38-138 | every input and every callback keeps the display invariant |
| `Transitions.RunShowsCurrent` | src/animation/ScrollAnimations.js:23-101 | from any state that satisfies the display invariant (the initial one does), along any sequence of events the current scene stays rendered and its card shown, and no fade-out is in flight whenever the lock is free |
| `Transitions.InRemove` | src/animation/ScrollAnimations.js:53-93 | when one animation completes, every other animation in flight stays in flight |
| `Transitions.GoToExclusive` | src/animation/ScrollAnimations.js:39-101 | `goToScene` keeps the exclusive half of the display invariant. The scene and card it leaves get their fade-outs (lines 48-63), and only the new scene and card are made visible (lines 75 and 84) |
| `Transitions.InputFieldsKeepExclusive` | src/animation/ScrollAnimations.js:115-122 | recording the wheel time or the touch start keeps the exclusive half |
| `Transitions.WheelPreservesExclusive` | src/animation/ScrollAnimations.js:106-118 | the wheel handler keeps the exclusive half |
| `Transitions.TouchEndPreservesExclusive` | src/animation/ScrollAnimations.js:123-127 | the touch-end handler keeps the exclusive half |
| `Transitions.KeyPreservesExclusive` | src/animation/ScrollAnimations.js:130-138 | the key handler keeps the exclusive half |
| `Transitions.InputPreservesExclusive` | src/animation/ScrollAnimations.js:106-138 | every input handler, dot clicks included, keeps the exclusive half |
| `Transitions.CallbackPreservesExclusive` | src/animation/ScrollAnimations.js:53-93 | a completed fade-out takes its own card (line 53) or scene (line 62) off screen, a frame changes opacities only, and any other completion removes no fade-out, so the exclusive half is kept |
| `Transitions.StepPreservesExclusive` | src/animation/ScrollAnimations.js:38-138 | every input and every callback keeps the exclusive half |
| `Transitions.IdleOnlyCurrent` | src/animation/ScrollAnimations.js:39-101 | with both halves of the display invariant and the lock free, a scene is rendered exactly when it is the current one, and a panel with a card has it shown exactly when it is the current one |
| `Transitions.RunOnlyCurrent` | src/animation/ScrollAnimations.js:23-101 | from any state with both halves of the display invariant (the initial one has them), along any sequence of events the exclusive half holds. Whenever the lock is free, the current scene is the only one rendered and its card the only one shown |
| `Transitions.DotClickIsGoTo` | src/animation/ScrollAnimations.js:189-193 | clicking dot `i` is `goToScene(i)`. It does nothing while the lock is held, on the current scene's dot, or past the last scene; any other click moves to scene `i` and takes the lock |
| `Transitions.LockedInputsInert` | src/animation/ScrollAnimations.js:108 | while the lock is held, no input changes anything except the recorded touch start; a wheel event still calls `preventDefault` and a key event does not |
| `Transitions.OnlyReleasesUnlock` | src/animation/ScrollAnimations.js:89 | the lock is released only by the new card's fade-in completing or by the fallback timer (line 93) |
| `Transitions.LockReleasable` | src/animation/ScrollAnimations.js:82-94 | while the lock is held, a releasing animation is in flight, and once no fade-out is left it can complete and free the lock |
| `Transitions.FadeOutsCompletable` | src/animation/ScrollAnimations.js:50-63 | every fade-out in flight can complete: the card or scene it was started for exists |
| `Transitions.ReleaseIsLast` | src/animation/ScrollAnimations.js:89 | a release frees the lock and leaves no other releasing animation in flight (line 93 likewise) |
| `Transitions.HiddenOnlyByFadeOut` | src/animation/ScrollAnimations.js:62 | a scene becomes invisible only when a fade-out started for that scene completes |
| `Transitions.WheelGate` | src/animation/ScrollAnimations.js:106-118 | a wheel event moves exactly when the lock is free, at least 600 ms have passed since the last accepted one, and `current + dir` is in range. It then records `now` and the new state is `goToScene(current + dir)` from there; otherwise nothing changes |
| `Transitions.WheelPrevents` | src/animation/ScrollAnimations.js:108-114 | `preventDefault` is called exactly when the event is gated, or when its target is in range |
| `Transitions.WheelBoundary` | src/animation/ScrollAnimations.js:108-110 | a gap of exactly 600 ms passes, and `deltaY == 0` moves back |
| `Transitions.TouchGate` | src/animation/ScrollAnimations.js:123-127 | a touch end moves exactly when the lock is free, the swipe covered strictly more than 60 px, and the neighbouring scene exists. An upward swipe moves forward. The new state is then `goToScene` of the neighbour; otherwise nothing changes |
| `Transitions.TouchAtThreshold` | src/animation/ScrollAnimations.js:126 | a swipe of exactly 60 px in either direction does nothing |
| `Transitions.KeyPrevents` | src/animation/ScrollAnimations.js:130-138 | when the lock is free, `preventDefault` is called exactly for the seven handled keys; an unhandled key changes nothing |
| `Transitions.KeySteps` | src/animation/ScrollAnimations.js:132-135 | ArrowDown, PageDown and Space move forward one scene, and ArrowUp and PageUp back one, when that scene exists. At either end they are prevented and change nothing |
| `Transitions.HomeEndJump` | src/animation/ScrollAnimations.js:136-137 | Home and End jump to the first and last scene, taking the lock unless already there |
| `ScrollAnimations.Controller.constructor` | src/animation/ScrollAnimations.js:13-32 | initialisation: only group 0 is visible, and it is set to full opacity; the first card is shown; dot 0 alone is active; the lock is free; nothing is in flight; the invariant holds. It requires that no card other than the first starts with its `visible` class, as the markup of `createSections` (src/components/Sections.js:106) has none |
| `ScrollAnimations.Controller.SetActiveDot` | src/animation/ScrollAnimations.js:174-178 | the toggle loop leaves the dots equal to `ActiveDots(n, idx)` |
| `ScrollAnimations.Controller.SetProgress` | src/animation/ScrollAnimations.js:180-184 | starts the progress tween to `idx / 13` exactly when the progress bar exists |
| `ScrollAnimations.Controller.StartTransition` | src/animation/ScrollAnimations.js:42-94 | makes the new scene visible, shows the new card, and appends the started animations, in source order |
| `ScrollAnimations.Controller.GoToScene` | src/animation/ScrollAnimations.js:38-102 | the guard and the transition: the new state is `GoTo(old state, idx)`, and the invariant is kept |
| `ScrollAnimations.Controller.Transition` | src/animation/ScrollAnimations.js:40-101 | the body run once the guard has let `idx` through |
| `ScrollAnimations.Controller.OnWheel` | src/animation/ScrollAnimations.js:106-118 | the wheel handler's new state and `preventDefault` are those of `Transitions.OnWheel` |
| `ScrollAnimations.Controller.WheelStep` | src/animation/ScrollAnimations.js:113-117 | an accepted wheel event records its time, then runs `goToScene(next)` |
| `ScrollAnimations.Controller.OnTouchStart` | src/animation/ScrollAnimations.js:122 | records the touch start position and nothing else |
| `ScrollAnimations.Controller.OnTouchEnd` | src/animation/ScrollAnimations.js:123-127 | the touch-end handler's new state is that of `Transitions.OnTouchEnd` |
| `ScrollAnimations.Controller.OnKey` | src/animation/ScrollAnimations.js:130-138 | the key handler's new state and `preventDefault` are those of `Transitions.OnKey` |
| `ScrollAnimations.Controller.OnDotClick` | src/animation/ScrollAnimations.js:187-194 | a dot click runs `goToScene` on that dot's index |
| `ScrollAnimations.Controller.OnOldCardFadeDone` | src/animation/ScrollAnimations.js:53 | the old card loses `visible` and its fade-out leaves the in-flight list |
| `ScrollAnimations.Controller.OnSceneFadeFrame` | src/animation/ScrollAnimations.js:61 | a frame of a scene fade (line 78 likewise) runs `setOpacity` on that scene with the tween's current value |
| `ScrollAnimations.Controller.OnOldSceneFadeDone` | src/animation/ScrollAnimations.js:62 | the old scene is hidden when its fade-out completes |
| `ScrollAnimations.Controller.OnNewSceneFadeDone` | src/animation/ScrollAnimations.js:76-79 | the new scene's fade-in leaves the in-flight list and nothing else changes |
| `ScrollAnimations.Controller.OnCameraDone` | src/animation/ScrollAnimations.js:67-71 | the camera reaches the tween's target depth |
| `ScrollAnimations.Controller.OnIncomingCardDone` | src/animation/ScrollAnimations.js:89 | the new card's fade-in completing releases the lock |
| `ScrollAnimations.Controller.OnFallbackTimeout` | src/animation/ScrollAnimations.js:93 | the fallback timer releases the lock |
| `ScrollAnimations.Controller.OnProgressDone` | src/animation/ScrollAnimations.js:182 | the progress bar reaches the tween's target fill |
| `Sections.ScenesTable` | src/components/Sections.js:2-101 | the table has one entry per scene the controller navigates (14), with layouts alternating left, right, and so on from the first |
| `Sections.CreateSections` | src/components/Sections.js:103-114 | `createSections()`; stated by `SectionsInOrder`, `SectionOpens`, `SectionContentClass` and `PageShape` |
| `Sections.SectionMarkup` | src/components/Sections.js:104-113 | the template of one panel; stated by `SectionOpens`, `SceneLabelParts` and `SectionContentClass` |
| `Sections.CreateSceneIndicator` | src/components/Sections.js:116-122 | `createSceneIndicator()`, which is `Indicator` of the scene table; stated by `IndicatorFrame` and `IndicatorHoldsDots` |
| `Sections.Indicator` | src/components/Sections.js:117-121 | the `scene-indicator` element around the dot row for a given table |
| `Sections.IndicatorFrame` | src/components/Sections.js:117-121 | the indicator opens the `scene-indicator` element, holds the dot row, and closes the element after it |
| `Sections.IndicatorHoldsDots` | src/components/Sections.js:117-121 | dot `i` sits in the indicator right after the opening text and the dots before it |
| `Sections.DotMarkup` | src/components/Sections.js:119 | the template of one dot; stated by `DotFields` |
| `Sections.SceneLabel` | src/components/Sections.js:107 | the `scene-number` label; stated by `SceneLabelParts`, `FirstSceneLabel` and `LastSceneLabel` |
| `Sections.PadStart` | src/components/Sections.js:107 | `padStart`: the result is `width` long when the input is shorter and the input itself otherwise; it ends with the input, and everything before it is fill |
| `Sections.TwoDigits` | src/components/Sections.js:107 | `String(n).padStart(2, '0')`; stated by `TwoDigitsValue` |
| `Sections.ToUpper` | src/components/Sections.js:107 | `toUpperCase` on the ASCII letters; stated by `ToUpperFacts` |
| `Sections.Join` | src/components/Sections.js:113 | `join('')`; stated by `JoinAt` |
| `Sections.Decimal` | src/components/Sections.js:105 | `String(n)` is a non-empty string of decimal digits, one digit exactly when `n < 10` |
| `Sections.DecimalRoundTrip` | src/components/Sections.js:105 | the printed number parses back to itself |
| `Sections.DecimalInjective` | src/components/Sections.js:105 | different numbers print differently |
| `Sections.SectionIdsDistinct` | src/components/Sections.js:105 | no two sections share an `id` |
| `Sections.TwoDigitsValue` | src/components/Sections.js:107 | `String(n).padStart(2, '0')` is two digits, for any `n` up to 99, and still reads as `n`; below 10 it is `0` followed by the digit |
| `Sections.ToUpperFacts` | src/components/Sections.js:107 | upper-casing leaves no lower-case letter behind, changes nothing that is not a lower-case letter, and is idempotent |
| `Sections.SceneLabelParts` | src/components/Sections.js:107 | the scene label reads back as `SCENE_`, then the two-digit 1-based scene number, then ` // `, then the upper-cased id |
| `Sections.FirstSceneLabel` | src/components/Sections.js:4 | the first panel's label is `SCENE_01 // NEBULA` |
| `Sections.LastSceneLabel` | src/components/Sections.js:95 | the last panel's label is `SCENE_14 // GENESIS` |
| `Sections.ContentClassRight` | src/components/Sections.js:106 | the content block's class list is `content right` exactly for the `right` layout, and `content ` otherwise |
| `Sections.SectionContentClass` | src/components/Sections.js:106 | in the table, the content block carries `right` exactly on the odd-numbered panels |
| `Sections.SectionOpens` | src/components/Sections.js:105 | each panel opens with `<section id="scene-{n}" class="layout-{layout}" data-scene="{id}">` |
| `Sections.SectionsInOrder` | src/components/Sections.js:103-114 | `createSections` is the panels back to back in table order: panel `k` is its template and starts where panel `k - 1` ends |
| `Sections.DotFields` | src/components/Sections.js:119 | a dot's `data-index` holds the digits of its own index and parses back to it; its `data-scene` holds the upper-cased id |
| `Sections.DotsInOrder` | src/components/Sections.js:116-122 | the indicator's dot row is the dots back to back in table order |
| `Sections.PageShape` | src/components/Sections.js:103-122 | the page has one panel and one dot per scene, so every dot index lies in [0, TOTAL_SCENES), the range the guard of `goToScene` admits (it still rejects the current scene and any index while the lock is held) |
| `Sections.JoinAt` | src/components/Sections.js:113 | part `k` of a joined list sits at the combined length of the parts before it |

## Left out

- Durations, delays and easing curves, and the `gsap` scheduler itself: animations are events delivered in any order while pending, except that a release waits for the fade-outs (`Transitions.Enabled`), the one ordering the durations fix that the display invariant needs. Other timing facts are not used: the camera, the new scene's fade-in and the progress tween may complete before or after the release.
- `Transitions.Enabled`: the fallback timer is a `setTimeout`, while the fade-outs run on `gsap`'s frame ticker, so the source's ordering holds only while both clocks advance together. If the ticker lags or pauses (for instance in a background tab) while the timer fires, the lock is released with a fade-out still running. If the user then moves on, that fade-out can hide the scene or card that has become current. The model excludes that schedule, so `Transitions.RunShowsCurrent` relies on the durations being honoured.
- Numbers are exact reals, not IEEE doubles. `Transitions.ProgressFraction` states `r * 13 == idx` and `SceneGraph.FadeMaterial` states `opacity == Base(m) * f`; both hold exactly only in the model, where the source rounds `idx / 13` and `baseOpacity * opacity` to the nearest double. The 600 ms wheel gap and the 60 px swipe threshold are compared without rounding.
- Intermediate tween values: the camera and the progress bar jump to their targets on completion. Card opacity and `y` offsets are DOM styles and are not modelled; only the `visible` class is.
- The fade-in's `fromTo` immediate render is not modelled. It would set the tween's value to 0 before the first frame; that value is only a factor handed to `setOpacity`, and any frame order is allowed.
- The fade-out's `onComplete` does not reset the group's material opacity; the model keeps whatever the last frame wrote, as the source does.
- `scrollIntoView`, hiding the scroll cue, stopping Lenis, and registering the listeners (the scroll-cue one is one-shot) are left out: they change no state the controller reads.
- `window.voyageGoToScene`: exposing `goToScene` on `window` is modelled as `Controller.OnDotClick` calling `GoToScene`. The "is it defined yet" check at src/animation/ScrollAnimations.js:191 is not modelled.
- `setOpacity` is modelled on a value tree. With shared (aliased) materials or nodes, the source writes the same object more than once; every write depends only on that material's own baseline and the factor, so within one call the outcome is the same, but aliasing itself is not represented. The model also assumes no material is shared between two scene groups: during a crossfade the frames of both fades would then write the same object, which independent groups cannot show. The scene modules that build the groups are not part of this model.
- `Sections.UpperChar`: only the ASCII letters are upper-cased; JavaScript's `toUpperCase` also maps non-ASCII letters. The scene ids are ASCII.
- `Transitions.KeyTarget`: `keyMap[e.key]` in the source also finds inherited object properties (`toString`, `constructor`, …), which are not numbers and would make `currentScene + keyMap[e.key]` a string. The model recognises only the five own keys. No keyboard key has such a name.
- The `button` field of the scene table is carried but not rendered, exactly as in the source; the table's titles and descriptions are copied verbatim.
- The Three.js scene modules, the custom cursor and src/main.js (renderer, scene construction, render loop) are not part of this model.
- A swipe of exactly 60 px does not move (`Transitions.TouchAtThreshold`): the code compares with `> 60`, so the model follows the code rather than any reading of "at least 60 px".
