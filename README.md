# Asteroids — a verified model of the game core

This project models the core of a small Direct2D asteroids game in Dafny and proves properties of it. The game has two revisions:

- the current game (`src/logic.cpp`, `include/*.hpp`);
- the earlier prototype under `asteroids/`.

The project also models the contour generator script (`contour_generator/contour_parse.py`).

The modules are:

- **IntervalTimer** (`timer.dfy`). The performance-counter interval timer, as a class `Timer` with the four `i64` fields `last_time`, `reference_time`, `frequency` and `interval`. Clock samples, the counter frequency and whether the counter could be read are method parameters. Integer division truncates toward zero, as in C++. One class stands for both copies of the header: the older copy is the newer one without `get_intervals_continuous` and `start_new_interval`.
- **Geometry** (`geometry.dfy`). The `Vector` operators and the orientation test `clockwise`. Also the segment test `intersect` and the contour collision test: a predicate `Intersects`, and the nested-loop method `ContourIntersect` proved equal to it. `ObjectContour::update_for_dpi` is a class method that rescales the vertices and half extents in place.
- **Entities** (`entities.dfy`). The round states, the asteroid and bullet records, and the visibility tests of `include/logic.hpp`.
- **GameRules** (`game_rules.dfy`). The round simulation of `src/logic.cpp` as functions on a snapshot `Game` of the logic's fields:
  - motion, spawning and the penalty zones;
  - fatal and destructive collisions, and garbage collection;
  - the scene update;
  - the state transitions of `paint` and `on_keypress`.
- **GameLogic** (`game_logic.dfy`). The class `WindowLogic`, whose methods update its fields (and its typewriter object) in place. Each method is proved to leave exactly the state the matching `GameRules` function computes. The properties of the game are lemmas about those functions.
- **LegacyLogic** (`legacy_logic.dfy`). The prototype's logic:
  - one asteroid per elapsed spawn tick;
  - the 5-unit fall and the back-pop loop;
  - the folded background progress;
  - the prototype's own visibility predicates.

  Its `WindowLogic` holds its two timers as `Timer` objects.
- **TextHelper** (`text_helper.dfy`). The typewriter animation, as a class over the text and `chars_progress`, and the label strings drawn for the chosen level, the penalty, the score and the difficulty. It also has a decimal reader, which proves that the labels are injective. The two copies of `text_helper.cpp` agree on `TextTypewriterAnimation` and on the label texts modelled here. They differ in `TextHelper::Init` and in their pre-rendering and drawing code, which are not modelled.
- **Spirits** (`spirits.dfy`). The prototype's constant sprite contours.
- **Pixels** (`pixels.dfy`). The two revisions of the logical/physical pixel conversions, with their 32-bit unsigned wrap-around written out.
- **ContourParse** (`contour_parse.dfy`). The generator's `split`, `float`, `get_pairs_from_content`, `pairs_shifted` and the half-extent and scale arithmetic of `process_file`.
- **Sequences** and **Wrappers** (`sequences.dfy`, `wrappers.dfy`). A first-match search, a count and the back-trim that both deques' pop loops perform; `Option` and `Result`.

The program's `std::deque`s are sequences here: the front is index 0 and `pop_back` removes the last element.

Two 20×20 squares whose centers are 5 units apart on the x-axis do not collide under the strict orientation test of `include/math.hpp` (`clockwise` and `intersect`): their edges meet only at endpoints or along collinear edges (`Geometry.HorizontalOffsetSquaresDoNotIntersect`). Offset by (5, 5) they do collide (`Geometry.DiagonalOffsetSquaresIntersect`).

`asteroids/src/logic.cpp` builds asteroids as `Asteroid{.x, .y}`, while its header declares `Asteroid{pos, speed, destroyed, size}`. `LegacyLogic` follows the `.cpp` for the asteroids it spawns. It uses the header's record for the header's visibility predicates.

## Model

| member | source | states |
|---|---|---|
| IntervalTimer.TruncDiv | include/timer.hpp:14 | C++ integer division truncates toward zero: the remainder `a - q*b` has the sign of the dividend and is smaller in magnitude than the divisor |
| IntervalTimer.WholeIntervals | include/timer.hpp:38-39 | the count of whole intervals in a nonnegative delta: `n*interval <= delta < (n+1)*interval` |
| IntervalTimer.Progress | include/timer.hpp:23-33 | the fraction of the unfinished interval lies in [0, 1) |
| IntervalTimer.ConsumeKeepsRemainder | include/timer.hpp:41-43 | after whole intervals are consumed, the rest is below one interval, holds no whole interval, and has the same progress |
| IntervalTimer.ContinuousIsCountPlusProgress | include/timer.hpp:47-53 | continuous intervals = whole count + progress, as the doc comment promises |
| IntervalTimer.Timer.Init | include/timer.hpp:7-17 | fails exactly when the counter is unavailable; on success, reference = last = now and interval = frequency*ms/1000 (truncated); with frequency*ms >= 1000 the timer is valid with zero delta |
| IntervalTimer.Timer.Update | include/timer.hpp:19-21 | only `last_time` changes, to the sample when available; validity (reference <= last, interval > 0) is kept for a monotone clock |
| IntervalTimer.Timer.IntervalProgress | include/timer.hpp:23-33 | returns the progress of the old delta, in [0, 1); consumes exactly count*interval from the reference only when asked |
| IntervalTimer.Timer.IntervalsCount | include/timer.hpp:37-45 | returns the whole intervals of the old delta; consumes exactly count*interval only when asked, leaving delta mod interval |
| IntervalTimer.Timer.IntervalsContinuous | include/timer.hpp:49-53 | changes nothing; the result is nonnegative and equals whole count + progress |
| IntervalTimer.Timer.StartNewInterval | include/timer.hpp:55-57 | the reference becomes the last sample, so the delta is zero |
| IntervalTimer.CountTwice | include/timer.hpp:37-45 | two counts in a row: without consuming, both equal and nothing changes; with consuming, the second is 0 and the progress is kept |
| IntervalTimer.IntervalAccountingScenario | include/timer.hpp:24-45 | with interval 100 and delta 250: two non-consuming counts, then two consuming counts, give 2, 2, 2, 0, leaving delta 50 |
| IntervalTimer.RestartZeroes | include/timer.hpp:55-57 | after `start_new_interval`, count, progress and continuous intervals are all zero |
| Geometry.AddSubInverse | include/math.hpp:13-19 | vector `+` and `-` undo each other |
| Geometry.ScaleDivInverse | include/math.hpp:21-27 | vector `*` and `/` by the same nonzero factor undo each other |
| Geometry.Abs | include/math.hpp:73 | `fabsf`: nonnegative, and equal to the value or its negation |
| Geometry.ClockwiseIsPositiveCross | include/math.hpp:36-38 | `clockwise` holds exactly when the orientation determinant is positive |
| Geometry.CrossRotate | include/math.hpp:36-38 | the orientation determinant is invariant under rotating the triple |
| Geometry.ClockwiseRotate | include/math.hpp:36-38 | `clockwise` is invariant under rotating the triple |
| Geometry.CollinearNotClockwise | include/math.hpp:36-38 | collinear points are clockwise in no rotation |
| Geometry.SegmentsIntersectSymmetric | include/math.hpp:40-45 | segment `intersect(a,b,c,d)` equals `intersect(c,d,a,b)` |
| Geometry.Next | include/math.hpp:86 | the following vertex index, wrapping from the last to 0 |
| Geometry.ContourIntersect | include/math.hpp:69-98 | the nested loop returns exactly the contour predicate: the box test passes and some shifted edge pair crosses |
| Geometry.SeparatedBoxesDoNotIntersect | include/math.hpp:71-81 | centers farther apart than the summed half extents on x or on y never collide |
| Geometry.IntersectsTranslationInvariant | include/math.hpp:71 | moving both centers by the same vector does not change the result |
| Geometry.ScaleContourShape | include/math.hpp:55-61 | scaling keeps the vertex count and order and multiplies every vertex and the half extents by the factor |
| Geometry.ScaleKeepsHalfExtents | include/math.hpp:55-61 | a contour inside its half extents stays inside them after scaling by a nonnegative factor |
| Geometry.CrossScale | include/math.hpp:36-38 | scaling all three points multiplies the orientation determinant by the factor squared |
| Geometry.ClockwiseScaleInvariant | include/math.hpp:55-61 | scaling by a positive factor (as `update_for_dpi` does) keeps every orientation |
| Geometry.ObjectContour.constructor | include/math.hpp:49-53 | the object holds the given vertices and half extents |
| Geometry.ObjectContour.UpdateForDpi | include/math.hpp:55-61 | the vertices and half extents become the scaled contour, in place |
| Geometry.DiagonalOffsetSquaresIntersect | include/math.hpp:69-98 | two 20×20 squares offset by (5, 5) collide |
| Geometry.DistantSquaresDoNotIntersect | include/math.hpp:69-81 | two 20×20 squares 25 apart on x do not collide |
| Geometry.HorizontalOffsetEdgePair | include/math.hpp:84-95 | for squares 5 apart on x, no edge pair crosses under the strict test |
| Geometry.EdgeMissesSquare | include/math.hpp:40-45 | each directed edge of the shifted square misses each edge of the other |
| Geometry.HorizontalOffsetSquaresDoNotIntersect | include/math.hpp:69-98 | two 20×20 squares 5 apart on x do not collide |
| Entities.ArmedBulletIsVisible | include/logic.hpp:153-159 | with a nonnegative half height, a bullet that can destroy is visible, and an invisible one cannot destroy |
| Entities.AsteroidVisibilityThreshold | include/logic.hpp:143-145 | an asteroid below the visibility line stays invisible as it falls further |
| Spirits.ControllerData | asteroids/include/spirits.hpp:9-29 | the rocket: 13 vertices, all within its half extents (32, 56) |
| Spirits.AsteroidData | asteroids/include/spirits.hpp:31-47 | the asteroid: 9 vertices, all within its half extents (50, 43.85) |
| Spirits.BulletData | asteroids/include/spirits.hpp:49-61 | the bullet: 5 vertices, all within its half extents (12.75, 71.38) |
| Pixels.U32 | src/logic.cpp:817 | the `i32` to `u32` conversion: a value in [0, 2^32) that keeps values already in range |
| Pixels.I32OfU32 | asteroids/include/common.hpp:19-21 | the two's complement reading of a 32-bit unsigned value as `i32` |
| Pixels.Ceil | include/common.hpp:23 | the least integer not below the value |
| Pixels.Trunc | include/common.hpp:24 | C++ float-to-integer conversion: floor for nonnegative values, ceiling for negative ones |
| Pixels.TruncMonotone | include/common.hpp:24 | truncation is monotone |
| Pixels.PhysicalPixelsIsCeiling | include/common.hpp:23 | `PHYSICAL_PIXELS` is the ceiling of logical*dpi/96 |
| Pixels.PhysicalPixelsAtReferenceDpi | include/common.hpp:23 | at 96 dpi, physical = logical |
| Pixels.LogicalPixelsAtReferenceDpi | include/common.hpp:24 | at 96 dpi, logical = physical |
| Pixels.PhysicalPixelsMonotone | include/common.hpp:23 | `PHYSICAL_PIXELS` is monotone in the pixel count |
| Pixels.LogicalPixelsMonotone | include/common.hpp:24 | `LOGICAL_PIXELS` is monotone in the pixel count for dpi > 0 |
| Pixels.LegacyPhysicalPixelsIsFloor | asteroids/include/common.hpp:15-17 | the prototype's `physical_pixels` truncates (floors) logical*dpi/96 |
| Pixels.LegacyPhysicalPixelsAtReferenceDpi | asteroids/include/common.hpp:15-17 | at 96 dpi the prototype's conversion is the identity on nonnegative values |
| Pixels.RevisionsDifferOnFractions | asteroids/include/common.hpp:15-17 | the two revisions agree when 96 divides logical*dpi and otherwise differ by exactly one |
| Pixels.LegacyPhysicalPixelsMonotone | asteroids/include/common.hpp:15-17 | the prototype's conversion is monotone in the pixel count |
| Pixels.LegacyPhysicalPixelsNeverNegative | asteroids/include/common.hpp:15-17 | with the product taken as `u32`, the prototype's result is never negative |
| Pixels.LegacyLogicalPixelsIdentity | asteroids/include/common.hpp:19-21 | `logical_pixels(p, dpi) == p` whenever p*dpi fits in `i32`: the dpi cancels and no 96 appears |
| TextHelper.TextTypewriterAnimation.Init | src/text_helper.cpp:6-11 | stores the text, resets the progress to 0 and succeeds |
| TextHelper.TextTypewriterAnimation.IsFrameLeft | src/text_helper.cpp:13-15 | a frame is left exactly when the progress is below the text length (the current character is not the terminator) |
| TextHelper.TextTypewriterAnimation.NextFrame | src/text_helper.cpp:17-20 | advances the progress by one while a frame is left, else changes nothing; progress never passes the text length |
| TextHelper.TextTypewriterAnimation.GetText | src/text_helper.cpp:22-24 | the revealed string is the text's prefix of the progress length |
| TextHelper.AdvanceFrame | src/text_helper.cpp:17-20 | one frame: one more character up to the whole text, then a fixed point |
| TextHelper.TypeOut | src/text_helper.cpp:6-20 | after Init, exactly one frame per character reveals the whole text; a further frame changes nothing |
| TextHelper.DigitChar | src/text_helper.cpp:321-325 | the digit character of a value 0 to 9 reads back as that value |
| TextHelper.NatDecimalShape | src/text_helper.cpp:321-325 | a natural number's text is nonempty, all digits, with no leading zero |
| TextHelper.NatDecimalRoundTrip | src/text_helper.cpp:321-325 | a natural number's text reads back as the number |
| TextHelper.DecimalRoundTrip | src/text_helper.cpp:321-325 | an integer's stream text (with `-` for negatives) reads back as the integer |
| TextHelper.DecimalInjective | src/text_helper.cpp:321-325 | different integers give different texts |
| TextHelper.ChosenLevelLabelRoundTrip | src/text_helper.cpp:250-259 | the chosen-level label (`_` for -1, else the level, then ` / 6`) reads back as the level |
| TextHelper.ChosenLevelLabelInjective | src/text_helper.cpp:250-259 | different levels, the placeholder -1 included, give different labels |
| TextHelper.ChosenLevelLabelExamples | src/text_helper.cpp:250-259 | `_ / 6` for no level, `4 / 6` for level 4, `-12` for penalty 12 |
| TextHelper.PenaltyLabelRoundTrip | src/text_helper.cpp:287-291 | the penalty label is the negated total and reads back as it |
| TextHelper.DifficultyLabelMatchesChosenLevel | src/text_helper.cpp:327-331 | the difficulty label equals the chosen-level label of that level and reads back as it |
| GameRules.Max | src/logic.cpp:414 | `max`: at least both arguments and equal to one of them |
| GameRules.InitialGame | include/logic.hpp:32-38 | the logic starts in GAME_PLAY with empty deques and satisfies the round invariant (difficulty 1, no level chosen, accelerators 0) |
| GameRules.AsteroidIntervalMs | src/logic.cpp:320-322 | for difficulty 1 to 6, the spawn interval is (7 - difficulty)*100 ms, between 100 and 600 |
| GameRules.AsteroidIntervalDecreasing | src/logic.cpp:320-322 | a higher difficulty spawns strictly more often |
| GameRules.Accelerate | src/logic.cpp:402-411 | the accelerate lambda never decreases its argument and is a no-op exactly from 15 on |
| GameRules.Decelerate | src/logic.cpp:413-415 | the decelerate lambda is never negative, never below a - step, and never above a nonnegative a |
| GameRules.AccelerateTimesMonotone | src/logic.cpp:402-411 | more accelerate steps never give less |
| GameRules.AccelerateFromRestNineSteps | src/logic.cpp:402-411 | from 0, nine steps through the first three bands reach exactly 5.25 |
| GameRules.AccelerateFromRestLinear | src/logic.cpp:409-410 | from 5.25 each step adds 0.25, up to 15 |
| GameRules.AccelerateFromRest | src/logic.cpp:402-411 | from 0 the acceleration rises monotonically, never passes 15, and is exactly 15 from step 48 on |
| GameRules.DecelerateTimesValue | src/logic.cpp:413-415 | n decelerate steps give max(0, a - n*step) |
| GameRules.DecelerateReachesZero | src/logic.cpp:413-415 | enough decelerate steps bring any acceleration to exactly 0 |
| GameRules.ControllerMoveGameOver | src/logic.cpp:394-397 | in GAME_OVER only the controller's y changes, by shift*downspeed |
| GameRules.ControllerMoveHoldLeft | src/logic.cpp:420-423 | holding left right of the left bound takes priority: it accelerates left and brakes right by 1; only x changes besides them, and the controller moves left exactly when left acceleration exceeds right |
| GameRules.ControllerMoveHoldRight | src/logic.cpp:424-433 | holding right left of the right bound, unless left is held right of the left bound, accelerates right and brakes left by 1; only x changes besides them, and the controller moves right exactly when right acceleration exceeds left |
| GameRules.ControllerMoveCoasting | src/logic.cpp:428-433 | with no usable key both accelerations decay by 0.75; y and every other field stay |
| GameRules.AsteroidsMove | src/logic.cpp:436-440 | same length and order; every asteroid keeps all fields but y, which grows by exactly shift*speed |
| GameRules.BulletsMove | src/logic.cpp:442-446 | same length and order; every bullet keeps all fields but y, which drops by exactly shift*3*dpi |
| GameRules.AsteroidsMoveAdditive | src/logic.cpp:436-440 | two frames move the asteroids as far as one frame of their combined duration |
| GameRules.BulletsMoveAdditive | src/logic.cpp:442-446 | two frames move the bullets as far as one frame of their combined duration |
| GameRules.NewAsteroidsSpawnsOne | src/logic.cpp:352-373 | at most one asteroid per call, pushed to the front, only on a tick in GAME_PLAY or FADE_IN; it starts above the viewport within the 300-unit band, whole, undestroyed, with speed in [dpi, 1.5*dpi) |
| GameRules.SpawnedAsteroidPlacement | src/logic.cpp:356-371 | the spawned asteroid's placement and speed bounds |
| GameRules.NewBulletsFiresOne | src/logic.cpp:324-350 | a bullet is pushed to the front exactly when in GAME_PLAY with space held and no ban still in force (a ban lifts on a cooldown tick); it starts at the controller's nose, whole and intact; firing sets the ban, and without a previous ban only firing sets it; nothing else changes |
| GameRules.PenaltyZones | src/logic.cpp:631-647 | the penalty is nonnegative and zero exactly in the middle third; the blue intensity is in [0, 1] and positive exactly within a fifth of the width from the center |
| GameRules.PenaltyPointsMove | src/logic.cpp:648-656 | on a penalty tick with no penalty the total restarts at 0; otherwise points only move from the score to the total, so their sum is kept and the score never rises; outside GAME_PLAY and between ticks the score is kept |
| GameRules.CollisionIsFirstFatal | src/logic.cpp:375-391 | a collision is reported exactly when some undestroyed asteroid in the lower half intersects the controller; the downspeed becomes 3 × the speed of the first such asteroid, else nothing changes |
| GameRules.ShrinkAsteroids | src/logic.cpp:660-665 | only sizes change; an intact asteroid is unchanged, a destroyed one with positive size loses 0.05, and a size at or below 0 stays |
| GameRules.ShrinkBullets | src/logic.cpp:667-672 | only sizes change; an intact bullet is unchanged, a destroyed one with positive size loses 0.05, and a size at or below 0 stays |
| GameRules.HitStep | src/logic.cpp:675-688 | one outer iteration of the hit loop keeps both deque lengths |
| GameRules.HitStepEffect | src/logic.cpp:675-688 | one iteration either changes nothing, or marks this intact asteroid and one bullet it hits as destroyed and adds 5 points |
| GameRules.HitsUpTo | src/logic.cpp:674-689 | the hit loop over the first n asteroids keeps both deque lengths |
| GameRules.HitKeepsAccounting | src/logic.cpp:682-686 | marking a hit pair keeps the accounting: newly destroyed asteroids and bullets balance, the score rises by 5 per pair, and each new asteroid has its own partner bullet (intact before, destroyed now, able to destroy, meeting it), distinct from every other asteroid's because the bullet taken was still intact |
| GameRules.HitStepKeepsAccounting | src/logic.cpp:674-689 | one iteration keeps that accounting, recording as partner the bullet it destroys |
| GameRules.HitsUpToAccounting | src/logic.cpp:674-689 | the whole loop keeps that accounting, with the partners it records one-to-one |
| GameRules.DestroyAsteroidsEntities | src/logic.cpp:659-690 | `destroy_asteroids` keeps lengths, positions and speeds, shrinks the already destroyed, marks as destroyed only bullets that could destroy, and changes no field but the deques and the score |
| GameRules.DestroyAsteroidsScore | src/logic.cpp:659-690 | the score rises by 5 per newly destroyed asteroid; as many bullets as asteroids are newly destroyed; each new asteroid has a partner bullet, newly destroyed, able to destroy and meeting it, and no two asteroids share a partner (the `break` after a hit) |
| GameRules.ShrinkTimesFromWhole | src/logic.cpp:661-663 | from size 1, n shrink steps leave 1 - 0.05n, for n up to 20 |
| GameRules.ShrinkToDespawn | src/logic.cpp:510 | a destroyed entity falls below the 0.1 collection size exactly from its 19th shrink on |
| GameRules.ShrinkStaysAtZero | src/logic.cpp:662-663 | after 20 shrinks the size is 0 and stays there |
| GameRules.CollectGarbageKeepsPrefix | src/logic.cpp:506-528 | garbage collection only pops from the back: each deque becomes a prefix whose last element is visible and large enough, and every removed element was invisible or too small |
| GameRules.CollectGarbageAtBack | src/logic.cpp:507-516 | an asteroid at the back more than its half height below the viewport is removed; a whole one at the back inside the viewport leaves the deque unchanged |
| GameRules.UpdateSceneKeepsInvariant | src/logic.cpp:692-716 | a scene update keeps the round invariant, changes the state only from GAME_PLAY to GAME_OVER, and leaves difficulty, chosen level and typewriter alone |
| GameRules.MotionKeepsInvariant | src/logic.cpp:457-465 | motion keeps the invariant and the state, and never lowers game-over or fade-in progress |
| GameRules.SpawnKeepsRound | src/logic.cpp:702-703 | spawning asteroids and bullets changes nothing the round state depends on |
| GameRules.CleanupKeepsRound | src/logic.cpp:712-713 | destruction and collection change nothing the round state depends on |
| GameRules.PenaltyAndCollisionKeepInvariant | src/logic.cpp:705-710 | the penalty and the fatal-collision check keep the invariant; the state changes only from GAME_PLAY to GAME_OVER |
| GameRules.PenaltyKeepsInvariant | src/logic.cpp:631-657 | the penalty step keeps the invariant and changes only the penalty, blue intensity, total and score |
| GameRules.CollisionKeepsInvariant | src/logic.cpp:707-710 | the collision step keeps the invariant and changes only the state (GAME_PLAY to GAME_OVER) and the downspeed |
| GameRules.FatalCollisionEndsRound | src/logic.cpp:707-710 | in GAME_PLAY a fatal asteroid ends the round, with the first fatal asteroid's speed × 3 as downspeed |
| GameRules.PaintKeepsInvariant | src/logic.cpp:718-840 | painting keeps the invariant and either keeps the state or takes one of the edges GAME_OVER→FADE_OUT, FADE_IN→GAME_PLAY, FADE_OUT→CHOOSE_NEW_LEVEL, CHOOSE_NEW_LEVEL→FADE_IN |
| GameRules.GameOverToFadeOut | src/logic.cpp:776-783 | GAME_OVER moves to FADE_OUT exactly when the text draws and the game-over progress reached 1; otherwise nothing changes |
| GameRules.FadeInToGamePlay | src/logic.cpp:785-788 | FADE_IN moves to GAME_PLAY exactly when the text draws and the fade-in progress reached 1, resetting that progress; otherwise nothing changes |
| GameRules.FadeOutToChooseNewLevel | src/logic.cpp:831-838 | FADE_OUT moves to CHOOSE_NEW_LEVEL exactly on a fade-out tick, with the prompt text, progress 0 and no level chosen, nothing else changed |
| GameRules.ChooseNewLevelToFadeIn | src/logic.cpp:795-821 | CHOOSE_NEW_LEVEL moves to FADE_IN exactly when the prompt is fully revealed and a level is chosen; the new round is cleared (deques, score, total, progress, downspeed, firing ban), the controller is reset, and the difficulty becomes the chosen level (spawn interval 100 to 600 ms) |
| GameRules.OnKeypressChoosesLevel | src/logic.cpp:869-876 | a key press changes only the chosen level, only in CHOOSE_NEW_LEVEL, and only to 1 to 6 for the keys `1` to `6` |
| GameLogic.WindowLogic.constructor | include/logic.hpp:32-38 | the fields start as the initial game: GAME_PLAY and the header's defaults |
| GameLogic.WindowLogic.ResetControllerPos | src/logic.cpp:72-75 | the controller is centered, 60 above the bottom edge |
| GameLogic.WindowLogic.AsteroidsMove | src/logic.cpp:436-440 | the loop leaves the asteroids deque as `GameRules.AsteroidsMove` |
| GameLogic.WindowLogic.BulletsMove | src/logic.cpp:442-446 | the loop leaves the bullets deque as `GameRules.BulletsMove` |
| GameLogic.WindowLogic.ControllerMove | src/logic.cpp:393-434 | the fields become `GameRules.ControllerMove` of the old state |
| GameLogic.WindowLogic.Steer | src/logic.cpp:433 | stores the new accelerations and moves x by (right - left)*shift*0.4*dpi |
| GameLogic.WindowLogic.GameOverMove | src/logic.cpp:448-454 | only the game-over and fade-in progress change, as `GameRules.GameOverMove` |
| GameLogic.WindowLogic.UpdateMotion | src/logic.cpp:457-465 | the four moves in order give `GameRules.UpdateMotion` |
| GameLogic.WindowLogic.NewAsteroids | src/logic.cpp:352-373 | the deque becomes `GameRules.NewAsteroids` of the old state |
| GameLogic.WindowLogic.NewBullets | src/logic.cpp:324-350 | the state becomes `GameRules.NewBullets`; the cooldown restarts exactly when a bullet fires |
| GameLogic.WindowLogic.ComputePenalty | src/logic.cpp:631-657 | the state becomes `GameRules.ComputePenalty` of the old state |
| GameLogic.WindowLogic.IsThereCollision | src/logic.cpp:375-391 | the loop returns and stores what `GameRules.CheckCollision` gives |
| GameLogic.WindowLogic.ShrinkDestroyed | src/logic.cpp:660-672 | the two shrink loops leave the asteroid and bullet deques as `GameRules.ShrinkAsteroids` and `GameRules.ShrinkBullets` state: only destroyed entities of positive size lose one step |
| GameLogic.WindowLogic.HitAsteroid | src/logic.cpp:675-688 | the inner loop for one asteroid performs `GameRules.HitStep` |
| GameLogic.WindowLogic.HitAll | src/logic.cpp:674-689 | the outer loop performs `GameRules.HitsUpTo` over all asteroids |
| GameLogic.WindowLogic.DestroyAsteroids | src/logic.cpp:659-690 | the state becomes `GameRules.DestroyAsteroids` of the old state |
| GameLogic.WindowLogic.CollectGarbage | src/logic.cpp:506-528 | the state becomes `GameRules.CollectGarbage` of the old state |
| GameLogic.WindowLogic.PopAsteroids | src/logic.cpp:507-516 | the pop loop leaves the back-trim of the asteroids |
| GameLogic.WindowLogic.PopBullets | src/logic.cpp:518-527 | the pop loop leaves the back-trim of the bullets |
| GameLogic.WindowLogic.UpdateScene | src/logic.cpp:692-716 | succeeds, keeps validity, leaves `GameRules.UpdateScene` of the old state, and changes the state only from GAME_PLAY to GAME_OVER |
| GameLogic.WindowLogic.AdvanceScene | src/logic.cpp:693-703 | size, motion and spawning give `GameRules.AdvanceScene` |
| GameLogic.WindowLogic.ResolveScene | src/logic.cpp:705-713 | penalty, collision, destruction and collection give `GameRules.ResolveScene` |
| GameLogic.WindowLogic.EndRoundOnCollision | src/logic.cpp:707-710 | the state becomes `GameRules.FatalCollision` of the old state |
| GameLogic.WindowLogic.Paint | src/logic.cpp:718-859 | keeps validity; the state and the result are those of `GameRules.Paint` |
| GameLogic.WindowLogic.PaintRound | src/logic.cpp:776-788 | the round-state transitions of `GameRules.PaintRound` |
| GameLogic.WindowLogic.PaintChooser | src/logic.cpp:795-821 | the typewriter advance and round start of `GameRules.PaintChooser` |
| GameLogic.WindowLogic.StartRound | src/logic.cpp:807-817 | the fields become `GameRules.StartRound` of the old state |
| GameLogic.WindowLogic.ClearScene | src/logic.cpp:807-810 | FADE_IN, the controller reset and both deques cleared |
| GameLogic.WindowLogic.ResetProgress | src/logic.cpp:811-813 | game-over and fade-in progress and the downspeed become 0 |
| GameLogic.WindowLogic.ResetScore | src/logic.cpp:814-817 | total and score 0, firing allowed, difficulty the chosen level as `u32` |
| GameLogic.WindowLogic.PaintFadeOut | src/logic.cpp:831-838 | the transition to CHOOSE_NEW_LEVEL of `GameRules.PaintFadeOut`, with the typewriter restarted on the prompt |
| GameLogic.WindowLogic.OnKeypress | src/logic.cpp:869-876 | succeeds and leaves `GameRules.OnKeypress` of the old state |
| GameLogic.ChooseLevelScenario | src/logic.cpp:790-838 | from FADE_OUT: the chooser appears, the prompt takes one frame per character, key `4` chooses level 4, and the next paint starts the round at difficulty 4 with empty deques, score 0 and a 300 ms spawn interval |
| Sequences.TrimBack | src/logic.cpp:507-516 | popping from the back while the back is not kept leaves a prefix ending in a kept element, and every removed element was not kept |
| Sequences.TrimBackOfPopped | src/logic.cpp:507-516 | the trim may resume after any pop of an unkept back element |
| Sequences.TrimBackIdempotent | src/logic.cpp:506-528 | trimming twice is trimming once |
| LegacyLogic.AsteroidVisible | asteroids/include/logic.hpp:108-110 | visible exactly while y <= height + 43.85 (the asteroid's half height) |
| LegacyLogic.BulletVisible | asteroids/include/logic.hpp:118-124 | visible exactly while y >= -71.38; a bullet that can destroy is visible |
| LegacyLogic.SpawnAboveViewport | asteroids/src/logic.cpp:67-71 | for a viewport at least 60 high, a spawn starts between -(height - 30) and -30, above the screen |
| LegacyLogic.Spawned | asteroids/src/logic.cpp:64-77 | k ticks push exactly k asteroids to the front, the newest first, in front of the unchanged old deque |
| LegacyLogic.FallingStaysOffscreen | asteroids/src/logic.cpp:80-84 | the fall keeps the count, and an asteroid below the pop line stays below it |
| LegacyLogic.BackgroundFold | asteroids/src/logic.cpp:112-115 | the folded progress lies in [0, 1] |
| LegacyLogic.BackgroundFoldShape | asteroids/src/logic.cpp:112-115 | the fold is 2p up to one half and symmetric about it; it is 0 only at 0 and 1 only at one half |
| LegacyLogic.SpawnsPerTickNotPerCall | asteroids/src/logic.cpp:61-77 | with two or more ticks the prototype spawns one asteroid per tick, and the current game one per call |
| LegacyLogic.WindowLogic.constructor | asteroids/include/logic.hpp:28-34 | no asteroids, not game over, firing allowed, accelerators and downspeed 0, two distinct fresh timers |
| LegacyLogic.WindowLogic.Init | asteroids/src/logic.cpp:57-58 | succeeds exactly when both timers initialise (40 ms background, 3 ms spawn) |
| LegacyLogic.WindowLogic.UpdateAsteroids | asteroids/src/logic.cpp:80-84 | every asteroid falls by exactly 5 and nothing else changes |
| LegacyLogic.WindowLogic.NewAsteroids | asteroids/src/logic.cpp:61-78 | consumes the elapsed spawn ticks, leaving delta mod interval, and pushes exactly one spawn per tick |
| LegacyLogic.WindowLogic.PopOffscreen | asteroids/src/logic.cpp:95-102 | pops from the back while the last asteroid is below height + 30 |
| LegacyLogic.WindowLogic.OnPaint | asteroids/src/logic.cpp:105-133 | samples both clocks; the shade is the folded background progress; the asteroids fall, spawn per tick and are popped |
| LegacyLogic.WindowLogic.SampleClocks | asteroids/src/logic.cpp:106-107 | each timer's last sample becomes its clock value when available |
| LegacyLogic.WindowLogic.PaintFrame | asteroids/src/logic.cpp:126-128 | fall, spawn and pop in order |
| LegacyLogic.PaintedAsteroidsTrimmed | asteroids/src/logic.cpp:95-102 | a painted frame keeps a prefix of the fallen and spawned deque whose last element is on screen, and all dropped ones are below the pop line |
| ContourParse.Split | contour_generator/contour_parse.py:2 | `str.split`: at least one piece, none containing the separator |
| ContourParse.SplitJoin | contour_generator/contour_parse.py:2 | joining the pieces restores the text |
| ContourParse.JoinSplit | contour_generator/contour_parse.py:2 | splitting a join of separator-free parts gives the parts back |
| ContourParse.GetPairsFromContent | contour_generator/contour_parse.py:1-5 | one entry fewer than the newline pieces: the last piece is dropped |
| ContourParse.PairsFromLines | contour_generator/contour_parse.py:1-5 | k newline-terminated lines give k entries, each its line split on `;`, in order |
| ContourParse.ParseNatDecimal | contour_generator/contour_parse.py:11 | `float` reads a natural number's digits back as that number |
| ContourParse.ParseDecimal | contour_generator/contour_parse.py:11 | `float` reads an integer's text back as that integer |
| ContourParse.PairsShifted | contour_generator/contour_parse.py:7-11 | succeeds exactly when every entry has two numeric fields; keeps length and order and moves each pair by minus half the image size; otherwise reports the first bad entry and why |
| ContourParse.PairsShiftedAllOk | contour_generator/contour_parse.py:7-11 | when every entry shifts, the list shifts entry by entry |
| ContourParse.ShiftPixel | contour_generator/contour_parse.py:7-11 | a rendered pixel pair shifts by half the image size |
| ContourParse.CenterMapsToOrigin | contour_generator/contour_parse.py:7-11 | the image center maps to (0, 0) |
| ContourParse.ProcessContour | contour_generator/contour_parse.py:23-27 | the emitted contour is the shifted pairs scaled, with half extents (width*scaler/2, height*scaler/2) |
| ContourParse.RenderedLineReadsBack | contour_generator/contour_parse.py:2-3 | an `x;y` line has no newline and splits into the two numerals, which read back as the coordinates |
| ContourParse.RenderedEntries | contour_generator/contour_parse.py:1-5 | a rendered file gives one two-field entry per pixel pair, in order |
| ContourParse.RenderRoundTrip | contour_generator/contour_parse.py:13-27 | reading a rendered file gives every pixel pair shifted, in order, and the contour scaled from them |
| ContourParse.GeneratedHalfSides | contour_generator/contour_parse.py:48-50 | the three generator calls give half extents (32, 56), (50, 43.85) and (12.75, 71.375); the bullet's half height 71.375 is 0.005 below the prototype's 71.38 |

## Left out

- Direct2D, Direct3D and DXGI setup, all drawing, bitmap loading, the text helper's rendering, brush opacities and the background colour: foreign COM calls. Their outcomes appear only as the success flags of `GameRules.PaintInput`.
- The Win32 window, the message loop and logging: OS plumbing.
- `QueryPerformanceCounter`/`QueryPerformanceFrequency` and `GetAsyncKeyState`: the clock samples, the counter frequency and the key states are parameters.
- The random distributions (`mt19937`, normal and uniform): each spawn's draws are a parameter. `GameRules.NewAsteroidsSpawnsOne` states the spawn bounds for draws in the distributions' ranges. The normal draw for x is unbounded and is not constrained.
- Timers of the current revision: `GameLogic.WindowLogic` takes their results as inputs (continuous motion intervals; whole spawn, cooldown, penalty, fade-out and typewriter intervals; whether an `Init` succeeded). It does not hold `Timer` objects. `IntervalTimer.Timer` proves those results correct on its own. The prototype's `LegacyLogic.WindowLogic` does hold its two timers.
- f32 rounding: positions, speeds, progress values and the penalty are `real`, so no claim is made about float rounding.
- GameRules.ComputePenalty: requires a positive viewport width. At width 0 the source divides by zero in `f32`, and real arithmetic cannot express infinities or NaN. The same precondition is on `GameLogic.WindowLogic.ComputePenalty`, `GameRules.ResolveScene` and `GameRules.UpdateScene`.
- IntervalTimer.Timer.IntervalsCount: the count is the `i64` quotient, without the `i32` truncation of its return value. An `i64` overflow of the clock difference is not modelled either.
- IntervalTimer.Timer.Init: the timer is valid only when frequency*ms >= 1000. Otherwise the source's interval is 0, and its later divisions are undefined.
- Uninitialised fields (`penalty`, `paint_blue`, `penalty_points_total`, `fade_in_progress`, the timers' fields, the typewriter's text) start at zero or empty in the constructors. `IntervalTimer.Timer` and `TextHelper.TextTypewriterAnimation` have constructors only because Dafny objects need one.
- `WindowLogic::Init` of either revision, apart from the prototype's two timer initialisations (`LegacyLogic.WindowLogic.Init`): it is setup of the graphics stack. The DPI factor and the rescaled contours it computes are the `GameRules.Config` parameter.
- The spirit data of the current revision comes from the generated `spirits_gen.hpp`, which is not part of this model. Its contours are a parameter. `ContourParse.GeneratedHalfSides` checks the generator's arithmetic against the prototype's constants.
- ContourParse.ParseNumber: reads only optionally negative decimal numerals with at most one point. Python's `float` also accepts exponents, a leading `+`, surrounding whitespace, underscores, `inf` and `nan`; here those are `NotANumber` errors.
- `process_file`'s two-decimal `round`, its printing and its file handling are output formatting. `ContourParse.ProcessContour` gives the values before rounding.
- A `\r` before a newline stays inside the last field, as it does in the script. `float` would accept it as whitespace, while `ContourParse.ParseNumber` rejects it.
- The `scale` field that the generator prints is not modelled: it is only printed.
