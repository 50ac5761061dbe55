/** The round simulation as functions on a snapshot of the game's state:
    motion, spawning, the penalty zones, fatal and destructive collisions,
    garbage collection, and the round state machine that painting and key
    presses drive. The class in module GameLogic updates its fields in place
    and is proved to compute exactly these functions.

    Everything that the program reads from its collaborators is a parameter:
    the viewport size, the key states, the random draws, and the results of
    the interval timers (continuous intervals of the motion timer, whole
    intervals of the spawn, cooldown, penalty, fade-out and typewriter
    timers, and whether a timer could be initialised). */
module GameRules {
  import opened Wrappers
  import opened Geometry
  import opened Entities
  import opened Sequences
  import TextHelper
  import Pixels

  const BulletSpeed: real := 3.0
  /** Motion units for the game-over and fade-in progress to go from 0 to 1. */
  const ProgressDuration: real := 128.0
  const ControllerSpeedScale: real := 0.4
  const AccelerationCeiling: real := 15.0
  const DestroyBonus: int := 5
  const ShrinkStep: real := 0.05
  const MinSize: real := 0.1
  /** Height of the band above the viewport in which asteroids spawn. */
  const SpawnBand: real := 300.0
  /** Distance of the controller's center from the bottom edge. */
  const ControllerBottomGap: real := 60.0
  const ChooseLevelText: string := "CHOOSE NEXT LEVEL DIFFICULTY"
  /** `chosen_next_difficulty` before a level is chosen. */
  const NoDifficulty: int := -1

  /** What the initialisation fixes for the rest of the session: the display
      scale factor and the sprite contours, already rescaled by it. */
  datatype Config = Config(dpiFactor: real, controller: Contour, asteroid: Contour, bullet: Contour)

  /** The fields of the game logic that the simulation reads or writes. The
      typewriter's text and progress are those of its animation object. */
  datatype Game = Game(
    state: RoundState,
    width: real, height: real,
    difficulty: nat,
    bulletForbidden: bool,
    penalty: real, paintBlue: real,
    penaltyPointsTotal: int, score: int,
    accelLeft: real, accelRight: real, controllerDownspeed: real,
    controllerPos: Vector,
    asteroids: seq<Asteroid>, bullets: seq<Bullet>,
    gameOverProgress: real, fadeInProgress: real,
    chosenNextDifficulty: int,
    typewriterText: string, typewriterProgress: nat)

  /** Whether each of left, right and space is held down. */
  datatype Keys = Keys(left: bool, right: bool, space: bool)

  /** The three random draws of one asteroid spawn: horizontal position as a
      fraction of the width, vertical jitter in [0, 1), speed in [1, 1.5). */
  datatype SpawnDraw = SpawnDraw(shiftX: real, shiftY: real, speed: real)

  /** The inputs of one scene update. */
  datatype Frame = Frame(
    width: real, height: real,
    moveShift: real,
    asteroidTicks: nat, bulletTicks: nat, penaltyTicks: nat,
    keys: Keys, draw: SpawnDraw)

  /** The inputs of one paint: whether the text drawing succeeded, whether a
      timer initialised there succeeded, the whole intervals of the fade-out
      and typewriter timers, and whether presenting the frame succeeded. */
  datatype PaintInput = PaintInput(
    drawOk: bool, timerOk: bool, fadeOutTicks: nat, typewriterTicks: nat, presentOk: bool)

  function Max(a: real, b: real): (r: real)
    ensures r >= a && r >= b && (r == a || r == b)
  {
    if a < b then b else a
  }

  lemma ScaleBetween(s: real, lo: real, hi: real, k: real)
    requires lo <= s <= hi && k >= 0.0
    ensures lo * k <= s * k <= hi * k
    ensures s < hi && k > 0.0 ==> s * k < hi * k
  {
    assert s * k - lo * k == (s - lo) * k;
    assert hi * k - s * k == (hi - s) * k;
  }

  lemma RatioBelowOne(d: real, b: real)
    requires 0.0 <= d < b
    ensures 0.0 <= d / b < 1.0
  {
    var q := d / b;
    assert q * b == d;
    if q >= 1.0 {
      ScaleBetween(1.0, 1.0, q, b);
    }
  }

  // ---- the invariant of a round ----

  /** What holds of the state between updates: the difficulty and the chosen
      level are levels 1 to 6 (or none is chosen), the accelerators and
      progress values are nonnegative, the fade-in progress is zero outside
      FadeIn, the game-over progress is zero in FadeIn and GamePlay, the
      penalty is nonnegative, the blue intensity a fraction, and the
      typewriter has not passed the end of its text. */
  ghost predicate RoundInvariant(g: Game)
  {
    1 <= g.difficulty <= 6 &&
    (g.chosenNextDifficulty == NoDifficulty || 1 <= g.chosenNextDifficulty <= 6) &&
    g.accelLeft >= 0.0 && g.accelRight >= 0.0 &&
    g.gameOverProgress >= 0.0 && g.fadeInProgress >= 0.0 &&
    (g.state != FadeIn ==> g.fadeInProgress == 0.0) &&
    (g.state == FadeIn || g.state == GamePlay ==> g.gameOverProgress == 0.0) &&
    g.penalty >= 0.0 && 0.0 <= g.paintBlue <= 1.0 &&
    g.typewriterProgress <= |g.typewriterText|
  }

  /** `reset_controller_pos`: centered, 60 units above the bottom edge. */
  function ControllerStart(width: real, height: real): Vector
  {
    Vector(width / 2.0, height - ControllerBottomGap)
  }

  /** The state after construction and initialisation. The fields the
      program leaves uninitialised (penalty, blue intensity, penalty total,
      fade-in progress) start at zero here. */
  function InitialGame(width: real, height: real): (g: Game)
    ensures RoundInvariant(g) && g.state == GamePlay && g.asteroids == [] && g.bullets == []
  {
    Game(GamePlay, width, height, 1, false, 0.0, 0.0, 0, 0, 0.0, 0.0, 0.0,
         ControllerStart(width, height), [], [], 0.0, 0.0, NoDifficulty, "", 0)
  }

  /** `set_asteroid_frequency`: the spawn interval in milliseconds,
      `(7 - difficulty) * 100` in unsigned 32-bit arithmetic. */
  function AsteroidIntervalMs(difficulty: nat): (ms: int)
    ensures 1 <= difficulty <= 6 ==> ms == (7 - difficulty) * 100 && 100 <= ms <= 600
  {
    Pixels.U32((7 - difficulty) * 100)
  }

  /** A higher difficulty spawns asteroids more often. */
  lemma AsteroidIntervalDecreasing(d1: nat, d2: nat)
    requires 1 <= d1 < d2 <= 6
    ensures AsteroidIntervalMs(d2) < AsteroidIntervalMs(d1)
  {
  }

  // ---- controller motion ----

  /** The acceleration curve: the smaller the acceleration, the larger the
      step; no step at 15 or more. */
  function Accelerate(a: real): (r: real)
    ensures r >= a
    ensures r == a <==> a >= AccelerationCeiling
  {
    if a < 1.5 then a + 1.125
    else if a < 3.0 then a + 0.75
    else if a < 5.0 then a + 0.375
    else if a < AccelerationCeiling then a + 0.25
    else a
  }

  /** The linear decay toward zero. */
  function Decelerate(a: real, step: real): (r: real)
    requires step >= 0.0
    ensures r >= 0.0 && r >= a - step
    ensures a >= 0.0 ==> r <= a
  {
    Max(0.0, a - step)
  }

  /** The acceleration after n frames of acceleration. */
  function AccelerateTimes(a: real, n: nat): real
  {
    if n == 0 then a else Accelerate(AccelerateTimes(a, n - 1))
  }

  /** The acceleration after n frames of decay. */
  function DecelerateTimes(a: real, step: real, n: nat): real
    requires step >= 0.0
  {
    if n == 0 then a else Decelerate(DecelerateTimes(a, step, n - 1), step)
  }

  lemma {:induction false} AccelerateTimesMonotone(a: real, m: nat, n: nat)
    requires m <= n
    ensures AccelerateTimes(a, m) <= AccelerateTimes(a, n)
    decreases n
  {
    if m < n {
      AccelerateTimesMonotone(a, m, n - 1);
    }
  }

  lemma AccelerateFromRestNineSteps()
    ensures AccelerateTimes(0.0, 9) == 5.25
  {
    assert AccelerateTimes(0.0, 1) == 1.125;
    assert AccelerateTimes(0.0, 2) == 2.25;
    assert AccelerateTimes(0.0, 3) == 3.0;
    assert AccelerateTimes(0.0, 4) == 3.375;
    assert AccelerateTimes(0.0, 5) == 3.75;
    assert AccelerateTimes(0.0, 6) == 4.125;
    assert AccelerateTimes(0.0, 7) == 4.5;
    assert AccelerateTimes(0.0, 8) == 4.875;
  }

  /** After the first nine frames the acceleration grows by 0.25 a frame. */
  lemma {:induction false} AccelerateFromRestLinear(k: nat)
    requires k <= 39
    ensures AccelerateTimes(0.0, 9 + k) == 5.25 + 0.25 * k as real
  {
    if k == 0 {
      AccelerateFromRestNineSteps();
    } else {
      AccelerateFromRestLinear(k - 1);
    }
  }

  /** From rest, held acceleration reaches exactly 15 after 48 frames, never
      exceeds it, never decreases, and stays at 15 from then on. */
  lemma {:induction false} AccelerateFromRest(n: nat)
    ensures AccelerateTimes(0.0, n) <= AccelerateTimes(0.0, n + 1)
    ensures AccelerateTimes(0.0, n) <= AccelerationCeiling
    ensures n >= 48 ==> AccelerateTimes(0.0, n) == AccelerationCeiling
    decreases n
  {
    AccelerateTimesMonotone(0.0, n, n + 1);
    if n >= 48 {
      if n == 48 {
        AccelerateFromRestLinear(39);
      } else {
        AccelerateFromRest(n - 1);
      }
    } else if n >= 9 {
      AccelerateFromRestLinear(n - 9);
    } else {
      AccelerateFromRestNineSteps();
      AccelerateTimesMonotone(0.0, n, 9);
    }
  }

  /** n frames of decay take the acceleration to `max(0, a - n * step)`. */
  lemma {:induction false} DecelerateTimesValue(a: real, step: real, n: nat)
    requires a >= 0.0 && step >= 0.0
    ensures DecelerateTimes(a, step, n) == Max(0.0, a - n as real * step)
    decreases n
  {
    if n > 0 {
      DecelerateTimesValue(a, step, n - 1);
      var before := a - (n - 1) as real * step;
      assert a - n as real * step == before - step by {
        assert n as real * step == (n - 1) as real * step + step;
      }
      if before <= 0.0 {
        assert DecelerateTimes(a, step, n - 1) == 0.0;
      } else {
        assert DecelerateTimes(a, step, n - 1) == before;
      }
    }
  }

  /** Once `n * step` covers the acceleration, the decay has reached zero. */
  lemma DecelerateReachesZero(a: real, step: real, n: nat)
    requires a >= 0.0 && step >= 0.0 && n as real * step >= a
    ensures DecelerateTimes(a, step, n) == 0.0
  {
    DecelerateTimesValue(a, step, n);
  }

  /** `controller_move`: after the fatal collision the controller only falls;
      otherwise the held direction accelerates (unless the controller is at
      the bound on that side, a fifth of the width from the edge) and the
      other decays by 1, or with no usable direction both decay by 0.75;
      then the controller moves by the net acceleration. */
  function ControllerMove(g: Game, cfg: Config, shift: real, keys: Keys): Game
  {
    var pos := g.controllerPos;
    if g.state == GameOver then
      g.(controllerPos := Vector(pos.x, pos.y + shift * g.controllerDownspeed))
    else
      var boundLeft := g.width / 5.0;
      var boundRight := g.width - boundLeft;
      var (al, ar) :=
        if keys.left && pos.x > boundLeft then (Accelerate(g.accelLeft), Decelerate(g.accelRight, 1.0))
        else if keys.right && pos.x < boundRight then (Decelerate(g.accelLeft, 1.0), Accelerate(g.accelRight))
        else (Decelerate(g.accelLeft, 0.75), Decelerate(g.accelRight, 0.75));
      g.(accelLeft := al, accelRight := ar,
         controllerPos := Vector(pos.x + (ar - al) * shift * ControllerSpeedScale * cfg.dpiFactor, pos.y))
  }

  /** After the fatal collision only the controller's vertical position
      changes, by the elapsed motion times the fall speed. */
  lemma ControllerMoveGameOver(g: Game, cfg: Config, shift: real, keys: Keys)
    requires g.state == GameOver
    ensures var r := ControllerMove(g, cfg, shift, keys);
      r.(controllerPos := g.controllerPos) == g &&
      r.controllerPos.x == g.controllerPos.x &&
      r.controllerPos.y == g.controllerPos.y + shift * g.controllerDownspeed
  {
  }

  /** Holding left right of the left bound: left takes priority over right.
      The left acceleration follows the curve and does not decrease, the
      right one decays by 1 and does not increase, and the controller moves
      left exactly when the left acceleration wins. */
  lemma ControllerMoveHoldLeft(g: Game, cfg: Config, shift: real, keys: Keys)
    requires g.state != GameOver && keys.left && g.controllerPos.x > g.width / 5.0
    requires g.accelRight >= 0.0 && shift > 0.0 && cfg.dpiFactor > 0.0
    ensures var r := ControllerMove(g, cfg, shift, keys);
      r.accelLeft == Accelerate(g.accelLeft) && r.accelLeft >= g.accelLeft &&
      r.accelRight == Decelerate(g.accelRight, 1.0) && r.accelRight <= g.accelRight &&
      r.controllerPos.y == g.controllerPos.y &&
      r.(accelLeft := g.accelLeft, accelRight := g.accelRight, controllerPos := g.controllerPos) == g &&
      (r.controllerPos.x < g.controllerPos.x <==> r.accelLeft > r.accelRight)
  {
    var r := ControllerMove(g, cfg, shift, keys);
    var k := shift * ControllerSpeedScale * cfg.dpiFactor;
    assert k > 0.0;
    assert r.controllerPos.x == g.controllerPos.x + (r.accelRight - r.accelLeft) * k;
  }

  /** Holding right left of the right bound, unless left is held right of
      the left bound (which takes priority): the right acceleration follows
      the curve and does not decrease, the left one decays by 1 and does not
      increase, and the controller moves right exactly when the right
      acceleration wins. */
  lemma ControllerMoveHoldRight(g: Game, cfg: Config, shift: real, keys: Keys)
    requires g.state != GameOver && keys.right && !(keys.left && g.controllerPos.x > g.width / 5.0)
    requires g.controllerPos.x < g.width - g.width / 5.0
    requires g.accelLeft >= 0.0 && shift > 0.0 && cfg.dpiFactor > 0.0
    ensures var r := ControllerMove(g, cfg, shift, keys);
      r.accelRight == Accelerate(g.accelRight) && r.accelRight >= g.accelRight &&
      r.accelLeft == Decelerate(g.accelLeft, 1.0) && r.accelLeft <= g.accelLeft &&
      r.controllerPos.y == g.controllerPos.y &&
      r.(accelLeft := g.accelLeft, accelRight := g.accelRight, controllerPos := g.controllerPos) == g &&
      (r.controllerPos.x > g.controllerPos.x <==> r.accelRight > r.accelLeft)
  {
    var r := ControllerMove(g, cfg, shift, keys);
    var k := shift * ControllerSpeedScale * cfg.dpiFactor;
    assert k > 0.0;
    assert r.controllerPos.x == g.controllerPos.x + (r.accelRight - r.accelLeft) * k;
  }

  /** At a bound, or with no direction held, both accelerations decay by
      0.75 and nothing else but the horizontal position changes. */
  lemma ControllerMoveCoasting(g: Game, cfg: Config, shift: real, keys: Keys)
    requires g.state != GameOver
    requires !(keys.left && g.controllerPos.x > g.width / 5.0)
    requires !(keys.right && g.controllerPos.x < g.width - g.width / 5.0)
    ensures var r := ControllerMove(g, cfg, shift, keys);
      r.accelLeft == Decelerate(g.accelLeft, 0.75) && r.accelRight == Decelerate(g.accelRight, 0.75) &&
      r.controllerPos.y == g.controllerPos.y &&
      r.(accelLeft := g.accelLeft, accelRight := g.accelRight, controllerPos := g.controllerPos) == g
  {
  }

  // ---- motion of the entities ----

  /** `asteroids_move`: each asteroid falls by the elapsed motion times its speed. */
  function AsteroidsMove(s: seq<Asteroid>, shift: real): (r: seq<Asteroid>)
    ensures |r| == |s|
    ensures forall i :: 0 <= i < |s| ==>
      r[i].(pos := s[i].pos) == s[i] && r[i].pos.x == s[i].pos.x &&
      r[i].pos.y - s[i].pos.y == shift * s[i].speed
  {
    seq(|s|, i requires 0 <= i < |s| => s[i].(pos := Vector(s[i].pos.x, s[i].pos.y + shift * s[i].speed)))
  }

  /** `bullets_move`: each bullet rises by the elapsed motion times the
      bullet speed, scaled for the display. */
  function BulletsMove(s: seq<Bullet>, shift: real, dpiFactor: real): (r: seq<Bullet>)
    ensures |r| == |s|
    ensures forall i :: 0 <= i < |s| ==>
      r[i].(pos := s[i].pos) == s[i] && r[i].pos.x == s[i].pos.x &&
      r[i].pos.y - s[i].pos.y == -(shift * BulletSpeed * dpiFactor)
  {
    seq(|s|, i requires 0 <= i < |s| =>
      s[i].(pos := Vector(s[i].pos.x, s[i].pos.y - shift * BulletSpeed * dpiFactor)))
  }

  /** Motion is additive in the elapsed time: two frames move the asteroids
      as far as one frame of their combined duration. */
  lemma AsteroidsMoveAdditive(s: seq<Asteroid>, t1: real, t2: real)
    ensures AsteroidsMove(AsteroidsMove(s, t1), t2) == AsteroidsMove(s, t1 + t2)
  {
    var a, b := AsteroidsMove(AsteroidsMove(s, t1), t2), AsteroidsMove(s, t1 + t2);
    forall i | 0 <= i < |s| ensures a[i] == b[i]
    {
      assert s[i].pos.y + t1 * s[i].speed + t2 * s[i].speed == s[i].pos.y + (t1 + t2) * s[i].speed;
    }
  }

  /** The same for the bullets. */
  lemma BulletsMoveAdditive(s: seq<Bullet>, t1: real, t2: real, dpiFactor: real)
    ensures BulletsMove(BulletsMove(s, t1, dpiFactor), t2, dpiFactor) == BulletsMove(s, t1 + t2, dpiFactor)
  {
    var a, b := BulletsMove(BulletsMove(s, t1, dpiFactor), t2, dpiFactor), BulletsMove(s, t1 + t2, dpiFactor);
    forall i | 0 <= i < |s| ensures a[i] == b[i]
    {
      assert s[i].pos.y - t1 * BulletSpeed * dpiFactor - t2 * BulletSpeed * dpiFactor ==
             s[i].pos.y - (t1 + t2) * BulletSpeed * dpiFactor;
    }
  }

  /** `game_over_move`: the game-over progress grows in GameOver, the
      fade-in progress in FadeIn, each only while below 1. */
  function GameOverMove(g: Game, shift: real): Game
  {
    if g.state == GameOver && g.gameOverProgress < 1.0 then
      g.(gameOverProgress := g.gameOverProgress + shift / ProgressDuration)
    else if g.state == FadeIn && g.fadeInProgress < 1.0 then
      g.(fadeInProgress := g.fadeInProgress + shift / ProgressDuration)
    else g
  }

  /** `update_motion`: asteroids, controller, bullets, then progress. */
  function UpdateMotion(g: Game, cfg: Config, shift: real, keys: Keys): Game
  {
    var g1 := g.(asteroids := AsteroidsMove(g.asteroids, shift));
    var g2 := ControllerMove(g1, cfg, shift, keys);
    var g3 := g2.(bullets := BulletsMove(g2.bullets, shift, cfg.dpiFactor));
    GameOverMove(g3, shift)
  }

  // ---- spawning ----

  /** The asteroid that `new_asteroids` pushes for the given draws. */
  function SpawnedAsteroid(g: Game, cfg: Config, d: SpawnDraw): Asteroid
  {
    var radius := cfg.asteroid.halfOfSides.y;
    Asteroid(Vector(d.shiftX * g.width, -(d.shiftY * (SpawnBand - 2.0 * radius) + radius)),
             d.speed * cfg.dpiFactor, false, 1.0)
  }

  /** `new_asteroids`: when a spawn interval has elapsed (the elapsed
      intervals are consumed) and the round is in GamePlay or FadeIn, one
      asteroid is pushed to the front, however many intervals elapsed. */
  function NewAsteroids(g: Game, cfg: Config, ticks: nat, d: SpawnDraw): Game
  {
    if ticks != 0 && (g.state == GamePlay || g.state == FadeIn) then
      g.(asteroids := [SpawnedAsteroid(g, cfg, d)] + g.asteroids)
    else g
  }

  /** At most one asteroid appears, at the front, only in GamePlay or
      FadeIn; it is whole, intact, starts above the viewport within the
      spawn band, and its speed is the draw scaled for the display. */
  lemma NewAsteroidsSpawnsOne(g: Game, cfg: Config, ticks: nat, d: SpawnDraw)
    requires 0.0 <= d.shiftY < 1.0 && 0.0 <= cfg.asteroid.halfOfSides.y <= SpawnBand / 2.0
    requires 1.0 <= d.speed < 1.5 && cfg.dpiFactor > 0.0
    ensures var r := NewAsteroids(g, cfg, ticks, d);
      var spawned := ticks != 0 && (g.state == GamePlay || g.state == FadeIn);
      r.(asteroids := g.asteroids) == g &&
      (!spawned ==> r.asteroids == g.asteroids) &&
      (spawned ==>
         |r.asteroids| == |g.asteroids| + 1 && r.asteroids[1..] == g.asteroids &&
         !r.asteroids[0].destroyed && r.asteroids[0].size == 1.0 &&
         r.asteroids[0].pos.y + cfg.asteroid.halfOfSides.y <= 0.0 &&
         r.asteroids[0].pos.y >= -(SpawnBand - cfg.asteroid.halfOfSides.y) &&
         cfg.dpiFactor <= r.asteroids[0].speed < 1.5 * cfg.dpiFactor)
  {
    SpawnedAsteroidPlacement(g, cfg, d);
  }

  lemma SpawnedAsteroidPlacement(g: Game, cfg: Config, d: SpawnDraw)
    requires 0.0 <= d.shiftY < 1.0 && 0.0 <= cfg.asteroid.halfOfSides.y <= SpawnBand / 2.0
    requires 1.0 <= d.speed < 1.5 && cfg.dpiFactor > 0.0
    ensures var a := SpawnedAsteroid(g, cfg, d);
      !a.destroyed && a.size == 1.0 &&
      a.pos.y + cfg.asteroid.halfOfSides.y <= 0.0 &&
      a.pos.y >= -(SpawnBand - cfg.asteroid.halfOfSides.y) &&
      cfg.dpiFactor <= a.speed < 1.5 * cfg.dpiFactor
  {
    var radius := cfg.asteroid.halfOfSides.y;
    var band := SpawnBand - 2.0 * radius;
    ScaleBetween(d.shiftY, 0.0, 1.0, band);
    var drop := d.shiftY * band;
    assert 0.0 <= drop <= band;
    assert SpawnedAsteroid(g, cfg, d).pos.y == -(drop + radius);
    ScaleBetween(d.speed, 1.0, 1.5, cfg.dpiFactor);
  }

  /** Whether the cooldown still forbids firing once the cooldown timer's
      whole intervals are known. */
  function StillForbidden(g: Game, cooldownTicks: nat): bool
  {
    g.bulletForbidden && cooldownTicks == 0
  }

  /** Whether `new_bullets` fires: the cooldown is over, space is held, and
      the round is in GamePlay. */
  predicate Fires(g: Game, cooldownTicks: nat, space: bool)
  {
    !StillForbidden(g, cooldownTicks) && space && g.state == GamePlay
  }

  /** The bullet fired from the controller's nose. */
  function FiredBullet(g: Game, cfg: Config): Bullet
  {
    Bullet(Vector(g.controllerPos.x, g.controllerPos.y - cfg.controller.halfOfSides.y), false, 1.0)
  }

  /** `new_bullets`: end the cooldown if an interval elapsed; when firing,
      forbid the next shot and push one bullet to the front. Firing also
      restarts the cooldown timer at this moment. */
  function NewBullets(g: Game, cfg: Config, cooldownTicks: nat, space: bool): Game
  {
    if Fires(g, cooldownTicks, space) then
      g.(bulletForbidden := true, bullets := [FiredBullet(g, cfg)] + g.bullets)
    else
      g.(bulletForbidden := StillForbidden(g, cooldownTicks))
  }

  /** At most one bullet appears, at the front, exactly when the round is in
      GamePlay, space is held and the cooldown is over; it starts at the
      controller's nose, intact and whole, and firing forbids the next shot. */
  lemma NewBulletsFiresOne(g: Game, cfg: Config, cooldownTicks: nat, space: bool)
    ensures var r := NewBullets(g, cfg, cooldownTicks, space);
      r.(bullets := g.bullets, bulletForbidden := g.bulletForbidden) == g &&
      (|r.bullets| == |g.bullets| + 1 <==> g.state == GamePlay && space && !(g.bulletForbidden && cooldownTicks == 0)) &&
      (|r.bullets| != |g.bullets| + 1 ==> r.bullets == g.bullets) &&
      (|r.bullets| == |g.bullets| + 1 ==>
        r.bulletForbidden && r.bullets[1..] == g.bullets &&
        r.bullets[0].pos == Vector(g.controllerPos.x, g.controllerPos.y - cfg.controller.halfOfSides.y) &&
        !r.bullets[0].destroyed && r.bullets[0].size == 1.0) &&
      (!g.bulletForbidden ==> r.bulletForbidden == (|r.bullets| == |g.bullets| + 1))
  {
  }

  // ---- the penalty zones ----

  /** `compute_penalty`: the penalty is how far the controller is beyond a
      third of the width from the nearer edge, relative to that third; the
      blue intensity how close it is to the center, relative to a fifth of
      the width. On a penalty tick the total restarts at zero when there is no
      penalty, and in GamePlay `floor(5 * penalty)` points move from the score
      to the total. */
  function ComputePenalty(g: Game, penaltyTicks: nat): Game
    requires g.width > 0.0
  {
    var penalty := PenaltyOf(g.width, g.controllerPos.x);
    var g1 := g.(penalty := penalty, paintBlue := PaintBlueOf(g.width, g.controllerPos.x));
    if penaltyTicks == 0 then g1
    else if penalty == 0.0 then g1.(penaltyPointsTotal := 0)
    else if g.state == GamePlay then
      var unit := (penalty * 5.0).Floor;
      g1.(penaltyPointsTotal := g.penaltyPointsTotal + unit, score := g.score - unit)
    else g1
  }

  /** How far the controller at `x` is beyond a third of the width from
      either edge, relative to that third. */
  function PenaltyOf(width: real, x: real): real
    requires width > 0.0
  {
    var penaltyBound := width / 3.0;
    var excess := Max(penaltyBound - x, x + penaltyBound - width);
    if excess > 0.0 then excess / penaltyBound else 0.0
  }

  /** How close the controller at `x` is to the center, relative to a
      fifth of the width. */
  function PaintBlueOf(width: real, x: real): real
    requires width > 0.0
  {
    var paintBlueBound := width / 5.0;
    var distance := Abs(x - width / 2.0);
    if distance < paintBlueBound then 1.0 - distance / paintBlueBound else 0.0
  }

  /** The penalty is nonnegative and zero exactly in the middle third; the
      blue intensity is a fraction, positive exactly within a fifth of the
      width from the center. */
  lemma PenaltyZones(g: Game, penaltyTicks: nat)
    requires g.width > 0.0
    ensures var r := ComputePenalty(g, penaltyTicks);
      var x, w := g.controllerPos.x, g.width;
      r.penalty >= 0.0 &&
      (r.penalty == 0.0 <==> w / 3.0 <= x <= w - w / 3.0) &&
      0.0 <= r.paintBlue <= 1.0 &&
      (r.paintBlue > 0.0 <==> Abs(x - w / 2.0) < w / 5.0)
  {
    var x, w := g.controllerPos.x, g.width;
    var b := w / 5.0;
    var d := Abs(x - w / 2.0);
    if d < b {
      RatioBelowOne(d, b);
    }
  }

  /** On a penalty tick in GamePlay with a penalty, the points leave the
      score and join the total: their sum is kept and the score does not
      rise. With no penalty the total restarts at zero and the score is
      kept; between ticks neither changes. */
  lemma PenaltyPointsMove(g: Game, penaltyTicks: nat)
    requires g.width > 0.0
    ensures var r := ComputePenalty(g, penaltyTicks);
      r.(penalty := g.penalty, paintBlue := g.paintBlue,
         penaltyPointsTotal := g.penaltyPointsTotal, score := g.score) == g &&
      r.score + r.penaltyPointsTotal ==
        (if penaltyTicks != 0 && r.penalty == 0.0 then g.score else g.score + g.penaltyPointsTotal) &&
      r.score <= g.score &&
      (penaltyTicks == 0 ==> r.score == g.score && r.penaltyPointsTotal == g.penaltyPointsTotal) &&
      (penaltyTicks != 0 && r.penalty == 0.0 ==> r.penaltyPointsTotal == 0 && r.score == g.score) &&
      (g.state != GamePlay ==> r.score == g.score)
  {
    var r := ComputePenalty(g, penaltyTicks);
    if penaltyTicks != 0 && r.penalty != 0.0 && g.state == GamePlay {
      assert r.penalty > 0.0 by { PenaltyZones(g, penaltyTicks); }
      assert (r.penalty * 5.0).Floor >= 0;
    }
  }

  // ---- collisions ----

  /** An asteroid kills the controller when it is intact, has reached the
      lower half of the viewport and its contour meets the controller's. */
  predicate Fatal(cfg: Config, controllerPos: Vector, height: real, a: Asteroid)
  {
    !a.destroyed && a.pos.y >= height / 2.0 &&
    Intersects(cfg.asteroid, cfg.controller, a.pos, controllerPos)
  }

  function FatalTest(cfg: Config, controllerPos: Vector, height: real): Asteroid -> bool
  {
    a => Fatal(cfg, controllerPos, height, a)
  }

  /** The first fatal asteroid in deque order, front first. */
  function FirstFatal(g: Game, cfg: Config): Option<nat>
  {
    FirstIndex(g.asteroids, FatalTest(cfg, g.controllerPos, g.height))
  }

  /** `is_there_collision`: whether some asteroid is fatal; the fall speed
      becomes three times the first fatal asteroid's speed. */
  function CheckCollision(g: Game, cfg: Config): (Game, bool)
  {
    match FirstFatal(g, cfg)
    case None => (g, false)
    case Some(i) => (g.(controllerDownspeed := 3.0 * g.asteroids[i].speed), true)
  }

  /** There is a collision exactly when some asteroid is fatal; then the
      fall speed is three times the speed of the first fatal one, otherwise
      nothing changes. */
  lemma CollisionIsFirstFatal(g: Game, cfg: Config)
    ensures var (r, hit) := CheckCollision(g, cfg);
      (hit <==> exists i :: 0 <= i < |g.asteroids| && Fatal(cfg, g.controllerPos, g.height, g.asteroids[i])) &&
      (!hit ==> r == g) &&
      (hit ==>
         r.(controllerDownspeed := g.controllerDownspeed) == g &&
         exists i :: 0 <= i < |g.asteroids| && Fatal(cfg, g.controllerPos, g.height, g.asteroids[i]) &&
           (forall k :: 0 <= k < i ==> !Fatal(cfg, g.controllerPos, g.height, g.asteroids[k])) &&
           r.controllerDownspeed == 3.0 * g.asteroids[i].speed)
  {
    match FirstFatal(g, cfg)
    case None =>
    case Some(i) =>
      assert Fatal(cfg, g.controllerPos, g.height, g.asteroids[i]);
  }

  /** A bullet that `destroy_asteroids` may pair with asteroid `a`: intact,
      inside the viewport, and its contour meets the asteroid's. */
  predicate Hits(cfg: Config, a: Asteroid, b: Bullet)
  {
    !b.destroyed && BulletCanDestroy(b) && Intersects(cfg.asteroid, cfg.bullet, a.pos, b.pos)
  }

  function HitTest(cfg: Config, a: Asteroid): Bullet -> bool
  {
    b => Hits(cfg, a, b)
  }

  function ShrinkSize(size: real): real
  {
    if size > 0.0 then size - ShrinkStep else size
  }

  /** A destroyed entity shrinks by 0.05 a frame while its size is positive. */
  function ShrinkAsteroid(a: Asteroid): Asteroid
  {
    if a.destroyed then a.(size := ShrinkSize(a.size)) else a
  }

  function ShrinkBullet(b: Bullet): Bullet
  {
    if b.destroyed then b.(size := ShrinkSize(b.size)) else b
  }

  /** Only the size of a destroyed asteroid changes: it drops by 0.05 while
      positive and otherwise stays. */
  function ShrinkAsteroids(s: seq<Asteroid>): (r: seq<Asteroid>)
    ensures |r| == |s|
    ensures forall i :: 0 <= i < |s| ==> r[i].(size := s[i].size) == s[i]
    ensures forall i :: 0 <= i < |s| && !s[i].destroyed ==> r[i] == s[i]
    ensures forall i :: 0 <= i < |s| && s[i].destroyed && s[i].size > 0.0 ==> r[i].size == s[i].size - ShrinkStep
    ensures forall i :: 0 <= i < |s| && s[i].size <= 0.0 ==> r[i].size == s[i].size
  {
    seq(|s|, i requires 0 <= i < |s| => ShrinkAsteroid(s[i]))
  }

  /** The same for the bullets. */
  function ShrinkBullets(s: seq<Bullet>): (r: seq<Bullet>)
    ensures |r| == |s|
    ensures forall i :: 0 <= i < |s| ==> r[i].(size := s[i].size) == s[i]
    ensures forall i :: 0 <= i < |s| && !s[i].destroyed ==> r[i] == s[i]
    ensures forall i :: 0 <= i < |s| && s[i].destroyed && s[i].size > 0.0 ==> r[i].size == s[i].size - ShrinkStep
    ensures forall i :: 0 <= i < |s| && s[i].size <= 0.0 ==> r[i].size == s[i].size
  {
    seq(|s|, i requires 0 <= i < |s| => ShrinkBullet(s[i]))
  }

  function AsteroidDestroyed(a: Asteroid): bool
  {
    a.destroyed
  }

  function BulletDestroyed(b: Bullet): bool
  {
    b.destroyed
  }

  /** The entities and the points won so far by the hit search. */
  datatype Skirmish = Skirmish(asteroids: seq<Asteroid>, bullets: seq<Bullet>, points: int)

  /** The hit search for asteroid i: an intact asteroid is destroyed together
      with the first bullet that hits it, for 5 points. */
  function HitStep(cfg: Config, f: Skirmish, i: nat): (r: Skirmish)
    requires i < |f.asteroids|
    ensures |r.asteroids| == |f.asteroids| && |r.bullets| == |f.bullets|
  {
    var a := f.asteroids[i];
    if a.destroyed then f
    else match FirstIndex(f.bullets, HitTest(cfg, a))
      case None => f
      case Some(j) =>
        Skirmish(f.asteroids[i := a.(destroyed := true)],
                 f.bullets[j := f.bullets[j].(destroyed := true)],
                 f.points + DestroyBonus)
  }

  /** The hit search over the first n asteroids, front first. */
  function HitsUpTo(cfg: Config, rocks: seq<Asteroid>, shots: seq<Bullet>, n: nat): (r: Skirmish)
    requires n <= |rocks|
    ensures |r.asteroids| == |rocks| && |r.bullets| == |shots|
    decreases n
  {
    if n == 0 then Skirmish(rocks, shots, 0) else HitStep(cfg, HitsUpTo(cfg, rocks, shots, n - 1), n - 1)
  }

  /** One step of the hit search either changes nothing, or destroys the
      intact asteroid i together with a bullet that hits it, for 5 points. */
  lemma HitStepEffect(cfg: Config, f: Skirmish, i: nat)
    requires i < |f.asteroids|
    ensures var r := HitStep(cfg, f, i);
      r == f ||
      (!f.asteroids[i].destroyed &&
       exists j :: 0 <= j < |f.bullets| && Hits(cfg, f.asteroids[i], f.bullets[j]) &&
         r == Skirmish(f.asteroids[i := f.asteroids[i].(destroyed := true)],
                       f.bullets[j := f.bullets[j].(destroyed := true)],
                       f.points + DestroyBonus))
  {
    var a := f.asteroids[i];
    if !a.destroyed {
      match FirstIndex(f.bullets, HitTest(cfg, a))
      case None =>
      case Some(j) =>
        assert Hits(cfg, a, f.bullets[j]);
    }
  }

  /** `after` is `before` with some intact asteroids among the first n
      marked destroyed. */
  ghost predicate AsteroidsMarked(before: seq<Asteroid>, after: seq<Asteroid>, n: nat)
  {
    |after| == |before| &&
    forall i :: 0 <= i < |before| ==>
      after[i] == before[i] || (i < n && !before[i].destroyed && after[i] == before[i].(destroyed := true))
  }

  /** `after` is `before` with some intact bullets that could destroy marked
      destroyed. */
  ghost predicate BulletsMarked(before: seq<Bullet>, after: seq<Bullet>)
  {
    |after| == |before| &&
    forall j :: 0 <= j < |before| ==>
      after[j] == before[j] ||
      (!before[j].destroyed && BulletCanDestroy(before[j]) && after[j] == before[j].(destroyed := true))
  }

  /** 5 points per newly destroyed asteroid, and as many newly destroyed
      bullets as asteroids. */
  ghost predicate Balanced(rocks: seq<Asteroid>, shots: seq<Bullet>, r: Skirmish)
  {
    r.points == DestroyBonus * (Count(r.asteroids, AsteroidDestroyed) - Count(rocks, AsteroidDestroyed)) &&
    Count(r.asteroids, AsteroidDestroyed) - Count(rocks, AsteroidDestroyed) ==
      Count(r.bullets, BulletDestroyed) - Count(shots, BulletDestroyed)
  }

  /** Asteroid i was intact in `before` and is destroyed in `after`. */
  ghost predicate NewlyDestroyed(before: seq<Asteroid>, after: seq<Asteroid>, i: nat)
    requires i < |before| && |after| == |before|
  {
    after[i].destroyed && !before[i].destroyed
  }

  /** Bullet j can be the partner of asteroid i: intact in `shots`, destroyed
      in `after`, able to destroy, and its contour meets the asteroid's. */
  ghost predicate Partner(cfg: Config, rocks: seq<Asteroid>, shots: seq<Bullet>, after: seq<Bullet>, i: nat, j: int)
    requires i < |rocks| && |after| == |shots|
  {
    0 <= j < |shots| && after[j].destroyed && !shots[j].destroyed && BulletCanDestroy(shots[j]) &&
    Intersects(cfg.asteroid, cfg.bullet, rocks[i].pos, shots[j].pos)
  }

  /** Each newly destroyed asteroid i has the partner bullet p[i], and no two
      newly destroyed asteroids share a partner. */
  ghost predicate Paired(cfg: Config, rocks: seq<Asteroid>, shots: seq<Bullet>, r: Skirmish, p: seq<int>)
    requires |r.asteroids| == |rocks| && |r.bullets| == |shots|
  {
    |p| == |rocks| &&
    (forall i :: 0 <= i < |rocks| && NewlyDestroyed(rocks, r.asteroids, i) ==>
      Partner(cfg, rocks, shots, r.bullets, i, p[i])) &&
    (forall i, k ::
      0 <= i < k < |rocks| && NewlyDestroyed(rocks, r.asteroids, i) && NewlyDestroyed(rocks, r.asteroids, k) ==>
        p[i] != p[k])
  }

  /** The partner the hit search records at step i: the bullet it destroys
      together with asteroid i, if any. */
  ghost function PartnerStep(cfg: Config, f: Skirmish, p: seq<int>, i: nat): (q: seq<int>)
    requires i < |f.asteroids| && i < |p|
    ensures |q| == |p|
  {
    var a := f.asteroids[i];
    if a.destroyed then p
    else match FirstIndex(f.bullets, HitTest(cfg, a))
      case None => p
      case Some(j) => p[i := j]
  }

  /** The partners recorded by the hit search over the first n asteroids;
      -1 where none was recorded. */
  ghost function Partners(cfg: Config, rocks: seq<Asteroid>, shots: seq<Bullet>, n: nat): (p: seq<int>)
    requires n <= |rocks|
    ensures |p| == |rocks|
    decreases n
  {
    if n == 0 then seq(|rocks|, k => -1)
    else PartnerStep(cfg, HitsUpTo(cfg, rocks, shots, n - 1), Partners(cfg, rocks, shots, n - 1), n - 1)
  }

  /** A hit at step i keeps the marking, balance and pairing facts; the
      bullet taken is intact, so it differs from every earlier partner. */
  lemma HitKeepsAccounting(cfg: Config, rocks: seq<Asteroid>, shots: seq<Bullet>, f: Skirmish, p: seq<int>, i: nat, j: nat)
    requires i < |rocks| && j < |shots|
    requires AsteroidsMarked(rocks, f.asteroids, i) && BulletsMarked(shots, f.bullets)
    requires Balanced(rocks, shots, f) && Paired(cfg, rocks, shots, f, p)
    requires !f.asteroids[i].destroyed && Hits(cfg, f.asteroids[i], f.bullets[j])
    ensures var r := Skirmish(f.asteroids[i := f.asteroids[i].(destroyed := true)],
                              f.bullets[j := f.bullets[j].(destroyed := true)],
                              f.points + DestroyBonus);
      AsteroidsMarked(rocks, r.asteroids, i + 1) && BulletsMarked(shots, r.bullets) &&
      Balanced(rocks, shots, r) && Paired(cfg, rocks, shots, r, p[i := j])
  {
    var a := f.asteroids[i];
    assert a == rocks[i];
    assert f.bullets[j] == shots[j];
    var r := Skirmish(f.asteroids[i := a.(destroyed := true)],
                      f.bullets[j := f.bullets[j].(destroyed := true)],
                      f.points + DestroyBonus);
    var q := p[i := j];
    CountUpdate(f.asteroids, AsteroidDestroyed, i, a.(destroyed := true));
    CountUpdate(f.bullets, BulletDestroyed, j, f.bullets[j].(destroyed := true));
    forall k | 0 <= k < |rocks| && NewlyDestroyed(rocks, r.asteroids, k)
      ensures Partner(cfg, rocks, shots, r.bullets, k, q[k])
    {
      if k != i {
        assert NewlyDestroyed(rocks, f.asteroids, k);
      }
    }
    assert forall t :: i < t < |rocks| ==> !NewlyDestroyed(rocks, r.asteroids, t);
    forall k, m | 0 <= k < m < |rocks| && NewlyDestroyed(rocks, r.asteroids, k) && NewlyDestroyed(rocks, r.asteroids, m)
      ensures q[k] != q[m]
    {
      assert NewlyDestroyed(rocks, f.asteroids, k);
      if m == i {
        assert f.bullets[p[k]].destroyed;
      } else {
        assert NewlyDestroyed(rocks, f.asteroids, m);
      }
    }
  }

  /** The hit search only marks entities destroyed: an asteroid at or beyond
      index n is untouched; every other asteroid and every bullet is either
      untouched or was intact and is now destroyed, and a bullet so marked
      could destroy. The points are 5 per newly destroyed asteroid, there are
      as many newly destroyed bullets as asteroids, and each newly destroyed
      asteroid has its own partner bullet that it meets. */
  lemma {:induction false} HitsUpToAccounting(cfg: Config, rocks: seq<Asteroid>, shots: seq<Bullet>, n: nat)
    requires n <= |rocks|
    ensures var r := HitsUpTo(cfg, rocks, shots, n);
      AsteroidsMarked(rocks, r.asteroids, n) && BulletsMarked(shots, r.bullets) &&
      Balanced(rocks, shots, r) && Paired(cfg, rocks, shots, r, Partners(cfg, rocks, shots, n))
    decreases n
  {
    if n > 0 {
      HitsUpToAccounting(cfg, rocks, shots, n - 1);
      var f := HitsUpTo(cfg, rocks, shots, n - 1);
      var p := Partners(cfg, rocks, shots, n - 1);
      HitStepKeepsAccounting(cfg, rocks, shots, f, p, n - 1);
      assert HitsUpTo(cfg, rocks, shots, n) == HitStep(cfg, f, n - 1);
      assert Partners(cfg, rocks, shots, n) == PartnerStep(cfg, f, p, n - 1);
    }
  }

  lemma HitStepKeepsAccounting(cfg: Config, rocks: seq<Asteroid>, shots: seq<Bullet>, f: Skirmish, p: seq<int>, i: nat)
    requires i < |rocks|
    requires AsteroidsMarked(rocks, f.asteroids, i) && BulletsMarked(shots, f.bullets)
    requires Balanced(rocks, shots, f) && Paired(cfg, rocks, shots, f, p)
    ensures var r := HitStep(cfg, f, i);
      AsteroidsMarked(rocks, r.asteroids, i + 1) && BulletsMarked(shots, r.bullets) &&
      Balanced(rocks, shots, r) && Paired(cfg, rocks, shots, r, PartnerStep(cfg, f, p, i))
  {
    var a := f.asteroids[i];
    if !a.destroyed {
      match FirstIndex(f.bullets, HitTest(cfg, a))
      case None =>
        assert AsteroidsMarked(rocks, f.asteroids, i + 1);
      case Some(j) =>
        assert Hits(cfg, a, f.bullets[j]);
        HitKeepsAccounting(cfg, rocks, shots, f, p, i, j);
    } else {
      assert AsteroidsMarked(rocks, f.asteroids, i + 1);
    }
  }

  /** `destroy_asteroids`: destroyed entities shrink, then every intact
      asteroid is paired with the first bullet that hits it, and the score
      rises by the points. */
  function DestroyAsteroids(g: Game, cfg: Config): Game
  {
    var f := HitsUpTo(cfg, ShrinkAsteroids(g.asteroids), ShrinkBullets(g.bullets), |g.asteroids|);
    g.(asteroids := f.asteroids, bullets := f.bullets, score := g.score + f.points)
  }

  /** What one `destroy_asteroids` does to each entity: no entity appears,
      disappears or moves; an entity destroyed before shrinks (by 0.05 while
      its size is positive); an intact one keeps its size and may become
      destroyed, a bullet only if it could destroy. Nothing but the deques
      and the score changes. */
  lemma DestroyAsteroidsEntities(g: Game, cfg: Config)
    ensures var r := DestroyAsteroids(g, cfg);
      var rocks, shots := g.asteroids, g.bullets;
      r.(asteroids := rocks, bullets := shots, score := g.score) == g &&
      |r.asteroids| == |rocks| && |r.bullets| == |shots| &&
      (forall i :: 0 <= i < |rocks| ==>
        r.asteroids[i].pos == rocks[i].pos && r.asteroids[i].speed == rocks[i].speed &&
        (rocks[i].destroyed ==> r.asteroids[i] == rocks[i].(size := ShrinkSize(rocks[i].size))) &&
        (!rocks[i].destroyed ==> r.asteroids[i].size == rocks[i].size)) &&
      (forall j :: 0 <= j < |shots| ==>
        r.bullets[j].pos == shots[j].pos &&
        (shots[j].destroyed ==> r.bullets[j] == shots[j].(size := ShrinkSize(shots[j].size))) &&
        (!shots[j].destroyed ==> r.bullets[j].size == shots[j].size) &&
        (!shots[j].destroyed && r.bullets[j].destroyed ==> BulletCanDestroy(shots[j])))
  {
    var sa, sb := ShrinkAsteroids(g.asteroids), ShrinkBullets(g.bullets);
    HitsUpToAccounting(cfg, sa, sb, |sa|);
  }

  /** The partner bullet `destroy_asteroids` destroys together with each
      asteroid it destroys. */
  ghost function DestroyPartners(g: Game, cfg: Config): seq<int>
  {
    Partners(cfg, ShrinkAsteroids(g.asteroids), ShrinkBullets(g.bullets), |g.asteroids|)
  }

  /** What one `destroy_asteroids` does to the score: it rises by 5 per newly
      destroyed asteroid; as many bullets as asteroids are newly destroyed;
      and each newly destroyed asteroid has its own partner bullet, newly
      destroyed, able to destroy and meeting it: a bullet destroys at most
      one asteroid. */
  lemma DestroyAsteroidsScore(g: Game, cfg: Config)
    ensures var r := DestroyAsteroids(g, cfg);
      var rocks, shots := g.asteroids, g.bullets;
      var newAsteroids := Count(r.asteroids, AsteroidDestroyed) - Count(rocks, AsteroidDestroyed);
      var p := DestroyPartners(g, cfg);
      |r.asteroids| == |rocks| && |r.bullets| == |shots| &&
      newAsteroids >= 0 &&
      r.score == g.score + DestroyBonus * newAsteroids &&
      newAsteroids == Count(r.bullets, BulletDestroyed) - Count(shots, BulletDestroyed) &&
      |p| == |rocks| &&
      (forall i :: 0 <= i < |rocks| && NewlyDestroyed(rocks, r.asteroids, i) ==>
        Partner(cfg, rocks, shots, r.bullets, i, p[i])) &&
      (forall i, k ::
        0 <= i < k < |rocks| && NewlyDestroyed(rocks, r.asteroids, i) && NewlyDestroyed(rocks, r.asteroids, k) ==>
          p[i] != p[k])
  {
    var sa, sb := ShrinkAsteroids(g.asteroids), ShrinkBullets(g.bullets);
    HitsUpToAccounting(cfg, sa, sb, |sa|);
    forall i | 0 <= i < |sa|
      ensures sa[i].destroyed == g.asteroids[i].destroyed && sa[i].pos == g.asteroids[i].pos
    {
    }
    forall j | 0 <= j < |sb|
      ensures sb[j].destroyed == g.bullets[j].destroyed && sb[j].pos == g.bullets[j].pos
    {
    }
    CountPointwise(sa, g.asteroids, AsteroidDestroyed);
    CountPointwise(sb, g.bullets, BulletDestroyed);
    var f := HitsUpTo(cfg, sa, sb, |sa|);
    forall i | 0 <= i < |sa| ensures AsteroidDestroyed(sa[i]) ==> AsteroidDestroyed(f.asteroids[i])
    {
    }
    CountMonotone(sa, f.asteroids);
  }

  /** Marking more asteroids destroyed never lowers the count. */
  lemma {:induction false} CountMonotone(s: seq<Asteroid>, t: seq<Asteroid>)
    requires |s| == |t|
    requires forall i :: 0 <= i < |s| ==> AsteroidDestroyed(s[i]) ==> AsteroidDestroyed(t[i])
    ensures Count(s, AsteroidDestroyed) <= Count(t, AsteroidDestroyed)
    decreases |s|
  {
    if |s| > 0 {
      CountMonotone(s[..|s| - 1], t[..|t| - 1]);
    }
  }

  /** The size of a destroyed entity after n shrinking frames. */
  function ShrinkTimes(size: real, n: nat): real
  {
    if n == 0 then size else ShrinkSize(ShrinkTimes(size, n - 1))
  }

  lemma {:induction false} ShrinkTimesFromWhole(n: nat)
    requires n <= 20
    ensures ShrinkTimes(1.0, n) == 1.0 - ShrinkStep * n as real
  {
    if n > 0 {
      ShrinkTimesFromWhole(n - 1);
    }
  }

  /** A whole entity destroyed in some frame falls below the collectable
      size 0.1 after exactly 19 more shrinking frames, and stays below. */
  lemma {:induction false} ShrinkToDespawn(n: nat)
    ensures ShrinkTimes(1.0, n) < MinSize <==> n >= 19
    decreases n
  {
    if n <= 20 {
      ShrinkTimesFromWhole(n);
    } else {
      ShrinkToDespawn(n - 1);
      ShrinkTimesFromWhole(20);
      ShrinkStaysAtZero(n);
    }
  }

  lemma {:induction false} ShrinkStaysAtZero(n: nat)
    requires n >= 20
    ensures ShrinkTimes(1.0, n) == 0.0
    decreases n
  {
    if n == 20 {
      ShrinkTimesFromWhole(20);
    } else {
      ShrinkStaysAtZero(n - 1);
    }
  }

  // ---- garbage collection ----

  /** An asteroid stays while visible and not shrunk below 0.1. */
  predicate KeepAsteroid(cfg: Config, height: real, a: Asteroid)
  {
    AsteroidVisible(a, height, cfg.asteroid.halfOfSides.y) && !(a.size < MinSize)
  }

  predicate KeepBullet(cfg: Config, b: Bullet)
  {
    BulletVisible(b, cfg.bullet.halfOfSides.y) && !(b.size < MinSize)
  }

  function AsteroidKeeper(cfg: Config, height: real): Asteroid -> bool
  {
    a => KeepAsteroid(cfg, height, a)
  }

  function BulletKeeper(cfg: Config): Bullet -> bool
  {
    b => KeepBullet(cfg, b)
  }

  /** `collect_garbage`: each deque is popped from the back until its back
      element is one to keep. */
  function CollectGarbage(g: Game, cfg: Config): Game
  {
    g.(asteroids := TrimBack(g.asteroids, AsteroidKeeper(cfg, g.height)),
       bullets := TrimBack(g.bullets, BulletKeeper(cfg)))
  }

  /** Collection leaves a prefix of each deque, in order, whose back element
      is kept; everything removed is invisible or shrunk below 0.1; and
      nothing but the deques changes. */
  lemma CollectGarbageKeepsPrefix(g: Game, cfg: Config)
    ensures var r := CollectGarbage(g, cfg);
      r.(asteroids := g.asteroids, bullets := g.bullets) == g &&
      |r.asteroids| <= |g.asteroids| && r.asteroids == g.asteroids[..|r.asteroids|] &&
      |r.bullets| <= |g.bullets| && r.bullets == g.bullets[..|r.bullets|] &&
      (|r.asteroids| > 0 ==> KeepAsteroid(cfg, g.height, r.asteroids[|r.asteroids| - 1])) &&
      (|r.bullets| > 0 ==> KeepBullet(cfg, r.bullets[|r.bullets| - 1])) &&
      (forall k :: |r.asteroids| <= k < |g.asteroids| ==>
        !AsteroidVisible(g.asteroids[k], g.height, cfg.asteroid.halfOfSides.y) || g.asteroids[k].size < MinSize) &&
      (forall k :: |r.bullets| <= k < |g.bullets| ==>
        !BulletVisible(g.bullets[k], cfg.bullet.halfOfSides.y) || g.bullets[k].size < MinSize)
  {
    var r := CollectGarbage(g, cfg);
    forall k | |r.asteroids| <= k < |g.asteroids|
      ensures !KeepAsteroid(cfg, g.height, g.asteroids[k])
    {
    }
    forall k | |r.bullets| <= k < |g.bullets|
      ensures !KeepBullet(cfg, g.bullets[k])
    {
    }
  }

  /** An asteroid whose center is below the viewport by more than its half
      height is collected when it is at the back; one still inside the
      viewport, whole, stays. */
  lemma CollectGarbageAtBack(g: Game, cfg: Config)
    requires |g.asteroids| > 0
    ensures var last := g.asteroids[|g.asteroids| - 1];
      (last.pos.y > g.height + cfg.asteroid.halfOfSides.y ==>
        |CollectGarbage(g, cfg).asteroids| < |g.asteroids|) &&
      (last.pos.y <= g.height && cfg.asteroid.halfOfSides.y >= 0.0 && last.size >= MinSize ==>
        CollectGarbage(g, cfg).asteroids == g.asteroids)
  {
  }

  // ---- one scene update ----

  /** The fatal-collision step: in GamePlay a collision ends the round. */
  function FatalCollision(g: Game, cfg: Config): Game
  {
    if g.state == GamePlay then
      var (g1, hit) := CheckCollision(g, cfg);
      if hit then g1.(state := GameOver) else g1
    else g
  }

  /** `update_scene`: take the viewport size, move, spawn asteroids and
      bullets, compute the penalty, check the fatal collision, destroy
      asteroids, and collect garbage. */
  function UpdateScene(g: Game, cfg: Config, f: Frame): Game
    requires f.width > 0.0
  {
    ResolveScene(AdvanceScene(g, cfg, f), cfg, f.penaltyTicks)
  }

  /** The first half of `update_scene`: take the viewport size, move, and
      spawn asteroids and bullets. */
  function AdvanceScene(g: Game, cfg: Config, f: Frame): Game
  {
    var g0 := g.(width := f.width, height := f.height);
    var g1 := UpdateMotion(g0, cfg, f.moveShift, f.keys);
    var g2 := NewAsteroids(g1, cfg, f.asteroidTicks, f.draw);
    NewBullets(g2, cfg, f.bulletTicks, f.keys.space)
  }

  /** The second half of `update_scene`: compute the penalty, check the
      fatal collision, destroy asteroids, and collect garbage. */
  function ResolveScene(g: Game, cfg: Config, penaltyTicks: nat): Game
    requires g.width > 0.0
  {
    var g4 := ComputePenalty(g, penaltyTicks);
    var g5 := FatalCollision(g4, cfg);
    var g6 := DestroyAsteroids(g5, cfg);
    CollectGarbage(g6, cfg)
  }

  /** A scene update keeps the round invariant, changes the state only from
      GamePlay to GameOver, and leaves the difficulty, the chosen level and
      the typewriter alone. */
  lemma UpdateSceneKeepsInvariant(g: Game, cfg: Config, f: Frame)
    requires RoundInvariant(g) && f.width > 0.0 && f.moveShift >= 0.0
    ensures var r := UpdateScene(g, cfg, f);
      RoundInvariant(r) &&
      (r.state == g.state || (g.state == GamePlay && r.state == GameOver)) &&
      r.difficulty == g.difficulty && r.chosenNextDifficulty == g.chosenNextDifficulty &&
      r.typewriterText == g.typewriterText && r.typewriterProgress == g.typewriterProgress
  {
    var g0 := g.(width := f.width, height := f.height);
    var g1 := UpdateMotion(g0, cfg, f.moveShift, f.keys);
    MotionKeepsInvariant(g0, cfg, f.moveShift, f.keys);
    var g2 := NewAsteroids(g1, cfg, f.asteroidTicks, f.draw);
    var g3 := NewBullets(g2, cfg, f.bulletTicks, f.keys.space);
    SpawnKeepsRound(g1, cfg, f);
    var g4 := ComputePenalty(g3, f.penaltyTicks);
    var g5 := FatalCollision(g4, cfg);
    PenaltyAndCollisionKeepInvariant(g3, cfg, f.penaltyTicks);
    CleanupKeepsRound(g5, cfg);
  }

  lemma SpawnKeepsRound(g: Game, cfg: Config, f: Frame)
    ensures SameRound(g, NewBullets(NewAsteroids(g, cfg, f.asteroidTicks, f.draw), cfg, f.bulletTicks, f.keys.space))
  {
  }

  lemma CleanupKeepsRound(g: Game, cfg: Config)
    ensures SameRound(g, CollectGarbage(DestroyAsteroids(g, cfg), cfg))
  {
  }

  lemma PenaltyAndCollisionKeepInvariant(g: Game, cfg: Config, penaltyTicks: nat)
    requires RoundInvariant(g) && g.width > 0.0
    ensures var r := FatalCollision(ComputePenalty(g, penaltyTicks), cfg);
      RoundInvariant(r) &&
      (r.state == g.state || (g.state == GamePlay && r.state == GameOver)) &&
      r.difficulty == g.difficulty && r.chosenNextDifficulty == g.chosenNextDifficulty &&
      r.typewriterText == g.typewriterText && r.typewriterProgress == g.typewriterProgress
  {
    var g4 := ComputePenalty(g, penaltyTicks);
    PenaltyKeepsInvariant(g, penaltyTicks);
    CollisionKeepsInvariant(g4, cfg);
  }

  /** The penalty step changes only the penalty, the blue intensity, the
      total and the score, and keeps the round invariant. */
  lemma PenaltyKeepsInvariant(g: Game, penaltyTicks: nat)
    requires RoundInvariant(g) && g.width > 0.0
    ensures var r := ComputePenalty(g, penaltyTicks);
      RoundInvariant(r) &&
      r == g.(penalty := r.penalty, paintBlue := r.paintBlue,
              penaltyPointsTotal := r.penaltyPointsTotal, score := r.score)
  {
    PenaltyZones(g, penaltyTicks);
  }

  /** The collision step changes only the fall speed and, in GamePlay, may
      move to GameOver; it keeps the round invariant. */
  lemma CollisionKeepsInvariant(g: Game, cfg: Config)
    requires RoundInvariant(g)
    ensures var r := FatalCollision(g, cfg);
      RoundInvariant(r) &&
      r.(state := g.state, controllerDownspeed := g.controllerDownspeed) == g &&
      (r.state == g.state || (g.state == GamePlay && r.state == GameOver))
  {
  }

  /** The fields that the round invariant and the state machine look at are
      the same in both. */
  ghost predicate SameRound(g: Game, r: Game)
  {
    r.state == g.state && r.difficulty == g.difficulty &&
    r.chosenNextDifficulty == g.chosenNextDifficulty &&
    r.accelLeft == g.accelLeft && r.accelRight == g.accelRight &&
    r.gameOverProgress == g.gameOverProgress && r.fadeInProgress == g.fadeInProgress &&
    r.penalty == g.penalty && r.paintBlue == g.paintBlue &&
    r.typewriterText == g.typewriterText && r.typewriterProgress == g.typewriterProgress
  }

  /** Motion keeps the round invariant and the state; progress never drops. */
  lemma MotionKeepsInvariant(g: Game, cfg: Config, shift: real, keys: Keys)
    requires RoundInvariant(g) && shift >= 0.0
    ensures var r := UpdateMotion(g, cfg, shift, keys);
      RoundInvariant(r) && r.state == g.state &&
      r.difficulty == g.difficulty && r.chosenNextDifficulty == g.chosenNextDifficulty &&
      r.typewriterText == g.typewriterText && r.typewriterProgress == g.typewriterProgress &&
      r.gameOverProgress >= g.gameOverProgress && r.fadeInProgress >= g.fadeInProgress
  {
    var g1 := g.(asteroids := AsteroidsMove(g.asteroids, shift));
    var g2 := ControllerMove(g1, cfg, shift, keys);
    assert g2.accelLeft >= 0.0 && g2.accelRight >= 0.0 && g2.state == g.state;
    assert shift / ProgressDuration >= 0.0;
  }

  /** A collision in GamePlay ends the round and sets the fall speed to three
      times the first fatal asteroid's speed. */
  lemma FatalCollisionEndsRound(g: Game, cfg: Config, i: nat)
    requires g.state == GamePlay && i < |g.asteroids|
    requires Fatal(cfg, g.controllerPos, g.height, g.asteroids[i])
    requires forall k :: 0 <= k < i ==> !Fatal(cfg, g.controllerPos, g.height, g.asteroids[k])
    ensures FatalCollision(g, cfg).state == GameOver
    ensures FatalCollision(g, cfg).controllerDownspeed == 3.0 * g.asteroids[i].speed
  {
    assert FirstFatal(g, cfg) == Some(i);
  }

  // ---- the round state machine ----

  /** The transition `CHOOSE_NEW_LEVEL -> FADE_IN`: the controller returns to
      its start, both deques empty, progress, fall speed, penalty total and
      score restart at zero, firing is allowed, and the chosen level becomes
      the difficulty. */
  function StartRound(g: Game): Game
  {
    g.(state := FadeIn, controllerPos := ControllerStart(g.width, g.height),
       asteroids := [], bullets := [],
       gameOverProgress := 0.0, fadeInProgress := 0.0, controllerDownspeed := 0.0,
       penaltyPointsTotal := 0, score := 0, bulletForbidden := false,
       difficulty := Pixels.U32(g.chosenNextDifficulty))
  }

  /** The state changes that `paint` makes, and whether it succeeds. In
      FadeIn, GamePlay and GameOver: when the text draws, a finished game-over
      progress moves to FadeOut (failing if the fade-out timer cannot start)
      and a finished fade-in moves to GamePlay. In ChooseNewLevel: a
      typewriter tick reveals one more character; once all are revealed and a
      level is chosen the next round starts (failing if the spawn timer
      cannot start). In FadeOut: once the fade-out interval elapsed, the level
      chooser starts with a fresh typewriter and no level chosen. */
  function Paint(g: Game, p: PaintInput): (Game, bool)
  {
    if g.state == GamePlay || g.state == GameOver || g.state == FadeIn then PaintRound(g, p)
    else if g.state == ChooseNewLevel then PaintChooser(g, p)
    else PaintFadeOut(g, p)
  }

  /** Painting in FadeIn, GamePlay or GameOver. */
  function PaintRound(g: Game, p: PaintInput): (Game, bool)
  {
    if !p.drawOk then (g, false)
    else
      var g1 := if g.gameOverProgress >= 1.0 then g.(state := FadeOut) else g;
      if g.gameOverProgress >= 1.0 && !p.timerOk then (g1, false)
      else if g1.fadeInProgress >= 1.0 then (g1.(state := GamePlay, fadeInProgress := 0.0), p.presentOk)
      else (g1, p.presentOk)
  }

  /** Painting in ChooseNewLevel. */
  function PaintChooser(g: Game, p: PaintInput): (Game, bool)
  {
    var g1 := if p.typewriterTicks != 0
      then g.(typewriterProgress := TextHelper.AdvanceFrame(|g.typewriterText|, g.typewriterProgress))
      else g;
    if g1.typewriterProgress >= |g1.typewriterText| && g1.chosenNextDifficulty != NoDifficulty then
      (StartRound(g1), p.timerOk && p.presentOk)
    else (g1, p.presentOk)
  }

  /** Painting in FadeOut. */
  function PaintFadeOut(g: Game, p: PaintInput): (Game, bool)
  {
    if p.fadeOutTicks != 0 then
      (g.(state := ChooseNewLevel, typewriterText := ChooseLevelText, typewriterProgress := 0,
          chosenNextDifficulty := NoDifficulty), p.presentOk)
    else (g, p.presentOk)
  }

  /** The edges of the round state machine that painting takes. */
  predicate PaintEdge(from: RoundState, to: RoundState)
  {
    (from == GameOver && to == FadeOut) || (from == FadeIn && to == GamePlay) ||
    (from == FadeOut && to == ChooseNewLevel) || (from == ChooseNewLevel && to == FadeIn)
  }

  /** Painting keeps the round invariant and either keeps the state or takes
      one of the four edges GameOver -> FadeOut, FadeIn -> GamePlay,
      FadeOut -> ChooseNewLevel, ChooseNewLevel -> FadeIn. */
  lemma PaintKeepsInvariant(g: Game, p: PaintInput)
    requires RoundInvariant(g)
    ensures RoundInvariant(Paint(g, p).0)
    ensures Paint(g, p).0.state == g.state || PaintEdge(g.state, Paint(g, p).0.state)
  {
  }

  /** GameOver -> FadeOut happens exactly when the game-over progress has
      reached 1 and the text was drawn. */
  lemma GameOverToFadeOut(g: Game, p: PaintInput)
    requires RoundInvariant(g) && g.state == GameOver
    ensures Paint(g, p).0.state == FadeOut <==> p.drawOk && g.gameOverProgress >= 1.0
    ensures Paint(g, p).0.state != FadeOut ==> Paint(g, p).0 == g
  {
  }

  /** FadeIn -> GamePlay happens exactly when the fade-in progress has
      reached 1 and the text was drawn, and it resets that progress. */
  lemma FadeInToGamePlay(g: Game, p: PaintInput)
    requires RoundInvariant(g) && g.state == FadeIn
    ensures var r := Paint(g, p).0;
      (r.state == GamePlay <==> p.drawOk && g.fadeInProgress >= 1.0) &&
      (r.state == GamePlay ==> r == g.(state := GamePlay, fadeInProgress := 0.0)) &&
      (r.state != GamePlay ==> r == g)
  {
  }

  /** FadeOut -> ChooseNewLevel happens exactly when a fade-out interval
      elapsed; it restarts the typewriter on the prompt and clears the
      chosen level. */
  lemma FadeOutToChooseNewLevel(g: Game, p: PaintInput)
    requires g.state == FadeOut
    ensures var r := Paint(g, p).0;
      (r.state == ChooseNewLevel <==> p.fadeOutTicks != 0) &&
      (r.state == ChooseNewLevel ==>
        r.chosenNextDifficulty == NoDifficulty && r.typewriterText == ChooseLevelText &&
        r.typewriterProgress == 0 &&
        r.(state := g.state, chosenNextDifficulty := g.chosenNextDifficulty,
           typewriterText := g.typewriterText, typewriterProgress := g.typewriterProgress) == g)
  {
  }

  /** ChooseNewLevel -> FadeIn happens exactly when the typewriter has
      revealed the whole prompt and a level is chosen; the new round starts
      with empty deques, zero score and progress, and the chosen difficulty,
      whose spawn interval lies between 100 and 600 milliseconds. */
  lemma ChooseNewLevelToFadeIn(g: Game, p: PaintInput)
    requires RoundInvariant(g) && g.state == ChooseNewLevel
    ensures var r := Paint(g, p).0;
      var revealed := if p.typewriterTicks != 0
        then TextHelper.AdvanceFrame(|g.typewriterText|, g.typewriterProgress)
        else g.typewriterProgress;
      (r.state == FadeIn <==> revealed == |g.typewriterText| && g.chosenNextDifficulty != NoDifficulty) &&
      (r.state == FadeIn ==>
        r.asteroids == [] && r.bullets == [] && r.score == 0 && r.penaltyPointsTotal == 0 &&
        r.gameOverProgress == 0.0 && r.fadeInProgress == 0.0 && r.controllerDownspeed == 0.0 &&
        !r.bulletForbidden && r.controllerPos == ControllerStart(g.width, g.height) &&
        r.difficulty == g.chosenNextDifficulty &&
        100 <= AsteroidIntervalMs(r.difficulty) <= 600)
  {
  }

  /** `on_keypress`: in ChooseNewLevel the digit keys 1 to 6 choose the next
      level; every other key and every other state is ignored. */
  function OnKeypress(g: Game, vkey: nat): Game
  {
    if g.state == ChooseNewLevel && 0x31 <= vkey <= 0x36 then
      g.(chosenNextDifficulty := vkey - 0x30)
    else g
  }

  lemma OnKeypressChoosesLevel(g: Game, vkey: nat)
    requires RoundInvariant(g)
    ensures var r := OnKeypress(g, vkey);
      RoundInvariant(r) &&
      r.(chosenNextDifficulty := g.chosenNextDifficulty) == g &&
      (r.chosenNextDifficulty != g.chosenNextDifficulty ==>
        g.state == ChooseNewLevel && 1 <= r.chosenNextDifficulty <= 6 &&
        r.chosenNextDifficulty == vkey - 0x30)
  {
  }
}
