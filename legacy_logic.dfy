/** The earlier revision of the game logic: asteroids, drawn as circles of
    radius 30, are spawned above the viewport once per elapsed spawn
    interval, fall by 5 units each frame and are popped from the back once
    below the viewport; the background pulses with a 40 ms timer. The
    viewport size, the clock samples and the random draws are parameters. */
module LegacyLogic {
  import opened Geometry
  import opened Sequences
  import Entities
  import Spirits
  import IntervalTimer
  import GameRules

  const BackgroundIntervalMs: int := 40
  const AsteroidIntervalMs: int := 3
  const AsteroidRadius: real := 30.0
  /** How far every asteroid falls per painted frame. */
  const FallStep: real := 5.0

  /** An asteroid of this revision is only a center point. */
  datatype Asteroid = Asteroid(x: real, y: real)

  /** One draw of the random generator for a spawn: `shiftX` from the normal
      distribution around 0.5, `shiftY` from the uniform one on [0, 1). */
  datatype Draw = Draw(shiftX: real, shiftY: real)

  /** One reading of the performance counter; `available` is whether the
      counter answered. */
  datatype Sample = Sample(available: bool, now: int)

  // ---- asteroids/include/logic.hpp ----

  /** `asteroid_visible`, with the asteroid contour's half height. */
  function AsteroidVisible(a: Entities.Asteroid, height: real): (b: bool)
    ensures b <==> a.pos.y <= height + 43.85
  {
    Entities.AsteroidVisible(a, height, Spirits.AsteroidData().contour.halfOfSides.y)
  }

  /** `bullet_visible`, with the bullet contour's half height. */
  function BulletVisible(b: Entities.Bullet): (r: bool)
    ensures r <==> b.pos.y >= -71.38
    ensures Entities.BulletCanDestroy(b) ==> r
  {
    Entities.BulletVisible(b, Spirits.BulletData().contour.halfOfSides.y)
  }

  // ---- asteroids/src/logic.cpp ----

  /** The asteroid spawned for one draw: across the width by `shiftX`, and
      above the viewport by between one radius and the height less one
      radius. */
  function Spawn(d: Draw, width: real, height: real): Asteroid
  {
    Asteroid(d.shiftX * width, -(d.shiftY * (height - 2.0 * AsteroidRadius) + AsteroidRadius))
  }

  /** With `shiftY` in [0, 1) and a viewport at least two radii high, a
      spawned asteroid lies wholly above the viewport, and no higher than the
      height less one radius. */
  lemma SpawnAboveViewport(d: Draw, width: real, height: real)
    requires 0.0 <= d.shiftY < 1.0 && height >= 2.0 * AsteroidRadius
    ensures Spawn(d, width, height).y <= -AsteroidRadius
    ensures Spawn(d, width, height).y >= -(height - AsteroidRadius)
  {
    var span := height - 2.0 * AsteroidRadius;
    GameRules.ScaleBetween(d.shiftY, 0.0, 1.0, span);
    assert 0.0 <= d.shiftY * span <= span;
    assert Spawn(d, width, height).y == -(d.shiftY * span + AsteroidRadius);
  }

  /** The deque after `ticks` spawns pushed to the front, draw 0 first, so
      that the last draw ends up in front. */
  function Spawned(s: seq<Asteroid>, ticks: nat, draw: nat -> Draw, width: real, height: real): (r: seq<Asteroid>)
    ensures |r| == |s| + ticks && r[ticks..] == s
    ensures forall k :: 0 <= k < ticks ==> r[k] == Spawn(draw(ticks - 1 - k), width, height)
    decreases ticks
  {
    if ticks == 0 then s else [Spawn(draw(ticks - 1), width, height)] + Spawned(s, ticks - 1, draw, width, height)
  }

  /** Every asteroid one step further down. */
  function Fallen(s: seq<Asteroid>): seq<Asteroid>
  {
    seq(|s|, i requires 0 <= i < |s| => s[i].(y := s[i].y + FallStep))
  }

  /** An asteroid that `paint_asteroids` pops once it is at the back: below
      the viewport by more than a radius. */
  predicate Offscreen(a: Asteroid, height: real)
  {
    a.y > height + AsteroidRadius
  }

  function Onscreen(height: real): Asteroid -> bool
  {
    a => !Offscreen(a, height)
  }

  /** Falling never brings an asteroid that is off screen back on screen. */
  lemma FallingStaysOffscreen(s: seq<Asteroid>, height: real)
    ensures |Fallen(s)| == |s|
    ensures forall i :: 0 <= i < |s| && Offscreen(s[i], height) ==> Offscreen(Fallen(s)[i], height)
  {
  }

  /** The background shade of `on_paint`: the timer's progress doubled and
      reflected about 1, so that the shade rises and falls once per interval. */
  function BackgroundFold(p: real): (r: real)
    requires 0.0 <= p < 1.0
    ensures 0.0 <= r <= 1.0
  {
    var progress := 2.0 * p;
    if progress > 1.0 then 2.0 - progress else progress
  }

  /** The fold is symmetric about the middle of the interval, is 0 only at its
      start, and reaches 1 only at its middle. */
  lemma BackgroundFoldShape(p: real)
    requires 0.0 <= p < 1.0
    ensures 0.0 < p ==> BackgroundFold(p) == BackgroundFold(1.0 - p)
    ensures BackgroundFold(p) == 0.0 <==> p == 0.0
    ensures BackgroundFold(p) == 1.0 <==> p == 0.5
    ensures p <= 0.5 ==> BackgroundFold(p) == 2.0 * p
  {
  }

  /** The frame's whole deque update: fall, spawn, pop. */
  function PaintedAsteroids(s: seq<Asteroid>, ticks: nat, draw: nat -> Draw, width: real, height: real): seq<Asteroid>
  {
    TrimBack(Spawned(Fallen(s), ticks, draw, width, height), Onscreen(height))
  }

  /** This revision spawns one asteroid per elapsed interval, where the later
      revision spawns at most one per scene update. */
  lemma SpawnsPerTickNotPerCall(g: GameRules.Game, cfg: GameRules.Config, ticks: nat, d: GameRules.SpawnDraw,
                                s: seq<Asteroid>, draw: nat -> Draw, width: real, height: real)
    requires ticks >= 2 && g.state == Entities.GamePlay
    ensures |Spawned(s, ticks, draw, width, height)| == |s| + ticks
    ensures |GameRules.NewAsteroids(g, cfg, ticks, d).asteroids| == |g.asteroids| + 1
  {
  }

  /** The window logic of the earlier revision. The Direct2D objects are
      not part of this model. */
  class WindowLogic {
    const backgroundTimer: IntervalTimer.Timer
    const asteroidTimer: IntervalTimer.Timer
    var asteroids: seq<Asteroid>
    var gameOver: bool
    var bulletForbidden: bool
    var accelLeft: real
    var accelRight: real
    var controllerDownspeed: real

    ghost predicate Valid()
      reads this, backgroundTimer, asteroidTimer
    {
      backgroundTimer != asteroidTimer && backgroundTimer.Valid() && asteroidTimer.Valid()
    }

    /** The field defaults: no asteroids, the round not over, firing allowed,
        the controller at rest. */
    constructor ()
      ensures fresh(backgroundTimer) && fresh(asteroidTimer) && backgroundTimer != asteroidTimer
      ensures asteroids == [] && !gameOver && !bulletForbidden
      ensures accelLeft == 0.0 && accelRight == 0.0 && controllerDownspeed == 0.0
    {
      backgroundTimer := new IntervalTimer.Timer();
      asteroidTimer := new IntervalTimer.Timer();
      asteroids := [];
      gameOver, bulletForbidden := false, false;
      accelLeft, accelRight, controllerDownspeed := 0.0, 0.0, 0.0;
    }

    /** The timer part of `Init`: the background timer with 40 ms, then, only
        if that succeeded, the spawn timer with 3 ms. */
    method Init(background: Sample, spawn: Sample, frequency: int) returns (ok: bool)
      requires backgroundTimer != asteroidTimer
      modifies backgroundTimer, asteroidTimer
      ensures ok <==> background.available && spawn.available
      ensures ok && frequency * AsteroidIntervalMs >= 1000 ==>
        Valid() && backgroundTimer.Delta() == 0 && asteroidTimer.Delta() == 0
    {
      ok := backgroundTimer.Init(background.available, frequency, background.now, BackgroundIntervalMs);
      if ok {
        ok := asteroidTimer.Init(spawn.available, frequency, spawn.now, AsteroidIntervalMs);
      }
    }

    /** `update_asteroids`. */
    method UpdateAsteroids()
      modifies this`asteroids
      ensures asteroids == Fallen(old(asteroids))
      ensures |asteroids| == |old(asteroids)|
      ensures forall i :: 0 <= i < |asteroids| ==>
        asteroids[i].x == old(asteroids[i].x) && asteroids[i].y == old(asteroids[i].y) + FallStep
    {
      ghost var s := asteroids;
      var i := 0;
      while i < |asteroids|
        invariant 0 <= i <= |asteroids| == |s|
        invariant asteroids[..i] == Fallen(s)[..i] && asteroids[i..] == s[i..]
      {
        asteroids := asteroids[i := asteroids[i].(y := asteroids[i].y + FallStep)];
        i := i + 1;
      }
    }

    /** `new_asteroids`: consumes the spawn timer's whole intervals and pushes
        one asteroid per interval to the front; `draw(i)` is the generator's
        i-th draw of this call. */
    method NewAsteroids(draw: nat -> Draw, width: real, height: real)
      requires asteroidTimer.Valid()
      modifies this`asteroids, asteroidTimer`referenceTime
      ensures asteroidTimer.Valid()
      ensures var ticks := IntervalTimer.WholeIntervals(old(asteroidTimer.Delta()), asteroidTimer.interval);
        asteroids == Spawned(old(asteroids), ticks, draw, width, height)
      ensures asteroidTimer.Delta() == old(asteroidTimer.Delta()) % asteroidTimer.interval
    {
      var ticks := asteroidTimer.IntervalsCount(true);
      ghost var s, consumed := asteroids, asteroidTimer.referenceTime;
      var i := 0;
      while i < ticks
        invariant 0 <= i <= ticks
        invariant asteroids == Spawned(s, i, draw, width, height)
        invariant asteroidTimer.referenceTime == consumed
      {
        asteroids := [Spawn(draw(i), width, height)] + asteroids;
        i := i + 1;
      }
    }

    /** The pop loop of `paint_asteroids`: pops from the back while the back
        asteroid is off screen. */
    method PopOffscreen(height: real)
      modifies this`asteroids
      ensures asteroids == TrimBack(old(asteroids), Onscreen(height))
    {
      ghost var keep := Onscreen(height);
      while |asteroids| > 0 && Offscreen(asteroids[|asteroids| - 1], height)
        invariant TrimBack(asteroids, keep) == TrimBack(old(asteroids), keep)
      {
        TrimBackOfPopped(asteroids, keep);
        asteroids := asteroids[..|asteroids| - 1];
      }
    }

    /** `on_paint`: samples both clocks, computes the background shade from
        the background timer (consuming its whole intervals), lets the
        asteroids fall, spawns, and pops those that left the viewport. */
    method OnPaint(spawn: Sample, background: Sample, draw: nat -> Draw, width: real, height: real)
      returns (ok: bool, shade: real)
      requires Valid() && spawn.now >= asteroidTimer.lastTime && background.now >= backgroundTimer.lastTime
      modifies this`asteroids, asteroidTimer, backgroundTimer
      ensures Valid() && ok && 0.0 <= shade <= 1.0
      ensures var spawnDelta := (if spawn.available then spawn.now else old(asteroidTimer.lastTime)) -
                                old(asteroidTimer.referenceTime);
        var ticks := IntervalTimer.WholeIntervals(spawnDelta, asteroidTimer.interval);
        asteroids == PaintedAsteroids(old(asteroids), ticks, draw, width, height)
      ensures var backgroundDelta := (if background.available then background.now else old(backgroundTimer.lastTime)) -
                                     old(backgroundTimer.referenceTime);
        shade == BackgroundFold(IntervalTimer.Progress(backgroundDelta, backgroundTimer.interval))
    {
      SampleClocks(spawn, background);
      var p := backgroundTimer.IntervalProgress(true);
      shade := BackgroundFold(p);
      PaintFrame(draw, width, height);
      return true, shade;
    }

    /** The two timer updates at the start of `on_paint`. */
    method SampleClocks(spawn: Sample, background: Sample)
      requires Valid() && spawn.now >= asteroidTimer.lastTime && background.now >= backgroundTimer.lastTime
      modifies asteroidTimer`lastTime, backgroundTimer`lastTime
      ensures Valid()
      ensures asteroidTimer.lastTime == if spawn.available then spawn.now else old(asteroidTimer.lastTime)
      ensures backgroundTimer.lastTime == if background.available then background.now else old(backgroundTimer.lastTime)
    {
      var _ := asteroidTimer.Update(spawn.available, spawn.now);
      var _ := backgroundTimer.Update(background.available, background.now);
    }

    /** `update_asteroids`, `new_asteroids` and `paint_asteroids` in turn. */
    method PaintFrame(draw: nat -> Draw, width: real, height: real)
      requires asteroidTimer.Valid()
      modifies this`asteroids, asteroidTimer`referenceTime
      ensures asteroidTimer.Valid()
      ensures var ticks := IntervalTimer.WholeIntervals(old(asteroidTimer.Delta()), asteroidTimer.interval);
        asteroids == PaintedAsteroids(old(asteroids), ticks, draw, width, height)
    {
      UpdateAsteroids();
      NewAsteroids(draw, width, height);
      PopOffscreen(height);
    }
  }

  /** After a frame, the deque is what the frame's spawns and the fall left,
      cut after its last on-screen asteroid: nothing on screen is lost and
      every asteroid dropped lay behind it, off screen. */
  lemma PaintedAsteroidsTrimmed(s: seq<Asteroid>, ticks: nat, draw: nat -> Draw, width: real, height: real)
    ensures var all := Spawned(Fallen(s), ticks, draw, width, height);
      var r := PaintedAsteroids(s, ticks, draw, width, height);
      r == all[..|r|] &&
      (|r| > 0 ==> !Offscreen(r[|r| - 1], height)) &&
      (forall k :: |r| <= k < |all| ==> Offscreen(all[k], height))
  {
  }
}
