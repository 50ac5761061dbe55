/** The game logic object: its fields are updated in place by the scene
    update, painting and key presses, and each method is proved to change
    the state exactly as the corresponding function of GameRules says. */
module GameLogic {
  import opened Wrappers
  import opened Geometry
  import opened Entities
  import opened Sequences
  import opened GameRules
  import TextHelper
  import Pixels

  class WindowLogic {
    /** The display scale and the rescaled sprite contours. */
    const cfg: Config
    /** The typewriter animation of the level chooser, a member object. */
    const typewriter: TextHelper.TextTypewriterAnimation

    var state: RoundState
    var width: real
    var height: real
    var difficulty: nat
    var bulletForbidden: bool
    var penalty: real
    var paintBlue: real
    var penaltyPointsTotal: int
    var score: int
    var accelLeft: real
    var accelRight: real
    var controllerDownspeed: real
    var controllerPos: Vector
    var asteroids: seq<Asteroid>
    var bullets: seq<Bullet>
    var gameOverProgress: real
    var fadeInProgress: real
    var chosenNextDifficulty: int

    /** The state as a value. */
    function Snapshot(): Game
      reads this, typewriter
    {
      Game(state, width, height, difficulty, bulletForbidden, penalty, paintBlue,
           penaltyPointsTotal, score, accelLeft, accelRight, controllerDownspeed,
           controllerPos, asteroids, bullets, gameOverProgress, fadeInProgress,
           chosenNextDifficulty, typewriter.text, typewriter.charsProgress)
    }

    ghost predicate Valid()
      reads this, typewriter
    {
      typewriter.Valid() && RoundInvariant(Snapshot())
    }

    /** Construction and initialisation for a viewport of the given size. */
    constructor (config: Config, w: real, h: real)
      ensures Valid() && cfg == config
      ensures Snapshot() == InitialGame(w, h)
    {
      cfg := config;
      typewriter := new TextHelper.TextTypewriterAnimation();
      state := GamePlay;
      width, height := w, h;
      difficulty := 1;
      bulletForbidden := false;
      penalty, paintBlue := 0.0, 0.0;
      penaltyPointsTotal, score := 0, 0;
      accelLeft, accelRight, controllerDownspeed := 0.0, 0.0, 0.0;
      controllerPos := ControllerStart(w, h);
      asteroids, bullets := [], [];
      gameOverProgress, fadeInProgress := 0.0, 0.0;
      chosenNextDifficulty := NoDifficulty;
    }

    /** `reset_controller_pos`. */
    method ResetControllerPos()
      modifies this`controllerPos
      ensures controllerPos == ControllerStart(width, height)
    {
      controllerPos := Vector(width / 2.0, height - ControllerBottomGap);
    }

    /** `asteroids_move`. */
    method AsteroidsMove(shift: real)
      modifies this`asteroids
      ensures asteroids == GameRules.AsteroidsMove(old(asteroids), shift)
    {
      var i := 0;
      while i < |asteroids|
        invariant 0 <= i <= |asteroids| == |old(asteroids)|
        invariant forall k :: 0 <= k < i ==>
          asteroids[k] == old(asteroids)[k].(pos := Vector(old(asteroids)[k].pos.x, old(asteroids)[k].pos.y + shift * old(asteroids)[k].speed))
        invariant forall k :: i <= k < |asteroids| ==> asteroids[k] == old(asteroids)[k]
      {
        var a := asteroids[i];
        asteroids := asteroids[i := a.(pos := Vector(a.pos.x, a.pos.y + shift * a.speed))];
        i := i + 1;
      }
    }

    /** `bullets_move`. */
    method BulletsMove(shift: real)
      modifies this`bullets
      ensures bullets == GameRules.BulletsMove(old(bullets), shift, cfg.dpiFactor)
    {
      var i := 0;
      while i < |bullets|
        invariant 0 <= i <= |bullets| == |old(bullets)|
        invariant forall k :: 0 <= k < i ==>
          bullets[k] == old(bullets)[k].(pos := Vector(old(bullets)[k].pos.x, old(bullets)[k].pos.y - shift * BulletSpeed * cfg.dpiFactor))
        invariant forall k :: i <= k < |bullets| ==> bullets[k] == old(bullets)[k]
      {
        var b := bullets[i];
        bullets := bullets[i := b.(pos := Vector(b.pos.x, b.pos.y - shift * BulletSpeed * cfg.dpiFactor))];
        i := i + 1;
      }
    }

    /** `controller_move`, with the key states as a parameter. */
    method ControllerMove(shift: real, keys: Keys)
      modifies this`accelLeft, this`accelRight, this`controllerPos
      ensures Snapshot() == GameRules.ControllerMove(old(Snapshot()), cfg, shift, keys)
    {
      if state == GameOver {
        controllerPos := Vector(controllerPos.x, controllerPos.y + shift * controllerDownspeed);
        return;
      }
      var boundLeft := width / 5.0;
      var boundRight := width - boundLeft;
      var al, ar;
      if keys.left && controllerPos.x > boundLeft {
        al, ar := Accelerate(accelLeft), Decelerate(accelRight, 1.0);
      } else if keys.right && controllerPos.x < boundRight {
        al, ar := Decelerate(accelLeft, 1.0), Accelerate(accelRight);
      } else {
        al, ar := Decelerate(accelLeft, 0.75), Decelerate(accelRight, 0.75);
      }
      Steer(al, ar, shift);
    }

    /** Sets the accelerations and moves the controller by their difference. */
    method Steer(al: real, ar: real, shift: real)
      modifies this`accelLeft, this`accelRight, this`controllerPos
      ensures Snapshot() == old(Snapshot()).(accelLeft := al, accelRight := ar,
        controllerPos := Vector(old(controllerPos.x) + (ar - al) * shift * ControllerSpeedScale * cfg.dpiFactor,
                                old(controllerPos.y)))
    {
      accelLeft, accelRight := al, ar;
      controllerPos := Vector(controllerPos.x + (ar - al) * shift * ControllerSpeedScale * cfg.dpiFactor,
                              controllerPos.y);
    }

    /** `game_over_move`. */
    method GameOverMove(shift: real)
      modifies this`gameOverProgress, this`fadeInProgress
      ensures Snapshot() == GameRules.GameOverMove(old(Snapshot()), shift)
    {
      if state == GameOver && gameOverProgress < 1.0 {
        gameOverProgress := gameOverProgress + shift / ProgressDuration;
      }
      if state == FadeIn && fadeInProgress < 1.0 {
        fadeInProgress := fadeInProgress + shift / ProgressDuration;
      }
    }

    /** `update_motion`, with the motion timer's continuous intervals as
        `shift`. */
    method UpdateMotion(shift: real, keys: Keys)
      modifies this
      ensures Snapshot() == GameRules.UpdateMotion(old(Snapshot()), cfg, shift, keys)
    {
      AsteroidsMove(shift);
      ControllerMove(shift, keys);
      BulletsMove(shift);
      GameOverMove(shift);
    }

    /** `new_asteroids`, with the spawn timer's whole intervals and the
        random draws as parameters. */
    method NewAsteroids(ticks: nat, draw: SpawnDraw)
      modifies this`asteroids
      ensures Snapshot() == GameRules.NewAsteroids(old(Snapshot()), cfg, ticks, draw)
    {
      ghost var g := Snapshot();
      if ticks != 0 && (state == GamePlay || state == FadeIn) {
        var radius := cfg.asteroid.halfOfSides.y;
        var x := draw.shiftX * width;
        var y := -(draw.shiftY * (SpawnBand - 2.0 * radius) + radius);
        ghost var spawned := SpawnedAsteroid(g, cfg, draw);
        assert g.width == width;
        assert spawned.pos == Vector(x, y) && spawned.speed == draw.speed * cfg.dpiFactor;
        asteroids := [Asteroid(Vector(x, y), draw.speed * cfg.dpiFactor, false, 1.0)] + asteroids;
      }
    }

    /** `new_bullets`, with the cooldown timer's whole intervals and the
        space key as parameters; `restartCooldown` says whether the cooldown
        timer starts a new interval. */
    method NewBullets(cooldownTicks: nat, space: bool) returns (restartCooldown: bool)
      modifies this`bulletForbidden, this`bullets
      ensures restartCooldown == Fires(old(Snapshot()), cooldownTicks, space)
      ensures Snapshot() == GameRules.NewBullets(old(Snapshot()), cfg, cooldownTicks, space)
    {
      if bulletForbidden && cooldownTicks != 0 {
        bulletForbidden := false;
      }
      if bulletForbidden || !space || state != GamePlay {
        return false;
      }
      bulletForbidden := true;
      var nose := Vector(controllerPos.x, controllerPos.y - cfg.controller.halfOfSides.y);
      bullets := [Bullet(nose, false, 1.0)] + bullets;
      return true;
    }

    /** `compute_penalty`, with the penalty timer's whole intervals as a
        parameter. */
    method ComputePenalty(penaltyTicks: nat)
      requires width > 0.0
      modifies this`penalty, this`paintBlue, this`penaltyPointsTotal, this`score
      ensures Snapshot() == GameRules.ComputePenalty(old(Snapshot()), penaltyTicks)
    {
      var p := PenaltyOf(width, controllerPos.x);
      var blue := PaintBlueOf(width, controllerPos.x);
      penalty, paintBlue := p, blue;
      if penaltyTicks != 0 {
        if p == 0.0 {
          penaltyPointsTotal := 0;
        } else if state == GamePlay {
          var unit := (p * 5.0).Floor;
          penaltyPointsTotal, score := penaltyPointsTotal + unit, score - unit;
        }
      }
    }

    /** `is_there_collision`: scans the asteroids front to back. */
    method IsThereCollision() returns (hit: bool)
      modifies this`controllerDownspeed
      ensures Snapshot() == CheckCollision(old(Snapshot()), cfg).0
      ensures hit == CheckCollision(old(Snapshot()), cfg).1
    {
      var i := 0;
      while i < |asteroids|
        invariant 0 <= i <= |asteroids|
        invariant controllerDownspeed == old(controllerDownspeed)
        invariant forall k :: 0 <= k < i ==> !Fatal(cfg, controllerPos, height, asteroids[k])
      {
        var a := asteroids[i];
        if !a.destroyed && !(a.pos.y < height / 2.0) {
          var meets := ContourIntersect(cfg.asteroid, cfg.controller, a.pos, controllerPos);
          if meets {
            controllerDownspeed := 3.0 * a.speed;
            assert FirstFatal(old(Snapshot()), cfg) == Some(i);
            return true;
          }
        }
        i := i + 1;
      }
      assert FirstFatal(old(Snapshot()), cfg) == None;
      return false;
    }

    /** The shrinking loops of `destroy_asteroids`. */
    method ShrinkDestroyed()
      modifies this`asteroids, this`bullets
      ensures asteroids == ShrinkAsteroids(old(asteroids)) && bullets == ShrinkBullets(old(bullets))
    {
      var i := 0;
      while i < |asteroids|
        invariant 0 <= i <= |asteroids| == |old(asteroids)|
        invariant forall k :: 0 <= k < i ==> asteroids[k] == ShrinkAsteroid(old(asteroids)[k])
        invariant forall k :: i <= k < |asteroids| ==> asteroids[k] == old(asteroids)[k]
        invariant bullets == old(bullets)
      {
        var a := asteroids[i];
        if a.destroyed && a.size > 0.0 {
          asteroids := asteroids[i := a.(size := a.size - ShrinkStep)];
        }
        i := i + 1;
      }
      var j := 0;
      while j < |bullets|
        invariant 0 <= j <= |bullets| == |old(bullets)|
        invariant forall k :: 0 <= k < j ==> bullets[k] == ShrinkBullet(old(bullets)[k])
        invariant forall k :: j <= k < |bullets| ==> bullets[k] == old(bullets)[k]
        invariant asteroids == ShrinkAsteroids(old(asteroids))
      {
        var b := bullets[j];
        if b.destroyed && b.size > 0.0 {
          bullets := bullets[j := b.(size := b.size - ShrinkStep)];
        }
        j := j + 1;
      }
    }

    /** The search for the first bullet that hits asteroid i; on a hit both
        are destroyed and 5 points won. */
    method HitAsteroid(i: nat)
      requires i < |asteroids|
      modifies this`asteroids, this`bullets, this`score
      ensures Skirmish(asteroids, bullets, score) ==
        HitStep(cfg, Skirmish(old(asteroids), old(bullets), old(score)), i)
    {
      var a := asteroids[i];
      if a.destroyed {
        return;
      }
      var j := 0;
      while j < |bullets|
        invariant 0 <= j <= |bullets|
        invariant asteroids == old(asteroids) && bullets == old(bullets) && score == old(score)
        invariant forall k :: 0 <= k < j ==> !Hits(cfg, a, bullets[k])
      {
        var b := bullets[j];
        if !b.destroyed && BulletCanDestroy(b) {
          var meets := ContourIntersect(cfg.asteroid, cfg.bullet, a.pos, b.pos);
          if meets {
            assert FirstIndex(bullets, HitTest(cfg, a)) == Some(j);
            asteroids := asteroids[i := a.(destroyed := true)];
            bullets := bullets[j := b.(destroyed := true)];
            score := score + DestroyBonus;
            return;
          }
        }
        j := j + 1;
      }
      assert FirstIndex(bullets, HitTest(cfg, a)) == None;
    }

    /** `destroy_asteroids`. */
    method DestroyAsteroids()
      modifies this`asteroids, this`bullets, this`score
      ensures Snapshot() == GameRules.DestroyAsteroids(old(Snapshot()), cfg)
    {
      ghost var g := Snapshot();
      ShrinkDestroyed();
      HitAll();
      assert Snapshot() == g.(asteroids := asteroids, bullets := bullets, score := score);
    }

    /** Pairs every asteroid, front to back, with the first bullet that hits it. */
    method HitAll()
      modifies this`asteroids, this`bullets, this`score
      ensures Skirmish(asteroids, bullets, score - old(score)) ==
        HitsUpTo(cfg, old(asteroids), old(bullets), |old(asteroids)|)
    {
      ghost var rocks, shots, score0 := asteroids, bullets, score;
      var i := 0;
      while i < |asteroids|
        invariant |asteroids| == |rocks| && 0 <= i <= |rocks|
        invariant Skirmish(asteroids, bullets, score - score0) == HitsUpTo(cfg, rocks, shots, i)
      {
        HitAsteroid(i);
        i := i + 1;
      }
    }

    /** `collect_garbage`: pops each deque from the back while its back
        element is invisible or shrunk below 0.1. */
    method CollectGarbage()
      modifies this`asteroids, this`bullets
      ensures Snapshot() == GameRules.CollectGarbage(old(Snapshot()), cfg)
    {
      ghost var g := Snapshot();
      PopAsteroids();
      PopBullets();
      assert Snapshot() == g.(asteroids := asteroids, bullets := bullets);
    }

    method PopAsteroids()
      modifies this`asteroids
      ensures asteroids == TrimBack(old(asteroids), AsteroidKeeper(cfg, height))
    {
      ghost var keep := AsteroidKeeper(cfg, height);
      while |asteroids| > 0 && !KeepAsteroid(cfg, height, asteroids[|asteroids| - 1])
        invariant TrimBack(asteroids, keep) == TrimBack(old(asteroids), keep)
      {
        TrimBackOfPopped(asteroids, keep);
        asteroids := asteroids[..|asteroids| - 1];
      }
    }

    method PopBullets()
      modifies this`bullets
      ensures bullets == TrimBack(old(bullets), BulletKeeper(cfg))
    {
      ghost var keep := BulletKeeper(cfg);
      while |bullets| > 0 && !KeepBullet(cfg, bullets[|bullets| - 1])
        invariant TrimBack(bullets, keep) == TrimBack(old(bullets), keep)
      {
        TrimBackOfPopped(bullets, keep);
        bullets := bullets[..|bullets| - 1];
      }
    }

    /** `update_scene`, with the viewport size, timer results, keys and
        random draws of this frame as parameters; `restartCooldown` says
        whether the cooldown timer starts a new interval. */
    method UpdateScene(f: Frame) returns (ok: bool, restartCooldown: bool)
      requires Valid() && f.width > 0.0 && f.moveShift >= 0.0
      modifies this
      ensures Valid() && ok
      ensures Snapshot() == GameRules.UpdateScene(old(Snapshot()), cfg, f)
      ensures state == old(state) || (old(state) == GamePlay && state == GameOver)
    {
      UpdateSceneKeepsInvariant(Snapshot(), cfg, f);
      restartCooldown := AdvanceScene(f);
      ResolveScene(f.penaltyTicks);
      return true, restartCooldown;
    }

    /** Motion and spawning; `restartCooldown` says whether a bullet was fired. */
    method AdvanceScene(f: Frame) returns (restartCooldown: bool)
      modifies this
      ensures Snapshot() == GameRules.AdvanceScene(old(Snapshot()), cfg, f)
    {
      ghost var g := Snapshot();
      width, height := f.width, f.height;
      UpdateMotion(f.moveShift, f.keys);
      ghost var g1 := Snapshot();
      assert g1 == GameRules.UpdateMotion(g.(width := f.width, height := f.height), cfg, f.moveShift, f.keys);
      NewAsteroids(f.asteroidTicks, f.draw);
      restartCooldown := NewBullets(f.bulletTicks, f.keys.space);
    }

    /** Penalty, the fatal collision, destruction and garbage collection. */
    method ResolveScene(penaltyTicks: nat)
      requires width > 0.0
      modifies this
      ensures Snapshot() == GameRules.ResolveScene(old(Snapshot()), cfg, penaltyTicks)
    {
      ComputePenalty(penaltyTicks);
      EndRoundOnCollision();
      DestroyAsteroids();
      CollectGarbage();
    }

    /** The fatal-collision check of `update_scene`: only in GamePlay, and a
        collision ends the round. */
    method EndRoundOnCollision()
      modifies this`controllerDownspeed, this`state
      ensures Snapshot() == FatalCollision(old(Snapshot()), cfg)
    {
      if state == GamePlay {
        var hit := IsThereCollision();
        if hit {
          state := GameOver;
        }
      }
    }

    /** `paint`, with the outcomes of drawing, timer initialisation and
        presenting, and the fade-out and typewriter timers' whole intervals,
        as parameters. */
    method Paint(p: PaintInput) returns (ok: bool)
      requires Valid()
      modifies this, typewriter
      ensures Valid()
      ensures Snapshot() == GameRules.Paint(old(Snapshot()), p).0
      ensures ok == GameRules.Paint(old(Snapshot()), p).1
    {
      PaintKeepsInvariant(Snapshot(), p);
      if state == GamePlay || state == GameOver || state == FadeIn {
        ok := PaintRound(p);
      } else if state == ChooseNewLevel {
        ok := PaintChooser(p);
      } else {
        ok := PaintFadeOut(p);
      }
    }

    /** The round's transitions when painting FadeIn, GamePlay or GameOver. */
    method PaintRound(p: PaintInput) returns (ok: bool)
      modifies this`state, this`fadeInProgress
      ensures Snapshot() == GameRules.PaintRound(old(Snapshot()), p).0
      ensures ok == GameRules.PaintRound(old(Snapshot()), p).1
    {
      if !p.drawOk {
        return false;
      }
      if gameOverProgress >= 1.0 {
        state := FadeOut;
        if !p.timerOk {
          return false;
        }
      }
      if fadeInProgress >= 1.0 {
        state := GamePlay;
        fadeInProgress := 0.0;
      }
      return p.presentOk;
    }

    /** The level chooser: the typewriter advances, and once the prompt is
        revealed and a level chosen the next round starts. */
    method PaintChooser(p: PaintInput) returns (ok: bool)
      requires typewriter.Valid()
      modifies this, typewriter`charsProgress
      ensures typewriter.Valid()
      ensures Snapshot() == GameRules.PaintChooser(old(Snapshot()), p).0
      ensures ok == GameRules.PaintChooser(old(Snapshot()), p).1
    {
      if p.typewriterTicks != 0 {
        typewriter.NextFrame();
      }
      if !typewriter.IsFrameLeft() && chosenNextDifficulty != NoDifficulty {
        StartRound();
        if !p.timerOk {
          return false;
        }
      }
      return p.presentOk;
    }

    /** The start of the next round at the chosen level. */
    method StartRound()
      modifies this`state, this`controllerPos, this`asteroids, this`bullets, this`gameOverProgress,
        this`fadeInProgress, this`controllerDownspeed, this`penaltyPointsTotal, this`score,
        this`bulletForbidden, this`difficulty
      ensures Snapshot() == GameRules.StartRound(old(Snapshot()))
    {
      ClearScene();
      ResetProgress();
      ResetScore();
    }

    method ClearScene()
      modifies this`state, this`controllerPos, this`asteroids, this`bullets
      ensures Snapshot() == old(Snapshot()).(state := FadeIn, controllerPos := ControllerStart(width, height),
        asteroids := [], bullets := [])
    {
      state := FadeIn;
      ResetControllerPos();
      asteroids, bullets := [], [];
    }

    method ResetProgress()
      modifies this`gameOverProgress, this`fadeInProgress, this`controllerDownspeed
      ensures Snapshot() == old(Snapshot()).(gameOverProgress := 0.0, fadeInProgress := 0.0,
        controllerDownspeed := 0.0)
    {
      gameOverProgress, fadeInProgress := 0.0, 0.0;
      controllerDownspeed := 0.0;
    }

    method ResetScore()
      modifies this`penaltyPointsTotal, this`score, this`bulletForbidden, this`difficulty
      ensures Snapshot() == old(Snapshot()).(penaltyPointsTotal := 0, score := 0, bulletForbidden := false,
        difficulty := Pixels.U32(chosenNextDifficulty))
    {
      penaltyPointsTotal, score := 0, 0;
      bulletForbidden := false;
      difficulty := Pixels.U32(chosenNextDifficulty);
    }

    /** The fade-out: once its interval elapses the level chooser starts. */
    method PaintFadeOut(p: PaintInput) returns (ok: bool)
      requires typewriter.Valid()
      modifies this`state, this`chosenNextDifficulty, typewriter
      ensures typewriter.Valid()
      ensures Snapshot() == GameRules.PaintFadeOut(old(Snapshot()), p).0
      ensures ok == GameRules.PaintFadeOut(old(Snapshot()), p).1
    {
      if p.fadeOutTicks != 0 {
        state := ChooseNewLevel;
        var _ := typewriter.Init(ChooseLevelText);
        chosenNextDifficulty := NoDifficulty;
      }
      return p.presentOk;
    }

    /** `on_keypress`. */
    method OnKeypress(vkey: nat) returns (ok: bool)
      requires Valid()
      modifies this`chosenNextDifficulty
      ensures Valid() && ok
      ensures Snapshot() == GameRules.OnKeypress(old(Snapshot()), vkey)
    {
      OnKeypressChoosesLevel(Snapshot(), vkey);
      if state == ChooseNewLevel && 0x31 <= vkey <= 0x36 {
        chosenNextDifficulty := vkey - 0x30;
      }
      return true;
    }
  }

  /** From FadeOut: once the fade-out interval elapses the chooser
      appears, the typewriter reveals the prompt in one frame per character,
      a press of key 4 chooses level 4, and the next paint starts the round
      at that difficulty with a spawn interval of 300 milliseconds. */
  method ChooseLevelScenario(logic: WindowLogic) returns (frames: nat)
    requires logic.Valid() && logic.state == FadeOut
    modifies logic, logic.typewriter
    ensures logic.Valid() && frames == |ChooseLevelText|
    ensures logic.state == FadeIn && logic.difficulty == 4 && logic.score == 0
    ensures logic.asteroids == [] && logic.bullets == []
    ensures AsteroidIntervalMs(logic.difficulty) == 300
  {
    var quiet := PaintInput(true, true, 0, 0, true);
    var ok := logic.Paint(quiet.(fadeOutTicks := 1));
    frames := 0;
    while logic.typewriter.IsFrameLeft()
      invariant logic.Valid() && logic.state == ChooseNewLevel && logic.chosenNextDifficulty == NoDifficulty
      invariant logic.typewriter.text == ChooseLevelText && logic.typewriter.charsProgress == frames
      decreases |ChooseLevelText| - frames
    {
      ok := logic.Paint(quiet.(typewriterTicks := 1));
      frames := frames + 1;
    }
    ok := logic.OnKeypress(0x34);
    ok := logic.Paint(quiet);
  }
}
