/** The entities of a round and the visibility tests on them: an asteroid is
    visible until it has fallen below the viewport by its half height, a
    bullet until it has risen above the viewport by its half height, and a
    bullet can destroy only once it is below the top edge. */
module Entities {
  import opened Geometry

  /** The round states, driven by the scene update and by painting. */
  datatype RoundState = FadeIn | GamePlay | GameOver | FadeOut | ChooseNewLevel

  datatype Asteroid = Asteroid(pos: Vector, speed: real, destroyed: bool, size: real)

  datatype Bullet = Bullet(pos: Vector, destroyed: bool, size: real)

  /** `asteroid_visible`: not yet below the viewport of the given height by
      more than the asteroid contour's half height. */
  predicate AsteroidVisible(a: Asteroid, height: real, halfHeight: real)
  {
    a.pos.y <= height + halfHeight
  }

  /** `bullet_visible`: not yet above the viewport by more than the bullet
      contour's half height. */
  predicate BulletVisible(b: Bullet, halfHeight: real)
  {
    b.pos.y + halfHeight >= 0.0
  }

  /** `bullet_can_destroy`: the bullet has crossed into the viewport. */
  predicate BulletCanDestroy(b: Bullet)
  {
    b.pos.y > 0.0
  }

  /** A bullet that can destroy is still visible, whatever its (nonnegative)
      half height, and a bullet above the top edge by more than its half
      height is neither. */
  lemma ArmedBulletIsVisible(b: Bullet, halfHeight: real)
    requires halfHeight >= 0.0
    ensures BulletCanDestroy(b) ==> BulletVisible(b, halfHeight)
    ensures !BulletVisible(b, halfHeight) ==> !BulletCanDestroy(b)
  {
  }

  /** Visibility is a threshold on the vertical position: falling further
      never makes an invisible asteroid visible again. */
  lemma AsteroidVisibilityThreshold(a: Asteroid, dy: real, height: real, halfHeight: real)
    requires dy >= 0.0
    ensures !AsteroidVisible(a, height, halfHeight) ==>
      !AsteroidVisible(a.(pos := Vector(a.pos.x, a.pos.y + dy)), height, halfHeight)
  {
  }
}
