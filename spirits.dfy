/** The constant sprite data of the earlier revision: the bitmap file name
    and the collision contour of the rocket, the asteroid and the bullet. */
module Spirits {
  import opened Geometry

  datatype SpiritData = SpiritData(filename: string, contour: Contour)

  /** A contour that forms a closed polygon and whose half sides bound it. */
  ghost predicate WellFormed(c: Contour)
  {
    |c.vertices| >= 3 && c.halfOfSides.x >= 0.0 && c.halfOfSides.y >= 0.0 && WithinHalfExtents(c)
  }

  function ControllerData(): (d: SpiritData)
    ensures |d.contour.vertices| == 13 && WellFormed(d.contour)
    ensures d.contour.halfOfSides == Vector(32.0, 56.0)
  {
    SpiritData("rocket.png", Contour(
      [ Vector(0.0, -56.0), Vector(19.0, -25.5), Vector(22.0, 11.5), Vector(30.5, 24.0),
        Vector(29.5, 46.5), Vector(14.5, 37.5), Vector(8.0, 53.0), Vector(-8.5, 53.0),
        Vector(-15.0, 37.5), Vector(-29.0, 45.5), Vector(-30.5, 24.0), Vector(-22.0, 11.0),
        Vector(-19.0, -24.5) ],
      Vector(32.0, 56.0)))
  }

  function AsteroidData(): (d: SpiritData)
    ensures |d.contour.vertices| == 9 && WellFormed(d.contour)
    ensures d.contour.halfOfSides == Vector(50.0, 43.85)
  {
    SpiritData("asteroid_small.png", Contour(
      [ Vector(-28.2, -35.45), Vector(15.6, -40.85), Vector(37.8, -23.65), Vector(39.0, -3.85),
        Vector(44.0, 8.15), Vector(31.0, 37.35), Vector(-11.2, 38.75), Vector(-29.6, 29.75),
        Vector(-45.4, -2.25) ],
      Vector(50.0, 43.85)))
  }

  function BulletData(): (d: SpiritData)
    ensures |d.contour.vertices| == 5 && WellFormed(d.contour)
    ensures d.contour.halfOfSides == Vector(12.75, 71.38)
  {
    SpiritData("bullet.png", Contour(
      [ Vector(0.5, -54.12), Vector(4.25, -42.62), Vector(5.0, -17.62), Vector(-2.75, -17.62),
        Vector(-2.25, -42.62) ],
      Vector(12.75, 71.38)))
  }
}
