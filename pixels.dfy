/** Conversions between logical pixels (96 per inch) and physical pixels at
    a given display density, in both revisions. Arithmetic that the source
    does in 32-bit unsigned integers wraps modulo 2^32 here as well; float
    conversions are exact. */
module Pixels {

  const TwoTo32: int := 0x1_0000_0000
  const TwoTo31: int := 0x8000_0000

  /** Reduction to an unsigned 32-bit value, as C++ does when an `i32`
      operand meets a `u32` one. */
  function U32(v: int): (r: int)
    ensures 0 <= r < TwoTo32
    ensures 0 <= v < TwoTo32 ==> r == v
  {
    v % TwoTo32
  }

  /** Conversion of an unsigned 32-bit value to `i32` (two's complement). */
  function I32OfU32(v: int): (r: int)
    requires 0 <= v < TwoTo32
    ensures -TwoTo31 <= r < TwoTo31
    ensures v < TwoTo31 ==> r == v
  {
    if v < TwoTo31 then v else v - TwoTo32
  }

  /** `ceil` on a real. */
  function Ceil(x: real): (r: int)
    ensures r as real >= x && (r - 1) as real < x
  {
    -((-x).Floor)
  }

  /** The float-to-integer conversion of C++, which truncates toward zero. */
  function Trunc(x: real): (r: int)
    ensures x >= 0.0 ==> r == x.Floor
    ensures x < 0.0 ==> r == Ceil(x)
  {
    if x >= 0.0 then x.Floor else -((-x).Floor)
  }

  lemma TruncMonotone(x: real, y: real)
    requires x <= y
    ensures Trunc(x) <= Trunc(y)
  {
    if x >= 0.0 {
      assert x.Floor <= y.Floor;
    } else if y < 0.0 {
      assert (-y).Floor <= (-x).Floor;
    } else {
      assert Trunc(x) <= 0 <= Trunc(y);
    }
  }

  // ---- include/common.hpp ----

  /** `PHYSICAL_PIXELS(logical, dpi)`: `ceil(logical * dpi / 96)`; at its call
      site the product is taken in unsigned 32-bit arithmetic. */
  function PhysicalPixels(logical: int, dpi: int): int
  {
    Ceil(U32(logical * dpi) as real / 96.0)
  }

  /** `LOGICAL_PIXELS(physical, dpi)`: `physical * 96 / dpi`, truncated. */
  function LogicalPixels(physical: int, dpi: int): int
    requires dpi > 0
  {
    Trunc((physical * 96) as real / dpi as real)
  }

  /** Without wrap-around, the result is the least number of physical pixels
      covering `logical * dpi / 96`. */
  lemma PhysicalPixelsIsCeiling(logical: int, dpi: int)
    requires 0 <= logical * dpi < TwoTo32
    ensures PhysicalPixels(logical, dpi) * 96 >= logical * dpi
    ensures (PhysicalPixels(logical, dpi) - 1) * 96 < logical * dpi
  {
    var p := logical * dpi;
    var r := PhysicalPixels(logical, dpi);
    assert r as real >= p as real / 96.0 && (r - 1) as real < p as real / 96.0;
    assert (r * 96) as real >= p as real;
    assert ((r - 1) * 96) as real < p as real;
  }

  /** At the reference density of 96 dpi nothing changes. */
  lemma PhysicalPixelsAtReferenceDpi(logical: int)
    requires 0 <= logical * 96 < TwoTo32
    ensures PhysicalPixels(logical, 96) == logical
  {
    PhysicalPixelsIsCeiling(logical, 96);
  }

  lemma LogicalPixelsAtReferenceDpi(physical: int)
    ensures LogicalPixels(physical, 96) == physical
  {
    assert (physical * 96) as real / 96.0 == physical as real;
  }

  lemma PhysicalPixelsMonotone(a: int, b: int, dpi: int)
    requires 0 <= a <= b && dpi >= 0 && b * dpi < TwoTo32
    ensures PhysicalPixels(a, dpi) <= PhysicalPixels(b, dpi)
  {
    assert a * dpi <= b * dpi;
    PhysicalPixelsIsCeiling(a, dpi);
    PhysicalPixelsIsCeiling(b, dpi);
  }

  lemma DivMonotone(x: real, y: real, d: real)
    requires x <= y && d > 0.0
    ensures x / d <= y / d
  {
  }

  lemma LogicalPixelsMonotone(a: int, b: int, dpi: int)
    requires a <= b && dpi > 0
    ensures LogicalPixels(a, dpi) <= LogicalPixels(b, dpi)
  {
    assert (a * 96) as real <= (b * 96) as real;
    DivMonotone((a * 96) as real, (b * 96) as real, dpi as real);
    TruncMonotone((a * 96) as real / dpi as real, (b * 96) as real / dpi as real);
  }

  // ---- asteroids/include/common.hpp ----

  /** `physical_pixels(logical, dpi)`: the product in unsigned 32-bit
      arithmetic, divided by 96 and truncated (not rounded up). */
  function LegacyPhysicalPixels(logical: int, dpi: int): int
  {
    Trunc(U32(logical * dpi) as real / 96.0)
  }

  /** `logical_pixels(physical, dpi)`: `physical * dpi / dpi`, computed in
      unsigned arithmetic and returned as `i32`. The density cancels; no
      factor 96 appears. */
  function LegacyLogicalPixels(physical: int, dpi: int): int
    requires dpi > 0
  {
    var q := Trunc(U32(physical * dpi) as real / dpi as real);
    assert 0 <= q < TwoTo32 by {
      DivByAtLeastOne(U32(physical * dpi) as real, dpi as real);
    }
    I32OfU32(q)
  }

  lemma DivByAtLeastOne(x: real, d: real)
    requires x >= 0.0 && d >= 1.0
    ensures 0.0 <= x / d <= x
  {
    var q := x / d;
    assert q * d == x;
    assert q >= 0.0;
    assert q * d >= q * 1.0;
  }

  /** Without wrap-around the older conversion is the floor of
      `logical * dpi / 96`. */
  lemma LegacyPhysicalPixelsIsFloor(logical: int, dpi: int)
    requires 0 <= logical * dpi < TwoTo32
    ensures LegacyPhysicalPixels(logical, dpi) * 96 <= logical * dpi
    ensures logical * dpi < (LegacyPhysicalPixels(logical, dpi) + 1) * 96
  {
    var p := logical * dpi;
    var r := LegacyPhysicalPixels(logical, dpi);
    assert r == (p as real / 96.0).Floor;
    assert (r * 96) as real <= p as real;
    assert p as real < ((r + 1) * 96) as real;
  }

  lemma LegacyPhysicalPixelsAtReferenceDpi(logical: int)
    requires 0 <= logical && logical * 96 < TwoTo32
    ensures LegacyPhysicalPixels(logical, 96) == logical
  {
    LegacyPhysicalPixelsIsFloor(logical, 96);
  }

  /** The two revisions differ exactly when `logical * dpi` is not a multiple
      of 96: the newer one rounds up, the older one down. */
  lemma RevisionsDifferOnFractions(logical: int, dpi: int)
    requires 0 <= logical * dpi < TwoTo32
    ensures (logical * dpi) % 96 == 0 ==> PhysicalPixels(logical, dpi) == LegacyPhysicalPixels(logical, dpi)
    ensures (logical * dpi) % 96 != 0 ==> PhysicalPixels(logical, dpi) == LegacyPhysicalPixels(logical, dpi) + 1
  {
    PhysicalPixelsIsCeiling(logical, dpi);
    LegacyPhysicalPixelsIsFloor(logical, dpi);
  }

  lemma LegacyPhysicalPixelsMonotone(a: int, b: int, dpi: int)
    requires 0 <= a <= b && dpi >= 0 && b * dpi < TwoTo32
    ensures LegacyPhysicalPixels(a, dpi) <= LegacyPhysicalPixels(b, dpi)
  {
    assert a * dpi <= b * dpi;
    LegacyPhysicalPixelsIsFloor(a, dpi);
    LegacyPhysicalPixelsIsFloor(b, dpi);
  }

  /** A negative logical size wraps round in the unsigned product, so the
      older conversion never yields a negative pixel count. */
  lemma LegacyPhysicalPixelsNeverNegative(logical: int, dpi: int)
    ensures LegacyPhysicalPixels(logical, dpi) >= 0
  {
  }

  /** The density cancels: without wrap-around the result is the input. */
  lemma LegacyLogicalPixelsIdentity(physical: int, dpi: int)
    requires dpi > 0 && 0 <= physical && physical * dpi < TwoTo31
    ensures LegacyLogicalPixels(physical, dpi) == physical
  {
    assert (physical * dpi) as real / dpi as real == physical as real;
  }
}
