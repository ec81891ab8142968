/** The hemisphere's two rotation angles and the sector they point at.
    Angles are integers in hundredths of a degree, the resolution the
    component displays (`toFixed(2)`). */
module Rotation {
  import opened JsMath
  import opened Catalog

  /** 360 degrees */
  const FULL_TURN: int := 36000
  /** 45 degrees: the vertical angle stays within plus or minus this. */
  const TILT_LIMIT: int := 4500
  /** The arc of horizontal turn that one sector covers, FULL_TURN / ROW_COUNT. */
  const SECTOR_ARC: int := 4500

  /** The vertical update `Math.max(-45, Math.min(45, prev + delta))`:
      the new angle is the point of the tilt range nearest to prev + delta. */
  function Tilt(prev: int, delta: int): (r: int)
    ensures -TILT_LIMIT <= r <= TILT_LIMIT
    ensures -TILT_LIMIT <= prev + delta <= TILT_LIMIT ==> r == prev + delta
    ensures prev + delta > TILT_LIMIT ==> r == TILT_LIMIT
    ensures prev + delta < -TILT_LIMIT ==> r == -TILT_LIMIT
  {
    Max(-TILT_LIMIT, Min(TILT_LIMIT, prev + delta))
  }

  /** The horizontal update as intended: prev + delta reduced into [0, FULL_TURN). */
  function Wrap(prev: int, delta: int): (r: int)
    ensures 0 <= r < FULL_TURN
    ensures (prev + delta - r) % FULL_TURN == 0
  {
    (prev + delta) % FULL_TURN
  }

  /** The horizontal update as the component writes it,
      `(prev + delta + 360) % 360` with JavaScript's signed `%`. */
  function WrapAsWritten(prev: int, delta: int): (r: int)
    ensures -FULL_TURN < r < FULL_TURN
    ensures prev + delta + FULL_TURN >= 0 ==> r >= 0
    ensures prev + delta + FULL_TURN < 0 ==> r <= 0
    ensures (prev + delta - r) % FULL_TURN == 0
  {
    JsRem(prev + delta + FULL_TURN, FULL_TURN)
  }

  /** The written update is the intended one whenever the sum it reduces is
      not negative; in particular for a start angle in [0, FULL_TURN) and any
      delta of at least minus a full turn. */
  lemma WrapAsWrittenAgrees(prev: int, delta: int)
    requires prev + delta + FULL_TURN >= 0
    ensures WrapAsWritten(prev, delta) == Wrap(prev, delta)
  {
  }

  /** 10 degrees turned by -30 degrees gives 340 degrees, by either update. */
  lemma TenMinusThirty()
    ensures Wrap(1000, -3000) == 34000
    ensures WrapAsWritten(1000, -3000) == 34000
  {
  }

  /** A turn of -400 degrees from 0 leaves the written update at -40 degrees,
      outside [0, 360); the intended update gives 320 degrees. */
  lemma WrapAsWrittenEscapes()
    ensures WrapAsWritten(0, -40000) == -4000
    ensures Wrap(0, -40000) == 32000
  {
  }

  /** The sector formula `Math.floor((h / 360) * sectors.length)`; Dafny's
      integer division by a positive divisor rounds down, as `Math.floor`. */
  function SectorOf(h: int): (i: int)
    ensures 0 <= h < FULL_TURN ==> 0 <= i < ROW_COUNT
  {
    h * ROW_COUNT / FULL_TURN
  }

  /** Sector i covers exactly the arc [i * SECTOR_ARC, (i + 1) * SECTOR_ARC). */
  lemma SectorSpan(h: int, i: int)
    requires 0 <= h < FULL_TURN
    ensures SectorOf(h) == i <==> i * SECTOR_ARC <= h < (i + 1) * SECTOR_ARC
  {
  }

  /** 0 degrees is in sector 0, 180 degrees in sector 4, 359.9 degrees in sector 7. */
  lemma SectorExamples()
    ensures SectorOf(0) == 0 && SectorOf(18000) == 4 && SectorOf(35990) == 7
  {
  }
}
