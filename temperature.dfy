/** The temperature rule of main.py: a sunlit column warms toward 1, a shaded
    column cools toward 0. */
module Temperature {
  import opened Builtins
  import opened Shading

  /** Warming rate of a sunlit column, per second. */
  const SunRate: real := 0.2
  /** Cooling rate of a shaded column, per second. */
  const ShadeRate: real := 0.3

  /** New temperature of one column from its old temperature and its shade entry. */
  function NewTemp(t: real, shade: real, dt: real): (r: real)
    ensures shade == Sunlit ==> r <= 1.0
    ensures shade != Sunlit ==> 0.0 <= r
  {
    if shade == Sunlit then Min(1.0, t + SunRate * dt) else Max(0.0, t - ShadeRate * dt)
  }

  /** Temperatures in [0, 1] stay in [0, 1]. */
  lemma NewTempInUnit(t: real, shade: real, dt: real)
    requires 0.0 <= t <= 1.0 && 0.0 <= dt
    ensures 0.0 <= NewTemp(t, shade, dt) <= 1.0
  {
  }

  /** A sunlit column never cools below where it was (below the cap), and warms by
      exactly `0.2 * dt` until it reaches 1. */
  lemma SunlitWarms(t: real, dt: real)
    requires t <= 1.0 && 0.0 <= dt
    ensures t <= NewTemp(t, Sunlit, dt) <= 1.0
    ensures NewTemp(t, Sunlit, dt) == if t + SunRate * dt <= 1.0 then t + SunRate * dt else 1.0
  {
  }

  /** A shaded column never warms above where it was (above the floor), and cools by
      exactly `0.3 * dt` until it reaches 0. */
  lemma ShadedCools(t: real, shade: real, dt: real)
    requires shade != Sunlit && 0.0 <= t && 0.0 <= dt
    ensures 0.0 <= NewTemp(t, shade, dt) <= t
    ensures NewTemp(t, shade, dt) == if 0.0 <= t - ShadeRate * dt then t - ShadeRate * dt else 0.0
  {
  }

  /** Only whether the column is sunlit matters, not how tall its shade is. */
  lemma ShadeHeightIrrelevant(t: real, s1: real, s2: real, dt: real)
    requires s1 != Sunlit && s2 != Sunlit
    ensures NewTemp(t, s1, dt) == NewTemp(t, s2, dt)
  {
  }
}
