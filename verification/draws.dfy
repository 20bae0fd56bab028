/** The random draws of one call to a step function, passed in as values.

    A step function of the scripts consumes, in this order: the target index n1
    (`randint(N)`), the feedback-versus-noise coin (`rand()`), and then either the
    recruiter draws or the noise real r. The recruiter draws are one index n2
    (global, single), two indices n2, n3 (global, cooperative), a direction real
    (nearest neighbour), or a distance d and a direction real (power law).
    Fields that a given step function does not read are ignored by it.
 */
module RandomDraws {

  datatype Draws = Draws(
    n1: int,     // target index, uniform in [0, N)
    coin: real,  // feedback-versus-noise coin, uniform in [0, 1)
    n2: int,     // first (or only) global recruiter index, uniform in [0, N)
    n3: int,     // second global recruiter index, uniform in [0, N)
    side: real,  // direction coin of the spatial recruiters, uniform in [0, 1)
    dist: int,   // power-law distance, in [1, N - 1]
    r: real      // noise real, uniform in [0, 1)
  )

  /** What the random source guarantees about one set of draws for an array of
      `n` sites: indices in range and reals in [0, 1). The power-law distance is
      constrained only by the power-law step, which alone reads it. */
  predicate ValidDraws(d: Draws, n: nat)
  {
    && 0 <= d.n1 < n
    && 0 <= d.n2 < n
    && 0 <= d.n3 < n
    && 0.0 <= d.coin < 1.0
    && 0.0 <= d.side < 1.0
    && 0.0 <= d.r < 1.0
  }

  /** The distance drawn from `np.arange(1, N)`. */
  predicate ValidDistance(d: Draws, n: nat)
  {
    1 <= d.dist <= n - 1
  }
}
