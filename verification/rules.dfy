/** The transition rules applied to the target site: the noise rule and the three
    feedback (recruitment) tables.
 */
module Rules {
  import opened Marks

  /** Which enzymes the recruiter brings: both, the modifying one only, or the
      demodifying one only (Cases A, B and C of the cooperative comparison). */
  datatype Regime = Full | ModifyOnly | DemodifyOnly

  /** Noise conversion of a target mark for a uniform draw r in [0, 1):
      A and M decay to U with probability 1/3; U moves to A or to M with
      probability 1/3 each and otherwise stays U. */
  function Noise(x: Mark, r: real): (y: Mark)
    // A and M either keep their mark or decay to U, exactly when r < 1/3
    ensures x != U ==> (y == U <==> r < 1.0 / 3.0) && (y != U ==> y == x)
    // U is a three-way hub split at 1/3 and 2/3
    ensures x == U ==> (y == A <==> r < 1.0 / 3.0)
    ensures x == U ==> (y == M <==> 1.0 / 3.0 <= r < 2.0 / 3.0)
    ensures x == U ==> (y == U <==> 2.0 / 3.0 <= r)
  {
    if x == A && r < 1.0 / 3.0 then U
    else if x == U then
      (if r < 1.0 / 3.0 then A else if r < 2.0 / 3.0 then M else U)
    else if x == M && r < 1.0 / 3.0 then U
    else
      assert x != U && r >= 1.0 / 3.0;
      x
  }

  /** The full table: an M recruiter sends A to U and U to M; an A recruiter
      sends M to U and U to A. */
  function FullTable(x: Mark, recruiter: Mark): Mark
  {
    if recruiter == M then
      (if x == A then U else if x == U then M else x)
    else if recruiter == A then
      (if x == M then U else if x == U then A else x)
    else x
  }

  /** The modify-only table: only an unmodified target takes the recruiter's mark. */
  function ModifyTable(x: Mark, recruiter: Mark): Mark
  {
    if recruiter == M && x == U then M
    else if recruiter == A && x == U then A
    else x
  }

  /** The demodify-only table: only a target opposite to the recruiter is cleared. */
  function DemodifyTable(x: Mark, recruiter: Mark): Mark
  {
    if recruiter == M && x == A then U
    else if recruiter == A && x == M then U
    else x
  }

  /** The feedback conversion of target `x` recruited by a site marked `recruiter`. */
  function Feedback(regime: Regime, x: Mark, recruiter: Mark): (y: Mark)
    // an unmodified recruiter changes nothing, in every regime
    ensures recruiter == U ==> y == x
    // a target that already carries the recruiter's mark is left alone
    ensures x == recruiter ==> y == x
    // a change always goes through the hub U: never A <-> M in one conversion
    ensures y != x ==> x == U || y == U
    // a change moves the target one step towards the recruiter on the A - U - M axis
    ensures y != x ==> Pos(y) - Pos(x) == (if Pos(recruiter) > Pos(x) then 1 else -1)
    ensures regime == ModifyOnly && y != x ==> x == U && y == recruiter
    ensures regime == DemodifyOnly && y != x ==> x != U && y == U
  {
    match regime
    case Full => FullTable(x, recruiter)
    case ModifyOnly => ModifyTable(x, recruiter)
    case DemodifyOnly => DemodifyTable(x, recruiter)
  }

  /** With an A or M recruiter, the full table changes every target that does not
      already carry the recruiter's mark. */
  lemma FullChangesExactlyOtherMarks(x: Mark, recruiter: Mark)
    requires recruiter != U
    ensures Feedback(Full, x, recruiter) != x <==> x != recruiter
  {
  }

  /** The full table is the union of the two one-sided tables: whatever the
      modify-only table does to an unmodified target, and whatever the
      demodify-only table does to a marked one. */
  lemma FullIsUnionOfOneSided(x: Mark, recruiter: Mark)
    ensures Feedback(Full, x, recruiter)
            == if x == U then Feedback(ModifyOnly, x, recruiter)
               else Feedback(DemodifyOnly, x, recruiter)
  {
  }

  /** Neither noise nor feedback maps A directly to M or M directly to A. */
  lemma NoDirectFlip(regime: Regime, x: Mark, recruiter: Mark, r: real)
    ensures -1 <= Pos(Noise(x, r)) - Pos(x) <= 1
    ensures -1 <= Pos(Feedback(regime, x, recruiter)) - Pos(x) <= 1
  {
  }
}
