/** Clipping samples to the range of a component. */
module Clipping {
  import opened Arithmetic

  datatype ClpRng = ClpRng(min: int, max: int) {
    predicate Has(v: int) {
      min <= v <= max
    }
  }

  function ClipPel(a: int, rng: ClpRng): int {
    Min(Max(rng.min, a), rng.max)
  }

  /** A value in range to which no other value in range is preferable: none is nearer to a. */
  ghost predicate Nearest(v: int, a: int, rng: ClpRng) {
    rng.Has(v) && forall u: int | rng.Has(u) :: Abs(v - a) <= Abs(u - a)
  }

  /** Clipping finds the one value in range that is nearest. */
  lemma ClipIsNearest(a: int, rng: ClpRng, v: int)
    requires rng.min <= rng.max
    ensures Nearest(v, a, rng) <==> v == ClipPel(a, rng)
  {
    assert rng.Has(ClipPel(a, rng));
  }
}
