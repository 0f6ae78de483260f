/** Python's global `random` generator, as the game uses it. The generator is
    a hidden stateful object; here its outputs are fixed but arbitrary streams
    handed in at construction, and `drawn` counts how many draws were taken,
    so every draw reads the next element of a stream. */
module Randomness {
  import opened Geometry

  /** `random.randint(lo, hi)` from a raw draw: always within [lo, hi]. */
  function ScaleInt(raw: int, lo: int, hi: int): (r: int)
    requires lo <= hi
    ensures lo <= r <= hi
  {
    lo + raw % (hi - lo + 1)
  }

  /** `random.uniform(lo, hi)` is `lo + (hi - lo) * random()` with
      `random()` in [0, 1): the result lies between the two bounds. */
  function ScaleReal(unit: real, lo: real, hi: real): (r: real)
    requires 0.0 <= unit < 1.0
    ensures lo <= hi ==> lo <= r <= hi
    ensures hi <= lo ==> hi <= r <= lo
  {
    var span := hi - lo;
    assert span >= 0.0 ==> 0.0 <= span * unit <= span by {
      if span >= 0.0 { assert span * unit <= span * 1.0; }
    }
    assert span <= 0.0 ==> span <= span * unit <= 0.0 by {
      if span <= 0.0 { assert span * 1.0 <= span * unit; }
    }
    lo + span * unit
  }

  class Rng {
    /** Raw integers behind `randint`. */
    const ints: nat -> int
    /** The values of `random()`, each in [0, 1). */
    const units: nat -> real
    /** (cos a, sin a) for an angle a drawn uniformly from [0, 2π). */
    const directions: nat -> Vec
    /** How many draws have been taken so far. */
    var drawn: nat

    ghost predicate Valid()
    {
      forall i :: 0.0 <= units(i) < 1.0
    }

    constructor (ints: nat -> int, units: nat -> real, directions: nat -> Vec)
      requires forall i :: 0.0 <= units(i) < 1.0
      ensures Valid()
      ensures this.ints == ints && this.units == units && this.directions == directions
      ensures drawn == 0
    {
      this.ints := ints;
      this.units := units;
      this.directions := directions;
      drawn := 0;
    }

    method RandInt(lo: int, hi: int) returns (r: int)
      requires lo <= hi
      modifies this`drawn
      ensures lo <= r <= hi
      ensures r == ScaleInt(ints(old(drawn)), lo, hi)
      ensures drawn == old(drawn) + 1
    {
      r := ScaleInt(ints(drawn), lo, hi);
      drawn := drawn + 1;
    }

    method Uniform(lo: real, hi: real) returns (r: real)
      requires Valid()
      modifies this`drawn
      ensures lo <= hi ==> lo <= r <= hi
      ensures hi <= lo ==> hi <= r <= lo
      ensures r == ScaleReal(units(old(drawn)), lo, hi)
      ensures drawn == old(drawn) + 1
    {
      r := ScaleReal(units(drawn), lo, hi);
      drawn := drawn + 1;
    }

    /** `random.uniform(0, 2π)` followed by (cos, sin) of the result. */
    method Direction() returns (d: Vec)
      modifies this`drawn
      ensures d == directions(old(drawn))
      ensures drawn == old(drawn) + 1
    {
      d := directions(drawn);
      drawn := drawn + 1;
    }
  }
}
