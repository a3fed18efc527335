/**
 * Distances along a recorded track. The great-circle formula itself
 * (`calculateDistance`) is not modelled: a `Metric` is any function from
 * two positions to a non-negative number of metres.
 */
module Geo {
  import opened Records

  type Metric = d: (Coord, Coord) -> real | forall p, q :: d(p, q) >= 0.0
    witness (p: Coord, q: Coord) => 0.0

  /** Length of a track: the sum of the distances between consecutive points. */
  function PathLength(d: Metric, cs: seq<Coord>): (r: real)
    ensures r >= 0.0
    decreases |cs|
  {
    if |cs| < 2 then 0.0 else d(cs[0], cs[1]) + PathLength(d, cs[1..])
  }

  /** Extending a track by one point adds the leg from its last point, and nothing for the first point. */
  lemma {:induction false} PathLengthSnoc(d: Metric, cs: seq<Coord>, c: Coord)
    ensures PathLength(d, cs + [c]) == PathLength(d, cs) + (if |cs| == 0 then 0.0 else d(cs[|cs| - 1], c))
    decreases |cs|
  {
    if |cs| >= 2 {
      assert (cs + [c])[1..] == cs[1..] + [c];
      PathLengthSnoc(d, cs[1..], c);
    }
  }

  /** A longer track is never shorter than any of its prefixes. */
  lemma {:induction false} PathLengthPrefix(d: Metric, cs: seq<Coord>, k: nat)
    requires k <= |cs|
    ensures PathLength(d, cs[..k]) <= PathLength(d, cs)
    decreases |cs| - k
  {
    if k < |cs| {
      assert cs[..k + 1] == cs[..k] + [cs[k]];
      PathLengthSnoc(d, cs[..k], cs[k]);
      PathLengthPrefix(d, cs, k + 1);
    } else {
      assert cs[..k] == cs;
    }
  }
}
