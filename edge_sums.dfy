/**
 * The `i % 2` accumulators of `_size_with_rect` in clipper.py and of
 * `_rotation_with` in rotation.py: sums over the alternate
 * edges of a rectangle.
 */
module EdgeSums {
  /**
   * The sum of the elements at even (`parity` 0) or odd (`parity` 1)
   * positions: over the values of the four edges, the two vertical edges
   * lt->lb and rb->rt, or the two horizontal ones.
   */
  function ParitySum(rs: seq<real>, parity: int): real
    decreases |rs|
  {
    if rs == [] then 0.0
    else
      var n := |rs| - 1;
      ParitySum(rs[..n], parity) + (if n % 2 == parity then rs[n] else 0.0)
  }

  lemma ParitySumOfFour(rs: seq<real>)
    requires |rs| == 4
    ensures ParitySum(rs, 0) == rs[0] + rs[2] && ParitySum(rs, 1) == rs[1] + rs[3]
  {
    assert rs[..1][..0] == [] && rs[..2][..1] == rs[..1] && rs[..3][..2] == rs[..2];
    assert ParitySum(rs[..1], 0) == rs[0] && ParitySum(rs[..1], 1) == 0.0;
    assert ParitySum(rs[..2], 0) == rs[0] && ParitySum(rs[..2], 1) == rs[1];
    assert ParitySum(rs[..3], 0) == rs[0] + rs[2] && ParitySum(rs[..3], 1) == rs[1];
  }
}
