/** Counting the positions of a range that satisfy a property. */
module Counting {

  /** The positions `i` with `k <= i < n` satisfying `p`. */
  function Positions(n: nat, k: nat, p: int -> bool): set<int>
  {
    set i | k <= i < n && p(i)
  }

  /** Position `k` counts once when it satisfies `p`, the rest are counted
      from `k + 1`. */
  lemma PositionsStep(n: nat, k: nat, p: int -> bool)
    requires k < n
    ensures |Positions(n, k, p)| == (if p(k) then 1 else 0) + |Positions(n, k + 1, p)|
  {
    var all, later := Positions(n, k, p), Positions(n, k + 1, p);
    if p(k) {
      assert all == later + {k};
    } else {
      assert all == later;
    }
  }

  lemma PositionsEmpty(n: nat, p: int -> bool)
    ensures Positions(n, n, p) == {}
  {
  }
}
