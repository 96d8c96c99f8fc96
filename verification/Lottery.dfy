/** The weighted lottery behind the auction winner and the block creator: a draw is
    reduced modulo the 64-bit total and walks the running total of the weights. */
module Lottery {
  import opened Wrappers
  import opened Decimal
  import opened Sums

  /** The uint64 running total after the first k weights; it wraps as Go's does. */
  function Running(w: seq<nat>, k: nat): nat
    requires k <= |w|
  {
    Sum(w[..k]) % U64
  }

  ghost predicate AllAtMost(w: seq<nat>, k: nat, r: int)
    requires k <= |w|
  {
    forall j: nat :: 0 < j <= k ==> Running(w, j) <= r
  }

  /** Index i is the first whose running total exceeds r. */
  ghost predicate Picks(w: seq<nat>, r: int, i: nat) {
    i < |w| && r < Running(w, i + 1) && AllAtMost(w, i, r)
  }

  /** The residues of the draw that select index i. */
  ghost function Residues(w: seq<nat>, i: nat): set<int> {
    set r: int | 0 <= r < Running(w, |w|) && Picks(w, r, i)
  }

  lemma RunningStep(w: seq<nat>, k: nat)
    requires k < |w|
    ensures Sum(w[..k + 1]) == Sum(w[..k]) + w[k]
    ensures Running(w, k + 1) == (Running(w, k) + w[k]) % U64
  {
    assert w[..k + 1][..k] == w[..k];
  }

  /** The draw itself, as both callers perform it. A zero total draws nobody. */
  method Draw(weights: seq<nat>, random: nat) returns (choice: Option<nat>)
    ensures choice.None? <==> Running(weights, |weights|) == 0
    ensures choice.Some? ==> Picks(weights, random % Running(weights, |weights|), choice.value)
  {
    var total := 0;
    for i := 0 to |weights|
      invariant total == Running(weights, i)
    {
      RunningStep(weights, i);
      total := (total + weights[i]) % U64;
    }
    if total == 0 {
      return None;
    }
    var r := random % total;
    var current := 0;
    for i := 0 to |weights|
      invariant current == Running(weights, i)
      invariant AllAtMost(weights, i, r)
    {
      RunningStep(weights, i);
      current := (current + weights[i]) % U64;
      if r < current {
        return Some(i);
      }
    }
    assert false;
  }

  /** The fallback to the first entry is never reached, even when the total wraps:
      the last running total is the modulus of the draw. */
  lemma FallbackUnreachable(w: seq<nat>, r: nat)
    requires r < Running(w, |w|)
    ensures exists i :: Picks(w, r, i)
  {
    var i := FirstAbove(w, r, |w|);
  }

  lemma {:induction false} FirstAbove(w: seq<nat>, r: nat, k: nat) returns (i: nat)
    requires k <= |w|
    requires r < Running(w, k)
    ensures Picks(w, r, i)
  {
    if AllAtMost(w, k - 1, r) {
      i := k - 1;
    } else {
      var j: nat :| 0 < j <= k - 1 && r < Running(w, j);
      i := FirstAbove(w, r, j);
    }
  }

  /** At most one index answers a draw. */
  lemma PickUnique(w: seq<nat>, r: int, i: nat, j: nat)
    requires Picks(w, r, i) && Picks(w, r, j)
    ensures i == j
  {
  }

  /** An entry of weight zero is never selected, with or without wrap-around. */
  lemma ZeroNeverPicked(w: seq<nat>, r: nat, i: nat)
    requires Picks(w, r, i)
    ensures w[i] != 0
  {
    RunningStep(w, i);
  }

  predicate Within(lo: int, r: int, hi: int) {
    lo <= r < hi
  }

  ghost function Interval(lo: int, hi: int): set<int> {
    set r: int | lo <= r < hi && Within(lo, r, hi)
  }

  lemma {:induction false} IntervalSize(lo: int, hi: int)
    requires lo <= hi
    ensures |Interval(lo, hi)| == hi - lo
    decreases hi - lo
  {
    if lo < hi {
      IntervalSize(lo, hi - 1);
      assert Interval(lo, hi) == Interval(lo, hi - 1) + {hi - 1};
    } else {
      assert Interval(lo, hi) == {};
    }
  }

  lemma NoWrap(w: seq<nat>, k: nat)
    requires Sum(w) < U64
    requires k <= |w|
    ensures Running(w, k) == Sum(w[..k])
    ensures 0 <= Sum(w[..k]) <= Sum(w)
  {
    SumNonNegative(w[..k]);
    SumPrefix(w, k, |w|);
    assert w[..|w|] == w;
  }

  /** While the weights fit in 64 bits, index i owns one interval of residues. */
  lemma ResiduesAreInterval(w: seq<nat>, i: nat)
    requires Sum(w) < U64
    requires i < |w|
    ensures Residues(w, i) == Interval(Sum(w[..i]), Sum(w[..i + 1]))
  {
    NoWrap(w, i);
    NoWrap(w, i + 1);
    NoWrap(w, |w|);
    assert w[..|w|] == w;
    forall r: int
      ensures r in Residues(w, i) <==> r in Interval(Sum(w[..i]), Sum(w[..i + 1]))
    {
      if r in Interval(Sum(w[..i]), Sum(w[..i + 1])) {
        forall j: nat | 0 < j <= i ensures Running(w, j) <= r {
          NoWrap(w, j);
          SumPrefix(w, j, i);
        }
      }
      if r in Residues(w, i) && i > 0 {
        assert Running(w, i) <= r;
      }
    }
  }

  ghost function PickedBefore(w: seq<nat>, k: nat): set<int> {
    set r: int, i: nat | 0 <= r < Running(w, |w|) && i < k && Picks(w, r, i) :: r
  }

  ghost function Shares(w: seq<nat>): seq<int> {
    seq(|w|, i requires 0 <= i < |w| => |Residues(w, i)|)
  }

  /** The shares of distinct indices are disjoint, so they add up. */
  lemma {:induction false} SharesAddUp(w: seq<nat>, k: nat)
    requires k <= |w|
    ensures |PickedBefore(w, k)| == Sum(Shares(w)[..k])
  {
    if k == 0 {
      NonePicked(w);
    } else {
      SharesAddUp(w, k - 1);
      PickedNext(w, k - 1);
      SharesNext(w, k - 1);
    }
  }

  lemma SharesNext(w: seq<nat>, k: nat)
    requires k < |w|
    ensures Sum(Shares(w)[..k + 1]) == Sum(Shares(w)[..k]) + |Residues(w, k)|
  {
    assert Shares(w)[..k + 1][..k] == Shares(w)[..k];
  }

  lemma PickedNext(w: seq<nat>, k: nat)
    requires k < |w|
    ensures |PickedBefore(w, k + 1)| == |PickedBefore(w, k)| + |Residues(w, k)|
  {
    assert PickedBefore(w, k + 1) == PickedBefore(w, k) + Residues(w, k);
    assert PickedBefore(w, k) !! Residues(w, k);
  }

  lemma NonePicked(w: seq<nat>)
    ensures |PickedBefore(w, 0)| == 0 && Sum(Shares(w)[..0]) == 0
  {
    assert PickedBefore(w, 0) == {};
  }

  /** Over all residues of the draw, every index is selected exactly as often as its
      weight says if and only if the weights sum below 2^64. */
  lemma ExactlyProportional(w: seq<nat>)
    ensures (forall i :: 0 <= i < |w| ==> |Residues(w, i)| == w[i]) <==> Sum(w) < U64
  {
    if Sum(w) < U64 {
      forall i | 0 <= i < |w| ensures |Residues(w, i)| == w[i] {
        ResiduesAreInterval(w, i);
        RunningStep(w, i);
        IntervalSize(Sum(w[..i]), Sum(w[..i + 1]));
      }
    }
    if forall i :: 0 <= i < |w| ==> |Residues(w, i)| == w[i] {
      assert Shares(w)[..|w|] == w;
      SharesAddUp(w, |w|);
      IntervalSize(0, Running(w, |w|));
      SubsetSize(PickedBefore(w, |w|), Interval(0, Running(w, |w|)));
    }
  }

  lemma SubsetSize(a: set<int>, b: set<int>)
    requires a <= b
    ensures |a| <= |b|
  {
    assert b == a + (b - a);
  }
}
