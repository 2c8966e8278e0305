/** The rejection sampler that draws client ids (A5/server.c:31-45). */
module Sampling {

  const RAND_MAX := 0x7fff_ffff
  const NUM_RAND: nat := RAND_MAX + 1  // how many values random() can return

  function BinSize(max: nat): nat {
    NUM_RAND / (max + 1)
  }

  function Defect(max: nat): nat {
    NUM_RAND % (max + 1)
  }

  /** The negated condition of the do-while loop. */
  predicate Accepted(max: nat, x: nat) {
    !(NUM_RAND - Defect(max) <= x)
  }

  datatype Draw = OutOfDraws | Drawn(value: nat)

  /** `random_at_most` on the values that successive calls of random() return; OutOfDraws when it
      would still be looping. used is the number of draws it consumed. */
  method RandomAtMost(max: nat, draws: seq<nat>) returns (r: Draw, used: nat)
    requires max < 0x7fff_ffff_ffff_ffff && forall i :: 0 <= i < |draws| ==> draws[i] <= RAND_MAX
    ensures r.Drawn? <==> exists i :: 0 <= i < |draws| && Accepted(max, draws[i])
    ensures used <= |draws| && forall i :: 0 <= i < used - 1 ==> !Accepted(max, draws[i])
    ensures r.Drawn? ==> 0 < used && Accepted(max, draws[used - 1])
    ensures r.Drawn? ==> BinSize(max) > 0 && r.value == draws[used - 1] / BinSize(max)
  {
    var num_bins, num_rand := max + 1, RAND_MAX + 1;
    var bin_size, defect := num_rand / num_bins, num_rand % num_bins;
    used := 0;
    while used < |draws|
      invariant used <= |draws|
      invariant forall i :: 0 <= i < used ==> !Accepted(max, draws[i])
    {
      var x := draws[used];
      used := used + 1;
      if !(num_rand - defect <= x) {
        AcceptedInRange(max, x);
        return Drawn(x / bin_size), used;
      }
    }
    r := OutOfDraws;
  }

  lemma BinsTimesSize(max: nat)
    ensures NUM_RAND == (max + 1) * BinSize(max) + Defect(max)
    ensures Defect(max) < max + 1
  {
  }

  /** An accepted draw is mapped into 0..max. */
  lemma AcceptedInRange(max: nat, x: nat)
    requires Accepted(max, x)
    ensures BinSize(max) > 0
    ensures x / BinSize(max) <= max
  {
    BinsTimesSize(max);
    var b := BinSize(max);
    if b > 0 {
      var q := x / b;
      assert x == q * b + x % b;
      if q > max {
        Monotone(max + 1, q, b);
      }
    }
  }

  lemma Monotone(x: nat, y: nat, b: nat)
    requires x <= y
    ensures x * b <= y * b
  {
    assert y * b == x * b + (y - x) * b;
  }

  /** Some draw can be accepted, that is the loop can end, exactly when max is at most RAND_MAX. */
  lemma CanAcceptIff(max: nat)
    ensures (exists x: nat :: x <= RAND_MAX && Accepted(max, x)) <==> max <= RAND_MAX
  {
    BinsTimesSize(max);
    if max <= RAND_MAX {
      assert 0 <= RAND_MAX && Accepted(max, 0);
    } else {
      assert BinSize(max) == 0;
      assert Defect(max) == NUM_RAND;
    }
  }

  /** The accepted values of random(). */
  function AcceptedDraws(max: nat): set<nat> {
    set x: nat | x <= RAND_MAX && Accepted(max, x)
  }

  /** The accepted draws are the largest multiple of the number of results: more than half of all
      possible draws. */
  lemma MostDrawsAccepted(max: nat)
    requires max <= 2147483647
    ensures |AcceptedDraws(max)| == 2147483648 - 2147483648 % (max + 1)
    ensures 2 * |AcceptedDraws(max)| > 2147483648
  {
    BinsTimesSize(max);
    assert BinSize(max) >= 1;
    assert (max + 1) * BinSize(max) >= (max + 1) * 1;
    IntervalSize(0, NUM_RAND - Defect(max));
    assert AcceptedDraws(max) == Interval(0, NUM_RAND - Defect(max));
  }

  lemma BinOfDraw(r: nat, x: nat, b: nat)
    requires b > 0
    ensures x / b == r <==> r * b <= x < (r + 1) * b
  {
    var q := x / b;
    assert x == q * b + x % b;
    if q < r {
      Monotone(q + 1, r, b);
    } else if q > r {
      Monotone(r + 1, q, b);
    }
  }

  predicate Between(lo: nat, x: nat, hi: nat) {
    lo <= x < hi
  }

  function Interval(lo: nat, hi: nat): set<nat> {
    set x: nat | x < hi && Between(lo, x, hi)
  }

  lemma {:induction false} IntervalSize(lo: nat, hi: nat)
    requires lo <= hi
    ensures |Interval(lo, hi)| == hi - lo
    decreases hi - lo
  {
    if lo < hi {
      IntervalSize(lo, hi - 1);
      assert Interval(lo, hi) == Interval(lo, hi - 1) + {hi - 1};
    } else {
      assert Interval(lo, hi) == {};
    }
  }

  /** The values of random() that are accepted and give r. */
  function Preimages(max: nat, r: nat): set<nat>
    requires max <= RAND_MAX
  {
    assert BinSize(max) > 0;
    set x: nat | x <= RAND_MAX && Accepted(max, x) && x / BinSize(max) == r
  }

  /** Exact uniformity: every result of 0..max comes from equally many accepted draws. */
  lemma ExactlyUniform(max: nat, r: nat)
    requires r <= max <= RAND_MAX
    ensures |Preimages(max, r)| == 2147483648 / (max + 1)
  {
    BinsTimesSize(max);
    var b := BinSize(max);
    assert b > 0;
    Monotone(r + 1, max + 1, b);
    forall x: nat ensures x in Preimages(max, r) <==> x in Interval(r * b, (r + 1) * b) {
      BinOfDraw(r, x, b);
    }
    assert Preimages(max, r) == Interval(r * b, (r + 1) * b);
    assert (r + 1) * b == r * b + b;
    IntervalSize(r * b, (r + 1) * b);
  }
}
