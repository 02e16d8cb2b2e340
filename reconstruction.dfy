/** Probabilistic parent inference for one reshare event
    (`power_law` and `get_who_rtd_whom`).

    Every earlier participant of the cascade is a candidate parent.  Its
    weight mixes two distributions with weight `gamma`: its follower count
    relative to the candidates' total, and a power-law decay of the time
    elapsed since it took part.  One candidate is then drawn.

    Floats are exact reals.  A vector holding a NaN or an infinity (what a
    division by a zero total produces) is `None`.  The draw follows numpy's
    `choice(a, p=p)`: it validates `p`, then picks the first index whose
    cumulative weight, divided by the total weight, exceeds a uniform
    sample `u` in [0, 1); `u` is a parameter. */
module Reconstruction {
  import opened Wrappers
  import opened CascadeTree

  // ---------------------------------------------------------------------
  // Sums and vector arithmetic
  // ---------------------------------------------------------------------

  function Sum(xs: seq<real>): real {
    if |xs| == 0 then 0.0 else xs[0] + Sum(xs[1..])
  }

  predicate NonNegative(xs: seq<real>) {
    forall i :: 0 <= i < |xs| ==> xs[i] >= 0.0
  }

  lemma {:induction false} SumNonNegative(xs: seq<real>)
    requires NonNegative(xs)
    ensures Sum(xs) >= 0.0
    decreases |xs|
  {
    if |xs| > 0 {
      SumNonNegative(xs[1..]);
    }
  }

  /** All entries positive and at least one of them: a positive total. */
  lemma {:induction false} SumPositive(xs: seq<real>)
    requires |xs| > 0 && forall i :: 0 <= i < |xs| ==> xs[i] > 0.0
    ensures Sum(xs) > 0.0
    decreases |xs|
  {
    if |xs| > 1 {
      SumPositive(xs[1..]);
    }
  }

  /** `c * xs`, numpy's scalar-times-array. */
  function Scale(c: real, xs: seq<real>): (r: seq<real>)
    ensures |r| == |xs| && forall i :: 0 <= i < |xs| ==> r[i] == c * xs[i]
  {
    seq(|xs|, i requires 0 <= i < |xs| => c * xs[i])
  }

  lemma {:induction false} SumScale(c: real, xs: seq<real>)
    ensures Sum(Scale(c, xs)) == c * Sum(xs)
    decreases |xs|
  {
    if |xs| > 0 {
      SumScale(c, xs[1..]);
      ScaleTail(c, xs);
      ScaleStep(c, xs[0], Sum(xs[1..]), Sum(Scale(c, xs[1..])));
    }
  }

  lemma ScaleTail(c: real, xs: seq<real>)
    requires |xs| > 0
    ensures Scale(c, xs)[1..] == Scale(c, xs[1..])
  {
    var r := Scale(c, xs);
    forall k | 0 <= k < |xs| - 1 ensures r[1..][k] == Scale(c, xs[1..])[k] {
      assert xs[1..][k] == xs[k + 1];
    }
  }

  lemma ScaleStep(c: real, x: real, rest: real, scaledRest: real)
    requires scaledRest == c * rest
    ensures c * x + scaledRest == c * (x + rest)
  {
  }

  /** `xs / t`, numpy's array-over-scalar. */
  function Divide(xs: seq<real>, t: real): (r: seq<real>)
    requires t != 0.0
    ensures |r| == |xs| && forall i :: 0 <= i < |xs| ==> r[i] == xs[i] / t
  {
    seq(|xs|, i requires 0 <= i < |xs| => xs[i] / t)
  }

  lemma DivAdd(a: real, b: real, t: real)
    requires t != 0.0
    ensures a / t + b / t == (a + b) / t
  {
  }

  lemma {:induction false} SumDivide(xs: seq<real>, t: real)
    requires t != 0.0
    ensures Sum(Divide(xs, t)) == Sum(xs) / t
    decreases |xs|
  {
    if |xs| > 0 {
      var r := Divide(xs, t);
      SumDivide(xs[1..], t);
      assert r[1..] == Divide(xs[1..], t);
      DivAdd(xs[0], Sum(xs[1..]), t);
    }
  }

  /** Dividing by a positive total keeps signs and order. */
  lemma DivPositive(a: real, b: real, t: real)
    requires t > 0.0
    ensures a >= 0.0 ==> a / t >= 0.0
    ensures a < b <==> a / t < b / t
  {
    assert a / t * t == a;
    assert b / t * t == b;
    if a < b {
      assert (b - a) / t > 0.0;
      DivAdd(a, b - a, t);
    } else {
      assert (a - b) / t >= 0.0;
      DivAdd(b, a - b, t);
    }
  }

  /** `xs + ys`, numpy's element-wise sum of equal-length arrays. */
  function Add(xs: seq<real>, ys: seq<real>): (r: seq<real>)
    requires |xs| == |ys|
    ensures |r| == |xs| && forall i :: 0 <= i < |xs| ==> r[i] == xs[i] + ys[i]
  {
    seq(|xs|, i requires 0 <= i < |xs| => xs[i] + ys[i])
  }

  lemma {:induction false} SumAdd(xs: seq<real>, ys: seq<real>)
    requires |xs| == |ys|
    ensures Sum(Add(xs, ys)) == Sum(xs) + Sum(ys)
    decreases |xs|
  {
    if |xs| > 0 {
      SumAdd(xs[1..], ys[1..]);
      assert Add(xs, ys)[1..] == Add(xs[1..], ys[1..]);
    }
  }

  // ---------------------------------------------------------------------
  // The two distributions and their mix
  // ---------------------------------------------------------------------

  /** `xs / xs.sum()`: `None` when a non-empty vector has a zero total,
      since every entry is then NaN or infinite.  Otherwise each entry is
      its share of the total, and the shares add up to 1. */
  function Normalize(xs: seq<real>): (r: Option<seq<real>>)
    ensures r.None? <==> |xs| > 0 && Sum(xs) == 0.0
    ensures r.Some? ==> |r.value| == |xs|
    ensures r.Some? && |xs| > 0 ==>
              Sum(r.value) == 1.0 && forall i :: 0 <= i < |xs| ==> r.value[i] == xs[i] / Sum(xs)
  {
    if |xs| == 0 then Some([])
    else if Sum(xs) == 0.0 then None
    else
      var total := Sum(xs);
      SumDivide(xs, total);
      assert total / total == 1.0;
      Some(Divide(xs, total))
  }

  /** Normalizing non-negative weights keeps every entry non-negative and
      keeps their order: a larger weight gets a larger probability. */
  lemma NormalizeKeepsOrder(xs: seq<real>, i: nat, j: nat)
    requires NonNegative(xs) && Sum(xs) > 0.0
    requires i < |xs| && j < |xs|
    ensures Normalize(xs).Some? && NonNegative(Normalize(xs).value)
    ensures xs[i] < xs[j] <==> Normalize(xs).value[i] < Normalize(xs).value[j]
  {
    var total := Sum(xs);
    var p := Normalize(xs).value;
    forall k | 0 <= k < |xs| ensures p[k] >= 0.0 {
      DivPositive(xs[k], xs[k], total);
    }
    DivPositive(xs[i], xs[j], total);
  }

  /** Follower-count probabilities: each count over the total count. */
  function FollowerProbs(fcounts: seq<real>): Option<seq<real>>
  {
    Normalize(fcounts)
  }

  /** The time gap of each candidate, `curr_tstamp - tstamp`, plus 0.1. */
  function Gaps(tstamps: seq<int>, curr: int): (r: seq<real>)
    ensures |r| == |tstamps|
    ensures forall i :: 0 <= i < |tstamps| ==> r[i] == (curr - tstamps[i]) as real + 0.1
  {
    seq(|tstamps|, i requires 0 <= i < |tstamps| => (curr - tstamps[i]) as real + 0.1)
  }

  /** The decay applied to each gap (the `power_law` values, before
      normalization). */
  function DecayValues(decay: real -> real, gaps: seq<real>): (r: seq<real>)
    ensures |r| == |gaps| && forall i :: 0 <= i < |gaps| ==> r[i] == decay(gaps[i])
  {
    seq(|gaps|, i requires 0 <= i < |gaps| => decay(gaps[i]))
  }

  /** Time probabilities: the decay of each gap over the sum of decays. */
  function TimeProbs(decay: real -> real, tstamps: seq<int>, curr: int): Option<seq<real>>
  {
    Normalize(DecayValues(decay, Gaps(tstamps, curr)))
  }

  /** The windowed power law: positive, and strictly smaller for a larger
      gap, wherever the gap is positive. */
  ghost predicate ValidDecay(decay: real -> real) {
    (forall x :: x > 0.0 ==> decay(x) > 0.0) &&
    (forall x, y :: 0.0 < x < y ==> decay(y) < decay(x))
  }

  /** `gamma * p_follow + (1 - gamma) * p_time`; a non-finite operand makes
      the result non-finite (`0 * NaN` is NaN). */
  function Mix(gamma: real, pf: Option<seq<real>>, pt: Option<seq<real>>): (r: Option<seq<real>>)
    requires pf.Some? && pt.Some? ==> |pf.value| == |pt.value|
    ensures r.Some? <==> pf.Some? && pt.Some?
    ensures r.Some? ==> |r.value| == |pf.value|
  {
    if pf.None? || pt.None? then None
    else Some(Add(Scale(gamma, pf.value), Scale(1.0 - gamma, pt.value)))
  }

  /** For gamma in [0, 1], mixing two distributions gives a distribution. */
  lemma MixIsDistribution(gamma: real, pf: seq<real>, pt: seq<real>)
    requires 0.0 <= gamma <= 1.0 && |pf| == |pt|
    requires NonNegative(pf) && NonNegative(pt) && Sum(pf) == 1.0 && Sum(pt) == 1.0
    ensures NonNegative(Mix(gamma, Some(pf), Some(pt)).value)
    ensures Sum(Mix(gamma, Some(pf), Some(pt)).value) == 1.0
  {
    MixValue(gamma, pf, pt);
    MixNonNegative(gamma, pf, pt);
    MixSumOfDistributions(gamma, pf, pt);
  }

  lemma MixValue(gamma: real, pf: seq<real>, pt: seq<real>)
    requires |pf| == |pt|
    ensures Mix(gamma, Some(pf), Some(pt)) == Some(Add(Scale(gamma, pf), Scale(1.0 - gamma, pt)))
  {
  }

  lemma MixSumOfDistributions(gamma: real, pf: seq<real>, pt: seq<real>)
    requires |pf| == |pt| && Sum(pf) == 1.0 && Sum(pt) == 1.0
    ensures Sum(Add(Scale(gamma, pf), Scale(1.0 - gamma, pt))) == 1.0
  {
    SumAdd(Scale(gamma, pf), Scale(1.0 - gamma, pt));
    SumScaleOfDistribution(gamma, pf);
    SumScaleOfDistribution(1.0 - gamma, pt);
  }

  lemma SumScaleOfDistribution(c: real, xs: seq<real>)
    requires Sum(xs) == 1.0
    ensures Sum(Scale(c, xs)) == c
  {
    SumScale(c, xs);
  }

  lemma MixNonNegative(gamma: real, pf: seq<real>, pt: seq<real>)
    requires 0.0 <= gamma <= 1.0 && |pf| == |pt|
    requires NonNegative(pf) && NonNegative(pt)
    ensures NonNegative(Add(Scale(gamma, pf), Scale(1.0 - gamma, pt)))
  {
    var m := Add(Scale(gamma, pf), Scale(1.0 - gamma, pt));
    forall i | 0 <= i < |m| ensures m[i] >= 0.0 {
      MulNonNegative(gamma, pf[i]);
      MulNonNegative(1.0 - gamma, pt[i]);
    }
  }

  lemma MulNonNegative(x: real, y: real)
    requires x >= 0.0 && y >= 0.0
    ensures x * y >= 0.0
  {
  }

  /** gamma = 1 keeps only the follower distribution, gamma = 0 only the
      time distribution. */
  lemma MixExtremes(pf: seq<real>, pt: seq<real>)
    requires |pf| == |pt|
    ensures Mix(1.0, Some(pf), Some(pt)) == Some(pf)
    ensures Mix(0.0, Some(pf), Some(pt)) == Some(pt)
  {
    assert Mix(1.0, Some(pf), Some(pt)).value == pf;
    assert Mix(0.0, Some(pf), Some(pt)).value == pt;
  }

  /** The combined weight vector `indiv_probs`. */
  function IndivProbs(decay: real -> real, tstamps: seq<int>, fcounts: seq<real>,
                      curr: int, gamma: real): (r: Option<seq<real>>)
    requires |tstamps| == |fcounts|
    ensures r.Some? ==> |r.value| == |fcounts|
    ensures r.Some? <==> FollowerProbs(fcounts).Some? && TimeProbs(decay, tstamps, curr).Some?
  {
    Mix(gamma, FollowerProbs(fcounts), TimeProbs(decay, tstamps, curr))
  }

  // ---------------------------------------------------------------------
  // numpy.random.choice(a, p=p)
  // ---------------------------------------------------------------------

  /** numpy's tolerance on the sum of `p`, `sqrt` of the float64 epsilon. */
  const SumTolerance: real := 0.000000014901161193847656

  /** How many leading prefix sums of `p` are at most `target`
      (`cumsum(p).searchsorted(target, side='right')`). */
  function SearchRight(p: seq<real>, target: real): (i: nat)
    ensures i <= |p|
  {
    if |p| == 0 || target < p[0] then 0
    else 1 + SearchRight(p[1..], target - p[0])
  }

  /** On non-negative weights, a target in [0, total) lands on an index
      of positive weight: the weights before it add up to at most the
      target, and with it they exceed the target. */
  lemma {:induction false} SearchRightInRange(p: seq<real>, target: real)
    requires NonNegative(p) && 0.0 <= target < Sum(p)
    ensures SearchRight(p, target) < |p|
    ensures p[SearchRight(p, target)] > 0.0
    ensures Sum(p[..SearchRight(p, target)]) <= target < Sum(p[..SearchRight(p, target) + 1])
    decreases |p|
  {
    var i := SearchRight(p, target);
    if target < p[0] {
      assert p[..1] == [p[0]];
      assert Sum([p[0]]) == p[0] + Sum([p[0]][1..]);
    } else {
      SearchRightInRange(p[1..], target - p[0]);
      var j := SearchRight(p[1..], target - p[0]);
      assert p[..i][1..] == p[1..][..j];
      assert p[..i + 1][1..] == p[1..][..j + 1];
    }
  }

  /** The index numpy's `choice` draws for a uniform sample `u`, or the
      ValueError it raises: empty `a`, sizes of `a` and `p` differing,
      a non-finite weight, a negative weight, or weights not summing to 1
      within the tolerance. */
  function Choice(n: nat, p: Option<seq<real>>, u: real): (r: Result<nat>)
    requires 0.0 <= u < 1.0
    ensures r.Ok? ==> p.Some? && r.value < n && r.value < |p.value| && p.value[r.value] > 0.0
    ensures r.Ok? <==> n > 0 && p.Some? && |p.value| == n && NonNegative(p.value) &&
                       -SumTolerance <= Sum(p.value) - 1.0 <= SumTolerance
  {
    if n == 0 then Err(ValueError)
    else if p.None? || |p.value| != n then Err(ValueError)
    else if !NonNegative(p.value) then Err(ValueError)
    else if Sum(p.value) - 1.0 > SumTolerance || 1.0 - Sum(p.value) > SumTolerance then Err(ValueError)
    else
      var total := Sum(p.value);
      var target := u * total;
      SampleBelowTotal(u, total, target);
      SearchRightInRange(p.value, target);
      Ok(SearchRight(p.value, target))
  }

  /** A uniform sample scaled by a total within the tolerance of 1 falls
      inside the total. */
  lemma SampleBelowTotal(u: real, t: real, target: real)
    requires 0.0 <= u < 1.0 && -SumTolerance <= t - 1.0 && target == u * t
    ensures 0.0 <= target < t
  {
    assert t > 0.0;
    assert t - target == (1.0 - u) * t;
    assert (1.0 - u) * t > 0.0;
  }

  // ---------------------------------------------------------------------
  // get_who_rtd_whom
  // ---------------------------------------------------------------------

  /** The candidate a reshare at time `curr` is attributed to, for the
      uniform sample `u`; candidates' timestamps and follower counts are
      aligned with `users`. */
  function WhoRetweetedWhom(decay: real -> real, users: seq<UserId>, tstamps: seq<int>,
                            fcounts: seq<real>, curr: int, gamma: real, u: real): (r: Result<UserId>)
    requires |users| == |tstamps| == |fcounts|
    requires 0.0 <= u < 1.0
    ensures r.Ok? ==> r.value in users
  {
    match Choice(|users|, IndivProbs(decay, tstamps, fcounts, curr, gamma), u)
    case Err(e) => Err(e)
    case Ok(i) => Ok(users[i])
  }

  /** The index-level draw behind `WhoRetweetedWhom`. */
  function ParentIndex(decay: real -> real, tstamps: seq<int>, fcounts: seq<real>,
                       curr: int, gamma: real, u: real): (r: Result<nat>)
    requires |tstamps| == |fcounts|
    requires 0.0 <= u < 1.0
    ensures r.Ok? ==> r.value < |fcounts|
  {
    Choice(|fcounts|, IndivProbs(decay, tstamps, fcounts, curr, gamma), u)
  }

  lemma WhoRetweetedWhomIsParentIndex(decay: real -> real, users: seq<UserId>, tstamps: seq<int>,
                                      fcounts: seq<real>, curr: int, gamma: real, u: real)
    requires |users| == |tstamps| == |fcounts|
    requires 0.0 <= u < 1.0
    ensures var r := WhoRetweetedWhom(decay, users, tstamps, fcounts, curr, gamma, u);
            var k := ParentIndex(decay, tstamps, fcounts, curr, gamma, u);
            r.Ok? <==> k.Ok? && (k.Ok? ==> r.value == users[k.value])
  {
  }

  /** The well-formed case: with gamma in [0, 1], non-negative follower
      counts of positive total, earlier timestamps and a valid decay, the
      draw succeeds, and it never picks a candidate of zero weight. */
  lemma {:induction false} ParentIndexSucceeds(decay: real -> real, tstamps: seq<int>, fcounts: seq<real>,
                                               curr: int, gamma: real, u: real)
    requires |tstamps| == |fcounts| > 0
    requires 0.0 <= u < 1.0 && 0.0 <= gamma <= 1.0
    requires NonNegative(fcounts) && Sum(fcounts) > 0.0
    requires forall i :: 0 <= i < |tstamps| ==> tstamps[i] <= curr
    requires ValidDecay(decay)
    ensures var r := ParentIndex(decay, tstamps, fcounts, curr, gamma, u);
            r.Ok? && r.value < |fcounts| &&
            IndivProbs(decay, tstamps, fcounts, curr, gamma).value[r.value] > 0.0
  {
    var d := DecayValues(decay, Gaps(tstamps, curr));
    forall i | 0 <= i < |d| ensures d[i] > 0.0 {
      assert Gaps(tstamps, curr)[i] > 0.0;
    }
    SumPositive(d);
    forall i | 0 <= i < |d| ensures d[i] >= 0.0 {
    }
    var pf := FollowerProbs(fcounts).value;
    var pt := TimeProbs(decay, tstamps, curr).value;
    NormalizeKeepsOrder(fcounts, 0, 0);
    NormalizeKeepsOrder(d, 0, 0);
    MixIsDistribution(gamma, pf, pt);
  }

  /** A zero follower total (every count zero, say) always makes the draw
      raise, whatever gamma is. */
  lemma ZeroFollowersFail(decay: real -> real, tstamps: seq<int>, fcounts: seq<real>,
                          curr: int, gamma: real, u: real)
    requires |tstamps| == |fcounts| > 0
    requires 0.0 <= u < 1.0 && Sum(fcounts) == 0.0
    ensures ParentIndex(decay, tstamps, fcounts, curr, gamma, u) == Err(ValueError)
  {
  }

  /** An earlier candidate (larger gap) gets a strictly smaller time
      probability than a later one under a valid decay. */
  lemma TimeProbsFavourRecent(decay: real -> real, tstamps: seq<int>, curr: int, i: nat, j: nat)
    requires ValidDecay(decay)
    requires i < |tstamps| && j < |tstamps|
    requires forall k :: 0 <= k < |tstamps| ==> tstamps[k] <= curr
    requires tstamps[i] < tstamps[j]
    ensures TimeProbs(decay, tstamps, curr).Some?
    ensures TimeProbs(decay, tstamps, curr).value[i] < TimeProbs(decay, tstamps, curr).value[j]
  {
    var g := Gaps(tstamps, curr);
    var d := DecayValues(decay, g);
    forall k | 0 <= k < |d| ensures d[k] > 0.0 {
      assert g[k] > 0.0;
    }
    SumPositive(d);
    assert 0.0 < g[j] < g[i];
    NormalizeKeepsOrder(d, i, j);
  }

  /** A candidate with more followers gets a strictly larger follower
      probability, and the follower probabilities sum to 1. */
  lemma FollowerProbsProportional(fcounts: seq<real>, i: nat, j: nat)
    requires NonNegative(fcounts) && Sum(fcounts) > 0.0
    requires i < |fcounts| && j < |fcounts|
    ensures FollowerProbs(fcounts).Some? && Sum(FollowerProbs(fcounts).value) == 1.0
    ensures fcounts[i] < fcounts[j] <==> FollowerProbs(fcounts).value[i] < FollowerProbs(fcounts).value[j]
  {
    NormalizeKeepsOrder(fcounts, i, j);
  }

  // ---------------------------------------------------------------------
  // The power-law integrand
  // ---------------------------------------------------------------------

  function Pow(b: real, e: nat): (r: real)
    ensures b > 0.0 ==> r > 0.0
  {
    if e == 0 then 1.0 else b * Pow(b, e - 1)
  }

  lemma {:induction false} PowStrictlyIncreasing(a: real, b: real, e: nat)
    requires 0.0 < a < b && e >= 1
    ensures Pow(a, e) < Pow(b, e)
    decreases e
  {
    if e > 1 {
      PowStrictlyIncreasing(a, b, e - 1);
    }
    PowStrictStep(a, b, Pow(a, e - 1), Pow(b, e - 1));
  }

  lemma PowStrictStep(a: real, b: real, pa: real, pb: real)
    requires 0.0 < a < b && 0.0 < pa <= pb
    ensures a * pa < b * pb
  {
    MulStrict(a, b, pa);
    MulMonotone(pa, pb, b);
  }

  lemma MulStrict(x: real, y: real, z: real)
    requires x < y && z > 0.0
    ensures x * z < y * z
  {
  }

  lemma MulMonotone(x: real, y: real, z: real)
    requires x <= y && z >= 0.0
    ensures z * x <= z * y
  {
  }

  /** The integrand of `power_law`, ((alpha - 1) / xmin) * (xmin / x)^alpha,
      for a whole-number exponent. */
  function PowerLawDensity(alpha: nat, xmin: real, x: real): (r: real)
    requires xmin > 0.0 && x > 0.0
  {
    ((alpha as real - 1.0) / xmin) * Pow(xmin / x, alpha)
  }

  /** For alpha > 1 and xmin > 0 the integrand is positive and strictly
      decreasing in x > 0, which is what makes a more recent candidate
      likelier. */
  lemma PowerLawDensityDecreasing(alpha: nat, xmin: real, x: real, y: real)
    requires alpha >= 2 && xmin > 0.0 && 0.0 < x < y
    ensures PowerLawDensity(alpha, xmin, y) > 0.0
    ensures PowerLawDensity(alpha, xmin, y) < PowerLawDensity(alpha, xmin, x)
  {
    ReciprocalDecreasing(xmin, x, y);
    PowStrictlyIncreasing(xmin / y, xmin / x, alpha);
    DensityOrdered(alpha, xmin, x, y, Pow(xmin / y, alpha), Pow(xmin / x, alpha));
  }

  /** Densities at two points keep the order of their powers. */
  lemma DensityOrdered(alpha: nat, xmin: real, x: real, y: real, py: real, px: real)
    requires alpha >= 2 && xmin > 0.0 && 0.0 < x && 0.0 < y
    requires py == Pow(xmin / y, alpha) && px == Pow(xmin / x, alpha) && 0.0 < py < px
    ensures 0.0 < PowerLawDensity(alpha, xmin, y) < PowerLawDensity(alpha, xmin, x)
  {
    var c := (alpha as real - 1.0) / xmin;
    PositiveRatio(alpha as real - 1.0, xmin);
    ScaledStrict(c, py, px);
    DensityAt(alpha, xmin, y, c, py);
    DensityAt(alpha, xmin, x, c, px);
  }

  lemma DensityAt(alpha: nat, xmin: real, x: real, c: real, p: real)
    requires xmin > 0.0 && x > 0.0
    requires c == (alpha as real - 1.0) / xmin && p == Pow(xmin / x, alpha)
    ensures PowerLawDensity(alpha, xmin, x) == c * p
  {
  }

  /** Scaling by a positive factor keeps two positive numbers positive
      and in order. */
  lemma ScaledStrict(c: real, a: real, b: real)
    requires c > 0.0 && 0.0 < a < b
    ensures 0.0 < c * a < c * b
  {
    MulStrict(a, b, c);
    MulPositive(c, a);
  }

  lemma PositiveRatio(a: real, b: real)
    requires a > 0.0 && b > 0.0
    ensures a / b > 0.0
  {
  }

  lemma MulPositive(a: real, b: real)
    requires a > 0.0 && b > 0.0
    ensures a * b > 0.0
  {
  }

  lemma ReciprocalDecreasing(m: real, x: real, y: real)
    requires m > 0.0 && 0.0 < x < y
    ensures 0.0 < m / y < m / x
  {
    PositiveRatio(m, y);
    assert m / x - m / y == m * (y - x) / (x * y);
    MulPositive(x, y);
    MulPositive(m, y - x);
    PositiveRatio(m * (y - x), x * y);
  }
}
