/**
 * The Bayesian scoring of one point against one cluster: the prior is the
 * cluster's share of the current total population, the posterior score is the
 * likelihood times that prior. The Gaussian likelihood itself is a parameter.
 */
module Probabilities {
  import opened Clusters
  import opened Outcomes

  /**
   * The per-axis Gaussian density of a point under a cluster's mean and
   * standard deviation, multiplied across axes. Mean and deviation are derived
   * from the cluster's current points, so the likelihood is a function of the
   * point and those points.
   */
  type Likelihood = (Point, seq<Point>) -> real

  /** A density is positive wherever it is finite. */
  ghost predicate Positive(likelihood: Likelihood)
  {
    forall x, images :: likelihood(x, images) > 0.0
  }

  /** A density is never negative. */
  ghost predicate NonNegative(likelihood: Likelihood)
  {
    forall x, images :: likelihood(x, images) >= 0.0
  }

  /** The population of all clusters together: the sum of their sizes. */
  function TotalImages(clusters: seq<seq<Point>>): (n: nat)
    ensures forall i :: 0 <= i < |clusters| ==> |clusters[i]| <= n
    ensures n == 0 <==> forall i :: 0 <= i < |clusters| ==> clusters[i] == []
  {
    if clusters == [] then 0 else |clusters[0]| + TotalImages(clusters[1..])
  }

  /** Appending one point to any one cluster raises the population by exactly one. */
  lemma {:induction false} TotalAfterAdd(clusters: seq<seq<Point>>, k: nat, image: Point)
    requires k < |clusters|
    ensures TotalImages(clusters[k := clusters[k] + [image]]) == TotalImages(clusters) + 1
  {
    var grown := clusters[k := clusters[k] + [image]];
    if k > 0 {
      assert grown[1..] == clusters[1..][k - 1 := clusters[k] + [image]];
      TotalAfterAdd(clusters[1..], k - 1, image);
    } else {
      assert grown[1..] == clusters[1..];
    }
  }

  /** The prior of a cluster: its share of the total population. */
  function Prior(total: nat, images: seq<Point>): (p: real)
    requires total > 0
    ensures p >= 0.0
    ensures p > 0.0 <==> images != []
    ensures |images| <= total ==> p <= 1.0
  {
    (|images| as real) / (total as real)
  }

  /** Against the collection's own population, every cluster's prior is a probability. */
  lemma PriorInUnitInterval(clusters: seq<seq<Point>>, i: nat)
    requires i < |clusters|
    requires TotalImages(clusters) > 0
    ensures 0.0 <= Prior(TotalImages(clusters), clusters[i]) <= 1.0
    ensures clusters[i] != [] ==> Prior(TotalImages(clusters), clusters[i]) > 0.0
  {
  }

  /** With the population fixed, a larger cluster has a prior at least as large. */
  lemma PriorMonotone(total: nat, smaller: seq<Point>, larger: seq<Point>)
    requires total > 0
    requires |smaller| <= |larger|
    ensures Prior(total, smaller) <= Prior(total, larger)
  {
    DivideMonotone(|smaller| as real, |larger| as real, total as real);
  }

  /** The sum of the priors of a list of clusters, each against the same population. */
  function SumOfPriors(total: nat, clusters: seq<seq<Point>>): (sum: real)
    requires total > 0
  {
    if clusters == [] then 0.0 else Prior(total, clusters[0]) + SumOfPriors(total, clusters[1..])
  }

  /** The priors of a list of clusters add up to their joint share of the population. */
  lemma {:induction false} SumOfPriorsIsShare(total: nat, clusters: seq<seq<Point>>)
    requires total > 0
    ensures SumOfPriors(total, clusters) == (TotalImages(clusters) as real) / (total as real)
  {
    if clusters != [] {
      SumOfPriorsIsShare(total, clusters[1..]);
      AddFractions(|clusters[0]| as real, TotalImages(clusters[1..]) as real, total as real);
    }
  }

  /** The priors of all clusters of the collection sum to exactly one. */
  lemma PriorsSumToOne(clusters: seq<seq<Point>>)
    requires TotalImages(clusters) > 0
    ensures SumOfPriors(TotalImages(clusters), clusters) == 1.0
  {
    SumOfPriorsIsShare(TotalImages(clusters), clusters);
    DivideBySelf(TotalImages(clusters) as real);
  }

  /**
   * The posterior score of the cluster `images` within `clusters`: the
   * likelihood times the prior. Dividing by an empty population raises.
   */
  function PosteriorProbability(likelihood: Likelihood, x: Point, clusters: seq<seq<Point>>, images: seq<Point>)
    : (r: Result<real>)
    ensures r.Err? <==> TotalImages(clusters) == 0
    ensures r.Err? ==> r.fault == ZeroDivision
    ensures r.Ok? ==> r.value == likelihood(x, images) * Prior(TotalImages(clusters), images)
    ensures r.Ok? && NonNegative(likelihood) ==> r.value >= 0.0
    ensures r.Ok? && images == [] ==> r.value == 0.0
    ensures r.Ok? && likelihood(x, images) > 0.0 && images != [] ==> r.value > 0.0
    ensures r.Ok? && NonNegative(likelihood) && images in clusters ==> r.value <= likelihood(x, images)
  {
    var total := TotalImages(clusters);
    if total == 0 then Err(ZeroDivision)
    else
      var v, p := likelihood(x, images), Prior(total, images);
      Ok(v * p)
  }

  /** The posterior of a cluster depends on its points only through their likelihood and their number. */
  lemma PosteriorDependsOnStatistics(likelihood: Likelihood, x: Point, clusters: seq<seq<Point>>, a: seq<Point>, b: seq<Point>)
    requires likelihood(x, a) == likelihood(x, b)
    requires |a| == |b|
    ensures PosteriorProbability(likelihood, x, clusters, a) == PosteriorProbability(likelihood, x, clusters, b)
  {
    var total := TotalImages(clusters);
    if total > 0 {
      var pa, pb := PosteriorProbability(likelihood, x, clusters, a), PosteriorProbability(likelihood, x, clusters, b);
      assert Prior(total, a) == Prior(total, b);
      assert pa.value == likelihood(x, a) * Prior(total, a);
      assert pb.value == likelihood(x, b) * Prior(total, b);
      assert pa.Ok? && pb.Ok? && pa.value == pb.value;
    }
  }

  lemma AddFractions(a: real, b: real, t: real)
    requires t > 0.0
    ensures a / t + b / t == (a + b) / t
  {
  }

  lemma DivideBySelf(t: real)
    requires t > 0.0
    ensures t / t == 1.0
  {
  }

  lemma DivideMonotone(a: real, b: real, t: real)
    requires t > 0.0
    requires a <= b
    ensures a / t <= b / t
  {
  }
}
