/**
 * The sequential argmax assignment engine: each point is scored against every
 * cluster, goes to the first cluster with the highest score, and is appended
 * there before the next point is scored.
 */
module Classifier {
  import opened Clusters
  import opened Outcomes
  import opened Probabilities

  /**
   * The rescaling applied to every posterior before comparison: the logarithm
   * of a large multiple, defined on the positive reals only.
   */
  type Transform = real -> real

  /** `t` is strictly increasing where the logarithm is defined; its values at zero and below are unconstrained. */
  ghost predicate IncreasingOnPositives(t: Transform)
  {
    forall a, b :: 0.0 < a < b ==> t(a) < t(b)
  }

  /** Every cluster holds a point, as the seed clusters do and appends keep. */
  ghost predicate AllPopulated(clusters: seq<seq<Point>>)
  {
    forall i :: 0 <= i < |clusters| ==> clusters[i] != []
  }

  // ---------------------------------------------------------------------------
  // Choosing the winner

  /** The largest score of a non-empty list. */
  function Max(s: seq<real>): (m: real)
    requires s != []
    ensures m in s
    ensures forall i :: 0 <= i < |s| ==> s[i] <= m
  {
    if |s| == 1 then s[0]
    else
      var rest := Max(s[1..]);
      if rest > s[0] then rest else s[0]
  }

  /** The position of the first occurrence of `v`. */
  function IndexOf(s: seq<real>, v: real): (k: nat)
    requires v in s
    ensures k < |s| && s[k] == v
    ensures forall j :: 0 <= j < k ==> s[j] != v
  {
    if s[0] == v then 0 else 1 + IndexOf(s[1..], v)
  }

  /** Position `k` holds a maximal score and every earlier score is strictly smaller. */
  ghost predicate IsFirstMax(s: seq<real>, k: nat)
  {
    && k < |s|
    && (forall j :: 0 <= j < |s| ==> s[j] <= s[k])
    && (forall j :: 0 <= j < k ==> s[j] < s[k])
  }

  /** `index(max(s))`: the first position of the maximum. */
  function ArgMax(s: seq<real>): (k: nat)
    requires s != []
    ensures IsFirstMax(s, k)
  {
    IndexOf(s, Max(s))
  }

  /** At most one position is the first maximum. */
  lemma FirstMaxUnique(s: seq<real>, k1: nat, k2: nat)
    requires IsFirstMax(s, k1) && IsFirstMax(s, k2)
    ensures k1 == k2
  {
    assert s[k1] == s[k2];
  }

  /** `t` applied to every score. */
  function Apply(t: Transform, s: seq<real>): (r: seq<real>)
    ensures |r| == |s|
    ensures forall i :: 0 <= i < |s| ==> r[i] == t(s[i])
  {
    seq(|s|, i requires 0 <= i < |s| => t(s[i]))
  }

  /** A rescaling strictly increasing on the scores present picks the same position, ties included. */
  lemma TransformKeepsArgMax(t: Transform, s: seq<real>)
    requires forall a, b :: a in s && b in s && a < b ==> t(a) < t(b)
    requires s != []
    ensures ArgMax(Apply(t, s)) == ArgMax(s)
  {
    var k, ts := ArgMax(s), Apply(t, s);
    forall j | 0 <= j < |s|
      ensures ts[j] <= ts[k]
      ensures j < k ==> ts[j] < ts[k]
    {
      if s[j] < s[k] {
        assert s[j] in s && s[k] in s;
        assert t(s[j]) < t(s[k]);
      }
    }
    FirstMaxUnique(ts, k, ArgMax(ts));
  }

  // ---------------------------------------------------------------------------
  // Scoring one point against the current clusters

  /** The posterior of every cluster, in cluster order; the first one raises if there is no population. */
  function Posteriors(likelihood: Likelihood, x: Point, clusters: seq<seq<Point>>): (r: Result<seq<real>>)
    ensures r.Err? <==> clusters != [] && TotalImages(clusters) == 0
    ensures r.Err? ==> r.fault == ZeroDivision
    ensures r.Ok? ==> |r.value| == |clusters|
    ensures r.Ok? ==> forall i :: 0 <= i < |clusters| ==>
                        PosteriorProbability(likelihood, x, clusters, clusters[i]) == Ok(r.value[i])
  {
    if clusters != [] && TotalImages(clusters) == 0 then Err(ZeroDivision)
    else Ok(seq(|clusters|, i requires 0 <= i < |clusters| =>
                              PosteriorProbability(likelihood, x, clusters, clusters[i]).value))
  }

  /**
   * The index `classify` appends to: the first maximum of the rescaled
   * posteriors. An empty cluster list makes `max` raise; a list of clusters
   * that are all empty makes the prior divide by zero.
   */
  function Winner(likelihood: Likelihood, t: Transform, x: Point, clusters: seq<seq<Point>>): (r: Result<nat>)
    ensures r.Err? <==> clusters == [] || TotalImages(clusters) == 0
    ensures r.Err? ==> r.fault == if clusters == [] then MaxOfEmpty else ZeroDivision
    ensures r.Ok? ==> r.value < |clusters|
    ensures r.Ok? ==> IsFirstMax(Apply(t, Posteriors(likelihood, x, clusters).value), r.value)
  {
    match Posteriors(likelihood, x, clusters)
    case Err(f) => Err(f)
    case Ok(p) =>
      var scores := Apply(t, p);
      if scores == [] then Err(MaxOfEmpty) else Ok(ArgMax(scores))
  }

  /** With a positive likelihood and every cluster populated, every posterior is positive. */
  lemma PosteriorsPositive(likelihood: Likelihood, x: Point, clusters: seq<seq<Point>>)
    requires Positive(likelihood)
    requires clusters != [] && AllPopulated(clusters)
    ensures Posteriors(likelihood, x, clusters).Ok?
    ensures forall v :: v in Posteriors(likelihood, x, clusters).value ==> v > 0.0
  {
    var p := Posteriors(likelihood, x, clusters).value;
    forall v | v in p
      ensures v > 0.0
    {
      var i :| 0 <= i < |p| && p[i] == v;
      assert likelihood(x, clusters[i]) > 0.0;
    }
  }

  /**
   * The rescaling does not matter: with a transform increasing on the positive
   * reals, a positive likelihood and populated clusters, the winner is the
   * first maximum of the raw posteriors.
   */
  lemma WinnerIgnoresTransform(likelihood: Likelihood, t: Transform, x: Point, clusters: seq<seq<Point>>)
    requires IncreasingOnPositives(t)
    requires Positive(likelihood)
    requires AllPopulated(clusters)
    ensures Winner(likelihood, t, x, clusters).Ok? ==>
              IsFirstMax(Posteriors(likelihood, x, clusters).value, Winner(likelihood, t, x, clusters).value)
  {
    var w := Winner(likelihood, t, x, clusters);
    if w.Ok? {
      PosteriorsPositive(likelihood, x, clusters);
      var p := Posteriors(likelihood, x, clusters).value;
      TransformKeepsArgMax(t, p);
    }
  }

  /** Any two rescalings increasing on the positive reals choose the same cluster, or raise the same error. */
  lemma WinnerSameUnderTransforms(likelihood: Likelihood, t: Transform, u: Transform, x: Point, clusters: seq<seq<Point>>)
    requires IncreasingOnPositives(t) && IncreasingOnPositives(u)
    requires Positive(likelihood)
    requires AllPopulated(clusters)
    ensures Winner(likelihood, t, x, clusters) == Winner(likelihood, u, x, clusters)
  {
    if Winner(likelihood, t, x, clusters).Ok? {
      PosteriorsPositive(likelihood, x, clusters);
      var p := Posteriors(likelihood, x, clusters).value;
      TransformKeepsArgMax(t, p);
      TransformKeepsArgMax(u, p);
    }
  }

  /** Of two clusters with the same likelihood and the same size, the later one never wins. */
  lemma IdenticalClustersTieToLower(likelihood: Likelihood, t: Transform, x: Point, clusters: seq<seq<Point>>, i: nat, j: nat)
    requires i < j < |clusters|
    requires likelihood(x, clusters[i]) == likelihood(x, clusters[j])
    requires |clusters[i]| == |clusters[j]|
    ensures Winner(likelihood, t, x, clusters).Ok? ==> Winner(likelihood, t, x, clusters).value != j
  {
    var w := Winner(likelihood, t, x, clusters);
    if w.Ok? {
      PosteriorDependsOnStatistics(likelihood, x, clusters, clusters[i], clusters[j]);
      var p := Posteriors(likelihood, x, clusters).value;
      assert p[i] == p[j];
      var scores := Apply(t, p);
      assert scores[i] == scores[j];
    }
  }

  // ---------------------------------------------------------------------------
  // One assignment, and the loop over all test points

  /** `classify` on cluster contents: the winner grows by the point, nothing else changes. */
  function Step(likelihood: Likelihood, t: Transform, x: Point, clusters: seq<seq<Point>>): (r: Result<seq<seq<Point>>>)
    ensures r.Err? <==> clusters == [] || TotalImages(clusters) == 0
    ensures r.Err? ==> r.fault == Winner(likelihood, t, x, clusters).fault
    ensures r.Ok? ==> |r.value| == |clusters| && TotalImages(r.value) == TotalImages(clusters) + 1
    ensures r.Ok? ==>
              var k := Winner(likelihood, t, x, clusters).value;
              && r.value[k] == clusters[k] + [x]
              && forall i :: 0 <= i < |clusters| && i != k ==> r.value[i] == clusters[i]
  {
    match Winner(likelihood, t, x, clusters)
    case Err(f) => Err(f)
    case Ok(k) =>
      TotalAfterAdd(clusters, k, x);
      Ok(clusters[k := clusters[k] + [x]])
  }

  /** The clusters a run leaves behind, and the exception that stopped it, if any. */
  datatype RunResult = RunResult(clusters: seq<seq<Point>>, failure: Option<Fault>)

  /**
   * The module-level loop: a left fold of `classify` over the test points in
   * input order. An exception stops the loop and keeps the clusters as they are.
   */
  function Run(likelihood: Likelihood, t: Transform, testImages: seq<Point>, clusters: seq<seq<Point>>): (r: RunResult)
    ensures |r.clusters| == |clusters|
    ensures r.failure.None? ==> TotalImages(r.clusters) == TotalImages(clusters) + |testImages|
    decreases |testImages|
  {
    if testImages == [] then RunResult(clusters, None)
    else
      match Step(likelihood, t, testImages[0], clusters)
      case Err(f) => RunResult(clusters, Some(f))
      case Ok(next) => Run(likelihood, t, testImages[1..], next)
  }

  /** Once some cluster holds a point, no later step can fail. */
  lemma {:induction false} RunFromPopulatedNeverFails(likelihood: Likelihood, t: Transform, testImages: seq<Point>, clusters: seq<seq<Point>>)
    requires TotalImages(clusters) > 0
    ensures Run(likelihood, t, testImages, clusters).failure.None?
    decreases |testImages|
  {
    if testImages != [] {
      var next := Step(likelihood, t, testImages[0], clusters);
      RunFromPopulatedNeverFails(likelihood, t, testImages[1..], next.value);
    }
  }

  /**
   * A run fails exactly when there is a point to classify and nothing to score
   * it against; it then fails on the first point, before changing anything.
   */
  lemma {:induction false} RunFailsOnlyAtStart(likelihood: Likelihood, t: Transform, testImages: seq<Point>, clusters: seq<seq<Point>>)
    ensures Run(likelihood, t, testImages, clusters).failure.Some? <==> testImages != [] && TotalImages(clusters) == 0
    ensures Run(likelihood, t, testImages, clusters).failure.Some? ==> Run(likelihood, t, testImages, clusters).clusters == clusters
  {
    if testImages != [] && TotalImages(clusters) > 0 {
      RunFromPopulatedNeverFails(likelihood, t, testImages, clusters);
    }
  }

  /** Every cluster's seed and earlier points stay in place as its prefix; a non-empty cluster stays non-empty. */
  lemma {:induction false} RunOnlyAppends(likelihood: Likelihood, t: Transform, testImages: seq<Point>, clusters: seq<seq<Point>>, i: nat)
    requires i < |clusters|
    ensures var r := Run(likelihood, t, testImages, clusters);
            && |clusters[i]| <= |r.clusters[i]|
            && r.clusters[i][..|clusters[i]|] == clusters[i]
    ensures clusters[i] != [] ==> Run(likelihood, t, testImages, clusters).clusters[i] != []
    decreases |testImages|
  {
    if testImages != [] {
      var next := Step(likelihood, t, testImages[0], clusters);
      if next.Ok? {
        RunOnlyAppends(likelihood, t, testImages[1..], next.value, i);
        var r := Run(likelihood, t, testImages[1..], next.value);
        assert r.clusters[i][..|clusters[i]|] == r.clusters[i][..|next.value[i]|][..|clusters[i]|];
      }
    }
  }

  /** Running over `xs + ys` is running over `xs`, then over `ys` from where that left off. */
  lemma {:induction false} RunConcat(likelihood: Likelihood, t: Transform, xs: seq<Point>, ys: seq<Point>, clusters: seq<seq<Point>>)
    ensures var first := Run(likelihood, t, xs, clusters);
            Run(likelihood, t, xs + ys, clusters) ==
              if first.failure.Some? then first else Run(likelihood, t, ys, first.clusters)
    decreases |xs|
  {
    if xs == [] {
      assert xs + ys == ys;
    } else {
      assert (xs + ys)[0] == xs[0];
      assert (xs + ys)[1..] == xs[1..] + ys;
      var next := Step(likelihood, t, xs[0], clusters);
      if next.Ok? {
        RunConcat(likelihood, t, xs[1..], ys, next.value);
      }
    }
  }

  /** All points of all clusters, cluster after cluster. */
  function Flatten(clusters: seq<seq<Point>>): (points: seq<Point>)
  {
    if clusters == [] then [] else clusters[0] + Flatten(clusters[1..])
  }

  lemma {:induction false} FlattenAfterAdd(clusters: seq<seq<Point>>, k: nat, x: Point)
    requires k < |clusters|
    ensures multiset(Flatten(clusters[k := clusters[k] + [x]])) == multiset(Flatten(clusters)) + multiset{x}
  {
    var grown := clusters[k := clusters[k] + [x]];
    if k == 0 {
      assert grown[1..] == clusters[1..];
    } else {
      assert grown[1..] == clusters[1..][k - 1 := clusters[k] + [x]];
      FlattenAfterAdd(clusters[1..], k - 1, x);
    }
  }

  /** A completed run loses no point and invents none: every test point lands in exactly one cluster. */
  lemma {:induction false} RunConservesPoints(likelihood: Likelihood, t: Transform, testImages: seq<Point>, clusters: seq<seq<Point>>)
    ensures var r := Run(likelihood, t, testImages, clusters);
            r.failure.None? ==> multiset(Flatten(r.clusters)) == multiset(Flatten(clusters)) + multiset(testImages)
    decreases |testImages|
  {
    if testImages != [] {
      var next := Step(likelihood, t, testImages[0], clusters);
      if next.Ok? {
        FlattenAfterAdd(clusters, Winner(likelihood, t, testImages[0], clusters).value, testImages[0]);
        RunConservesPoints(likelihood, t, testImages[1..], next.value);
        assert testImages == [testImages[0]] + testImages[1..];
      }
    }
  }

  // ---------------------------------------------------------------------------
  // The same operations on the mutable `Cluster` objects

  /** The points of each cluster object, in list order. */
  function Contents(clusters: seq<Cluster>): (r: seq<seq<Point>>)
    reads clusters
    ensures |r| == |clusters|
    ensures forall i :: 0 <= i < |clusters| ==> r[i] == clusters[i].images
  {
    seq(|clusters|, i requires 0 <= i < |clusters| reads clusters => clusters[i].images)
  }

  /** No cluster object appears twice in the list. */
  ghost predicate Distinct(clusters: seq<Cluster>)
  {
    forall i, j :: 0 <= i < j < |clusters| ==> clusters[i] != clusters[j]
  }

  /**
   * `classify(image, clusters)`: score the point against the current clusters
   * and append it to the winner in place. Returns the exception raised, if any.
   */
  method Classify(image: Point, clusters: seq<Cluster>, likelihood: Likelihood, t: Transform)
    returns (failure: Option<Fault>)
    requires Distinct(clusters)
    modifies clusters
    ensures match Step(likelihood, t, image, old(Contents(clusters)))
            case Ok(next) => failure == None && Contents(clusters) == next
            case Err(f) => failure == Some(f) && Contents(clusters) == old(Contents(clusters))
  {
    var winner := Winner(likelihood, t, image, Contents(clusters));
    if winner.Err? {
      return Some(winner.fault);
    }
    var index := winner.value;
    clusters[index].Add(image);
    failure := None;
  }

  /** Classifies every test point in input order, each against the clusters the previous points left. */
  method ClassifyAll(testImages: seq<Point>, clusters: seq<Cluster>, likelihood: Likelihood, t: Transform)
    returns (failure: Option<Fault>)
    requires Distinct(clusters)
    modifies clusters
    ensures Run(likelihood, t, testImages, old(Contents(clusters))) == RunResult(Contents(clusters), failure)
  {
    for i := 0 to |testImages|
      invariant Run(likelihood, t, testImages, old(Contents(clusters))) ==
                Run(likelihood, t, testImages[i..], Contents(clusters))
    {
      assert testImages[i..][1..] == testImages[i + 1..];
      failure := Classify(testImages[i], clusters, likelihood, t);
      if failure.Some? {
        return;
      }
    }
    failure := None;
  }
}
