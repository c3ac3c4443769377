# Sequential Gaussian naive Bayes assignment, modelled in Dafny

The program assigns a stream of 2-D points, one at a time, to a fixed list of
seed clusters. For each point it computes a posterior score for every cluster
(a Gaussian likelihood times the cluster's prior, where the prior is the
cluster's share of the current total population). It passes each score through
`log(10**30 * ·)` and appends the point to the first cluster with the highest
score. The next point is then scored against the updated clusters.

This project models that engine:

- `cluster.dfy` (module `Clusters`): the `Cluster` class, an append-only list
  of points held in a `seq` field and updated in place by `Add`.
- `probabilities.dfy` (module `Probabilities`): the total population, the
  prior, the sum of the priors and the posterior, as pure functions over the
  clusters' contents. The Gaussian likelihood is a function parameter.
- `classifier.dfy` (module `Classifier`): `max` and `list.index` over the
  score list, the winner of one point, one assignment step and the left fold
  over all test points. These are specification functions. `Classify` and
  `ClassifyAll` are the imperative counterparts: they mutate a list of
  `Cluster` objects and are proved equal to those functions.
- `outcomes.dfy` (module `Outcomes`): the two exceptions the core can raise,
  and the `Result` and `Option` types that carry them.

The likelihood (`Likelihood`, a function of the point and the cluster's
points) and the rescaling (`Transform`, a function on reals; the lemmas about it assume
only that it is strictly increasing on the positive reals) are parameters. The module-level globals `clusters` and `test_images`
are parameters too.

Two points about the code that shape the model:

- `classify` appends the point to the winning cluster itself (main.py:12).
  `Classifier.Classify` does the same.
- Among the inputs the model covers, the code raises two exceptions. `max([])`
  raises `ValueError` when the cluster list is empty (`Fault.MaxOfEmpty`). The
  prior divides by zero when no cluster holds a point (`Fault.ZeroDivision`).
  numpy raises other `ValueError`s on points of mismatched shape; those are
  listed under "## Left out".

## Model

| member | source | states |
|---|---|---|
| `Clusters.Cluster.constructor` | cluster.py:6-7 | the cluster stores exactly the given seed points, in order |
| `Clusters.Cluster.Add` | cluster.py:9-10 | `add` appends the point: length grows by exactly one, the last element is the point, earlier elements and their order are unchanged, and it cannot fail |
| `Probabilities.TotalImages` | probabilities.py:17 | the population bounds every cluster's size and is zero exactly when every cluster is empty |
| `Probabilities.TotalAfterAdd` | probabilities.py:17 | appending one point to any single cluster raises the recomputed population by exactly one |
| `Probabilities.Prior` | probabilities.py:12-13 | the prior `len(images) / total` is non-negative, positive exactly for a non-empty cluster, and at most one when the cluster fits in the total |
| `Probabilities.PriorInUnitInterval` | probabilities.py:13-17 | against the collection's own population, each cluster's prior lies in [0, 1] and is positive when the cluster is non-empty |
| `Probabilities.PriorMonotone` | probabilities.py:13 | with the population fixed, a cluster with more points has a prior at least as large |
| `Probabilities.SumOfPriorsIsShare` | probabilities.py:12-17 | the priors of a list of clusters add up to that list's population divided by the total |
| `Probabilities.PriorsSumToOne` | probabilities.py:12-17 | the priors of all clusters of the collection sum to exactly 1 when the population is positive |
| `Probabilities.PosteriorProbability` | probabilities.py:16-22 | the posterior is likelihood times prior; it raises division by zero exactly when the population is zero; it is non-negative for a non-negative likelihood, zero for an empty cluster, and at most the likelihood for a cluster of the collection |
| `Classifier.Max` | main.py:10 | `max` returns an element of the list that no element exceeds |
| `Classifier.IndexOf` | main.py:11 | `list.index` returns the first position holding the value |
| `Classifier.ArgMax` | main.py:10-11 | `index(max(s))` is a position whose score is maximal and every earlier score is strictly smaller |
| `Classifier.TransformKeepsArgMax` | main.py:9-11 | applying a function that is strictly increasing on the scores present (it may be undefined or arbitrary elsewhere, like a logarithm) leaves the chosen position unchanged, tie-break included |
| `Classifier.Posteriors` | main.py:9 | the score list has one entry per cluster, in cluster order, each the posterior of that cluster; it raises division by zero exactly when the list is non-empty and the population is zero |
| `Classifier.Winner` | main.py:9-11 | the chosen index lies in [0, len(clusters)); its rescaled score is at least every other score and strictly above every earlier one; an empty list raises the `max` error and a population of zero raises division by zero |
| `Classifier.PosteriorsPositive` | main.py:9 | with a positive likelihood and every cluster holding a point, every posterior in the score list is positive, so it lies where `log(10**30 * ·)` is defined and increasing |
| `Classifier.WinnerIgnoresTransform` | main.py:9-11 | under any rescaling strictly increasing on the positive reals, as `log(10**30 * ·)` is, and with a positive likelihood and populated clusters, the chosen index is the first maximum of the raw posteriors |
| `Classifier.WinnerSameUnderTransforms` | main.py:9-11 | under the same conditions, any two rescalings increasing on the positive reals choose the same cluster |
| `Probabilities.PosteriorDependsOnStatistics` | probabilities.py:16-22 | two clusters with the same likelihood for the point and the same number of points get the same posterior |
| `Classifier.IdenticalClustersTieToLower` | main.py:11 | of two clusters with the same likelihood for the point and the same size, the later one is never chosen |
| `Classifier.Step` | main.py:8-12 | one classification keeps the cluster count, appends the point to the winner, leaves every other cluster unchanged and raises the population by one; it fails exactly when there is nothing to score against |
| `Classifier.Run` | main.py:15-16 | the loop keeps the cluster count, and a completed loop over n points raises the population by exactly n |
| `Classifier.RunFromPopulatedNeverFails` | main.py:15-16 | once some cluster holds a point, the loop never raises |
| `Classifier.RunFailsOnlyAtStart` | main.py:15-16 | the loop raises exactly when there is a point to classify and the population is zero, and then it has changed nothing |
| `Classifier.RunOnlyAppends` | main.py:12-16 | after the loop each cluster starts with all the points it held before, so a cluster that started non-empty stays non-empty |
| `Classifier.RunConcat` | main.py:15-16 | the loop is a left fold: running over `xs + ys` is running over `xs`, then over `ys` from the state `xs` left |
| `Classifier.RunConservesPoints` | main.py:12-16 | after a completed loop the multiset of all clustered points is the seed points plus the test points: each test point lands in exactly one cluster |
| `Classifier.Classify` | main.py:8-12 | on the cluster objects, `classify` appends the point in place exactly as `Step` says, or raises and changes nothing |
| `Classifier.ClassifyAll` | main.py:15-16 | the loop over the test points leaves the cluster objects in the state `Run` computes from their initial contents, so the same seeds and the same input give the same final clusters |

## Left out

- `likelihood_function` (probabilities.py:8-9) is the scipy normal density multiplied across axes. It is floating-point `exp` arithmetic, so the model takes it as the parameter `Likelihood`, a function of the point and the cluster's points.
- The per-axis mean and standard deviation (probabilities.py:19-20) are not modelled. The deviation needs a square root, and both only feed the abstract likelihood.
- The zero-deviation case, where `norm.pdf` yields `nan` or `inf`, is not modelled. Neither is the `nan` mean of an empty cluster. In the model an empty cluster gets posterior `likelihood(x, []) * 0 = 0`.
- `np.log` and the constant `10 ** 30` (main.py:9) are modelled only as a `Transform` that is strictly increasing on the positive reals; its values at zero and below are unconstrained.
- Classifier.WinnerIgnoresTransform and Classifier.WinnerSameUnderTransforms: require a positive likelihood and every cluster to hold a point. Otherwise a posterior can be zero, where `log` gives `-inf`, which exact reals cannot represent. The `-inf` of `log(0)`, floating-point underflow and comparisons with `nan` in `max` and `index` are not modelled. All arithmetic is over exact reals.
- Probabilities.Prior: requires a positive population. The division by zero that the code raises otherwise is modelled in `PosteriorProbability`, its only caller.
- Classifier.Classify and Classifier.ClassifyAll: require that no `Cluster` object appears twice in the list. The seed data builds three separate objects. An aliased list would make one append show up at two indices.
- Python list aliasing in `Cluster.__init__` (cluster.py:7) and the numpy copy in `add` (cluster.py:10) are not modelled: points are values.
- Points are `seq<real>` of any length, and shape errors are not modelled. numpy raises `ValueError` in `np.array(cluster.images)` (probabilities.py:19-20) when a cluster's points differ in length. It also raises in `norm.pdf` (probabilities.py:9) when a point does not broadcast against the cluster's mean. The abstract `Likelihood` cannot raise, so the model drops these error paths.
- data.py is not part of this model. It generates random seed clusters and reads the test points from a CSV file; both become parameters.
- visualization.py is not part of this model; it only plots the clusters.
- The result printing under `if __name__ == '__main__'` (main.py:18-20) is output formatting only.
