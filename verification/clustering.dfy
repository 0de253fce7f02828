/**
 * The k-means codebook trainer: the routines of clustering.cpp as methods over
 * arrays of reals.
 *
 * A training set or a codebook of `n` vectors of dimension `d`, stored by the
 * source as one row-major buffer (`x[i * d + j]`), is an `array2<real>` with
 * `n` rows and `d` columns (`x[i, j]`). A codebook has `k = 2^pqBits` rows.
 */
module Clustering {
  import opened Wrappers
  import opened KMeansSpec

  /** Copies row `si` of `src` over row `di` of `dst` (a `memcpy` of one vector); `src` may be `dst`. */
  method CopyRow(src: array2<real>, si: nat, dst: array2<real>, di: nat)
    requires si < src.Length0 && di < dst.Length0 && src.Length1 == dst.Length1
    modifies dst
    ensures forall j :: 0 <= j < dst.Length1 ==> dst[di, j] == old(src[si, j])
    ensures forall r, j :: 0 <= r < dst.Length0 && 0 <= j < dst.Length1 && r != di ==> dst[r, j] == old(dst[r, j])
  {
    for j := 0 to dst.Length1
      invariant forall j' :: 0 <= j' < j ==> dst[di, j'] == old(src[si, j'])
      invariant forall r, j' :: 0 <= r < dst.Length0 && 0 <= j' < dst.Length1 && (r != di || j' >= j) ==> dst[r, j'] == old(dst[r, j'])
      invariant src == dst ==> forall j' :: j <= j' < dst.Length1 ==> src[si, j'] == old(src[si, j'])
      invariant src != dst ==> forall j' :: 0 <= j' < src.Length1 ==> src[si, j'] == old(src[si, j'])
    {
      dst[di, j] := src[si, j];
    }
  }

  /**
   * Keeps `k * MaxPointsPerCentroid` training rows: row `i` of the result is
   * row `perm[i]` of `x`, where `perm` is the permutation the generator drew.
   */
  method SubsampleTrainingSet(k: nat, x: array2<real>, perm: seq<int>) returns (n: nat, xNew: array2<real>)
    requires IsPermutation(perm, x.Length0)
    requires k * MaxPointsPerCentroid <= x.Length0
    ensures n == k * MaxPointsPerCentroid
    ensures fresh(xNew) && xNew.Length0 == n && xNew.Length1 == x.Length1
    ensures forall i, j :: 0 <= i < n && 0 <= j < x.Length1 ==> xNew[i, j] == x[perm[i], j]
  {
    n := k * MaxPointsPerCentroid;
    xNew := new real[n, x.Length1];
    for i := 0 to n
      invariant forall i', j :: 0 <= i' < i && 0 <= j < x.Length1 ==> xNew[i', j] == x[perm[i'], j]
    {
      CopyRow(x, perm[i], xNew, i);
    }
  }

  /**
   * The nearest centroid to `xi`: its index and the distance to it. Ties go to
   * the lowest index, because only a strictly smaller distance replaces the
   * current best.
   */
  method NearestCentroid(dist: Distance, xi: seq<real>, centroids: array2<real>) returns (minIdx: nat, minDist: real)
    requires centroids.Length0 >= 1
    ensures IsNearest(dist, xi, Rows(centroids), minIdx, minDist)
  {
    // `min_dist` starts at HUGE_VALF, so the first centroid is always taken
    minDist, minIdx := 0.0, 0;
    for j := 0 to centroids.Length0
      invariant minIdx <= j && (j > 0 ==> minIdx < j && minDist == dist(xi, Row(centroids, minIdx)))
      invariant forall j' :: 0 <= j' < j ==> minDist <= dist(xi, Row(centroids, j'))
      invariant forall j' :: 0 <= j' < minIdx ==> minDist < dist(xi, Row(centroids, j'))
    {
      var ip := dist(xi, Row(centroids, j));
      if j == 0 || ip < minDist {
        minDist, minIdx := ip, j;
      }
    }
  }

  /**
   * Assigns each of the first `n` training vectors to its nearest centroid,
   * storing the centroid's index in `assign` and the distance in `dis`.
   */
  method CalculateDistances(dist: Distance, centroids: array2<real>, n: nat, x: array2<real>,
                            dis: array<real>, assign: array<int>)
    requires centroids.Length0 >= 1 && centroids.Length1 == x.Length1
    requires n <= x.Length0 && n <= dis.Length && n <= assign.Length
    modifies dis, assign
    ensures forall i :: 0 <= i < n ==> IsNearest(dist, Row(x, i), Rows(centroids), assign[i], dis[i])
    ensures forall i :: 0 <= i < n ==> 0 <= assign[i] < centroids.Length0
    ensures dis[n..] == old(dis[n..]) && assign[n..] == old(assign[n..])
  {
    for i := 0 to n
      invariant forall i' :: 0 <= i' < i ==> IsNearest(dist, Row(x, i'), Rows(centroids), assign[i'], dis[i'])
      invariant dis[n..] == old(dis[n..]) && assign[n..] == old(assign[n..])
    {
      var minIdx, minDist := NearestCentroid(dist, Row(x, i), centroids);
      dis[i] := minDist;
      assign[i] := minIdx;
    }
  }

  /** The sum of the first `n` assignment distances, the k-means objective. */
  method AccumulateObjective(dis: array<real>, n: nat) returns (obj: real)
    requires n <= dis.Length
    ensures obj == Total(dis[..n])
  {
    obj := 0.0;
    for j := 0 to n
      invariant obj == Total(dis[..j])
    {
      assert dis[..j + 1][..j] == dis[..j];
      obj := obj + dis[j];
    }
  }

  /**
   * Recomputes the centroids from the assignment of the first `n` training
   * vectors: `hassign` (zero on entry) becomes the histogram of assignments and
   * each centroid the mean of its points, or the zero vector for a cluster
   * without points.
   */
  method ComputeCentroids(n: nat, x: array2<real>, assign: array<int>, hassign: array<real>, centroids: array2<real>)
    requires x != centroids
    requires centroids.Length1 == x.Length1 && hassign.Length == centroids.Length0
    requires n <= x.Length0 && n <= assign.Length
    requires forall i :: 0 <= i < n ==> 0 <= assign[i] < centroids.Length0
    requires forall c :: 0 <= c < hassign.Length ==> hassign[c] == 0.0
    modifies hassign, centroids
    ensures forall c :: 0 <= c < hassign.Length ==> hassign[c] == ClusterSize(assign[..n], c, n) as real
    ensures Total(hassign[..]) == n as real
    ensures forall c, j :: 0 <= c < centroids.Length0 && 0 <= j < centroids.Length1 ==>
              centroids[c, j] == CentroidCoord(x, assign[..n], c, j, n)
  {
    AccumulateClusters(n, x, assign, hassign, centroids);
    assert hassign[..] == Histogram(assign[..n], hassign.Length, n);
    HistogramTotal(assign[..n], hassign.Length, n);
    NormaliseCentroids(n, x, assign[..n], hassign, centroids);
  }

  /**
   * The accumulation phase of ComputeCentroids: zeroes the centroids, then adds
   * each point to its cluster's count and coordinate sums.
   */
  method AccumulateClusters(n: nat, x: array2<real>, assign: array<int>, hassign: array<real>, centroids: array2<real>)
    requires x != centroids
    requires centroids.Length1 == x.Length1 && hassign.Length == centroids.Length0
    requires n <= x.Length0 && n <= assign.Length
    requires forall i :: 0 <= i < n ==> 0 <= assign[i] < centroids.Length0
    requires forall c :: 0 <= c < hassign.Length ==> hassign[c] == 0.0
    modifies hassign, centroids
    ensures forall c :: 0 <= c < hassign.Length ==> hassign[c] == ClusterSize(assign[..n], c, n) as real
    ensures forall c, j :: 0 <= c < centroids.Length0 && 0 <= j < centroids.Length1 ==>
              centroids[c, j] == ClusterSum(x, assign[..n], c, j, n)
  {
    var k, d := centroids.Length0, centroids.Length1;
    ghost var a := assign[..n];
    forall c, j | 0 <= c < k && 0 <= j < d {
      centroids[c, j] := 0.0;
    }
    for i := 0 to n
      invariant forall c :: 0 <= c < k ==> hassign[c] == ClusterSize(a, c, i) as real
      invariant forall c, j :: 0 <= c < k && 0 <= j < d ==> centroids[c, j] == ClusterSum(x, a, c, j, i)
    {
      var ci := assign[i];
      hassign[ci] := hassign[ci] + 1.0;
      AddToRow(x, i, centroids, ci);
    }
    assert a == assign[..n];
  }

  /** Adds row `i` of `x` to row `ci` of `centroids`, coordinate by coordinate. */
  method AddToRow(x: array2<real>, i: nat, centroids: array2<real>, ci: nat)
    requires x != centroids
    requires i < x.Length0 && ci < centroids.Length0 && centroids.Length1 == x.Length1
    modifies centroids
    ensures forall j :: 0 <= j < centroids.Length1 ==> centroids[ci, j] == old(centroids[ci, j]) + x[i, j]
    ensures forall c, j :: 0 <= c < centroids.Length0 && 0 <= j < centroids.Length1 && c != ci ==>
              centroids[c, j] == old(centroids[c, j])
  {
    for j := 0 to centroids.Length1
      invariant forall j' :: 0 <= j' < j ==> centroids[ci, j'] == old(centroids[ci, j']) + x[i, j']
      invariant forall c, j' :: 0 <= c < centroids.Length0 && 0 <= j' < centroids.Length1 && (c != ci || j' >= j) ==>
                  centroids[c, j'] == old(centroids[c, j'])
    {
      centroids[ci, j] := centroids[ci, j] + x[i, j];
    }
  }

  /**
   * The normalisation phase of ComputeCentroids: divides the sums of every
   * cluster with a non-zero count by that count and leaves the others alone.
   */
  method NormaliseCentroids(n: nat, x: array2<real>, ghost a: seq<int>, hassign: array<real>, centroids: array2<real>)
    requires x != centroids
    requires centroids.Length1 == x.Length1 && hassign.Length == centroids.Length0
    requires n <= x.Length0 && n <= |a|
    requires forall c :: 0 <= c < hassign.Length ==> hassign[c] == ClusterSize(a, c, n) as real
    requires forall c, j :: 0 <= c < centroids.Length0 && 0 <= j < centroids.Length1 ==>
               centroids[c, j] == ClusterSum(x, a, c, j, n)
    modifies centroids
    ensures forall c, j :: 0 <= c < centroids.Length0 && 0 <= j < centroids.Length1 ==>
              centroids[c, j] == CentroidCoord(x, a, c, j, n)
  {
    var k, d := centroids.Length0, centroids.Length1;
    for ci := 0 to k
      invariant forall c, j :: 0 <= c < ci && 0 <= j < d ==> centroids[c, j] == CentroidCoord(x, a, c, j, n)
      invariant forall c, j :: ci <= c < k && 0 <= j < d ==> centroids[c, j] == ClusterSum(x, a, c, j, n)
    {
      if hassign[ci] == 0.0 {
        forall j | 0 <= j < d ensures ClusterSum(x, a, ci, j, n) == 0.0 {
          EmptyClusterSum(x, a, ci, j, n);
        }
        continue;
      }
      var norm := 1.0 / hassign[ci];
      forall j | 0 <= j < d ensures centroids[ci, j] * norm == CentroidCoord(x, a, ci, j, n) {
        ScaleByInverse(centroids[ci, j], ClusterSize(a, ci, n), norm);
      }
      ScaleRow(centroids, ci, norm);
    }
  }

  /** Multiplies row `ci` of `centroids` by `norm`. */
  method ScaleRow(centroids: array2<real>, ci: nat, norm: real)
    requires ci < centroids.Length0
    modifies centroids
    ensures forall j :: 0 <= j < centroids.Length1 ==> centroids[ci, j] == old(centroids[ci, j]) * norm
    ensures forall c, j :: 0 <= c < centroids.Length0 && 0 <= j < centroids.Length1 && c != ci ==>
              centroids[c, j] == old(centroids[c, j])
  {
    for j := 0 to centroids.Length1
      invariant forall j' :: 0 <= j' < j ==> centroids[ci, j'] == old(centroids[ci, j']) * norm
      invariant forall c, j' :: 0 <= c < centroids.Length0 && 0 <= j' < centroids.Length1 && (c != ci || j' >= j) ==>
                  centroids[c, j'] == old(centroids[c, j'])
    {
      centroids[ci, j] := centroids[ci, j] * norm;
    }
  }

  /**
   * Re-creates the empty cluster `ci` from the donor `cj`: `ci` becomes the
   * donor's centroid scaled by 1+Eps at even and 1-Eps at odd coordinates,
   * the donor is scaled the opposite way, and the donor's count is split
   * evenly between the two.
   */
  method SplitCluster(hassign: array<real>, centroids: array2<real>, ci: nat, cj: nat)
    requires hassign.Length == centroids.Length0
    requires ci < centroids.Length0 && cj < centroids.Length0 && ci != cj
    modifies hassign, centroids
    ensures forall j :: 0 <= j < centroids.Length1 ==> centroids[ci, j] == old(centroids[cj, j]) * CopyFactor(j)
    ensures forall j :: 0 <= j < centroids.Length1 ==> centroids[cj, j] == old(centroids[cj, j]) * DonorFactor(j)
    ensures forall c, j :: 0 <= c < centroids.Length0 && 0 <= j < centroids.Length1 && c != ci && c != cj ==>
              centroids[c, j] == old(centroids[c, j])
    ensures hassign[ci] == hassign[cj] == old(hassign[cj]) / 2.0
    ensures forall c :: 0 <= c < hassign.Length && c != ci && c != cj ==> hassign[c] == old(hassign[c])
  {
    CopyRow(centroids, cj, centroids, ci);
    PerturbPair(centroids, ci, cj);
    HalveCount(hassign, ci, cj);
  }

  /** The symmetric perturbation of SplitCluster, applied to the copy in row `ci` and the donor in row `cj`. */
  method PerturbPair(centroids: array2<real>, ci: nat, cj: nat)
    requires ci < centroids.Length0 && cj < centroids.Length0 && ci != cj
    modifies centroids
    ensures forall j :: 0 <= j < centroids.Length1 ==> centroids[ci, j] == old(centroids[ci, j]) * CopyFactor(j)
    ensures forall j :: 0 <= j < centroids.Length1 ==> centroids[cj, j] == old(centroids[cj, j]) * DonorFactor(j)
    ensures forall c, j :: 0 <= c < centroids.Length0 && 0 <= j < centroids.Length1 && c != ci && c != cj ==>
              centroids[c, j] == old(centroids[c, j])
  {
    var d := centroids.Length1;
    for j := 0 to d
      invariant forall j' :: 0 <= j' < j ==> centroids[ci, j'] == old(centroids[ci, j']) * CopyFactor(j')
      invariant forall j' :: 0 <= j' < j ==> centroids[cj, j'] == old(centroids[cj, j']) * DonorFactor(j')
      invariant forall j' :: j <= j' < d ==> centroids[ci, j'] == old(centroids[ci, j']) && centroids[cj, j'] == old(centroids[cj, j'])
      invariant forall c, j' :: 0 <= c < centroids.Length0 && 0 <= j' < d && c != ci && c != cj ==>
                  centroids[c, j'] == old(centroids[c, j'])
    {
      if j % 2 == 0 {
        centroids[ci, j] := centroids[ci, j] * (1.0 + Eps);
        centroids[cj, j] := centroids[cj, j] * (1.0 - Eps);
      } else {
        centroids[ci, j] := centroids[ci, j] * (1.0 - Eps);
        centroids[cj, j] := centroids[cj, j] * (1.0 + Eps);
      }
    }
  }

  /** The count update of SplitCluster: the donor's count is shared evenly with cluster `ci`. */
  method HalveCount(hassign: array<real>, ci: nat, cj: nat)
    requires ci < hassign.Length && cj < hassign.Length && ci != cj
    modifies hassign
    ensures hassign[ci] == hassign[cj] == old(hassign[cj]) / 2.0
    ensures forall c :: 0 <= c < hassign.Length && c != ci && c != cj ==> hassign[c] == old(hassign[c])
    ensures Total(hassign[..]) == old(Total(hassign[..])) - old(hassign[ci])
  {
    ghost var h0 := hassign[..];
    hassign[ci] := hassign[cj] / 2.0;
    TotalUpdate(h0, ci, h0[cj] / 2.0);
    ghost var h1 := hassign[..];
    assert h1 == h0[ci := h0[cj] / 2.0];
    assert h1[cj] == h0[cj];
    hassign[cj] := hassign[cj] - hassign[ci];
    TotalUpdate(h1, cj, h0[cj] - h0[cj] / 2.0);
    assert hassign[..] == h1[cj := h0[cj] - h0[cj] / 2.0];
  }


  /**
   * Gives every empty cluster a centroid split off a donor whose count exceeds
   * 1, and returns the number of clusters that were empty. The generator's
   * choice of donor is left open: any cluster with a count above 1 may be
   * chosen.
   */
  method SplitClusters(n: nat, hassign: array<real>, centroids: array2<real>) returns (nsplit: nat, ghost donors: seq<nat>)
    requires hassign.Length == centroids.Length0
    requires Total(hassign[..]) == n as real && n > hassign.Length
    modifies hassign, centroids
    // the new counts and rows are the split pass over all clusters with the chosen donors
    ensures |donors| == hassign.Length && DonorsInRange(donors, hassign.Length)
    ensures ValidDonors(SplitState(old(hassign[..]), old(Rows(centroids))), donors)
    ensures SplitState(hassign[..], Rows(centroids)) == SplitAll(SplitState(old(hassign[..]), old(Rows(centroids))), donors)
    ensures nsplit == CountZeros(old(hassign[..]))
    ensures forall c :: 0 <= c < hassign.Length ==> hassign[c] != 0.0
    ensures Total(hassign[..]) == n as real
    // a cluster that was not empty only ever gives counts away
    ensures forall c :: 0 <= c < hassign.Length && old(hassign[c]) != 0.0 ==> hassign[c] <= old(hassign[c])
    // and keeps its centroid unless it gave some away
    ensures forall c, j :: (0 <= c < centroids.Length0 && 0 <= j < centroids.Length1
              && old(hassign[c]) != 0.0 && hassign[c] == old(hassign[c])) ==> centroids[c, j] == old(centroids[c, j])
  {
    ghost var s0 := SplitState(hassign[..], Rows(centroids));
    assert forall c, j :: 0 <= c < centroids.Length0 && 0 <= j < centroids.Length1 ==> s0.rows[c][j] == centroids[c, j];
    nsplit, donors := VisitClusters(n, hassign, centroids);
    SplitAllEntries(s0, donors, hassign, centroids);
  }

  /** The loop of SplitClusters: visits the clusters in order and fills each empty one. */
  method VisitClusters(n: nat, hassign: array<real>, centroids: array2<real>) returns (nsplit: nat, ghost donors: seq<nat>)
    requires hassign.Length == centroids.Length0
    requires Total(hassign[..]) == n as real && n > hassign.Length
    modifies hassign, centroids
    ensures |donors| == hassign.Length && DonorsInRange(donors, hassign.Length)
    ensures ValidDonors(SplitState(old(hassign[..]), old(Rows(centroids))), donors)
    ensures SplitState(hassign[..], Rows(centroids)) == SplitAll(SplitState(old(hassign[..]), old(Rows(centroids))), donors)
    ensures nsplit == CountZeros(old(hassign[..]))
  {
    var k := hassign.Length;
    ghost var h0 := hassign[..];
    ghost var s0 := SplitState(h0, Rows(centroids));
    nsplit, donors := 0, [];
    for ci := 0 to k
      invariant |donors| == ci && DonorsInRange(donors, k) && ValidDonors(s0, donors)
      invariant SplitState(hassign[..], Rows(centroids)) == SplitAll(s0, donors)
      invariant nsplit == CountZeros(h0[..ci])
    {
      assert h0[..ci + 1][..ci] == h0[..ci];
      var split;
      ghost var donor;
      split, donor := FillCluster(n, hassign, centroids, ci, s0, donors);
      if split {
        nsplit := nsplit + 1;
      }
      donors := donors + [donor];
    }
    assert h0[..k] == h0;
  }

  /**
   * Visit `ci` of the split pass that started from `s0` and has chosen
   * `donors` so far: when cluster `ci` is empty, splits a donor whose count
   * exceeds 1 into it. `donor` is the cluster split, or `ci` itself when
   * nothing was done.
   */
  method FillCluster(n: nat, hassign: array<real>, centroids: array2<real>, ci: nat,
                     ghost s0: SplitState, ghost donors: seq<nat>) returns (split: bool, ghost donor: nat)
    requires hassign.Length == centroids.Length0 && ci < hassign.Length
    requires |s0.counts| == |s0.rows| == hassign.Length && Total(s0.counts) == n as real && n > hassign.Length
    requires |donors| == ci && DonorsInRange(donors, hassign.Length) && ValidDonors(s0, donors)
    requires SplitState(hassign[..], Rows(centroids)) == SplitAll(s0, donors)
    modifies hassign, centroids
    ensures split <==> s0.counts[ci] == 0.0
    ensures DonorsInRange(donors + [donor], hassign.Length) && ValidDonors(s0, donors + [donor])
    ensures SplitState(hassign[..], Rows(centroids)) == SplitAll(s0, donors + [donor])
  {
    SplitAllKeepsTotal(s0, donors);
    SplitAllKeepsLaterZeros(s0, donors, ci);
    split, donor := false, ci;
    if hassign[ci] == 0.0 {
      ghost var h0, r0 := hassign[..], Rows(centroids);
      assert forall c, j :: 0 <= c < centroids.Length0 && 0 <= j < centroids.Length1 ==> r0[c][j] == centroids[c, j];
      DonorExists(hassign[..], ci, n);
      var cj :| 0 <= cj < hassign.Length && hassign[cj] > 1.0;
      SplitCluster(hassign, centroids, ci, cj);
      SplitStepFromEntries(h0, r0, hassign[..], centroids, ci, cj);
      split, donor := true, cj;
    }
    SplitAllExtend(s0, donors, donor);
  }

  /**
   * Places centroid `i` at the corner of a hypercube around the training mean:
   * coordinate `j < nbits` is the mean plus or minus the largest absolute mean
   * coordinate, as bit `j` of `i` is set or not; the other coordinates are the
   * mean.
   */
  method InitHypercube(nbits: nat, x: array2<real>, centroids: array2<real>)
    requires x != centroids
    requires 1 <= x.Length0 && nbits <= x.Length1 && centroids.Length1 == x.Length1
    requires centroids.Length0 == Pow2(nbits)
    modifies centroids
    ensures forall i, j :: 0 <= i < centroids.Length0 && 0 <= j < centroids.Length1 ==>
              centroids[i, j] == Corner(MeanVector(x), MaxAbs(MeanVector(x)), nbits, i, j)
  {
    var mean := ColumnSums(x);
    var maxm := ScaleToMean(x, mean);
    for i := 0 to centroids.Length0
      invariant mean[..] == MeanVector(x)
      invariant forall i', j :: 0 <= i' < i && 0 <= j < centroids.Length1 ==>
                  centroids[i', j] == Corner(mean[..], maxm, nbits, i', j)
    {
      FillCorner(centroids, i, mean, maxm, nbits);
    }
  }

  /** The first loop of InitHypercube: the per-dimension sums of the training rows. */
  method ColumnSums(x: array2<real>) returns (mean: array<real>)
    ensures fresh(mean) && mean.Length == x.Length1
    ensures forall j :: 0 <= j < x.Length1 ==> mean[j] == ColumnTotal(x, j, x.Length0)
  {
    var n, d := x.Length0, x.Length1;
    mean := new real[d](_ => 0.0);
    for i := 0 to n
      invariant forall j :: 0 <= j < d ==> mean[j] == ColumnTotal(x, j, i)
    {
      for j := 0 to d
        invariant forall j' :: 0 <= j' < j ==> mean[j'] == ColumnTotal(x, j', i + 1)
        invariant forall j' :: j <= j' < d ==> mean[j'] == ColumnTotal(x, j', i)
      {
        mean[j] := mean[j] + x[i, j];
      }
    }
  }

  /**
   * The second loop of InitHypercube: divides the sums by the number of rows,
   * giving the mean vector, and returns its largest absolute coordinate.
   */
  method ScaleToMean(x: array2<real>, mean: array<real>) returns (maxm: real)
    requires 1 <= x.Length0 && mean.Length == x.Length1
    requires forall j :: 0 <= j < x.Length1 ==> mean[j] == ColumnTotal(x, j, x.Length0)
    modifies mean
    ensures mean[..] == MeanVector(x)
    ensures maxm == MaxAbs(MeanVector(x))
  {
    var n, d := x.Length0, x.Length1;
    maxm := 0.0;
    for j := 0 to d
      invariant forall j' :: 0 <= j' < j ==> mean[j'] == MeanVector(x)[j']
      invariant forall j' :: j <= j' < d ==> mean[j'] == ColumnTotal(x, j', n)
      invariant maxm == MaxAbs(mean[..j])
    {
      mean[j] := mean[j] / (n as real);
      assert mean[..j + 1][..j] == mean[..j];
      if Abs(mean[j]) > maxm {
        maxm := Abs(mean[j]);
      }
    }
    assert mean[..] == MeanVector(x);
    assert mean[..d] == mean[..];
  }

  /** The third loop's body of InitHypercube: writes hypercube corner `i` into row `i`. */
  method FillCorner(centroids: array2<real>, i: nat, mean: array<real>, maxm: real, nbits: nat)
    requires i < centroids.Length0 && mean.Length == centroids.Length1 && nbits <= mean.Length
    modifies centroids
    ensures forall j :: 0 <= j < centroids.Length1 ==> centroids[i, j] == Corner(mean[..], maxm, nbits, i, j)
    ensures forall c, j :: 0 <= c < centroids.Length0 && 0 <= j < centroids.Length1 && c != i ==>
              centroids[c, j] == old(centroids[c, j])
  {
    var d := centroids.Length1;
    for j := 0 to nbits
      invariant forall j' :: 0 <= j' < j ==> centroids[i, j'] == Corner(mean[..], maxm, nbits, i, j')
      invariant forall c, j' :: 0 <= c < centroids.Length0 && 0 <= j' < d && c != i ==>
                  centroids[c, j'] == old(centroids[c, j'])
    {
      centroids[i, j] := mean[j] + (if ShiftBit(i, j) then 1.0 else -1.0) * maxm;
    }
    for j := nbits to d
      invariant forall j' :: 0 <= j' < j ==> centroids[i, j'] == Corner(mean[..], maxm, nbits, i, j')
      invariant forall c, j' :: 0 <= c < centroids.Length0 && 0 <= j' < d && c != i ==>
                  centroids[c, j'] == old(centroids[c, j'])
    {
      centroids[i, j] := mean[j];
    }
  }


  /**
   * The centroid update of one k-means iteration: recomputes the centroids from
   * the assignment of the first `n` rows, then splits clusters to fill the
   * empty ones. Returns the cluster counts left by the split and the donors
   * it chose.
   */
  method UpdateCentroids(n: nat, x: array2<real>, assign: array<int>, centroids: array2<real>)
    returns (ghost counts: seq<real>, ghost donors: seq<nat>)
    requires x != centroids && centroids.Length1 == x.Length1
    requires n <= x.Length0 && n <= assign.Length && n > centroids.Length0
    requires forall i :: 0 <= i < n ==> 0 <= assign[i] < centroids.Length0
    modifies centroids
    ensures |donors| == centroids.Length0 && DonorsInRange(donors, centroids.Length0)
    ensures ValidDonors(Recomputed(x, assign[..n], centroids.Length0, n), donors)
    ensures SplitState(counts, Rows(centroids)) == SplitAll(Recomputed(x, assign[..n], centroids.Length0, n), donors)
    ensures |counts| == centroids.Length0 && Total(counts) == n as real
    ensures forall c :: 0 <= c < |counts| ==> counts[c] != 0.0
  {
    var k := centroids.Length0;
    var hassign := new real[k](_ => 0.0);
    ComputeCentroids(n, x, assign, hassign, centroids);
    ghost var a := assign[..n];
    assert hassign[..] == Histogram(a, k, n);
    RowsFromEntries(centroids, CentroidRows(x, a, k, n));
    var nsplit;
    nsplit, donors := SplitClusters(n, hassign, centroids);
    counts := hassign[..];
  }

  /**
   * Trains a codebook of `k = 2^pqBits` centroids on the rows of `x`.
   *
   * `initPerm` and `samplePerm` stand for the permutations the generator draws
   * with seeds 1235 and 1234. Returns false, leaving the initial centroids,
   * when `x` has fewer than 39 rows per centroid. Otherwise it trains on the
   * rows TrainingRows decides (`trainSet`): between 1 and 25 assignment
   * passes, each but possibly the last followed by a k-means update, starting
   * from the initial codebook and ending at the final one.
   */
  method PqTrain(dist: Distance, trainType: TrainType, pqBits: nat, x: array2<real>, centroids: array2<real>,
                 initPerm: seq<int>, samplePerm: seq<int>)
    returns (ok: bool, ghost trainRows: nat, ghost trainSet: array2<real>, ghost initial: seq<seq<real>>,
             ghost passes: nat, ghost rounds: nat, ghost objectives: seq<real>, ghost counts: seq<real>,
             ghost states: seq<seq<seq<real>>>, ghost donorHistory: seq<seq<nat>>)
    requires trainType != HypercubePca
    requires x != centroids
    requires centroids.Length0 == Pow2(pqBits) && centroids.Length1 == x.Length1
    requires IsPermutation(initPerm, x.Length0) && IsPermutation(samplePerm, x.Length0)
    requires trainType == Default ==> centroids.Length0 <= x.Length0
    requires trainType == Hypercube ==> 1 <= x.Length0 && pqBits <= x.Length1
    modifies centroids
    // the initial codebook
    ensures |initial| == centroids.Length0 && forall i :: 0 <= i < |initial| ==> |initial[i]| == x.Length1
    ensures trainType == Default ==>
              forall i, j :: 0 <= i < centroids.Length0 && 0 <= j < x.Length1 ==> initial[i][j] == x[initPerm[i], j]
    ensures trainType == Hypercube ==>
              forall i, j :: 0 <= i < centroids.Length0 && 0 <= j < x.Length1 ==>
                initial[i][j] == Corner(MeanVector(x), MaxAbs(MeanVector(x)), pqBits, i, j)
    ensures ok <==> x.Length0 >= MinPointsPerCentroid * centroids.Length0
    ensures !ok ==> Rows(centroids) == initial
    // the training set
    ensures ok ==> TrainingRows(centroids.Length0, x.Length0) == Some(trainRows)
    ensures ok ==> trainSet.Length0 == trainRows && trainSet.Length1 == x.Length1 && trainSet != centroids
    ensures ok && x.Length0 <= MaxPointsPerCentroid * centroids.Length0 ==> trainSet == x
    ensures ok && x.Length0 > MaxPointsPerCentroid * centroids.Length0 ==>
              forall i, j :: 0 <= i < trainRows && 0 <= j < x.Length1 ==> trainSet[i, j] == x[samplePerm[i], j]
    // the iterations: a run of k-means rounds from the initial to the final codebook
    ensures ok ==> 1 <= rounds <= passes <= MaxIterations
    ensures ok ==> IsRun(dist, trainSet, trainRows, centroids.Length0, states, donorHistory, objectives)
    ensures ok ==> |states| == rounds + 1 && |objectives| == passes
    ensures ok ==> states[0] == initial && states[rounds] == Rows(centroids)
    // training goes on while every pass improves enough, and ends at the cap or the first pass that does not
    ensures ok ==> forall t :: 0 <= t < rounds - 1 ==> !StopEarly(objectives[t], objectives[t + 1])
    ensures ok ==> (passes == rounds ==> passes == MaxIterations)
    ensures ok && passes == rounds + 1 ==> StopEarly(objectives[rounds - 1], objectives[rounds])
    // the cluster counts left by the last round's split: none is zero and they still add up to the rows
    ensures ok ==> counts == UpdateCounts(dist, trainSet, trainRows, states[rounds - 1], donorHistory[rounds - 1])
    ensures ok ==> |counts| == centroids.Length0 && Total(counts) == trainRows as real
    ensures ok ==> forall c :: 0 <= c < |counts| ==> counts[c] != 0.0
  {
    var assign := new int[x.Length0];
    var dis := new real[x.Length0];
    initial := InitCentroids(trainType, pqBits, x, centroids, initPerm);
    ok, trainRows, trainSet, passes, rounds, objectives, counts, states, donorHistory :=
      TrainCodebook(dist, x, centroids, samplePerm, dis, assign);
  }

  /**
   * The part of PqTrain after the initialisation: the training-set size
   * decision, then the k-means iterations from the current codebook.
   */
  method TrainCodebook(dist: Distance, x: array2<real>, centroids: array2<real>, samplePerm: seq<int>,
                       dis: array<real>, assign: array<int>)
    returns (ok: bool, ghost trainRows: nat, ghost trainSet: array2<real>,
             ghost passes: nat, ghost rounds: nat, ghost objectives: seq<real>, ghost counts: seq<real>,
             ghost states: seq<seq<seq<real>>>, ghost donorHistory: seq<seq<nat>>)
    requires x != centroids && centroids.Length0 >= 1 && centroids.Length1 == x.Length1
    requires IsPermutation(samplePerm, x.Length0)
    requires dis.Length == x.Length0 && assign.Length == x.Length0
    modifies centroids, dis, assign
    ensures ok <==> x.Length0 >= MinPointsPerCentroid * centroids.Length0
    ensures !ok ==> Rows(centroids) == old(Rows(centroids))
    // the training set
    ensures ok ==> TrainingRows(centroids.Length0, x.Length0) == Some(trainRows)
    ensures ok ==> trainSet.Length0 == trainRows && trainSet.Length1 == x.Length1 && trainSet != centroids
    ensures ok && x.Length0 <= MaxPointsPerCentroid * centroids.Length0 ==> trainSet == x
    ensures ok && x.Length0 > MaxPointsPerCentroid * centroids.Length0 ==>
              forall i, j :: 0 <= i < trainRows && 0 <= j < x.Length1 ==> trainSet[i, j] == x[samplePerm[i], j]
    // the iterations: a run of k-means rounds from the initial to the final codebook
    ensures ok ==> 1 <= rounds <= passes <= MaxIterations
    ensures ok ==> IsRun(dist, trainSet, trainRows, centroids.Length0, states, donorHistory, objectives)
    ensures ok ==> |states| == rounds + 1 && |objectives| == passes
    ensures ok ==> states[0] == old(Rows(centroids)) && states[rounds] == Rows(centroids)
    // training goes on while every pass improves enough, and ends at the cap or the first pass that does not
    ensures ok ==> forall t :: 0 <= t < rounds - 1 ==> !StopEarly(objectives[t], objectives[t + 1])
    ensures ok ==> (passes == rounds ==> passes == MaxIterations)
    ensures ok && passes == rounds + 1 ==> StopEarly(objectives[rounds - 1], objectives[rounds])
    // the cluster counts left by the last round's split: none is zero and they still add up to the rows
    ensures ok ==> counts == UpdateCounts(dist, trainSet, trainRows, states[rounds - 1], donorHistory[rounds - 1])
    ensures ok ==> |counts| == centroids.Length0 && Total(counts) == trainRows as real
    ensures ok ==> forall c :: 0 <= c < |counts| ==> counts[c] != 0.0
  {
    var k := centroids.Length0;
    trainRows, trainSet, passes, rounds, objectives, counts, states, donorHistory := 0, x, 0, 0, [], [], [], [];
    var n, xs;
    ok, n, xs := SelectTrainingSet(k, x, samplePerm);
    if !ok {
      return;
    }
    // n > k here (TrainingRows), so the copy-the-training-set shortcut for n == k never applies
    trainRows, trainSet := n, xs;
    passes, rounds, objectives, counts, states, donorHistory := LloydIterations(dist, n, xs, centroids, dis, assign);
    assert counts == UpdateCounts(dist, xs, n, states[rounds - 1], donorHistory[rounds - 1]);
  }

  /**
   * The training-set size decision of PqTrain: fails below 39 rows per
   * centroid, subsamples 256 rows per centroid above that many, and otherwise
   * keeps the training set.
   */
  method SelectTrainingSet(k: nat, x: array2<real>, samplePerm: seq<int>) returns (ok: bool, n: nat, xs: array2<real>)
    requires k >= 1 && IsPermutation(samplePerm, x.Length0)
    ensures ok <==> x.Length0 >= MinPointsPerCentroid * k
    ensures ok ==> TrainingRows(k, x.Length0) == Some(n)
    ensures ok ==> xs.Length0 == n && xs.Length1 == x.Length1
    ensures ok && x.Length0 <= MaxPointsPerCentroid * k ==> xs == x
    ensures ok && x.Length0 > MaxPointsPerCentroid * k ==>
              fresh(xs) && forall i, j :: 0 <= i < n && 0 <= j < x.Length1 ==> xs[i, j] == x[samplePerm[i], j]
  {
    var nx := x.Length0;
    ok, n, xs := true, nx, x;
    if nx > k * MaxPointsPerCentroid {
      n, xs := SubsampleTrainingSet(k, x, samplePerm);
    } else if nx < k * MinPointsPerCentroid {
      ok := false;
    }
  }

  /** Picks the initial codebook as the training type says and returns it. */
  method InitCentroids(trainType: TrainType, pqBits: nat, x: array2<real>, centroids: array2<real>, initPerm: seq<int>)
    returns (ghost initial: seq<seq<real>>)
    requires trainType != HypercubePca
    requires x != centroids
    requires centroids.Length0 == Pow2(pqBits) && centroids.Length1 == x.Length1
    requires IsPermutation(initPerm, x.Length0)
    requires trainType == Default ==> centroids.Length0 <= x.Length0
    requires trainType == Hypercube ==> 1 <= x.Length0 && pqBits <= x.Length1
    modifies centroids
    ensures initial == Rows(centroids)
    ensures |initial| == centroids.Length0 && forall i :: 0 <= i < |initial| ==> |initial[i]| == x.Length1
    ensures trainType == Default ==>
              forall i, j :: 0 <= i < centroids.Length0 && 0 <= j < x.Length1 ==> initial[i][j] == x[initPerm[i], j]
    ensures trainType == Hypercube ==>
              forall i, j :: 0 <= i < centroids.Length0 && 0 <= j < x.Length1 ==>
                initial[i][j] == Corner(MeanVector(x), MaxAbs(MeanVector(x)), pqBits, i, j)
  {
    if trainType == Hypercube {
      InitHypercube(pqBits, x, centroids);
    } else {
      InitFromRows(x, centroids, initPerm);
    }
    initial := Rows(centroids);
    assert forall i, j :: 0 <= i < centroids.Length0 && 0 <= j < x.Length1 ==> initial[i][j] == centroids[i, j];
  }

  /** The default initialisation: centroid `i` is row `perm[i]` of the training set. */
  method InitFromRows(x: array2<real>, centroids: array2<real>, perm: seq<int>)
    requires x != centroids && centroids.Length1 == x.Length1
    requires IsPermutation(perm, x.Length0) && centroids.Length0 <= x.Length0
    modifies centroids
    ensures forall i, j :: 0 <= i < centroids.Length0 && 0 <= j < centroids.Length1 ==> centroids[i, j] == x[perm[i], j]
  {
    for i := 0 to centroids.Length0
      invariant forall i', j :: 0 <= i' < i && 0 <= j < centroids.Length1 ==> centroids[i', j] == x[perm[i'], j]
    {
      CopyRow(x, perm[i], centroids, i);
    }
  }

  /**
   * One assignment pass of the k-means iterations: every row goes to its
   * nearest centroid, and the objective is the sum of the distances.
   */
  method AssignmentPass(dist: Distance, centroids: array2<real>, n: nat, x: array2<real>,
                        dis: array<real>, assign: array<int>) returns (obj: real)
    requires centroids.Length0 >= 1 && centroids.Length1 == x.Length1
    requires n <= x.Length0 && n <= dis.Length && n <= assign.Length
    modifies dis, assign
    ensures assign[..n] == Assignment(dist, x, n, Rows(centroids))
    ensures forall i :: 0 <= i < n ==> dis[i] == MinDistance(dist, Row(x, i), Rows(centroids))
    ensures forall i :: 0 <= i < n ==> 0 <= assign[i] < centroids.Length0
    ensures obj == Objective(dist, x, n, Rows(centroids))
  {
    CalculateDistances(dist, centroids, n, x, dis, assign);
    obj := AccumulateObjective(dis, n);
    forall i | 0 <= i < n
      ensures assign[i] == NearestIndex(dist, Row(x, i), Rows(centroids))
      ensures dis[i] == MinDistance(dist, Row(x, i), Rows(centroids))
    {
      NearestIsUnique(dist, Row(x, i), Rows(centroids), assign[i], dis[i]);
    }
    ObjectiveFromDistances(dist, x, n, Rows(centroids), dis[..n]);
  }

  /**
   * One k-means iteration: an assignment pass, then, unless its objective
   * `obj` does not improve enough on `prevObj`, a centroid update.
   */
  method LloydIteration(dist: Distance, n: nat, x: array2<real>, centroids: array2<real>,
                        dis: array<real>, assign: array<int>, prevObj: Option<real>)
    returns (obj: real, stop: bool, ghost counts: seq<real>, ghost donors: seq<nat>)
    requires x != centroids && centroids.Length1 == x.Length1
    requires 1 <= centroids.Length0 < n <= x.Length0 && n <= dis.Length && n <= assign.Length
    modifies centroids, dis, assign
    ensures obj == Objective(dist, x, n, old(Rows(centroids)))
    ensures assign[..n] == Assignment(dist, x, n, old(Rows(centroids)))
    ensures stop <==> prevObj.Some? && StopEarly(prevObj.value, obj)
    ensures stop ==> Rows(centroids) == old(Rows(centroids))
    ensures !stop ==> LloydUpdate(dist, x, n, old(Rows(centroids)), donors, Rows(centroids))
    ensures !stop ==> counts == UpdateCounts(dist, x, n, old(Rows(centroids)), donors)
    ensures !stop ==> |counts| == centroids.Length0 && Total(counts) == n as real
    ensures !stop ==> forall c :: 0 <= c < |counts| ==> counts[c] != 0.0
  {
    counts, donors := [], [];
    obj := AssignmentPass(dist, centroids, n, x, dis, assign);
    stop := prevObj.Some? && StopEarly(prevObj.value, obj);
    if !stop {
      counts, donors := UpdateCentroids(n, x, assign, centroids);
    }
  }

  /**
   * The k-means iterations of PqTrain on the first `n` rows of `x`: up to 25
   * assignment passes, stopping early at the first pass whose objective does
   * not improve enough on the previous one; every pass that does not stop is
   * followed by a centroid update. `states` holds the codebook before each
   * update and after the last one.
   */
  method LloydIterations(dist: Distance, n: nat, x: array2<real>, centroids: array2<real>,
                         dis: array<real>, assign: array<int>)
    returns (ghost passes: nat, ghost rounds: nat, ghost objectives: seq<real>, ghost counts: seq<real>,
             ghost states: seq<seq<seq<real>>>, ghost donorHistory: seq<seq<nat>>)
    requires x != centroids && centroids.Length1 == x.Length1
    requires 1 <= centroids.Length0 < n <= x.Length0 && n <= dis.Length && n <= assign.Length
    modifies centroids, dis, assign
    ensures 1 <= rounds <= passes <= MaxIterations
    ensures IsRun(dist, x, n, centroids.Length0, states, donorHistory, objectives)
    ensures |states| == rounds + 1 && |objectives| == passes
    ensures states[0] == old(Rows(centroids)) && states[rounds] == Rows(centroids)
    ensures forall t :: 0 <= t < rounds - 1 ==> !StopEarly(objectives[t], objectives[t + 1])
    ensures passes == rounds ==> passes == MaxIterations
    ensures passes == rounds + 1 ==> StopEarly(objectives[rounds - 1], objectives[rounds])
    ensures counts == UpdateCounts(dist, x, n, states[rounds - 1], donorHistory[rounds - 1])
    ensures |counts| == centroids.Length0 && Total(counts) == n as real
    ensures forall c :: 0 <= c < |counts| ==> counts[c] != 0.0
  {
    var k := centroids.Length0;
    passes, rounds, objectives, counts, states, donorHistory := 0, 0, [], [], [Rows(centroids)], [];
    var prevObj: Option<real> := None;  // HUGE_VAL: the first pass never stops early
    for it := 0 to MaxIterations
      invariant passes == rounds == it && |objectives| == it
      invariant IsRun(dist, x, n, k, states, donorHistory, objectives)
      invariant |states| == it + 1
      invariant states[0] == old(Rows(centroids)) && states[it] == Rows(centroids)
      invariant prevObj == if it == 0 then None else Some(objectives[it - 1])
      invariant forall t :: 0 <= t < it - 1 ==> !StopEarly(objectives[t], objectives[t + 1])
      invariant it > 0 ==> counts == UpdateCounts(dist, x, n, states[it - 1], donorHistory[it - 1])
      invariant it > 0 ==> |counts| == k && Total(counts) == n as real
      invariant it > 0 ==> forall c :: 0 <= c < |counts| ==> counts[c] != 0.0
    {
      var obj, stop;
      ghost var roundCounts, roundDonors;
      obj, stop, roundCounts, roundDonors := TrackedIteration(dist, n, x, centroids, dis, assign, prevObj,
                                                              states, donorHistory, objectives);
      ghost var before := objectives;
      passes, objectives := passes + 1, objectives + [obj];
      if stop {
        break;
      }
      forall t | 0 <= t < it
        ensures !StopEarly(objectives[t], objectives[t + 1])
      {
        if t < it - 1 {
          assert objectives[t] == before[t] && objectives[t + 1] == before[t + 1];
        }
      }
      prevObj, counts := Some(obj), roundCounts;
      states, donorHistory := states + [Rows(centroids)], donorHistory + [roundDonors];
      rounds := rounds + 1;
    }
  }

  /**
   * LloydIteration on the last codebook of a run: the run grows by the pass
   * and, unless the pass stopped, by the k-means update that followed it.
   */
  method TrackedIteration(dist: Distance, n: nat, x: array2<real>, centroids: array2<real>,
                          dis: array<real>, assign: array<int>, prevObj: Option<real>,
                          ghost states: seq<seq<seq<real>>>, ghost donorHistory: seq<seq<nat>>,
                          ghost objectives: seq<real>)
    returns (obj: real, stop: bool, ghost counts: seq<real>, ghost donors: seq<nat>)
    requires x != centroids && centroids.Length1 == x.Length1
    requires 1 <= centroids.Length0 < n <= x.Length0 && n <= dis.Length && n <= assign.Length
    requires IsRun(dist, x, n, centroids.Length0, states, donorHistory, objectives)
    requires |objectives| == |donorHistory| && states[|states| - 1] == Rows(centroids)
    modifies centroids, dis, assign
    ensures stop <==> prevObj.Some? && StopEarly(prevObj.value, obj)
    ensures IsRun(dist, x, n, centroids.Length0, states, donorHistory, objectives + [obj])
    ensures stop ==> Rows(centroids) == old(Rows(centroids))
    ensures !stop ==>
              IsRun(dist, x, n, centroids.Length0, states + [Rows(centroids)], donorHistory + [donors], objectives + [obj])
    ensures !stop ==> |donors| == centroids.Length0 && DonorsInRange(donors, centroids.Length0)
    ensures !stop ==> counts == UpdateCounts(dist, x, n, states[|states| - 1], donors)
    ensures !stop ==> |counts| == centroids.Length0 && Total(counts) == n as real
    ensures !stop ==> forall c :: 0 <= c < |counts| ==> counts[c] != 0.0
  {
    var k := centroids.Length0;
    obj, stop, counts, donors := LloydIteration(dist, n, x, centroids, dis, assign, prevObj);
    RunNextPass(dist, x, n, k, states, donorHistory, objectives, obj);
    if !stop {
      RunNextRound(dist, x, n, k, states, donorHistory, objectives + [obj], donors, Rows(centroids));
    }
  }
}
