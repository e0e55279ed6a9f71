/** Recurring spikes (internal/analyzer/recurrence.go): greedy clustering on a 1440-minute circle. */
module Recurrence {
  import opened Common

  datatype SpikeEvent = SpikeEvent(
    resource: string, device: string, startTs: Time, durationS: real, peak: real, eventId: string)

  const TOLERANCE: int := 20
  const CIRCLE: int := 1440

  function MinuteOfDay(t: Time): (m: int)
    ensures 0 <= m < CIRCLE
  {
    (t % DAY) / MINUTE
  }

  /** minuteDist. */
  function MinuteDist(a: int, b: int): int {
    var d := if a - b < 0 then b - a else a - b;
    if d > 720 then CIRCLE - d else d
  }

  function Minute(evs: seq<SpikeEvent>, i: nat): (m: int)
    requires i < |evs|
    ensures 0 <= m < CIRCLE
  {
    MinuteOfDay(evs[i].startTs)
  }

  predicate Near(evs: seq<SpikeEvent>, i: nat, j: nat)
    requires i < |evs| && j < |evs|
  {
    MinuteDist(Minute(evs, i), Minute(evs, j)) <= TOLERANCE
  }

  // ---- the circle -------------------------------------------------------------------------

  /** On the circle, distances obey the triangle inequality. */
  lemma CircleTriangle(a: int, b: int, c: int)
    requires 0 <= a < CIRCLE && 0 <= b < CIRCLE && 0 <= c < CIRCLE
    ensures MinuteDist(a, c) <= MinuteDist(a, b) + MinuteDist(b, c)
    ensures MinuteDist(a, b) == MinuteDist(b, a) && MinuteDist(a, a) == 0
  {
  }

  /** The distance is that of the shorter way around the clock. */
  lemma DistanceIsShortest(a: int, b: int)
    requires 0 <= a < CIRCLE && 0 <= b < CIRCLE
    ensures 2 * MinuteDist(a, b) <= CIRCLE
    ensures (a + MinuteDist(a, b)) % CIRCLE == b || (b + MinuteDist(a, b)) % CIRCLE == a
  {
  }

  /** How many minutes after `m` the clock shows `x`. */
  function Offset(x: int, m: int): int { (x - m) % CIRCLE }

  lemma OffsetIs(x: int, m: int)
    requires 0 <= x < CIRCLE && 0 <= m < CIRCLE
    ensures Offset(x, m) == if x >= m then x - m else x - m + CIRCLE
  {
  }

  /** The first `n` minutes from `m` on, around the circle. */
  function Arc(m: int, n: nat): set<int> {
    set x | 0 <= x < CIRCLE && Offset(x, m) < n
  }

  lemma ArcGrows(m: int, n: nat)
    requires 0 <= m < CIRCLE && n < CIRCLE
    ensures Arc(m, n + 1) == Arc(m, n) + {(m + n) % CIRCLE} && (m + n) % CIRCLE !in Arc(m, n)
  {
    var last := (m + n) % CIRCLE;
    assert last == if m + n < CIRCLE then m + n else m + n - CIRCLE;
    OffsetIs(last, m);
    forall x | 0 <= x < CIRCLE ensures Offset(x, m) == n <==> x == last {
      OffsetIs(x, m);
    }
  }

  lemma {:induction false} ArcSize(m: int, n: nat)
    requires 0 <= m < CIRCLE && n <= CIRCLE
    ensures |Arc(m, n)| == n
  {
    if n == 0 {
      assert Arc(m, 0) == {};
    } else {
      ArcSize(m, n - 1);
      ArcGrows(m, n - 1);
    }
  }

  lemma ArcsDisjoint(a: int, b: int)
    requires 0 <= a < CIRCLE && 0 <= b < CIRCLE && MinuteDist(a, b) > TOLERANCE
    ensures Arc(a, TOLERANCE + 1) !! Arc(b, TOLERANCE + 1)
  {
    forall x: int | 0 <= x < CIRCLE && Offset(x, a) < TOLERANCE + 1 ensures Offset(x, b) >= TOLERANCE + 1 {
      OffsetIs(x, a);
      OffsetIs(x, b);
    }
  }

  function Covered(seeds: seq<int>): set<int> {
    if seeds == [] then {} else Covered(seeds[..|seeds| - 1]) + Arc(seeds[|seeds| - 1], TOLERANCE + 1)
  }

  ghost predicate Spread(seeds: seq<int>) {
    && (forall i :: 0 <= i < |seeds| ==> 0 <= seeds[i] < CIRCLE)
    && forall i, j :: 0 <= i < j < |seeds| ==> MinuteDist(seeds[i], seeds[j]) > TOLERANCE
  }

  lemma {:induction false} CoveredSize(seeds: seq<int>)
    requires Spread(seeds)
    ensures |Covered(seeds)| == (TOLERANCE + 1) * |seeds|
    ensures Covered(seeds) <= Arc(0, CIRCLE)
    ensures forall x :: x in Covered(seeds) ==> exists i :: 0 <= i < |seeds| && x in Arc(seeds[i], TOLERANCE + 1)
  {
    if seeds != [] {
      var init, last := seeds[..|seeds| - 1], seeds[|seeds| - 1];
      CoveredSize(init);
      ArcSize(last, TOLERANCE + 1);
      forall x | x in Covered(init) ensures x !in Arc(last, TOLERANCE + 1) {
        var i :| 0 <= i < |init| && x in Arc(init[i], TOLERANCE + 1);
        ArcsDisjoint(seeds[i], last);
      }
      forall x | x in Covered(seeds) ensures exists i :: 0 <= i < |seeds| && x in Arc(seeds[i], TOLERANCE + 1) {
        if x in Covered(init) {
          var i :| 0 <= i < |init| && x in Arc(init[i], TOLERANCE + 1);
          assert x in Arc(seeds[i], TOLERANCE + 1);
        }
      }
      assert Covered(init) !! Arc(last, TOLERANCE + 1);
    }
  }

  /** Minutes pairwise more than 20 apart on the circle: there are at most 68 of them. */
  lemma Packing(seeds: seq<int>)
    requires Spread(seeds)
    ensures |seeds| <= 68
  {
    CoveredSize(seeds);
    ArcSize(0, CIRCLE);
    SubsetSize(Covered(seeds), Arc(0, CIRCLE));
  }

  // ---- clusters ---------------------------------------------------------------------------

  type Cluster = seq<nat>

  ghost predicate WellFormed(evs: seq<SpikeEvent>, clusters: seq<Cluster>) {
    forall c :: 0 <= c < |clusters| ==> clusters[c] != [] && forall j :: j in clusters[c] ==> j < |evs|
  }

  /** Event `j` is near the event that cluster `c` started from. */
  ghost predicate NearSeed(evs: seq<SpikeEvent>, clusters: seq<Cluster>, c: nat, j: nat)
    requires WellFormed(evs, clusters) && c < |clusters| && j < |evs|
  {
    assert clusters[c][0] in clusters[c];
    Near(evs, clusters[c][0], j)
  }

  /** First fit: cluster `c` is the first whose seed is near event `j`. */
  ghost predicate FirstFit(evs: seq<SpikeEvent>, clusters: seq<Cluster>, c: nat, j: nat)
    requires WellFormed(evs, clusters) && c < |clusters| && j < |evs|
  {
    NearSeed(evs, clusters, c, j) && forall d :: 0 <= d < c ==> !NearSeed(evs, clusters, d, j)
  }

  ghost predicate AscendingFrom(cluster: Cluster) {
    forall i, j :: 0 <= i < j < |cluster| ==> cluster[i] < cluster[j]
  }

  ghost predicate Owned(clusters: seq<Cluster>, j: nat) { exists c :: 0 <= c < |clusters| && j in clusters[c] }

  /** Every cluster lists its events in order, starting with its seed; an event is in a cluster
      exactly when the cluster is its first fit; and every event before `n` is in some cluster. */
  ghost predicate Clustering(evs: seq<SpikeEvent>, clusters: seq<Cluster>, n: nat) {
    && WellFormed(evs, clusters)
    && (forall c :: 0 <= c < |clusters| ==> AscendingFrom(clusters[c]))
    && (forall c: nat, j: nat :: c < |clusters| && j < |evs| ==> (j in clusters[c] <==> FirstFit(evs, clusters, c, j)))
    && (forall j: nat :: j < n ==> Owned(clusters, j))
  }

  lemma MembersAreNear(evs: seq<SpikeEvent>, clusters: seq<Cluster>, n: nat, c: nat, i: nat, j: nat)
    requires Clustering(evs, clusters, n) && c < |clusters| && i in clusters[c] && j in clusters[c]
    ensures NearSeed(evs, clusters, c, j)
    ensures i < |evs| && j < |evs| && MinuteDist(Minute(evs, i), Minute(evs, j)) <= 2 * TOLERANCE
  {
    assert clusters[c][0] in clusters[c];
    assert FirstFit(evs, clusters, c, i) && FirstFit(evs, clusters, c, j);
    CircleTriangle(Minute(evs, i), Minute(evs, clusters[c][0]), Minute(evs, j));
  }

  lemma SeedsAreApart(evs: seq<SpikeEvent>, clusters: seq<Cluster>, n: nat, c: nat, d: nat)
    requires Clustering(evs, clusters, n) && c < d < |clusters|
    ensures clusters[c][0] < |evs| && clusters[d][0] < |evs|
    ensures MinuteDist(Minute(evs, clusters[c][0]), Minute(evs, clusters[d][0])) > TOLERANCE
  {
    assert clusters[c][0] in clusters[c] && clusters[d][0] in clusters[d];
    assert FirstFit(evs, clusters, d, clusters[d][0]);
    assert !NearSeed(evs, clusters, c, clusters[d][0]);
  }

  /** Clusters share no event. */
  lemma ClustersAreDisjoint(evs: seq<SpikeEvent>, clusters: seq<Cluster>, n: nat, c: nat, d: nat, j: nat)
    requires Clustering(evs, clusters, n) && c < d < |clusters| && j in clusters[c]
    ensures j !in clusters[d]
  {
    assert FirstFit(evs, clusters, c, j);
    assert j in clusters[d] <==> FirstFit(evs, clusters, d, j);
    assert NearSeed(evs, clusters, c, j);
  }

  function SeedMinutes(evs: seq<SpikeEvent>, clusters: seq<Cluster>): (s: seq<int>)
    requires forall c :: 0 <= c < |clusters| ==> clusters[c] != [] && clusters[c][0] < |evs|
    ensures |s| == |clusters| && forall c :: 0 <= c < |s| ==> s[c] == Minute(evs, clusters[c][0])
  {
    seq(|clusters|, c requires 0 <= c < |clusters| => Minute(evs, clusters[c][0]))
  }

  /** However many spikes one series has, they fall into at most 68 clusters. */
  lemma AtMost68Clusters(evs: seq<SpikeEvent>, clusters: seq<Cluster>, n: nat)
    requires Clustering(evs, clusters, n)
    ensures |clusters| <= 68
  {
    forall c | 0 <= c < |clusters| ensures clusters[c] != [] && clusters[c][0] < |evs| {
      assert clusters[c][0] in clusters[c];
    }
    var s := SeedMinutes(evs, clusters);
    forall c, d | 0 <= c < d < |s| ensures MinuteDist(s[c], s[d]) > TOLERANCE {
      SeedsAreApart(evs, clusters, n, c, d);
    }
    Packing(s);
  }

  // ---- the clustering loops ---------------------------------------------------------------

  /** `used` marks exactly the events that some cluster holds. */
  ghost predicate Marks(used: seq<bool>, clusters: seq<Cluster>) {
    forall j: nat :: j < |used| ==> (used[j] <==> Owned(clusters, j))
  }

  /** The inner loop collects, in order, every unused event from `i` on that is near event `i`. */
  ghost predicate Collected(evs: seq<SpikeEvent>, used: seq<bool>, i: nat, j: nat, cluster: Cluster)
    requires i < j <= |evs| && |used| == |evs|
  {
    && AscendingFrom(cluster) && cluster != [] && cluster[0] == i
    && forall k: nat :: k in cluster <==> i <= k < j && !used[k] && Near(evs, i, k)
  }

  method GrowCluster(evs: seq<SpikeEvent>, used: array<bool>, i: nat) returns (cluster: Cluster)
    requires used.Length == |evs| && i < |evs| && !used[i]
    modifies used
    ensures Collected(evs, old(used[..]), i, |evs|, cluster)
    ensures forall k: nat :: k < |evs| ==> used[k] == (old(used[k]) || k in cluster)
  {
    ghost var was := used[..];
    cluster := [i];
    used[i] := true;
    var base := MinuteOfDay(evs[i].startTs);
    for j := i + 1 to |evs|
      invariant Collected(evs, was, i, j, cluster)
      invariant forall k: nat :: k < |evs| ==> used[k] == (was[k] || k in cluster)
    {
      if !used[j] && MinuteDist(base, MinuteOfDay(evs[j].startTs)) <= TOLERANCE {
        CollectOne(evs, was, i, j, cluster);
        cluster := cluster + [j];
        used[j] := true;
      }
    }
  }

  lemma CollectOne(evs: seq<SpikeEvent>, used: seq<bool>, i: nat, j: nat, cluster: Cluster)
    requires i < j < |evs| && |used| == |evs| && Collected(evs, used, i, j, cluster)
    requires !used[j] && Near(evs, i, j)
    ensures Collected(evs, used, i, j + 1, cluster + [j])
  {
    forall a | 0 <= a < |cluster| ensures cluster[a] < j {
      assert cluster[a] in cluster;
    }
  }

  /** An event near some seed is in a cluster. */
  lemma {:induction false} NearMeansOwned(evs: seq<SpikeEvent>, clusters: seq<Cluster>, n: nat, d: nat, k: nat)
    requires Clustering(evs, clusters, n) && d < |clusters| && k < |evs| && NearSeed(evs, clusters, d, k)
    ensures Owned(clusters, k)
  {
    if e :| 0 <= e < d && NearSeed(evs, clusters, e, k) {
      NearMeansOwned(evs, clusters, n, e, k);
    } else {
      assert FirstFit(evs, clusters, d, k);
    }
  }

  lemma SameSeeds(evs: seq<SpikeEvent>, clusters: seq<Cluster>, cluster: Cluster, c: nat, j: nat)
    requires WellFormed(evs, clusters) && WellFormed(evs, clusters + [cluster]) && c < |clusters| && j < |evs|
    ensures NearSeed(evs, clusters + [cluster], c, j) == NearSeed(evs, clusters, c, j)
    ensures FirstFit(evs, clusters + [cluster], c, j) == FirstFit(evs, clusters, c, j)
  {
    forall d | 0 <= d <= c ensures NearSeed(evs, clusters + [cluster], d, j) == NearSeed(evs, clusters, d, j) {
      assert (clusters + [cluster])[d] == clusters[d];
    }
  }

  lemma OwnedMore(clusters: seq<Cluster>, cluster: Cluster, j: nat)
    ensures Owned(clusters + [cluster], j) <==> Owned(clusters, j) || j in cluster
  {
    var all := clusters + [cluster];
    if c :| 0 <= c < |clusters| && j in clusters[c] { assert j in all[c]; }
    if j in cluster { assert j in all[|clusters|]; }
  }

  /** The collected cluster is first fit for exactly its events. */
  lemma NewClusterFits(evs: seq<SpikeEvent>, clusters: seq<Cluster>, used: seq<bool>, i: nat, cluster: Cluster, j: nat)
    requires |used| == |evs| && i < |evs| && Clustering(evs, clusters, i) && Marks(used, clusters)
    requires Collected(evs, used, i, |evs|, cluster) && WellFormed(evs, clusters + [cluster]) && j < |evs|
    ensures j in cluster <==> FirstFit(evs, clusters + [cluster], |clusters|, j)
  {
    var all := clusters + [cluster];
    forall d | 0 <= d < |clusters| ensures NearSeed(evs, all, d, j) ==> used[j] {
      SameSeeds(evs, clusters, cluster, d, j);
      if NearSeed(evs, clusters, d, j) { NearMeansOwned(evs, clusters, i, d, j); }
    }
    if used[j] {
      var c :| 0 <= c < |clusters| && j in clusters[c];
      assert FirstFit(evs, clusters, c, j);
      SameSeeds(evs, clusters, cluster, c, j);
    } else {
      assert j < i ==> Owned(clusters, j);
    }
  }

  lemma ClusterAdded(evs: seq<SpikeEvent>, clusters: seq<Cluster>, used: seq<bool>, i: nat, cluster: Cluster)
    requires |used| == |evs| && i < |evs| && Clustering(evs, clusters, i) && Marks(used, clusters)
    requires Collected(evs, used, i, |evs|, cluster)
    ensures Clustering(evs, clusters + [cluster], i + 1)
  {
    var all := clusters + [cluster];
    forall c: nat, j: nat | c < |all| && j < |evs| ensures j in all[c] <==> FirstFit(evs, all, c, j) {
      if c < |clusters| {
        SameSeeds(evs, clusters, cluster, c, j);
        assert j in clusters[c] <==> FirstFit(evs, clusters, c, j);
      } else {
        NewClusterFits(evs, clusters, used, i, cluster, j);
      }
    }
    forall j: nat | j < i + 1 ensures Owned(all, j) {
      OwnedMore(clusters, cluster, j);
      assert j == i ==> cluster[0] in cluster;
    }
  }

  /** The nested loops of DetectPatterns over one group of events. */
  method ClusterGroup(evs: seq<SpikeEvent>) returns (clusters: seq<Cluster>)
    ensures Clustering(evs, clusters, |evs|)
  {
    var used := new bool[|evs|](_ => false);
    clusters := [];
    for i := 0 to |evs|
      invariant Clustering(evs, clusters, i) && Marks(used[..], clusters)
    {
      if used[i] {
        assert Owned(clusters, i);
        continue;
      }
      ghost var was := used[..];
      var cluster := GrowCluster(evs, used, i);
      ClusterAdded(evs, clusters, was, i, cluster);
      forall j: nat | j < |evs| ensures used[j] <==> Owned(clusters + [cluster], j) {
        OwnedMore(clusters, cluster, j);
      }
      clusters := clusters + [cluster];
    }
  }
}
