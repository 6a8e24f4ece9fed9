/** The simulated clusters, and what each topology promises the placement searches. */
module SimClusters {
  import opened Wrappers
  import opened MachineInts
  import opened Sequences
  import opened Decimal
  import opened Lcg
  import opened ClusterTopology
  import opened CliqueSearch
  import opened PathSearch
  import opened ClusterGraphs

  datatype TopologyKind = NvlinkFull | PcieCrossNode | IbChain

  datatype ClusterSpec = ClusterSpec(gpuCount: nat, topology: TopologyKind, nvlinkGbps: real, ibGbps: real)

  function GpuName(i: nat): string {
    "gpu-" + Show(i)
  }

  lemma NamesDiffer(i: nat, j: nat)
    requires i != j
    ensures GpuName(i) != GpuName(j)
  {
    ShowRoundTrip(i);
    ShowRoundTrip(j);
    assert GpuName(i)[4..] == Show(i) && GpuName(j)[4..] == Show(j);
  }

  // ---- What the builders produce ----

  ghost predicate Linked(edges: seq<Edge>, a: nat, b: nat) {
    exists k :: 0 <= k < |edges| && edges[k].source == a && edges[k].target == b
  }

  lemma LinkedGrows(edges: seq<Edge>, e: Edge)
    ensures Linked(edges + [e], e.source, e.target)
    ensures forall a, b :: Linked(edges, a, b) ==> Linked(edges + [e], a, b)
  {
    var more := edges + [e];
    assert more[|edges|] == e;
    forall a, b | Linked(edges, a, b) ensures Linked(more, a, b) {
      var k :| 0 <= k < |edges| && edges[k].source == a && edges[k].target == b;
      assert more[k] == edges[k];
    }
  }

  /** `n` healthy GPUs named in order. */
  ghost predicate Fleet(t: Topology, n: nat) {
    |t.nodes| == n && forall i :: 0 <= i < n ==> t.nodes[i] == GpuNode(GpuName(i), "node-0", 0, true)
  }

  ghost predicate AllEdges(t: Topology, weight: Link) {
    forall k :: 0 <= k < |t.edges| ==> t.edges[k].weight == weight
  }

  /** No pair is linked twice. */
  ghost predicate OnceEach(edges: seq<Edge>) {
    forall j, k :: 0 <= j < k < |edges| ==> edges[j].source != edges[k].source || edges[j].target != edges[k].target
  }

  /** One link between every two of `n` GPUs, and no others. */
  ghost predicate MeshWires(t: Topology, n: nat, weight: Link) {
    && |t.nodes| == n && AllEdges(t, weight) && OnceEach(t.edges)
    && (forall k :: 0 <= k < |t.edges| ==> t.edges[k].source < t.edges[k].target < n)
    && (forall a, b :: 0 <= a < b < n ==> Linked(t.edges, a, b))
  }

  /** One link between each GPU and the next, and no others. */
  ghost predicate ChainWires(t: Topology, n: nat, weight: Link) {
    && |t.nodes| == n && AllEdges(t, weight) && OnceEach(t.edges)
    && (forall k :: 0 <= k < |t.edges| ==> t.edges[k].source + 1 == t.edges[k].target < n)
    && (forall a: nat, b: nat :: a < b < n && b == a + 1 ==> Linked(t.edges, a, b))
  }

  ghost predicate FullMesh(t: Topology, n: nat, weight: Link) {
    Fleet(t, n) && MeshWires(t, n, weight)
  }

  ghost predicate Chain(t: Topology, n: nat, weight: Link) {
    Fleet(t, n) && ChainWires(t, n, weight)
  }

  /** Some link of that kind joins the two GPUs. */
  ghost predicate Joined(t: Topology, a: nat, b: nat, kind: LinkKind) {
    exists k :: 0 <= k < |t.edges| && Connects(t.edges[k], a, b) && t.edges[k].weight.kind == kind
  }

  lemma MeshJoins(t: Topology, n: nat, weight: Link, a: nat, b: nat, kind: LinkKind)
    requires MeshWires(t, n, weight) && a < n && b < n
    ensures Joined(t, a, b, kind) <==> a != b && kind == weight.kind
  {
    if a != b {
      var lo, hi := if a < b then a else b, if a < b then b else a;
      assert Linked(t.edges, lo, hi);
      var k :| 0 <= k < |t.edges| && t.edges[k].source == lo && t.edges[k].target == hi;
      assert Connects(t.edges[k], a, b) && t.edges[k].weight == weight;
    }
  }

  lemma ChainJoins(t: Topology, n: nat, weight: Link, a: nat, b: nat, kind: LinkKind)
    requires ChainWires(t, n, weight) && a < n && b < n
    ensures Joined(t, a, b, kind) <==> (a == b + 1 || b == a + 1) && kind == weight.kind
  {
    if a == b + 1 || b == a + 1 {
      var lo, hi := if a < b then a else b, if a < b then b else a;
      assert Linked(t.edges, lo, hi);
      var k :| 0 <= k < |t.edges| && t.edges[k].source == lo && t.edges[k].target == hi;
      assert Connects(t.edges[k], a, b) && t.edges[k].weight == weight;
    }
  }

  // ---- Promises, whichever GPUs are healthy ----

  lemma HealthySet(t: Topology)
    ensures |HealthyIndices(t)| == |Elems(HealthyIndices(t))|
    ensures forall v: nat :: v in Elems(HealthyIndices(t)) <==> Usable(t, v)
  {
    IncreasingDistinct(HealthyIndices(t));
    DistinctSize(HealthyIndices(t));
  }

  /** On a cluster meshed with NVLink a clique is found exactly when enough GPUs are healthy and, beyond
      one GPU, the links are fast enough. */
  lemma NvlinkMeshPromise(t: Topology, n: nat, gbps: real, size: nat, minBw: real)
    requires MeshWires(t, n, Link(NvLink, gbps, 0))
    ensures FindClique(t, size, minBw).Some? <==> size <= |HealthyIndices(t)| && (size <= 1 || minBw <= gbps)
  {
    hide MeshWires, IsClique;
    FindCliqueExact(t, size, minBw);
    HealthySet(t);
    if size <= |HealthyIndices(t)| && (size <= 1 || minBw <= gbps) {
      MeshClique(t, n, gbps, size, minBw);
      var S := Elems(HealthyIndices(t)[..size]);
      assert IsClique(t, S, minBw) && |S| == size;
    }
    if S :| IsClique(t, S, minBw) && |S| == size {
      CliqueNeeds(t, n, gbps, S, minBw);
    }
  }

  lemma CliqueNeeds(t: Topology, n: nat, gbps: real, S: set<nat>, minBw: real)
    requires MeshWires(t, n, Link(NvLink, gbps, 0)) && IsClique(t, S, minBw)
    ensures |S| <= |HealthyIndices(t)| && (|S| <= 1 || minBw <= gbps)
  {
    CliqueFits(t, S, minBw);
    if |S| >= 2 {
      var a, b := TwoMembers(S);
      assert HasNvlink(t, a, b, minBw);
      var k :| 0 <= k < |t.edges| && NvlinkBetween(t.edges[k], a, b, minBw);
      assert t.edges[k].weight.bandwidthGbps == gbps;
    }
  }

  lemma MeshClique(t: Topology, n: nat, gbps: real, size: nat, minBw: real)
    requires MeshWires(t, n, Link(NvLink, gbps, 0))
    requires size <= |HealthyIndices(t)| && (size <= 1 || minBw <= gbps)
    ensures var S := Elems(HealthyIndices(t)[..size]); IsClique(t, S, minBw) && |S| == size
  {
    var s := HealthyIndices(t)[..size];
    IncreasingDistinct(s);
    DistinctSize(s);
    forall v | v in s ensures Usable(t, v) { assert v in HealthyIndices(t); }
    forall a, b | a in s && b in s && a != b ensures HasNvlink(t, a, b, minBw) {
      OneMemberAlone(s, a, b);
      var lo, hi := if a < b then a else b, if a < b then b else a;
      assert Usable(t, a) && Usable(t, b);
      assert Linked(t.edges, lo, hi);
      var k :| 0 <= k < |t.edges| && t.edges[k].source == lo && t.edges[k].target == hi;
      assert NvlinkBetween(t.edges[k], a, b, minBw);
    }
  }

  lemma OneMemberAlone(s: seq<nat>, a: nat, b: nat)
    requires a in s && b in s && a != b
    ensures |s| >= 2
  {
  }

  lemma CliqueFits(t: Topology, S: set<nat>, minBw: real)
    requires IsClique(t, S, minBw)
    ensures |S| <= |HealthyIndices(t)|
  {
    HealthySet(t);
    assert S <= Elems(HealthyIndices(t));
    SubsetSize(S, Elems(HealthyIndices(t)));
  }

  lemma TwoMembers(S: set<nat>) returns (a: nat, b: nat)
    requires |S| >= 2
    ensures a in S && b in S && a != b
  {
    a :| a in S;
    assert |S - {a}| == |S| - 1;
    b :| b in S - {a};
  }

  lemma NotLinked(t: Topology, weight: Link, a: nat, b: nat, minBw: real, maxHops: nat)
    requires AllEdges(t, weight)
    ensures weight.kind != NvLink ==> !HasNvlink(t, a, b, minBw)
    ensures weight.kind != InfiniBand ==> !HasIbHop(t, a, b, maxHops)
  {
  }

  /** Without NVLink there is no clique of two or more. */
  lemma NoCliques(t: Topology, weight: Link, size: nat, minBw: real)
    requires AllEdges(t, weight) && weight.kind != NvLink
    ensures FindClique(t, size, minBw).Some? <==> size <= 1 && size <= |HealthyIndices(t)|
  {
    FindCliqueExact(t, size, minBw);
    HealthySet(t);
    if size <= 1 && size <= |HealthyIndices(t)| {
      var S: set<nat> := if size == 0 then {} else {HealthyIndices(t)[0]};
      assert size == 1 ==> HealthyIndices(t)[0] in HealthyIndices(t);
      assert IsClique(t, S, minBw) && |S| == size;
    }
    if S :| IsClique(t, S, minBw) && |S| == size {
      CliqueFits(t, S, minBw);
      if size >= 2 {
        var a, b := TwoMembers(S);
        NotLinked(t, weight, a, b, minBw, 0);
      }
    }
  }

  /** Without InfiniBand there is no path of two or more. */
  lemma NoPaths(t: Topology, weight: Link, size: nat, maxHops: nat)
    requires WellFormed(t) && AllEdges(t, weight) && weight.kind != InfiniBand
    ensures FindPath(t, size, maxHops).Some? <==> size == 1 && |HealthyIndices(t)| >= 1
  {
    FindPathExact(t, size, maxHops);
    if size == 1 && |HealthyIndices(t)| >= 1 {
      var s := [HealthyIndices(t)[0]];
      assert HealthyIndices(t)[0] in HealthyIndices(t);
      assert IsIbPath(t, s, maxHops) && |s| == size;
    }
    if s :| IsIbPath(t, s, maxHops) && |s| == size && size >= 1 {
      assert Usable(t, s[0]);
      assert s[0] in HealthyIndices(t);
      if size >= 2 {
        NotLinked(t, weight, s[0], s[0 + 1], 0.0, maxHops);
      }
    }
  }

  /** `size` consecutive GPUs are healthy. */
  ghost predicate HealthyRun(t: Topology, size: nat) {
    exists from: nat :: RunAt(t, from, size)
  }

  ghost predicate RunAt(t: Topology, from: nat, size: nat) {
    from + size <= |t.nodes| && forall i: nat :: from <= i < from + size ==> Usable(t, i)
  }

  /** A simple path along a chain never turns around. */
  lemma {:induction false} ChainPathStraight(t: Topology, n: nat, gbps: real, s: seq<nat>, maxHops: nat, i: nat)
    requires ChainWires(t, n, Link(InfiniBand, gbps, 1)) && IsIbPath(t, s, maxHops) && 1 <= i < |s|
    ensures maxHops >= 1
    ensures s[1] == s[0] + 1 || s[0] == s[1] + 1
    ensures s[1] == s[0] + 1 ==> s[i] == s[0] + i && s[i - 1] == s[0] + i - 1
    ensures s[0] == s[1] + 1 ==> s[i] + i == s[0] && s[i - 1] + i - 1 == s[0]
  {
    assert HasIbHop(t, s[i - 1], s[i - 1 + 1], maxHops);
    var k :| 0 <= k < |t.edges| && IbBetween(t.edges[k], s[i - 1], s[i], maxHops);
    assert t.edges[k].source + 1 == t.edges[k].target && t.edges[k].weight.ibHopCount == 1;
    if i > 1 {
      ChainPathStraight(t, n, gbps, s, maxHops, i - 1);
      assert s[i] != s[i - 2];
    }
  }

  lemma StraightCovers(t: Topology, n: nat, gbps: real, s: seq<nat>, maxHops: nat) returns (from: nat)
    requires ChainWires(t, n, Link(InfiniBand, gbps, 1)) && IsIbPath(t, s, maxHops) && |s| >= 1
    ensures RunAt(t, from, |s|) && (|s| == 1 || maxHops >= 1)
  {
    var last := |s| - 1;
    forall i | 0 <= i < |s| ensures Usable(t, s[i]) { }
    if last == 0 {
      from := s[0];
    } else {
      ChainPathStraight(t, n, gbps, s, maxHops, last);
      var up := s[1] == s[0] + 1;
      from := if up then s[0] else s[last];
      forall i: nat | from <= i < from + |s| ensures Usable(t, i) {
        var j := if up then i - from else last - (i - from);
        if j > 0 { ChainPathStraight(t, n, gbps, s, maxHops, j); }
        assert s[j] == i;
      }
      assert Usable(t, from + last);
    }
  }

  /** On an InfiniBand chain a path is found exactly when that many consecutive GPUs are healthy and a hop
      is allowed or one GPU is enough. */
  lemma IbChainPromise(t: Topology, n: nat, gbps: real, size: nat, maxHops: nat)
    requires WellFormed(t) && ChainWires(t, n, Link(InfiniBand, gbps, 1))
    ensures FindPath(t, size, maxHops).Some? <==> size >= 1 && HealthyRun(t, size) && (size == 1 || maxHops >= 1)
  {
    FindPathExact(t, size, maxHops);
    if size >= 1 && HealthyRun(t, size) && (size == 1 || maxHops >= 1) {
      var from: nat :| RunAt(t, from, size);
      var s := RunPath(t, n, gbps, from, size, maxHops);
    }
    if s :| IsIbPath(t, s, maxHops) && |s| == size && size >= 1 {
      var from := StraightCovers(t, n, gbps, s, maxHops);
    }
  }

  lemma RunPath(t: Topology, n: nat, gbps: real, from: nat, size: nat, maxHops: nat) returns (s: seq<nat>)
    requires ChainWires(t, n, Link(InfiniBand, gbps, 1)) && RunAt(t, from, size) && (size <= 1 || maxHops >= 1)
    ensures IsIbPath(t, s, maxHops) && |s| == size
  {
    s := seq(size, i requires 0 <= i => from + i);
    forall i | 0 <= i < |s| - 1 ensures HasIbHop(t, s[i], s[i + 1], maxHops) {
      assert Usable(t, from + i + 1);
      assert Linked(t.edges, from + i, from + i + 1);
      var k :| 0 <= k < |t.edges| && t.edges[k].source == from + i && t.edges[k].target == from + i + 1;
      assert IbBetween(t.edges[k], s[i], s[i + 1], maxHops);
    }
  }

  // ---- What a built cluster promises, in terms of which GPUs have failed since ----

  ghost function Alive(n: nat, failed: seq<string>): set<nat> {
    set i: nat | i < n && GpuName(i) !in failed
  }

  /** `size` consecutive GPUs have not failed. */
  ghost predicate AliveRun(n: nat, failed: seq<string>, size: nat) {
    exists from: nat :: AllAlive(n, failed, from, size)
  }

  ghost predicate AllAlive(n: nat, failed: seq<string>, from: nat, size: nat) {
    from + size <= n && forall i: nat :: from <= i < from + size ==> GpuName(i) !in failed
  }

  lemma AliveAreHealthy(t: Topology, n: nat, failed: seq<string>)
    requires WellFormed(t) && Fleet(t, n)
    ensures var u := MarkAll(t, failed);
      && WellFormed(u) && u.edges == t.edges && |u.nodes| == n
      && |HealthyIndices(u)| == |Alive(n, failed)|
      && (forall size: nat :: HealthyRun(u, size) <==> AliveRun(n, failed, size))
  {
    var u := MarkAll(t, failed);
    MarkAllDegrades(t, failed);
    DegradedWellFormed(t, u);
    MarkAllHealth(t, failed);
    HealthySet(u);
    assert forall i: nat :: Usable(u, i) <==> i < n && GpuName(i) !in failed;
    assert Elems(HealthyIndices(u)) == Alive(n, failed);
    forall size: nat ensures HealthyRun(u, size) <==> AliveRun(n, failed, size) {
      if from: nat :| RunAt(u, from, size) { assert AllAlive(n, failed, from, size); }
      if from: nat :| AllAlive(n, failed, from, size) { assert RunAt(u, from, size); }
    }
  }

  /** Cliques of any size up to the number of healthy GPUs, on links of the given bandwidth. */
  ghost predicate CliquesUpTo(u: Topology, alive: nat, gbps: real) {
    forall size: nat, minBw ::
      FindClique(u, size, minBw).Some? <==> size <= alive && (size <= 1 || minBw <= gbps)
  }

  ghost predicate NoProperClique(u: Topology, alive: nat) {
    forall size: nat, minBw :: FindClique(u, size, minBw).Some? <==> size <= 1 && size <= alive
  }

  ghost predicate NoProperPath(u: Topology, alive: nat) {
    WellFormed(u) && forall size: nat, maxHops: nat :: FindPath(u, size, maxHops).Some? <==> size == 1 && alive >= 1
  }

  ghost predicate PathsAlongRuns(u: Topology, n: nat, failed: seq<string>) {
    WellFormed(u) && forall size: nat, maxHops: nat ::
      FindPath(u, size, maxHops).Some? <==> size >= 1 && AliveRun(n, failed, size) && (size == 1 || maxHops >= 1)
  }

  /** After any failures, cliques of any size up to the number of GPUs left. */
  ghost predicate CliquesExactly(t: Topology, n: nat, gbps: real) {
    forall failed :: CliquesUpTo(MarkAll(t, failed), |Alive(n, failed)|, gbps)
  }

  ghost predicate NoCliquesBeyondOne(t: Topology, n: nat) {
    forall failed :: NoProperClique(MarkAll(t, failed), |Alive(n, failed)|)
  }

  ghost predicate NoPathsBeyondOne(t: Topology, n: nat) {
    forall failed :: NoProperPath(MarkAll(t, failed), |Alive(n, failed)|)
  }

  /** After any failures, paths over any number of consecutive GPUs left. */
  ghost predicate PathsExactly(t: Topology, n: nat) {
    forall failed :: PathsAlongRuns(MarkAll(t, failed), n, failed)
  }

  /** Between which GPUs there are links, and of which kind. */
  ghost predicate JoinsExactly(t: Topology, n: nat, topology: TopologyKind) {
    forall a: nat, b: nat, kind :: a < n && b < n ==>
      (Joined(t, a, b, kind) <==>
         match topology
         case NvlinkFull => kind == NvLink && a != b
         case PcieCrossNode => kind == PCIe && a != b
         case IbChain => kind == InfiniBand && (a == b + 1 || b == a + 1))
  }

  lemma NvlinkFullMeets(t: Topology, n: nat, gbps: real)
    requires WellFormed(t) && FullMesh(t, n, Link(NvLink, gbps, 0))
    ensures CliquesExactly(t, n, gbps) && NoPathsBeyondOne(t, n) && JoinsExactly(t, n, NvlinkFull)
  {
    hide FindClique, FindPath;
    var weight := Link(NvLink, gbps, 0);
    forall failed ensures CliquesUpTo(MarkAll(t, failed), |Alive(n, failed)|, gbps) {
      AliveAreHealthy(t, n, failed);
      assert MeshWires(MarkAll(t, failed), n, weight);
      forall size: nat, minBw { NvlinkMeshPromise(MarkAll(t, failed), n, gbps, size, minBw); }
    }
    OnlySinglePaths(t, n, weight);
    forall a: nat, b: nat, kind | a < n && b < n ensures Joined(t, a, b, kind) <==> kind == NvLink && a != b {
      MeshJoins(t, n, weight, a, b, kind);
    }
  }

  lemma OnlySinglePaths(t: Topology, n: nat, weight: Link)
    requires WellFormed(t) && Fleet(t, n) && AllEdges(t, weight) && weight.kind != InfiniBand
    ensures NoPathsBeyondOne(t, n)
  {
    hide FindPath;
    forall failed ensures NoProperPath(MarkAll(t, failed), |Alive(n, failed)|) {
      AliveAreHealthy(t, n, failed);
      forall size: nat, maxHops: nat { NoPaths(MarkAll(t, failed), weight, size, maxHops); }
    }
  }

  lemma OnlySingleCliques(t: Topology, n: nat, weight: Link)
    requires WellFormed(t) && Fleet(t, n) && AllEdges(t, weight) && weight.kind != NvLink
    ensures NoCliquesBeyondOne(t, n)
  {
    hide FindClique;
    forall failed ensures NoProperClique(MarkAll(t, failed), |Alive(n, failed)|) {
      AliveAreHealthy(t, n, failed);
      forall size: nat, minBw { NoCliques(MarkAll(t, failed), weight, size, minBw); }
    }
  }

  lemma PcieMeets(t: Topology, n: nat, gbps: real)
    requires WellFormed(t) && FullMesh(t, n, Link(PCIe, gbps, 0))
    ensures NoCliquesBeyondOne(t, n) && NoPathsBeyondOne(t, n) && JoinsExactly(t, n, PcieCrossNode)
  {
    var weight := Link(PCIe, gbps, 0);
    OnlySingleCliques(t, n, weight);
    OnlySinglePaths(t, n, weight);
    hide NoCliquesBeyondOne, NoPathsBeyondOne;
    forall a: nat, b: nat, kind | a < n && b < n ensures Joined(t, a, b, kind) <==> kind == PCIe && a != b {
      MeshJoins(t, n, weight, a, b, kind);
    }
  }

  lemma IbChainMeets(t: Topology, n: nat, gbps: real)
    requires WellFormed(t) && Chain(t, n, Link(InfiniBand, gbps, 1))
    ensures NoCliquesBeyondOne(t, n) && PathsExactly(t, n) && JoinsExactly(t, n, IbChain)
  {
    hide FindPath;
    var weight := Link(InfiniBand, gbps, 1);
    OnlySingleCliques(t, n, weight);
    hide NoCliquesBeyondOne;
    forall failed ensures PathsAlongRuns(MarkAll(t, failed), n, failed) {
      AliveAreHealthy(t, n, failed);
      assert ChainWires(MarkAll(t, failed), n, weight);
      forall size: nat, maxHops: nat { IbChainPromise(MarkAll(t, failed), n, gbps, size, maxHops); }
    }
    forall a: nat, b: nat, kind | a < n && b < n
      ensures Joined(t, a, b, kind) <==> kind == InfiniBand && (a == b + 1 || b == a + 1)
    {
      ChainJoins(t, n, weight, a, b, kind);
    }
  }

  // ---- The builders ----

  ghost predicate Named(g: ClusterGraph, gpuIds: seq<string>)
    reads g
  {
    && g.Valid() && Fleet(g.View(), |gpuIds|)
    && (forall i :: 0 <= i < |gpuIds| ==>
      gpuIds[i] == GpuName(i) && gpuIds[i] in g.idIndex && g.idIndex[gpuIds[i]] == i)
  }

  method AddFleet(g: ClusterGraph, n: nat) returns (gpuIds: seq<string>)
    requires g.Valid() && g.View() == EMPTY_TOPOLOGY
    modifies g
    ensures |gpuIds| == n && Named(g, gpuIds) && g.edges == []
  {
    gpuIds := seq(n, i requires 0 <= i => GpuName(i));
    for i := 0 to n
      invariant g.Valid() && Fleet(g.View(), i) && g.edges == []
    {
      if gpuIds[i] in g.idIndex {
        var j := g.idIndex[gpuIds[i]];
        NamesDiffer(i, j);
      }
      g.AddGpu(gpuIds[i], "node-0", 0);
    }
    forall i | 0 <= i < n ensures gpuIds[i] in g.idIndex && g.idIndex[gpuIds[i]] == i {
      assert g.nodes[i].gpuId == gpuIds[i];
    }
  }

  /** The mesh as far as the nested loops have come: rows before `i` whole, row `i` up to `j`. */
  ghost predicate MeshedTo(edges: seq<Edge>, n: nat, weight: Link, i: nat, j: nat) {
    && OnceEach(edges)
    && (forall k :: 0 <= k < |edges| ==> edges[k].weight == weight && edges[k].source < edges[k].target < n)
    && (forall k :: 0 <= k < |edges| ==> Reached(edges[k].source, edges[k].target, i, j))
    && (forall a: nat, b: nat :: a < b < n && Reached(a, b, i, j) ==> Linked(edges, a, b))
  }

  predicate Reached(a: nat, b: nat, i: nat, j: nat) {
    a < i || (a == i && b < j)
  }

  lemma MeshGrows(edges: seq<Edge>, n: nat, e: Edge)
    requires MeshedTo(edges, n, e.weight, e.source, e.target) && e.source < e.target < n
    ensures MeshedTo(edges + [e], n, e.weight, e.source, e.target + 1)
  {
    LinkedGrows(edges, e);
  }

  /** One link between two GPUs of the fleet. */
  method LinkPair(g: ClusterGraph, gpuIds: seq<string>, i: nat, j: nat, weight: Link)
    requires Named(g, gpuIds) && i < |gpuIds| && j < |gpuIds|
    modifies g
    ensures Named(g, gpuIds) && g.edges == old(g.edges) + [Edge(i, j, weight)]
  {
    g.AddLink(gpuIds[i], gpuIds[j], weight.kind, weight.bandwidthGbps, weight.ibHopCount);
  }

  lemma RowDone(edges: seq<Edge>, n: nat, weight: Link, i: nat)
    requires MeshedTo(edges, n, weight, i, n)
    ensures MeshedTo(edges, n, weight, i + 1, i + 2)
  {
  }

  lemma MeshDone(t: Topology, n: nat, weight: Link)
    requires MeshedTo(t.edges, n, weight, n, n + 1) && |t.nodes| == n
    ensures MeshWires(t, n, weight)
  {
  }

  method AddMesh(g: ClusterGraph, gpuIds: seq<string>, kind: LinkKind, gbps: real)
    requires Named(g, gpuIds) && g.edges == []
    modifies g
    ensures Named(g, gpuIds) && FullMesh(g.View(), |gpuIds|, Link(kind, gbps, 0))
  {
    ghost var n, weight := |gpuIds|, Link(kind, gbps, 0);
    assert MeshedTo(g.edges, n, weight, 0, 1);
    hide MeshedTo, MeshWires;
    for i := 0 to |gpuIds|
      invariant Named(g, gpuIds) && MeshedTo(g.edges, n, weight, i, i + 1)
    {
      for j := i + 1 to |gpuIds|
        invariant Named(g, gpuIds) && MeshedTo(g.edges, n, weight, i, j)
      {
        MeshGrows(g.edges, n, Edge(i, j, weight));
        LinkPair(g, gpuIds, i, j, Link(kind, gbps, 0));
      }
      RowDone(g.edges, n, weight, i);
    }
    MeshDone(g.View(), n, weight);
  }

  /** The chain as far as the loop has come. */
  ghost predicate ChainedTo(edges: seq<Edge>, weight: Link, i: nat) {
    && OnceEach(edges)
    && (forall k :: 0 <= k < |edges| ==>
          edges[k].weight == weight && edges[k].source + 1 == edges[k].target && edges[k].source < i)
    && (forall a: nat, b: nat :: a < b <= i && b == a + 1 ==> Linked(edges, a, b))
  }

  lemma ChainGrows(edges: seq<Edge>, e: Edge)
    requires ChainedTo(edges, e.weight, e.source) && e.target == e.source + 1
    ensures ChainedTo(edges + [e], e.weight, e.source + 1)
  {
    LinkedGrows(edges, e);
  }

  method AddChain(g: ClusterGraph, gpuIds: seq<string>, gbps: real)
    requires Named(g, gpuIds) && g.edges == [] && gpuIds != []
    modifies g
    ensures Named(g, gpuIds) && Chain(g.View(), |gpuIds|, Link(InfiniBand, gbps, 1))
  {
    hide Linked;
    ghost var weight := Link(InfiniBand, gbps, 1);
    for i := 0 to |gpuIds| - 1
      invariant Named(g, gpuIds) && ChainedTo(g.edges, weight, i)
    {
      ChainGrows(g.edges, Edge(i, i + 1, weight));
      LinkPair(g, gpuIds, i, i + 1, Link(InfiniBand, gbps, 1));
    }
  }

  class SimCluster {
    const graph: ClusterGraph
    const gpuIds: seq<string>
    var seed: u64

    constructor (graph: ClusterGraph, gpuIds: seq<string>, seed: u64)
      ensures this.graph == graph && this.gpuIds == gpuIds && this.seed == seed
    {
      this.graph, this.gpuIds, this.seed := graph, gpuIds, seed;
    }

    /** The pseudo-noise of one synthetic sample: the next seed's share of the largest 64-bit number,
        scaled to at most 2 percent. */
    method Jitter() returns (jitter: real)
      modifies this
      ensures seed == Next(old(seed)) && 0.0 <= jitter <= 0.02
      ensures 50.0 * 18_446_744_073_709_551_615.0 * jitter == seed as real
    {
      seed := Next(seed);
      jitter := (seed as real / (TWO_64 - 1) as real) * 0.02;
    }
  }

  /** Building fails only for an empty cluster. Otherwise the GPUs are named in order, linked as the chosen
      topology says and not otherwise, and the searches succeed exactly as it promises, whichever GPUs
      fail later. */
  method FromConfig(spec: ClusterSpec, seed: u64) returns (r: Result<SimCluster>)
    ensures r.Ok? <==> spec.gpuCount > 0
    ensures r.Ok? ==>
      && r.value.graph.Valid() && r.value.seed == seed
      && |r.value.gpuIds| == spec.gpuCount && Named(r.value.graph, r.value.gpuIds)
      && (forall i :: 0 <= i < spec.gpuCount ==>
            r.value.graph.View().nodes[i] == GpuNode("gpu-" + Show(i), "node-0", 0, true))
      && JoinsExactly(r.value.graph.View(), spec.gpuCount, spec.topology)
    ensures r.Ok? && spec.topology == NvlinkFull ==>
      var t := r.value.graph.View();
      && FullMesh(t, spec.gpuCount, Link(NvLink, spec.nvlinkGbps, 0))
      && CliquesExactly(t, spec.gpuCount, spec.nvlinkGbps) && NoPathsBeyondOne(t, spec.gpuCount)
    ensures r.Ok? && spec.topology == PcieCrossNode ==>
      var t := r.value.graph.View();
      && FullMesh(t, spec.gpuCount, Link(PCIe, 64.0, 0))
      && NoCliquesBeyondOne(t, spec.gpuCount) && NoPathsBeyondOne(t, spec.gpuCount)
    ensures r.Ok? && spec.topology == IbChain ==>
      var t := r.value.graph.View();
      && Chain(t, spec.gpuCount, Link(InfiniBand, spec.ibGbps, 1))
      && NoCliquesBeyondOne(t, spec.gpuCount) && PathsExactly(t, spec.gpuCount)
  {
    if spec.gpuCount == 0 {
      return Err("gpu_count must be > 0");
    }
    hide CliquesExactly, NoPathsBeyondOne, NoCliquesBeyondOne, PathsExactly, JoinsExactly, FullMesh, Chain;
    var g := new ClusterGraph();
    var gpuIds := AddFleet(g, spec.gpuCount);
    match spec.topology {
      case NvlinkFull =>
        AddMesh(g, gpuIds, NvLink, spec.nvlinkGbps);
        NvlinkFullMeets(g.View(), spec.gpuCount, spec.nvlinkGbps);
      case PcieCrossNode =>
        AddMesh(g, gpuIds, PCIe, 64.0);
        PcieMeets(g.View(), spec.gpuCount, 64.0);
      case IbChain =>
        AddChain(g, gpuIds, spec.ibGbps);
        IbChainMeets(g.View(), spec.gpuCount, spec.ibGbps);
    }
    var cluster := new SimCluster(g, gpuIds, seed);
    return Ok(cluster);
  }
}
