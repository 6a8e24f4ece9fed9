/** Clusters on which every placement takes the same GPU: each two GPUs are joined by NVLink and by
    InfiniBand, and GPU 0 has a NUMA domain to itself. */
module Meshes {
  import opened MachineInts
  import opened Powers
  import opened Sequences
  import opened StringOrder
  import opened Decimal
  import opened ClusterTopology
  import opened CliqueSearch
  import opened PathSearch
  import opened TopologySpecs
  import opened Solver
  import opened SolverTheorems
  import opened SimClusters

  function MeshNode(i: nat): GpuNode {
    GpuNode(GpuName(i), "node-0", if i == 0 then 0 else 1, true)
  }

  /** A link from every GPU to every GPU. */
  function PairEdges(n: nat, weight: (nat, nat) -> Link): seq<Edge> {
    seq(n * n, k requires 0 <= k < n * n => Edge(k / n, k % n, weight(k / n, k % n)))
  }

  function LinksAt(edges: seq<Edge>, v: nat): (r: seq<nat>)
    ensures forall k: nat :: k in r <==> IsLinkAt(edges, v, k)
  {
    if edges == [] then []
    else
      var n := |edges| - 1;
      var rest := LinksAt(edges[..n], v);
      assert forall k: nat :: IsLinkAt(edges, v, k) <==> IsLinkAt(edges[..n], v, k) || (k == n && Touches(edges[n], v));
      if Touches(edges[n], v) then rest + [n] else rest
  }

  function Mesh(n: nat, gbps: real, hops: u32): Topology {
    var edges := PairEdges(n, (a, b) => Link(NvLink, gbps, 0)) + PairEdges(n, (a, b) => Link(InfiniBand, 0.0, hops));
    Topology(seq(n, i requires 0 <= i => MeshNode(i)), edges, seq(n, v requires 0 <= v => LinksAt(edges, v)))
  }

  ghost predicate IsMesh(t: Topology, n: nat, gbps: real, hops: u32) {
    && WellFormed(t)
    && |t.nodes| == n && (forall i :: 0 <= i < n ==> t.nodes[i] == MeshNode(i))
    && (forall a: nat, b: nat :: a < n && b < n ==> HasNvlink(t, a, b, gbps) && HasIbHop(t, a, b, hops))
    && (forall k :: 0 <= k < |t.edges| ==> t.edges[k].weight in {Link(NvLink, gbps, 0), Link(InfiniBand, 0.0, hops)})
  }

  lemma PairEdge(n: nat, weight: (nat, nat) -> Link, a: nat, b: nat) returns (k: nat)
    requires a < n && b < n
    ensures k < n * n && PairEdges(n, weight)[k] == Edge(a, b, weight(a, b))
  {
    k := n * a + b;
    Gap(n, a, n);
    DivisionUnique(k, n, a, b);
  }

  lemma EndsInRange(k: nat, n: nat)
    requires n > 0 && k < n * n
    ensures k / n < n && k % n < n
  {
    assert k == n * (k / n) + k % n;
    if k / n > n - 1 {
      Gap(n, n - 1, k / n);
    }
  }

  lemma PairEnds(n: nat, weight: (nat, nat) -> Link)
    ensures forall k :: 0 <= k < n * n ==>
      var e := PairEdges(n, weight)[k];
      e.source < n && e.target < n && e.weight == weight(e.source, e.target)
  {
    forall k | 0 <= k < n * n ensures k / n < n && k % n < n {
      assert n > 0;
      EndsInRange(k, n);
    }
  }

  lemma MeshIsMesh(n: nat, gbps: real, hops: u32)
    ensures IsMesh(Mesh(n, gbps, hops), n, gbps, hops)
  {
    var t := Mesh(n, gbps, hops);
    var nv, ib := (a, b) => Link(NvLink, gbps, 0), (a, b) => Link(InfiniBand, 0.0, hops);
    PairEnds(n, nv);
    PairEnds(n, ib);
    forall i, j | 0 <= i < j < n ensures t.nodes[i].gpuId != t.nodes[j].gpuId {
      NamesDiffer(i, j);
    }
    assert t.edges == PairEdges(n, nv) + PairEdges(n, ib);
    forall a: nat, b: nat | a < n && b < n ensures HasNvlink(t, a, b, gbps) && HasIbHop(t, a, b, hops) {
      var k := PairEdge(n, nv, a, b);
      assert NvlinkBetween(t.edges[k], a, b, gbps);
      var k' := PairEdge(n, ib, a, b);
      assert IbBetween(t.edges[n * n + k'], a, b, hops);
    }
  }

  // ---- Every run of consecutive GPUs meets every constraint that the links meet ----

  function Slot(from: nat, len: nat): (s: seq<nat>)
    ensures |s| == len && forall i :: 0 <= i < len ==> s[i] == from + i
  {
    seq(len, i requires 0 <= i => from + i)
  }

  function SlotNames(from: nat, len: nat): (s: seq<string>)
    ensures |s| == len && forall i :: 0 <= i < len ==> s[i] == GpuName(from + i)
  {
    seq(len, i requires 0 <= i => GpuName(from + i))
  }

  /** The links of a mesh are good enough for an atom. */
  predicate LinksSuffice(gbps: real, hops: u32, constraints: seq<Constraint>) {
    MinBandwidth(constraints) <= gbps && hops <= MaxHops(constraints)
  }

  lemma SlotClique(t: Topology, n: nat, gbps: real, hops: u32, from: nat, len: nat, minBw: real)
    requires IsMesh(t, n, gbps, hops) && from + len <= n && minBw <= gbps
    ensures CliqueSeq(t, Slot(from, len), minBw)
  {
    var s := Slot(from, len);
    forall i, j | 0 <= i < j < len ensures HasNvlink(t, s[i], s[j], minBw) {
      assert HasNvlink(t, from + i, from + j, gbps);
      var k :| 0 <= k < |t.edges| && NvlinkBetween(t.edges[k], from + i, from + j, gbps);
      assert NvlinkBetween(t.edges[k], s[i], s[j], minBw);
    }
  }

  lemma SlotPath(t: Topology, n: nat, gbps: real, hops: u32, from: nat, len: nat, maxHops: nat)
    requires IsMesh(t, n, gbps, hops) && from + len <= n && hops <= maxHops
    ensures IsIbPath(t, Slot(from, len), maxHops)
  {
    var s := Slot(from, len);
    forall i | 0 <= i < len - 1 ensures HasIbHop(t, s[i], s[i + 1], maxHops) {
      assert HasIbHop(t, from + i, from + i + 1, hops);
      var k :| 0 <= k < |t.edges| && IbBetween(t.edges[k], from + i, from + i + 1, hops);
      assert IbBetween(t.edges[k], s[i], s[i + 1], maxHops);
    }
  }

  lemma SlotNamed(t: Topology, n: nat, gbps: real, hops: u32, from: nat, len: nat)
    requires IsMesh(t, n, gbps, hops) && from + len <= n
    ensures Names(t, Slot(from, len), SlotNames(from, len))
    ensures Distinct(SlotNames(from, len)) && forall id :: id in SlotNames(from, len) ==> HealthyId(t, id)
  {
    var s, ids := Slot(from, len), SlotNames(from, len);
    assert Ids(t, s) == ids;
    IdsDistinct(t, s);
  }

  lemma SlotSatisfies(t: Topology, n: nat, gbps: real, hops: u32, dim: ParallelDim, constraints: seq<Constraint>,
      from: nat)
    requires IsMesh(t, n, gbps, hops) && LinksSuffice(gbps, hops, constraints)
    requires (dim.Pp? ==> dim.degree >= 1) && from + dim.degree as nat <= n
    ensures AtomSatisfied(t, dim, constraints, SlotNames(from, dim.degree))
  {
    hide IsMesh, IsIbPath, CliqueSeq, Names;
    SlotNamed(t, n, gbps, hops, from, dim.degree);
    match dim
    case Tp(len) => SlotClique(t, n, gbps, hops, from, len, MinBandwidth(constraints));
    case Pp(len) => SlotPath(t, n, gbps, hops, from, len, MaxHops(constraints));
    case Dp(_) =>
  }

  // ---- Every placement on a mesh takes GPU 0 ----

  lemma {:induction false} FirstHealthy(t: Topology, n: nat, gbps: real, hops: u32)
    requires IsMesh(t, n, gbps, hops) && n > 0
    ensures HealthyIndices(t) != [] && HealthyIndices(t)[0] == 0
  {
    var all := HealthyIndices(t);
    assert Usable(t, 0);
    assert 0 in all;
  }

  lemma {:induction false} LeqAfterPrefix(p: string, a: string, b: string)
    requires Leq(a, b)
    ensures Leq(p + a, p + b)
  {
    if p == "" {
      assert p + a == a && p + b == b;
    } else {
      LeqAfterPrefix(p[1..], a, b);
      assert (p + a)[1..] == p[1..] + a && (p + b)[1..] == p[1..] + b;
    }
  }

  lemma ZeroIsLeast(i: nat)
    ensures Leq(GpuName(0), GpuName(i))
  {
    assert Show(0) == "0" && "0"[1..] == "";
    assert IsDigit(Show(i)[0]);
    LeqAfterPrefix("gpu-", Show(0), Show(i));
  }

  lemma FirstNameLeast(t: Topology, n: nat, gbps: real, hops: u32)
    requires IsMesh(t, n, gbps, hops) && n > 0
    ensures LeastHealthy(t, GpuName(0))
  {
    assert Usable(t, 0) && t.nodes[0].gpuId == GpuName(0);
    forall x | HealthyId(t, x) ensures Leq(GpuName(0), x) {
      var v: nat :| Usable(t, v) && t.nodes[v].gpuId == x;
      ZeroIsLeast(v);
    }
  }

  lemma TakesFirst(t: Topology, n: nat, gbps: real, hops: u32, dim: ParallelDim, constraints: seq<Constraint>)
    requires IsMesh(t, n, gbps, hops) && LinksSuffice(gbps, hops, constraints) && 1 <= dim.degree <= n
    ensures var r := AtomPlacement(t, dim, constraints); r.placed && GpuName(0) in r.gpuIds
  {
    hide LinksAt, FindClique, FindPath, CliqueSeq, IsIbPath, LeastHealthy;
    SlotSatisfies(t, n, gbps, hops, dim, constraints, 0);
    AtomComplete(t, dim, constraints, SlotNames(0, dim.degree));
    hide AtomPlacement;
    match dim
    case Tp(len) =>
      SlotClique(t, n, gbps, hops, 0, len, MinBandwidth(constraints));
      TpTakesVeryFirst(t, len, constraints, Slot(0, len));
    case Pp(len) =>
      SlotPath(t, n, gbps, hops, 0, len, MaxHops(constraints));
      FirstHealthy(t, n, gbps, hops);
      PpTakesVeryFirst(t, len, constraints, Slot(0, len));
    case Dp(len) =>
      FirstNameLeast(t, n, gbps, hops);
      DpTakesVeryFirst(t, len, constraints, GpuName(0));
  }
}
