/** The cluster as a value: GPUs, typed links, and the order in which the graph library lists the
    links at a GPU. Placement queries are specified here; `ClusterGraph` runs them. */
module ClusterTopology {
  import opened MachineInts
  import opened Sequences

  datatype LinkKind = NvLink | PCIe | InfiniBand

  datatype GpuNode = GpuNode(gpuId: string, nodeId: string, numaDomain: u32, healthy: bool)

  datatype Link = Link(kind: LinkKind, bandwidthGbps: real, ibHopCount: u32)

  datatype Edge = Edge(source: nat, target: nat, weight: Link)

  /** `incident[v]` lists the positions in `edges` of the links at GPU `v`. Nothing is assumed
      about its order; parallel links and self-loops are allowed. */
  datatype Topology = Topology(nodes: seq<GpuNode>, edges: seq<Edge>, incident: seq<seq<nat>>)

  const EMPTY_TOPOLOGY := Topology([], [], [])

  ghost predicate UniqueIds(t: Topology) {
    forall i, j :: 0 <= i < j < |t.nodes| ==> t.nodes[i].gpuId != t.nodes[j].gpuId
  }

  ghost predicate WellFormed(t: Topology) {
    && UniqueIds(t)
    && (forall k :: 0 <= k < |t.edges| ==> t.edges[k].source < |t.nodes| && t.edges[k].target < |t.nodes|)
    && |t.incident| == |t.nodes|
    && (forall v: nat :: v < |t.incident| ==> ListsLinksAt(t.edges, v, t.incident[v]))
  }

  ghost predicate ListsLinksAt(edges: seq<Edge>, v: nat, links: seq<nat>) {
    forall k: nat :: k in links <==> IsLinkAt(edges, v, k)
  }

  predicate IsLinkAt(edges: seq<Edge>, v: nat, k: nat) {
    k < |edges| && Touches(edges[k], v)
  }

  predicate Touches(e: Edge, v: nat) {
    e.source == v || e.target == v
  }

  predicate Connects(e: Edge, a: nat, b: nat) {
    (e.source == a && e.target == b) || (e.source == b && e.target == a)
  }

  predicate Usable(t: Topology, v: nat) {
    v < |t.nodes| && t.nodes[v].healthy
  }

  ghost predicate AllUsable(t: Topology, s: seq<nat>) {
    forall i :: 0 <= i < |s| ==> Usable(t, s[i])
  }

  predicate HasNvlink(t: Topology, a: nat, b: nat, minBw: real) {
    exists k :: 0 <= k < |t.edges| && NvlinkBetween(t.edges[k], a, b, minBw)
  }

  predicate NvlinkBetween(e: Edge, a: nat, b: nat, minBw: real) {
    Connects(e, a, b) && e.weight.kind == NvLink && e.weight.bandwidthGbps >= minBw
  }

  /** A set of healthy GPUs, each two of them joined by a fast enough NVLink edge. */
  ghost predicate IsClique(t: Topology, S: set<nat>, minBw: real) {
    && (forall v :: v in S ==> Usable(t, v))
    && (forall a, b :: a in S && b in S && a != b ==> HasNvlink(t, a, b, minBw))
  }

  ghost predicate IbBetween(e: Edge, a: nat, b: nat, maxHops: nat) {
    Connects(e, a, b) && e.weight.kind == InfiniBand && e.weight.ibHopCount <= maxHops
  }

  ghost predicate HasIbHop(t: Topology, a: nat, b: nat, maxHops: nat) {
    exists k :: 0 <= k < |t.edges| && IbBetween(t.edges[k], a, b, maxHops)
  }

  /** A simple path of healthy GPUs over InfiniBand links of at most `maxHops` switch hops each. */
  ghost predicate IsIbPath(t: Topology, s: seq<nat>, maxHops: nat) {
    && AllUsable(t, s)
    && Distinct(s)
    && (forall i :: 0 <= i < |s| - 1 ==> HasIbHop(t, s[i], s[i + 1], maxHops))
  }

  /** The indices of the healthy GPUs among the first `n`, in index order. */
  function HealthyBelow(t: Topology, n: nat): (r: seq<nat>)
    requires n <= |t.nodes|
    ensures Increasing(r)
    ensures forall v: nat :: v in r <==> v < n && t.nodes[v].healthy
  {
    if n == 0 then []
    else if t.nodes[n - 1].healthy then
      var rest := HealthyBelow(t, n - 1);
      assert forall i :: 0 <= i < |rest| ==> rest[i] in rest;
      rest + [n - 1]
    else HealthyBelow(t, n - 1)
  }

  function HealthyIndices(t: Topology): (r: seq<nat>)
    ensures Increasing(r)
    ensures forall v: nat :: v in r <==> Usable(t, v)
  {
    HealthyBelow(t, |t.nodes|)
  }

  function Ids(t: Topology, s: seq<nat>): (r: seq<string>)
    requires forall i :: 0 <= i < |s| ==> s[i] < |t.nodes|
    ensures |r| == |s| && forall i :: 0 <= i < |s| ==> r[i] == t.nodes[s[i]].gpuId
  {
    seq(|s|, i requires 0 <= i < |s| => t.nodes[s[i]].gpuId)
  }

  ghost predicate HealthyId(t: Topology, id: string) {
    exists v: nat :: Usable(t, v) && t.nodes[v].gpuId == id
  }

  /** Distinct GPUs have distinct names, so a placement's names are as distinct as its indices. */
  lemma IdsDistinct(t: Topology, s: seq<nat>)
    requires WellFormed(t) && AllUsable(t, s) && Distinct(s)
    ensures Distinct(Ids(t, s))
    ensures forall id :: id in Ids(t, s) ==> HealthyId(t, id)
  {
    forall i, j | 0 <= i < j < |s| ensures Ids(t, s)[i] != Ids(t, s)[j] {
      assert s[i] != s[j];
    }
    forall id | id in Ids(t, s) ensures HealthyId(t, id) {
      var i :| 0 <= i < |s| && Ids(t, s)[i] == id;
      assert Usable(t, s[i]);
    }
  }

  // ---- Health changes ----

  function MarkUnhealthy(t: Topology, gpuId: string): (r: Topology)
    ensures |r.nodes| == |t.nodes| && r.edges == t.edges && r.incident == t.incident
    ensures forall v :: 0 <= v < |t.nodes| ==>
      r.nodes[v] == if t.nodes[v].gpuId == gpuId then t.nodes[v].(healthy := false) else t.nodes[v]
  {
    t.(nodes := seq(|t.nodes|, v requires 0 <= v < |t.nodes| =>
      if t.nodes[v].gpuId == gpuId then t.nodes[v].(healthy := false) else t.nodes[v]))
  }

  /** `u` is `t` after some GPUs failed. */
  ghost predicate Degraded(t: Topology, u: Topology) {
    && |u.nodes| == |t.nodes| && u.edges == t.edges && u.incident == t.incident
    && (forall v :: 0 <= v < |t.nodes| ==>
          u.nodes[v].gpuId == t.nodes[v].gpuId && (u.nodes[v].healthy ==> t.nodes[v].healthy))
  }

  function MarkAll(t: Topology, gpuIds: seq<string>): Topology
    decreases |gpuIds|
  {
    if gpuIds == [] then t else MarkAll(MarkUnhealthy(t, gpuIds[0]), gpuIds[1..])
  }

  lemma {:induction false} MarkAllDegrades(t: Topology, gpuIds: seq<string>)
    ensures Degraded(t, MarkAll(t, gpuIds))
    decreases |gpuIds|
  {
    if gpuIds != [] {
      MarkAllDegrades(MarkUnhealthy(t, gpuIds[0]), gpuIds[1..]);
    }
  }

  lemma {:induction false} MarkAllHealth(t: Topology, gpuIds: seq<string>)
    ensures var u := MarkAll(t, gpuIds);
      forall v: nat :: Usable(u, v) <==> Usable(t, v) && t.nodes[v].gpuId !in gpuIds
    decreases |gpuIds|
  {
    MarkAllDegrades(t, gpuIds);
    if gpuIds != [] {
      MarkAllHealth(MarkUnhealthy(t, gpuIds[0]), gpuIds[1..]);
      assert gpuIds == [gpuIds[0]] + gpuIds[1..];
    }
  }

  lemma DegradedWellFormed(t: Topology, u: Topology)
    requires WellFormed(t) && Degraded(t, u)
    ensures WellFormed(u)
  {
  }
}
