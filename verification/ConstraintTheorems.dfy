/** Which of an atom's constraints its placement respects on every cluster. */
module ConstraintTheorems {
  import opened MachineInts
  import opened Sequences
  import opened ClusterTopology
  import opened CliqueSearch
  import opened TopologySpecs
  import opened Solver
  import opened SolverTheorems
  import opened SimClusters
  import opened Meshes

  // ---- Bandwidth ----

  /** The placed GPUs form a clique for every bandwidth constraint of the atom. */
  ghost predicate RespectsAll(t: Topology, constraints: seq<Constraint>, ids: seq<string>) {
    forall i :: 0 <= i < |constraints| && constraints[i].NvlMin? ==> Respects(t, constraints[i].gbps as real, ids)
  }

  ghost predicate Respects(t: Topology, gbps: real, ids: seq<string>) {
    exists s :: CliqueSeq(t, s, gbps) && Names(t, s, ids)
  }

  /** The first bandwidth constraint is the strictest. */
  predicate FirstIsStrictest(constraints: seq<Constraint>) {
    forall i :: 0 <= i < |constraints| && constraints[i].NvlMin? ==>
      constraints[i].gbps as real <= MinBandwidth(constraints)
  }

  /** Only the first bandwidth constraint of an atom is looked at: placements on every cluster respect
      all of them exactly when the first is the strictest, or when there is at most one GPU to place. */
  lemma FirstConstraintGoverns(n: u32, constraints: seq<Constraint>)
    ensures (forall t :: WellFormed(t) && Placement(t, Atom(Tp(n), constraints)).placed ==>
               RespectsAll(t, constraints, Placement(t, Atom(Tp(n), constraints)).gpuIds))
       <==> FirstIsStrictest(constraints) || n <= 1
  {
    var spec := Atom(Tp(n), constraints);
    if FirstIsStrictest(constraints) || n <= 1 {
      forall t | WellFormed(t) && Placement(t, spec).placed
        ensures RespectsAll(t, constraints, Placement(t, spec).gpuIds)
      {
        StrictFirstRespectsAll(t, n, constraints);
      }
    } else {
      LooseFirstFails(n, constraints);
    }
  }

  lemma StrictFirstRespectsAll(t: Topology, n: u32, constraints: seq<Constraint>)
    requires WellFormed(t) && Placement(t, Atom(Tp(n), constraints)).placed
    requires FirstIsStrictest(constraints) || n <= 1
    ensures RespectsAll(t, constraints, Placement(t, Atom(Tp(n), constraints)).gpuIds)
  {
    AtomSound(t, Tp(n), constraints);
    var ids := Placement(t, Atom(Tp(n), constraints)).gpuIds;
    var s :| CliqueSeq(t, s, MinBandwidth(constraints)) && Names(t, s, ids);
    forall i | 0 <= i < |constraints| && constraints[i].NvlMin? ensures Respects(t, constraints[i].gbps as real, ids) {
      if n > 1 {
        SlowerLinksSuffice(t, s, MinBandwidth(constraints), constraints[i].gbps as real);
      }
      assert CliqueSeq(t, s, constraints[i].gbps as real);
    }
  }

  lemma SlowerLinksSuffice(t: Topology, s: seq<nat>, fast: real, slow: real)
    requires CliqueSeq(t, s, fast) && slow <= fast
    ensures CliqueSeq(t, s, slow)
  {
    forall i, j | 0 <= i < j < |s| ensures HasNvlink(t, s[i], s[j], slow) {
      var k :| 0 <= k < |t.edges| && NvlinkBetween(t.edges[k], s[i], s[j], fast);
      assert NvlinkBetween(t.edges[k], s[i], s[j], slow);
    }
  }

  /** A mesh whose NVLink is just as fast as the first constraint asks is too slow for a stricter one. */
  lemma LooseFirstFails(n: u32, constraints: seq<Constraint>)
    requires n >= 2 && !FirstIsStrictest(constraints)
    ensures var t := Mesh(n, MinBandwidth(constraints), 0);
      && WellFormed(t) && Placement(t, Atom(Tp(n), constraints)).placed
      && !RespectsAll(t, constraints, Placement(t, Atom(Tp(n), constraints)).gpuIds)
  {
    hide Mesh, AtomPlacement;
    var bw := MinBandwidth(constraints);
    var t := Mesh(n, bw, 0);
    MeshIsMesh(n, bw, 0);
    TakesFirst(t, n, bw, 0, Tp(n), constraints);
    AtomSound(t, Tp(n), constraints);
    var ids := Placement(t, Atom(Tp(n), constraints)).gpuIds;
    var i :| 0 <= i < |constraints| && constraints[i].NvlMin? && constraints[i].gbps as real > bw;
    forall s | Names(t, s, ids) ensures !CliqueSeq(t, s, constraints[i].gbps as real) {
      TooSlow(t, n, bw, s, constraints[i].gbps as real);
    }
    assert !Respects(t, constraints[i].gbps as real, ids);
  }

  lemma TooSlow(t: Topology, n: nat, bw: real, s: seq<nat>, gbps: real)
    requires IsMesh(t, n, bw, 0) && |s| >= 2 && bw < gbps
    ensures !CliqueSeq(t, s, gbps)
  {
    forall k | 0 <= k < |t.edges| ensures !NvlinkBetween(t.edges[k], s[0], s[1], gbps) {
      assert t.edges[k].weight in {Link(NvLink, bw, 0), Link(InfiniBand, 0.0, 0)};
    }
    assert !HasNvlink(t, s[0], s[1], gbps);
  }

  // ---- Hops ----

  /** The placed GPUs form a path within every hop limit of the atom. */
  ghost predicate RespectsHops(t: Topology, constraints: seq<Constraint>, ids: seq<string>) {
    forall i :: 0 <= i < |constraints| && constraints[i].IbMax? ==> WithinHops(t, constraints[i].hops, ids)
  }

  ghost predicate WithinHops(t: Topology, hops: u32, ids: seq<string>) {
    exists s :: IsIbPath(t, s, hops) && Names(t, s, ids)
  }

  /** The first hop limit is the strictest. */
  predicate FirstLimitIsStrictest(constraints: seq<Constraint>) {
    forall i :: 0 <= i < |constraints| && constraints[i].IbMax? ==> MaxHops(constraints) <= constraints[i].hops
  }

  /** Only the first hop limit of an atom is looked at, with the same consequence. */
  lemma FirstHopLimitGoverns(n: u32, constraints: seq<Constraint>)
    ensures (forall t :: WellFormed(t) && Placement(t, Atom(Pp(n), constraints)).placed ==>
               RespectsHops(t, constraints, Placement(t, Atom(Pp(n), constraints)).gpuIds))
       <==> FirstLimitIsStrictest(constraints) || n <= 1
  {
    var spec := Atom(Pp(n), constraints);
    if FirstLimitIsStrictest(constraints) || n <= 1 {
      forall t | WellFormed(t) && Placement(t, spec).placed
        ensures RespectsHops(t, constraints, Placement(t, spec).gpuIds)
      {
        StrictLimitRespectsHops(t, n, constraints);
      }
    } else {
      LooseLimitFails(n, constraints);
    }
  }

  lemma StrictLimitRespectsHops(t: Topology, n: u32, constraints: seq<Constraint>)
    requires WellFormed(t) && Placement(t, Atom(Pp(n), constraints)).placed
    requires FirstLimitIsStrictest(constraints) || n <= 1
    ensures RespectsHops(t, constraints, Placement(t, Atom(Pp(n), constraints)).gpuIds)
  {
    AtomSound(t, Pp(n), constraints);
    var ids := Placement(t, Atom(Pp(n), constraints)).gpuIds;
    var s :| IsIbPath(t, s, MaxHops(constraints)) && Names(t, s, ids);
    forall i | 0 <= i < |constraints| && constraints[i].IbMax? ensures WithinHops(t, constraints[i].hops, ids) {
      if n > 1 {
        MoreHopsSuffice(t, s, MaxHops(constraints), constraints[i].hops);
      }
      assert IsIbPath(t, s, constraints[i].hops);
    }
  }

  lemma MoreHopsSuffice(t: Topology, s: seq<nat>, few: nat, many: nat)
    requires IsIbPath(t, s, few) && few <= many
    ensures IsIbPath(t, s, many)
  {
    forall i | 0 <= i < |s| - 1 ensures HasIbHop(t, s[i], s[i + 1], many) {
      assert HasIbHop(t, s[i], s[i + 1], few);
      var k :| 0 <= k < |t.edges| && IbBetween(t.edges[k], s[i], s[i + 1], few);
      assert IbBetween(t.edges[k], s[i], s[i + 1], many);
    }
  }

  /** A mesh whose InfiniBand links take as many hops as the first limit allows exceeds a stricter one. */
  lemma LooseLimitFails(n: u32, constraints: seq<Constraint>)
    requires n >= 2 && !FirstLimitIsStrictest(constraints)
    ensures var t := Mesh(n, MinBandwidth(constraints), MaxHops(constraints));
      && WellFormed(t) && Placement(t, Atom(Pp(n), constraints)).placed
      && !RespectsHops(t, constraints, Placement(t, Atom(Pp(n), constraints)).gpuIds)
  {
    hide Mesh, AtomPlacement;
    var bw, hops := MinBandwidth(constraints), MaxHops(constraints);
    var t := Mesh(n, bw, hops);
    MeshIsMesh(n, bw, hops);
    TakesFirst(t, n, bw, hops, Pp(n), constraints);
    AtomSound(t, Pp(n), constraints);
    var ids := Placement(t, Atom(Pp(n), constraints)).gpuIds;
    var i :| 0 <= i < |constraints| && constraints[i].IbMax? && constraints[i].hops < hops;
    forall s | Names(t, s, ids) ensures !IsIbPath(t, s, constraints[i].hops) {
      TooFar(t, n, bw, hops, s, constraints[i].hops);
    }
    assert !WithinHops(t, constraints[i].hops, ids);
  }

  lemma TooFar(t: Topology, n: nat, bw: real, hops: u32, s: seq<nat>, limit: u32)
    requires IsMesh(t, n, bw, hops) && |s| >= 2 && limit < hops
    ensures !IsIbPath(t, s, limit)
  {
    forall k | 0 <= k < |t.edges| ensures !IbBetween(t.edges[k], s[0], s[0 + 1], limit) {
      assert t.edges[k].weight in {Link(NvLink, bw, 0), Link(InfiniBand, 0.0, hops)};
    }
    assert !HasIbHop(t, s[0], s[0 + 1], limit);
  }

  // ---- NUMA ----

  /** All named GPUs lie in one NUMA domain of one host. */
  ghost predicate NumaLocal(t: Topology, ids: seq<string>) {
    forall v, w :: 0 <= v < |t.nodes| && 0 <= w < |t.nodes| && t.nodes[v].gpuId in ids && t.nodes[w].gpuId in ids ==>
      t.nodes[v].nodeId == t.nodes[w].nodeId && t.nodes[v].numaDomain == t.nodes[w].numaDomain
  }

  /** `_NUMA` is read and never used: an atom of any kind that carries it is placed NUMA-locally on
      every cluster exactly when it asks for at most one GPU. */
  lemma NumaIsIgnored(dim: ParallelDim, constraints: seq<Constraint>)
    ensures (forall t :: WellFormed(t) && Placement(t, Atom(dim, constraints)).placed && Numa in constraints ==>
               NumaLocal(t, Placement(t, Atom(dim, constraints)).gpuIds))
       <==> Numa !in constraints || dim.degree <= 1
  {
    var spec := Atom(dim, constraints);
    if dim.degree <= 1 {
      forall t | WellFormed(t) && Placement(t, spec).placed ensures NumaLocal(t, Placement(t, spec).gpuIds) {
        AtomSize(t, spec);
        OneIsLocal(t, Placement(t, spec).gpuIds);
      }
    } else {
      AcrossDomains(dim, constraints);
    }
  }

  lemma OneIsLocal(t: Topology, ids: seq<string>)
    requires WellFormed(t) && |ids| <= 1
    ensures NumaLocal(t, ids)
  {
  }

  lemma AcrossDomains(dim: ParallelDim, constraints: seq<Constraint>)
    requires dim.degree >= 2
    ensures var t := Mesh(dim.degree, MinBandwidth(constraints), 0);
      && WellFormed(t) && Placement(t, Atom(dim, constraints)).placed
      && !NumaLocal(t, Placement(t, Atom(dim, constraints)).gpuIds)
  {
    hide Mesh, AtomPlacement;
    var n, bw := dim.degree, MinBandwidth(constraints);
    var t := Mesh(n, bw, 0);
    MeshIsMesh(n, bw, 0);
    TakesFirst(t, n, bw, 0, dim, constraints);
    AtomSound(t, dim, constraints);
    AtomSize(t, Atom(dim, constraints));
    TwoDomains(t, n, bw, Placement(t, Atom(dim, constraints)).gpuIds);
  }

  lemma TwoDomains(t: Topology, n: nat, bw: real, ids: seq<string>)
    requires IsMesh(t, n, bw, 0) && Distinct(ids) && |ids| >= 2 && GpuName(0) in ids
    requires forall id :: id in ids ==> HealthyId(t, id)
    ensures !NumaLocal(t, ids)
  {
    var id := if ids[0] == GpuName(0) then ids[1] else ids[0];
    assert id in ids && id != GpuName(0);
    var v: nat :| Usable(t, v) && t.nodes[v].gpuId == id;
    assert t.nodes[0].gpuId == GpuName(0) && t.nodes[0].numaDomain != t.nodes[v].numaDomain;
  }
}
