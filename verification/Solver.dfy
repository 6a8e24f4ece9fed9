/** The placement solver: specs mapped onto a fixed cluster graph. */
module Solver {
  import opened MachineInts
  import opened StringOrder
  import opened ClusterTopology
  import opened CliqueSearch
  import opened PathSearch
  import opened ClusterGraphs
  import opened TopologySpecs

  datatype PlacementResult = PlacementResult(placed: bool, gpuIds: seq<string>, rejectionReason: string)

  function Placed(gpuIds: seq<string>): PlacementResult {
    PlacementResult(true, gpuIds, "")
  }

  function Rejected(reason: string): PlacementResult {
    PlacementResult(false, [], reason)
  }

  /** The first bandwidth constraint, or 0 when there is none. */
  function MinBandwidth(constraints: seq<Constraint>): real {
    if constraints == [] then 0.0
    else if constraints[0].NvlMin? then constraints[0].gbps as real
    else MinBandwidth(constraints[1..])
  }

  /** The first hop constraint, or the largest 32-bit number when there is none. */
  function MaxHops(constraints: seq<Constraint>): u32 {
    if constraints == [] then U32_MAX
    else if constraints[0].IbMax? then constraints[0].hops
    else MaxHops(constraints[1..])
  }

  function HealthyIds(t: Topology): (r: seq<string>)
    ensures forall id :: id in r <==> HealthyId(t, id)
  {
    HealthyIndicesUsable(t);
    var all := HealthyIndices(t);
    assert forall id :: HealthyId(t, id) ==> id in Ids(t, all) by {
      forall id | HealthyId(t, id) ensures id in Ids(t, all) {
        var v: nat :| Usable(t, v) && t.nodes[v].gpuId == id;
        assert v in all;
        var i :| 0 <= i < |all| && all[i] == v;
        assert Ids(t, all)[i] == id;
      }
    }
    assert forall i :: 0 <= i < |all| ==> Usable(t, all[i]);
    assert forall id :: id in Ids(t, all) ==> HealthyId(t, id) by {
      forall id | id in Ids(t, all) ensures HealthyId(t, id) {
        var i :| 0 <= i < |all| && Ids(t, all)[i] == id;
        assert Usable(t, all[i]);
      }
    }
    Ids(t, all)
  }

  function JoinReasons(reasons: seq<string>): string {
    if reasons == [] then "" else if |reasons| == 1 then reasons[0] else reasons[0] + "; " + JoinReasons(reasons[1..])
  }

  function NoAlternative(reasons: seq<string>): string {
    "no alternative could be placed on the current cluster; tried: [" + JoinReasons(reasons) + "]"
  }

  // ---- What the solver answers, as a function of the graph ----

  function AtomPlacement(t: Topology, dim: ParallelDim, constraints: seq<Constraint>): PlacementResult
    requires WellFormed(t)
  {
    match dim
    case Tp(n) =>
      FindCliqueExact(t, n, MinBandwidth(constraints));
      (match FindClique(t, n, MinBandwidth(constraints))
       case Some(s) => assert AllUsable(t, s); assert forall i :: 0 <= i < |s| ==> Usable(t, s[i]); Placed(Ids(t, s))
       case None => Rejected("no NVLink clique"))
    case Pp(n) =>
      FindPathExact(t, n, MaxHops(constraints));
      (match FindPath(t, n, MaxHops(constraints))
       case Some(s) => assert forall i :: 0 <= i < |s| ==> Usable(t, s[i]); Placed(Ids(t, s))
       case None => Rejected("no IB path"))
    case Dp(n) =>
      var all := Sort(HealthyIds(t));
      if n <= |all| then Placed(all[..n]) else Rejected("insufficient healthy GPUs")
  }

  function Placement(t: Topology, spec: TopologySpec): PlacementResult
    requires WellFormed(t)
    decreases spec, 0
  {
    match spec
    case Atom(dim, constraints) => AtomPlacement(t, dim, constraints)
    case Conjunction(l, r) =>
      var left, right := Placement(t, l), Placement(t, r);
      if !left.placed then left
      else if !right.placed then right
      else if exists i :: 0 <= i < |right.gpuIds| && right.gpuIds[i] in left.gpuIds then
        Rejected("conjunction arms overlap")
      else Placed(left.gpuIds + right.gpuIds)
    case Disjunction(alts) => FirstPlacement(t, alts, [])
  }

  function FirstPlacement(t: Topology, alts: seq<TopologySpec>, reasons: seq<string>): PlacementResult
    requires WellFormed(t)
    decreases alts, |alts|
  {
    if alts == [] then Rejected(NoAlternative(reasons))
    else
      var result := Placement(t, alts[0]);
      if result.placed then result else FirstPlacement(t, alts[1..], reasons + [result.rejectionReason])
  }

  // ---- The solver itself ----

  class TopologySolver {
    const graph: ClusterGraph

    constructor (graph: ClusterGraph)
      ensures this.graph == graph
    {
      this.graph := graph;
    }

    method Solve(spec: TopologySpec) returns (r: PlacementResult)
      requires graph.Valid()
      ensures r == Placement(graph.View(), spec)
      decreases spec, 1
    {
      match spec
      case Atom(dim, constraints) => r := SolveAtom(dim, constraints);
      case Conjunction(left, right) => r := SolveConjunction(left, right);
      case Disjunction(alts) => r := SolveDisjunction(alts);
    }

    method SolveAtom(dim: ParallelDim, constraints: seq<Constraint>) returns (r: PlacementResult)
      requires graph.Valid()
      ensures r == AtomPlacement(graph.View(), dim, constraints)
    {
      match dim
      case Tp(n) =>
        var ids := graph.FindNvlinkClique(n, MinBandwidth(constraints));
        r := if ids.Some? then Placed(ids.value) else Rejected("no NVLink clique");
      case Pp(n) =>
        var ids := graph.FindIbPath(n, MaxHops(constraints));
        r := if ids.Some? then Placed(ids.value) else Rejected("no IB path");
      case Dp(n) =>
        var all := Sort(HealthyIds(graph.View()));
        var ids := all[..if n <= |all| then n else |all|];
        r := if |ids| == n then Placed(ids) else Rejected("insufficient healthy GPUs");
    }

    method SolveConjunction(l: TopologySpec, r: TopologySpec) returns (result: PlacementResult)
      requires graph.Valid()
      ensures result == Placement(graph.View(), Conjunction(l, r))
      decreases Conjunction(l, r), 0
    {
      var left := Solve(l);
      if !left.placed {
        return left;
      }
      var right := Solve(r);
      if !right.placed {
        return right;
      }
      if exists i :: 0 <= i < |right.gpuIds| && right.gpuIds[i] in left.gpuIds {
        return Rejected("conjunction arms overlap");
      }
      var combined := left.gpuIds;
      combined := combined + right.gpuIds;
      return Placed(combined);
    }

    method SolveDisjunction(alts: seq<TopologySpec>) returns (result: PlacementResult)
      requires graph.Valid()
      ensures result == Placement(graph.View(), Disjunction(alts))
      decreases Disjunction(alts), 0
    {
      var reasons: seq<string> := [];
      for i := 0 to |alts|
        invariant FirstPlacement(graph.View(), alts[i..], reasons) == FirstPlacement(graph.View(), alts, [])
      {
        assert alts[i..][0] == alts[i] && alts[i..][1..] == alts[i + 1..];
        result := Solve(alts[i]);
        if result.placed {
          return result;
        }
        reasons := reasons + [result.rejectionReason];
      }
      return Rejected(NoAlternative(reasons));
    }
  }
}
