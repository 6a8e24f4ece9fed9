/** The mutable cluster graph and its two backtracking searches, proved against the specifications
    in `CliqueSearch` and `PathSearch`. */
module ClusterGraphs {
  import opened Wrappers
  import opened MachineInts
  import opened ClusterTopology
  import opened CliqueSearch
  import opened PathSearch

  /** The shared vector that a search grows and shrinks as it backtracks. */
  class NodeStack {
    var items: seq<nat>

    constructor (initial: seq<nat>)
      ensures items == initial
    {
      items := initial;
    }

    method Push(v: nat)
      modifies this
      ensures items == old(items) + [v]
    {
      items := items + [v];
    }

    method Pop()
      requires items != []
      modifies this
      ensures items == old(items)[..|old(items)| - 1]
    {
      items := items[..|items| - 1];
    }
  }

  class ClusterGraph {
    var nodes: seq<GpuNode>
    var edges: seq<Edge>
    var incident: seq<seq<nat>>
    var idIndex: map<string, nat>

    function View(): Topology
      reads this
    {
      Topology(nodes, edges, incident)
    }

    /** The graph is well formed and `idIndex` is exactly the inverse of the node naming. */
    ghost predicate Valid()
      reads this
    {
      && WellFormed(View())
      && (forall v: nat :: v < |nodes| ==> nodes[v].gpuId in idIndex && idIndex[nodes[v].gpuId] == v)
      && (forall id :: id in idIndex ==> idIndex[id] < |nodes| && nodes[idIndex[id]].gpuId == id)
    }

    constructor ()
      ensures Valid() && View() == EMPTY_TOPOLOGY
    {
      nodes, edges, incident, idIndex := [], [], [], map[];
    }

    method AddGpu(gpuId: string, nodeId: string, numaDomain: u32)
      requires Valid()
      requires gpuId !in idIndex
      modifies this
      ensures Valid()
      ensures nodes == old(nodes) + [GpuNode(gpuId, nodeId, numaDomain, true)]
      ensures edges == old(edges) && incident == old(incident) + [[]]
      ensures idIndex == old(idIndex)[gpuId := |old(nodes)|]
    {
      var v := |nodes|;
      forall k: nat ensures !IsLinkAt(edges, v, k) { }
      nodes := nodes + [GpuNode(gpuId, nodeId, numaDomain, true)];
      incident := incident + [[]];
      idIndex := idIndex[gpuId := v];
    }

    /** A new link goes to the front of the lists at both of its ends. */
    method AddLink(src: string, dst: string, kind: LinkKind, bandwidthGbps: real, ibHopCount: u32)
      requires Valid()
      requires src in idIndex && dst in idIndex
      modifies this
      ensures Valid()
      ensures nodes == old(nodes) && idIndex == old(idIndex)
      ensures edges == old(edges) + [Edge(idIndex[src], idIndex[dst], Link(kind, bandwidthGbps, ibHopCount))]
      ensures |incident| == |old(incident)| && forall v: nat :: v < |incident| ==>
        incident[v] == if Touches(edges[|old(edges)|], v) then [|old(edges)|] + old(incident)[v] else old(incident)[v]
    {
      var s, d, k := idIndex[src], idIndex[dst], |edges|;
      var e := Edge(s, d, Link(kind, bandwidthGbps, ibHopCount));
      ghost var before := View();
      edges := edges + [e];
      incident := incident[s := [k] + incident[s]];
      if d != s {
        incident := incident[d := [k] + incident[d]];
      }
      forall v: nat | v < |incident| ensures ListsLinksAt(edges, v, incident[v]) {
        assert ListsLinksAt(before.edges, v, before.incident[v]);
        assert incident[v] == if Touches(e, v) then [k] + before.incident[v] else before.incident[v];
        forall j: nat ensures j in incident[v] <==> IsLinkAt(edges, v, j) {
          assert j in before.incident[v] <==> IsLinkAt(before.edges, v, j);
        }
      }
    }

    /** An unknown id is ignored. */
    method SetUnhealthy(gpuId: string)
      requires Valid()
      modifies this
      ensures Valid()
      ensures View() == MarkUnhealthy(old(View()), gpuId)
      ensures idIndex == old(idIndex)
    {
      if gpuId in idIndex {
        var v := idIndex[gpuId];
        nodes := nodes[v := nodes[v].(healthy := false)];
      }
      assert nodes == MarkUnhealthy(old(View()), gpuId).nodes;
      DegradedWellFormed(old(View()), View());
    }

    method FindNvlinkClique(size: nat, minBw: real) returns (r: Option<seq<string>>)
      requires Valid()
      ensures r.Some? <==> exists S :: IsClique(View(), S, minBw) && |S| == size
      ensures FindClique(View(), size, minBw).None? ==> r == None
      ensures FindClique(View(), size, minBw).Some? ==>
        var s := FindClique(View(), size, minBw).value;
        AllUsable(View(), s) && r == Some(Ids(View(), s))
    {
      var candidates := HealthyIndices(View());
      HealthyIndicesUsable(View());
      FindCliqueExact(View(), size, minBw);
      if |candidates| < size {
        PruningIsSafe(View(), candidates, size, minBw, []);
        return None;
      }
      var current := new NodeStack([]);
      r := SearchClique(candidates, size, minBw, current);
    }

    /** Backtracking over a shrinking candidate slice with a shared stack. The stack is handed back
        unchanged by every failing call, and holds the answer after a successful one. */
    method SearchClique(candidates: seq<nat>, target: nat, minBw: real, current: NodeStack)
        returns (r: Option<seq<string>>)
      requires Valid()
      requires AllUsable(View(), candidates) && AllUsable(View(), current.items)
      modifies current
      ensures FirstClique(View(), candidates, target, minBw, old(current.items)).None? ==>
        r == None && current.items == old(current.items)
      ensures FirstClique(View(), candidates, target, minBw, old(current.items)).Some? ==>
        && Some(current.items) == FirstClique(View(), candidates, target, minBw, old(current.items))
        && AllUsable(View(), current.items) && r == Some(Ids(View(), current.items))
      decreases |candidates|
    {
      ghost var start := current.items;
      if |current.items| == target {
        return Some(Ids(View(), current.items));
      }
      if |current.items| + |candidates| < target {
        PruningIsSafe(View(), candidates, target, minBw, current.items);
        return None;
      }
      for pos := 0 to |candidates|
        invariant current.items == start
        invariant FirstClique(View(), candidates[pos..], target, minBw, start)
               == FirstClique(View(), candidates, target, minBw, start)
      {
        var node := candidates[pos];
        assert candidates[pos..][0] == node && candidates[pos..][1..] == candidates[pos + 1..];
        if Extends(View(), current.items, node, minBw) {
          current.Push(node);
          assert Usable(View(), candidates[pos]);
          r := SearchClique(candidates[pos + 1..], target, minBw, current);
          if r.Some? {
            return r;
          }
          current.Pop();
          assert current.items == start;
        }
      }
      return None;
    }

    method FindIbPath(size: nat, maxHops: nat) returns (r: Option<seq<string>>)
      requires Valid()
      ensures r.Some? <==> size >= 1 && exists s :: IsIbPath(View(), s, maxHops) && |s| == size
      ensures FindPath(View(), size, maxHops).None? ==> r == None
      ensures FindPath(View(), size, maxHops).Some? ==>
        var s := FindPath(View(), size, maxHops).value;
        AllUsable(View(), s) && r == Some(Ids(View(), s))
    {
      var candidates := HealthyIndices(View());
      HealthyIndicesUsable(View());
      FindPathExact(View(), size, maxHops);
      if |candidates| < size {
        forall s | IsIbPath(View(), s, maxHops) ensures |s| <= |candidates| {
          PathWithinHealthy(View(), s, maxHops);
        }
        return None;
      }
      for pos := 0 to |candidates|
        invariant
          FirstPathFrom(View(), candidates[pos..], size, maxHops) == FirstPathFrom(View(), candidates, size, maxHops)
      {
        var start := candidates[pos];
        assert candidates[pos..][0] == start && candidates[pos..][1..] == candidates[pos + 1..];
        IncidentAtEnd(View(), [start]);
        var path := new NodeStack([start]);
        var found := DfsIbPath(start, size, maxHops, path);
        if found.Some? {
          return Some(Ids(View(), found.value));
        }
      }
      return None;
    }

    method DfsIbPath(current: nat, target: nat, maxHops: nat, path: NodeStack) returns (r: Option<seq<nat>>)
      requires Valid()
      requires path.items != [] && path.items[|path.items| - 1] == current
      requires IsIbPath(View(), path.items, maxHops)
      requires Usable(View(), current) && LinksAtEnd(View(), path.items, incident[current])
      modifies path
      ensures r == ExtendPath(View(), old(path.items), incident[current], target, maxHops)
      ensures r == None ==> path.items == old(path.items)
      ensures r.Some? ==> path.items == r.value && AllUsable(View(), r.value)
      decreases (PathFits(View(), path.items, maxHops); |nodes| - |path.items|)
    {
      ghost var start := path.items;
      if |path.items| == target {
        return Some(path.items);
      }
      for i := 0 to |incident[current]|
        invariant path.items == start
        invariant ExtendPath(View(), start, incident[current][i..], target, maxHops)
               == ExtendPath(View(), start, incident[current], target, maxHops)
      {
        var k := incident[current][i];
        assert incident[current][i..][0] == k && incident[current][i..][1..] == incident[current][i + 1..];
        assert IsLinkAt(edges, current, k);
        var next := Neighbour(edges[k], current);
        if next in path.items || !nodes[next].healthy {
          continue;
        }
        if edges[k].weight.kind == InfiniBand && edges[k].weight.ibHopCount <= maxHops {
          StepKeepsPath(View(), path.items, k, maxHops);
          path.Push(next);
          PathFits(View(), path.items, maxHops);
          r := DfsIbPath(next, target, maxHops, path);
          if r.Some? {
            return r;
          }
          path.Pop();
          assert path.items == start;
        }
      }
      return None;
    }
  }
}
