/** What the InfiniBand path search computes, why it terminates on every multigraph, and why it
    misses no path. */
module PathSearch {
  import opened Wrappers
  import opened Sequences
  import opened ClusterTopology

  /** A link reports its two ends; the neighbour is the end that is not `v` (or `v`, on a loop). */
  function Neighbour(e: Edge, v: nat): nat {
    if e.source == v then e.target else e.source
  }

  predicate Qualifies(t: Topology, path: seq<nat>, e: Edge, maxHops: nat)
    requires path != []
  {
    var next := Neighbour(e, path[|path| - 1]);
    next !in path && Usable(t, next) && e.weight.kind == InfiniBand && e.weight.ibHopCount <= maxHops
  }

  /** Links still to be tried at the end of `path`. */
  ghost predicate LinksAtEnd(t: Topology, path: seq<nat>, links: seq<nat>)
    requires path != []
  {
    forall j :: 0 <= j < |links| ==> IsLinkAt(t.edges, path[|path| - 1], links[j])
  }

  /** Depth-first search for an extension of `path` to `target` GPUs through one of `links`. The
      measure is the number of GPUs not on the path, which exists because paths are simple. */
  function ExtendPath(t: Topology, path: seq<nat>, links: seq<nat>, target: nat, maxHops: nat): Option<seq<nat>>
    requires WellFormed(t) && path != [] && IsIbPath(t, path, maxHops) && LinksAtEnd(t, path, links)
    decreases (PathFits(t, path, maxHops); |t.nodes| - |path|), |links|
  {
    if |path| == target then Some(path)
    else if links == [] then None
    else
      var e := t.edges[links[0]];
      var longer :=
        if Qualifies(t, path, e, maxHops) then
          var next := Neighbour(e, path[|path| - 1]);
          StepKeepsPath(t, path, links[0], maxHops);
          PathFits(t, path + [next], maxHops);
          ExtendPath(t, path + [next], t.incident[next], target, maxHops)
        else None;
      if longer.Some? then longer else ExtendPath(t, path, links[1..], target, maxHops)
  }

  function FirstPathFrom(t: Topology, starts: seq<nat>, size: nat, maxHops: nat): Option<seq<nat>>
    requires WellFormed(t) && AllUsable(t, starts)
  {
    if starts == [] then None
    else
      IncidentAtEnd(t, [starts[0]]);
      var found := ExtendPath(t, [starts[0]], t.incident[starts[0]], size, maxHops);
      if found.Some? then found else FirstPathFrom(t, starts[1..], size, maxHops)
  }

  function FindPath(t: Topology, size: nat, maxHops: nat): Option<seq<nat>>
    requires WellFormed(t)
  {
    HealthyIndicesUsable(t);
    FirstPathFrom(t, HealthyIndices(t), size, maxHops)
  }

  lemma IncidentAtEnd(t: Topology, path: seq<nat>)
    requires WellFormed(t) && path != [] && path[|path| - 1] < |t.nodes|
    ensures LinksAtEnd(t, path, t.incident[path[|path| - 1]])
  {
    var links := t.incident[path[|path| - 1]];
    forall j | 0 <= j < |links| ensures IsLinkAt(t.edges, path[|path| - 1], links[j]) {
      assert links[j] in links;
    }
  }

  lemma HealthyIndicesUsable(t: Topology)
    ensures AllUsable(t, HealthyIndices(t))
    ensures |HealthyIndices(t)| <= |t.nodes|
  {
    var all := HealthyIndices(t);
    forall i | 0 <= i < |all| ensures Usable(t, all[i]) { assert all[i] in all; }
    Pigeonhole(all, |t.nodes|);
  }

  lemma PathFits(t: Topology, path: seq<nat>, maxHops: nat)
    requires IsIbPath(t, path, maxHops)
    ensures |path| <= |t.nodes|
  {
    forall v | v in path ensures v < |t.nodes| { assert Usable(t, v); }
    Pigeonhole(path, |t.nodes|);
  }

  /** The early exit on the number of healthy GPUs never discards a path. */
  lemma PathWithinHealthy(t: Topology, s: seq<nat>, maxHops: nat)
    requires IsIbPath(t, s, maxHops)
    ensures |s| <= |HealthyIndices(t)|
  {
    var all := HealthyIndices(t);
    DistinctSize(s);
    DistinctSize(all);
    forall v | v in Elems(s) ensures v in Elems(all) { assert Usable(t, v); }
    SubsetSize(Elems(s), Elems(all));
  }

  lemma StepKeepsPath(t: Topology, path: seq<nat>, k: nat, maxHops: nat)
    requires WellFormed(t) && path != [] && IsIbPath(t, path, maxHops)
    requires k < |t.edges| && Touches(t.edges[k], path[|path| - 1]) && Qualifies(t, path, t.edges[k], maxHops)
    ensures var next := Neighbour(t.edges[k], path[|path| - 1]);
      IsIbPath(t, path + [next], maxHops) && LinksAtEnd(t, path + [next], t.incident[next])
  {
    var end := path[|path| - 1];
    var next := Neighbour(t.edges[k], end);
    assert IbBetween(t.edges[k], end, next, maxHops);
    assert HasIbHop(t, end, next, maxHops);
    IncidentAtEnd(t, path + [next]);
  }

  lemma {:induction false} ExtendPathSound(t: Topology, path: seq<nat>, links: seq<nat>, target: nat, maxHops: nat)
    requires WellFormed(t) && path != [] && IsIbPath(t, path, maxHops) && LinksAtEnd(t, path, links)
    ensures var r := ExtendPath(t, path, links, target, maxHops);
      r.Some? ==> IsIbPath(t, r.value, maxHops) && |r.value| == target && path <= r.value
    decreases (PathFits(t, path, maxHops); |t.nodes| - |path|), |links|
  {
    if |path| != target && links != [] {
      var e := t.edges[links[0]];
      if Qualifies(t, path, e, maxHops) {
        var next := Neighbour(e, path[|path| - 1]);
        StepKeepsPath(t, path, links[0], maxHops);
        PathFits(t, path + [next], maxHops);
        ExtendPathSound(t, path + [next], t.incident[next], target, maxHops);
      }
      ExtendPathSound(t, path, links[1..], target, maxHops);
    }
  }

  /** If a simple path of the wanted length continues `path` over one of `links`, the search finds one. */
  lemma {:induction false} ExtendPathComplete(
      t: Topology, path: seq<nat>, links: seq<nat>, target: nat, maxHops: nat, s: seq<nat>, k: nat)
    requires WellFormed(t) && path != [] && IsIbPath(t, path, maxHops) && LinksAtEnd(t, path, links)
    requires IsIbPath(t, s, maxHops) && |s| == target && path <= s
    requires |path| < |s| ==> k in links && IbBetween(t.edges[k], s[|path| - 1], s[|path|], maxHops)
    ensures ExtendPath(t, path, links, target, maxHops).Some?
    decreases (PathFits(t, path, maxHops); |t.nodes| - |path|), |links|
  {
    if |path| != target {
      var n := |path|;
      if links[0] == k {
        var next := s[n];
        assert Neighbour(t.edges[k], path[n - 1]) == next;
        assert Usable(t, s[n]);
        StepKeepsPath(t, path, k, maxHops);
        PathFits(t, path + [next], maxHops);
        var k' := 0;
        if n + 1 < |s| {
          assert HasIbHop(t, s[n], s[n + 1], maxHops);
          k' :| 0 <= k' < |t.edges| && IbBetween(t.edges[k'], s[n], s[n + 1], maxHops);
          assert IsLinkAt(t.edges, next, k');
        }
        ExtendPathComplete(t, path + [next], t.incident[next], target, maxHops, s, k');
      } else {
        ExtendPathComplete(t, path, links[1..], target, maxHops, s, k);
      }
    }
  }

  lemma {:induction false} FirstPathFromExact(t: Topology, starts: seq<nat>, size: nat, maxHops: nat)
    requires WellFormed(t) && AllUsable(t, starts)
    ensures var r := FirstPathFrom(t, starts, size, maxHops);
      && (r.Some? ==> IsIbPath(t, r.value, maxHops) && |r.value| == size && size >= 1)
      && (forall s :: IsIbPath(t, s, maxHops) && |s| == size && size >= 1 && s[0] in starts ==> r.Some?)
  {
    if starts != [] {
      var v := starts[0];
      assert Usable(t, v);
      IncidentAtEnd(t, [v]);
      ExtendPathSound(t, [v], t.incident[v], size, maxHops);
      FirstPathFromExact(t, starts[1..], size, maxHops);
      forall s | IsIbPath(t, s, maxHops) && |s| == size && size >= 1 && s[0] == v
        ensures ExtendPath(t, [v], t.incident[v], size, maxHops).Some?
      {
        StartFinds(t, s, maxHops);
      }
    }
  }

  lemma StartFinds(t: Topology, s: seq<nat>, maxHops: nat)
    requires WellFormed(t) && IsIbPath(t, s, maxHops) && |s| >= 1
    requires IsIbPath(t, [s[0]], maxHops) && s[0] < |t.nodes| && LinksAtEnd(t, [s[0]], t.incident[s[0]])
    ensures ExtendPath(t, [s[0]], t.incident[s[0]], |s|, maxHops).Some?
  {
    var k := 0;
    if |s| > 1 {
      assert HasIbHop(t, s[0], s[0 + 1], maxHops);
      k :| 0 <= k < |t.edges| && IbBetween(t.edges[k], s[0], s[1], maxHops);
      assert IsLinkAt(t.edges, s[0], k);
    }
    ExtendPathComplete(t, [s[0]], t.incident[s[0]], |s|, maxHops, s, k);
  }

  /** When a path leaves from the first healthy GPU, the answer does. */
  lemma AnswerFromFirst(t: Topology, s: seq<nat>, maxHops: nat)
    requires WellFormed(t) && IsIbPath(t, s, maxHops) && |s| >= 1
    requires HealthyIndices(t) != [] && HealthyIndices(t)[0] == s[0]
    ensures var r := FindPath(t, |s|, maxHops);
      r.Some? && r.value != [] && r.value[0] == s[0]
  {
    HealthyIndicesUsable(t);
    assert Usable(t, s[0]);
    IncidentAtEnd(t, [s[0]]);
    StartFinds(t, s, maxHops);
    ExtendPathSound(t, [s[0]], t.incident[s[0]], |s|, maxHops);
  }

  /** The search is exact for every multigraph: it answers with a simple path of the requested
      length, and gives up only when there is none. A request for zero GPUs is never met. */
  lemma FindPathExact(t: Topology, size: nat, maxHops: nat)
    requires WellFormed(t)
    ensures var r := FindPath(t, size, maxHops);
      && (r.Some? ==> IsIbPath(t, r.value, maxHops) && |r.value| == size)
      && (r.Some? <==> size >= 1 && exists s :: IsIbPath(t, s, maxHops) && |s| == size)
  {
    var r, all := FindPath(t, size, maxHops), HealthyIndices(t);
    HealthyIndicesUsable(t);
    FirstPathFromExact(t, all, size, maxHops);
    forall s | IsIbPath(t, s, maxHops) && |s| == size && size >= 1 ensures r.Some? {
      assert Usable(t, s[0]);
      assert s[0] in all;
    }
  }

  // ---- Which path is found ----

  predicate LeadsTo(e: Edge, v: nat, w: nat, maxHops: nat) {
    Neighbour(e, v) == w && e.weight.kind == InfiniBand && e.weight.ibHopCount <= maxHops
  }

  /** How many of the links come before the first one that leads on from `v` to `w`. */
  function Rank(t: Topology, links: seq<nat>, v: nat, w: nat, maxHops: nat): nat
    requires forall j :: 0 <= j < |links| ==> links[j] < |t.edges|
  {
    if links == [] then 0
    else if LeadsTo(t.edges[links[0]], v, w, maxHops) then 0
    else 1 + Rank(t, links[1..], v, w, maxHops)
  }

  /** The links at a GPU, as far as they exist, are links of the cluster. */
  lemma LinksExist(t: Topology, v: nat)
    requires WellFormed(t) && v < |t.nodes|
    ensures forall j :: 0 <= j < |t.incident[v]| ==> t.incident[v][j] < |t.edges|
  {
    forall j | 0 <= j < |t.incident[v]| ensures t.incident[v][j] < |t.edges| {
      assert t.incident[v][j] in t.incident[v];
    }
  }

  ghost function RankAt(t: Topology, v: nat, w: nat, maxHops: nat): nat
    requires WellFormed(t) && v < |t.nodes|
  {
    LinksExist(t, v);
    Rank(t, t.incident[v], v, w, maxHops)
  }

  /** Where the two paths part first, `r` starts at an earlier GPU, or leaves by an earlier link. */
  ghost predicate Precedes(t: Topology, r: seq<nat>, s: seq<nat>, maxHops: nat)
    requires WellFormed(t)
  {
    exists k :: 0 <= k < |r| && k < |s| && PartsAt(t, r, s, maxHops, k)
  }

  ghost predicate PartsAt(t: Topology, r: seq<nat>, s: seq<nat>, maxHops: nat, k: nat)
    requires WellFormed(t) && k < |r| && k < |s|
  {
    && r[..k] == s[..k]
    && (if k == 0 then r[0] < s[0]
        else r[k - 1] < |t.nodes| && RankAt(t, r[k - 1], r[k], maxHops) < RankAt(t, r[k - 1], s[k], maxHops))
  }

  lemma {:induction false} RankOfSuffix(t: Topology, links: seq<nat>, j: nat, v: nat, w: nat, maxHops: nat)
    requires j < |links| && forall i :: 0 <= i < |links| ==> links[i] < |t.edges|
    ensures LeadsTo(t.edges[links[j]], v, w, maxHops) ==> Rank(t, links, v, w, maxHops) <= j
    ensures !LeadsTo(t.edges[links[j]], v, w, maxHops) ==> Rank(t, links, v, w, maxHops) != j
  {
    if j > 0 {
      assert links[j] == links[1..][j - 1];
      RankOfSuffix(t, links[1..], j - 1, v, w, maxHops);
    }
  }

  lemma {:induction false} RankInRange(t: Topology, links: seq<nat>, v: nat, w: nat, maxHops: nat, k: nat)
    requires forall i :: 0 <= i < |links| ==> links[i] < |t.edges|
    requires k in links && LeadsTo(t.edges[k], v, w, maxHops)
    ensures Rank(t, links, v, w, maxHops) < |links|
  {
    if !LeadsTo(t.edges[links[0]], v, w, maxHops) {
      RankInRange(t, links[1..], v, w, maxHops, k);
    }
  }

  /** A hop to a neighbour has a rank: some link leads there. */
  lemma HopHasRank(t: Topology, v: nat, w: nat, maxHops: nat)
    requires WellFormed(t) && v < |t.nodes| && HasIbHop(t, v, w, maxHops)
    ensures RankAt(t, v, w, maxHops) < |t.incident[v]|
  {
    LinksExist(t, v);
    var k :| 0 <= k < |t.edges| && IbBetween(t.edges[k], v, w, maxHops);
    assert IsLinkAt(t.edges, v, k);
    RankInRange(t, t.incident[v], v, w, maxHops, k);
  }

  /** From the `j`-th link on, the search answers no later than any path whose next link comes no earlier. */
  lemma {:induction false} ExtendPathFirst(
      t: Topology, path: seq<nat>, j: nat, target: nat, maxHops: nat, s: seq<nat>)
    requires WellFormed(t) && path != [] && IsIbPath(t, path, maxHops) && path[|path| - 1] < |t.nodes|
    requires j <= |t.incident[path[|path| - 1]]|
    requires LinksAtEnd(t, path, t.incident[path[|path| - 1]][j..])
    requires IsIbPath(t, s, maxHops) && |s| == target && path <= s
    requires |path| < |s| ==> RankAt(t, path[|path| - 1], s[|path|], maxHops) >= j
    ensures var r := ExtendPath(t, path, t.incident[path[|path| - 1]][j..], target, maxHops);
      r.Some? && (r.value == s || Precedes(t, r.value, s, maxHops))
    decreases (PathFits(t, path, maxHops); |t.nodes| - |path|), |t.incident[path[|path| - 1]]| - j
  {
    var n, v := |path|, path[|path| - 1];
    var all := t.incident[v];
    if n != target {
      var w := s[n];
      assert HasIbHop(t, s[n - 1], s[n - 1 + 1], maxHops) && Usable(t, w);
      HopHasRank(t, v, w, maxHops);
      LinksExist(t, v);
      var links := all[j..];
      var e := t.edges[links[0]];
      RankOfSuffix(t, all, j, v, w, maxHops);
      assert links[1..] == all[j + 1..];
      if Qualifies(t, path, e, maxHops) {
        var next := Neighbour(e, v);
        StepKeepsPath(t, path, links[0], maxHops);
        PathFits(t, path + [next], maxHops);
        assert t.incident[next][0..] == t.incident[next];
        if next == w {
          ExtendPathFirst(t, path + [next], 0, target, maxHops, s);
        } else {
          ExtendPathSound(t, path + [next], t.incident[next], target, maxHops);
          RankOfSuffix(t, all, j, v, next, maxHops);
          var found := ExtendPath(t, path + [next], t.incident[next], target, maxHops);
          if found.Some? {
            var r := found.value;
            assert r[..n] == (path + [next])[..n] == path == s[..n] && r[n] == next;
            assert PartsAt(t, r, s, maxHops, n);
          } else {
            ExtendPathFirst(t, path, j + 1, target, maxHops, s);
          }
        }
      } else {
        NotOnPath(path, s);
        ExtendPathFirst(t, path, j + 1, target, maxHops, s);
      }
    }
  }

  lemma NotOnPath(path: seq<nat>, s: seq<nat>)
    requires path <= s && Distinct(s) && |path| < |s|
    ensures s[|path|] !in path
  {
    assert forall i :: 0 <= i < |path| ==> path[i] == s[i];
  }

  lemma {:induction false} FirstPathFromFirst(t: Topology, starts: seq<nat>, size: nat, maxHops: nat, s: seq<nat>)
    requires WellFormed(t) && AllUsable(t, starts) && Increasing(starts)
    requires IsIbPath(t, s, maxHops) && |s| == size && size >= 1 && s[0] in starts
    ensures var r := FirstPathFrom(t, starts, size, maxHops);
      r.Some? && (r.value == s || Precedes(t, r.value, s, maxHops))
  {
    var v := starts[0];
    assert Usable(t, v);
    IncidentAtEnd(t, [v]);
    assert t.incident[v][0..] == t.incident[v];
    if s[0] == v {
      ExtendPathFirst(t, [v], 0, size, maxHops, s);
    } else {
      ExtendPathSound(t, [v], t.incident[v], size, maxHops);
      var found := ExtendPath(t, [v], t.incident[v], size, maxHops);
      if found.Some? {
        assert PartsAt(t, found.value, s, maxHops, 0);
      } else {
        FirstPathFromFirst(t, starts[1..], size, maxHops, s);
      }
    }
  }

  /** Among all paths of the length, the one found starts at the earliest GPU and then always leaves by the
      earliest link that still leads to one. */
  lemma FindPathFirst(t: Topology, size: nat, maxHops: nat, s: seq<nat>)
    requires WellFormed(t) && IsIbPath(t, s, maxHops) && |s| == size && size >= 1
    ensures var r := FindPath(t, size, maxHops);
      r.Some? && (r.value == s || Precedes(t, r.value, s, maxHops))
  {
    HealthyIndicesUsable(t);
    assert Usable(t, s[0]);
    assert s[0] in HealthyIndices(t);
    FirstPathFromFirst(t, HealthyIndices(t), size, maxHops, s);
  }

  lemma RejectionPersists(t: Topology, u: Topology, size: nat, maxHops: nat)
    requires WellFormed(t) && WellFormed(u) && Degraded(t, u)
    requires FindPath(t, size, maxHops) == None
    ensures FindPath(u, size, maxHops) == None
  {
    FindPathExact(t, size, maxHops);
    FindPathExact(u, size, maxHops);
    forall s | IsIbPath(u, s, maxHops) ensures IsIbPath(t, s, maxHops) {
      forall i | 0 <= i < |s| ensures Usable(t, s[i]) { assert Usable(u, s[i]); }
      forall i | 0 <= i < |s| - 1 ensures HasIbHop(t, s[i], s[i + 1], maxHops) {
        assert HasIbHop(u, s[i], s[i + 1], maxHops);
      }
    }
  }
}
