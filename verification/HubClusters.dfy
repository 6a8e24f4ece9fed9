/** Clusters of two separate blocks behind one GPU, the hub, that every placement prefers while it is
    healthy: two arms collide on the hub, and are placed in a block each once it has failed. */
module HubClusters {
  import opened MachineInts
  import opened Sequences
  import opened StringOrder
  import opened ClusterTopology
  import opened CliqueSearch
  import opened PathSearch
  import opened TopologySpecs
  import opened Solver
  import opened SolverTheorems
  import opened SimClusters
  import opened Meshes

  /** GPU 0 is the hub, the next `first` GPUs are one block, and the last `second` the other; within a
      block every pair is linked alike, and the hub is linked to everyone. */
  datatype Shape = Shape(first: nat, second: nat, firstLink: Link, secondLink: Link, hubGbps: real)

  function Size(h: Shape): nat {
    1 + h.first + h.second
  }

  predicate InFirst(h: Shape, i: nat) {
    1 <= i <= h.first
  }

  /** The first block comes first in index order and last in alphabetical order. */
  function Name(h: Shape, i: nat): string {
    if InFirst(h, i) then "z" + GpuName(i) else GpuName(i)
  }

  function BlockLink(h: Shape, i: nat): Link {
    if InFirst(h, i) then h.firstLink else h.secondLink
  }

  const UNRELATED := Link(PCIe, 0.0, 0)

  function FastWeight(h: Shape, i: nat, j: nat): Link {
    if i == 0 || j == 0 then Link(NvLink, h.hubGbps, 0)
    else if InFirst(h, i) == InFirst(h, j) then BlockLink(h, i)
    else UNRELATED
  }

  function FarWeight(i: nat, j: nat): Link {
    if i == 0 || j == 0 then Link(InfiniBand, 0.0, 0) else UNRELATED
  }

  function Hub(h: Shape): Topology {
    var n := Size(h);
    var edges :=
      PairEdges(n, (i: nat, j: nat) => FastWeight(h, i, j)) + PairEdges(n, (i: nat, j: nat) => FarWeight(i, j));
    Topology(
      seq(n, i requires 0 <= i => GpuNode(Name(h, i), "node-0", 0, true)), edges,
      seq(n, v requires 0 <= v => LinksAt(edges, v)))
  }

  ghost predicate HasLink(t: Topology, i: nat, j: nat, weight: Link) {
    exists k :: 0 <= k < |t.edges| && Connects(t.edges[k], i, j) && t.edges[k].weight == weight
  }

  /** A link away from the hub stays within a block. */
  predicate BlockEdge(h: Shape, e: Edge) {
    e.source > 0 && e.target > 0 ==>
      e.weight.kind == PCIe || (InFirst(h, e.source) == InFirst(h, e.target) && e.weight == BlockLink(h, e.source))
  }

  ghost predicate IsHub(t: Topology, h: Shape, up: bool) {
    && WellFormed(t) && |t.nodes| == Size(h)
    && (forall i :: 0 <= i < Size(h) ==> t.nodes[i].gpuId == Name(h, i) && (t.nodes[i].healthy <==> i > 0 || up))
    && (forall j: nat :: 0 < j < Size(h) ==> HasNvlink(t, 0, j, h.hubGbps) && HasIbHop(t, 0, j, 0))
    && (forall i: nat, j: nat :: 0 < i < Size(h) && 0 < j < Size(h) && InFirst(h, i) == InFirst(h, j) ==>
          HasLink(t, i, j, BlockLink(h, i)))
    && (forall k :: 0 <= k < |t.edges| ==> BlockEdge(h, t.edges[k]))
  }

  lemma NamesApart(h: Shape, i: nat, j: nat)
    requires i != j
    ensures Name(h, i) != Name(h, j)
  {
    NamesDiffer(i, j);
    if InFirst(h, i) && InFirst(h, j) {
      assert Name(h, i)[1..] == GpuName(i) && Name(h, j)[1..] == GpuName(j);
    } else {
      assert GpuName(i)[0] == GpuName(j)[0] == 'g';
    }
  }

  lemma HubWellFormed(h: Shape)
    ensures WellFormed(Hub(h)) && forall k :: 0 <= k < |Hub(h).edges| ==> BlockEdge(h, Hub(h).edges[k])
  {
    var t, n := Hub(h), Size(h);
    var fast, far := (i: nat, j: nat) => FastWeight(h, i, j), (i: nat, j: nat) => FarWeight(i, j);
    PairEnds(n, fast);
    PairEnds(n, far);
    assert t.edges == PairEdges(n, fast) + PairEdges(n, far);
    forall i, j | 0 <= i < j < n ensures t.nodes[i].gpuId != t.nodes[j].gpuId {
      NamesApart(h, i, j);
    }
  }

  lemma HubEdges(h: Shape, i: nat, j: nat)
    requires i < Size(h) && j < Size(h)
    ensures HasLink(Hub(h), i, j, FastWeight(h, i, j)) && HasLink(Hub(h), i, j, FarWeight(i, j))
  {
    var t, n := Hub(h), Size(h);
    var fast, far := (i: nat, j: nat) => FastWeight(h, i, j), (i: nat, j: nat) => FarWeight(i, j);
    assert t.edges == PairEdges(n, fast) + PairEdges(n, far);
    var k := PairEdge(n, fast, i, j);
    var k' := PairEdge(n, far, i, j);
    assert Connects(t.edges[k], i, j) && t.edges[k].weight == FastWeight(h, i, j);
    assert Connects(t.edges[n * n + k'], i, j) && t.edges[n * n + k'].weight == FarWeight(i, j);
  }

  lemma HubIsHub(h: Shape)
    ensures IsHub(Hub(h), h, true)
  {
    var t, n := Hub(h), Size(h);
    assert |t.nodes| == n && forall i :: 0 <= i < n ==> t.nodes[i].gpuId == Name(h, i) && t.nodes[i].healthy;
    hide Hub, WellFormed;
    HubWellFormed(h);
    forall j: nat | 0 < j < n ensures HasNvlink(t, 0, j, h.hubGbps) && HasIbHop(t, 0, j, 0) {
      HubEdges(h, 0, j);
      var k :| 0 <= k < |t.edges| && Connects(t.edges[k], 0, j) && t.edges[k].weight == FastWeight(h, 0, j);
      assert NvlinkBetween(t.edges[k], 0, j, h.hubGbps);
      var k' :| 0 <= k' < |t.edges| && Connects(t.edges[k'], 0, j) && t.edges[k'].weight == FarWeight(0, j);
      assert IbBetween(t.edges[k'], 0, j, 0);
    }
    forall i: nat, j: nat | 0 < i < n && 0 < j < n && InFirst(h, i) == InFirst(h, j)
      ensures HasLink(t, i, j, BlockLink(h, i))
    {
      HubEdges(h, i, j);
    }
  }

  lemma HubFails(t: Topology, h: Shape)
    requires IsHub(t, h, true)
    ensures IsHub(MarkAll(t, [GpuName(0)]), h, false)
  {
    var u := MarkUnhealthy(t, GpuName(0));
    assert [GpuName(0)][1..] == [];
    assert MarkAll(t, [GpuName(0)]) == u;
    forall i | 0 <= i < Size(h) ensures t.nodes[i].gpuId == GpuName(0) <==> i == 0 {
      if i > 0 { NamesApart(h, 0, i); }
    }
    assert Degraded(t, u);
    DegradedWellFormed(t, u);
    forall j: nat | 0 < j < Size(h) ensures HasNvlink(u, 0, j, h.hubGbps) && HasIbHop(u, 0, j, 0) {
      assert HasNvlink(t, 0, j, h.hubGbps) && HasIbHop(t, 0, j, 0);
    }
    forall i: nat, j: nat | 0 < i < Size(h) && 0 < j < Size(h) && InFirst(h, i) == InFirst(h, j)
      ensures HasLink(u, i, j, BlockLink(h, i))
    {
      assert HasLink(t, i, j, BlockLink(h, i));
    }
  }

  // ---- Links within and across blocks ----

  predicate Fast(link: Link, minBw: real) {
    link.kind == NvLink && link.bandwidthGbps >= minBw
  }

  predicate Near(link: Link, maxHops: nat) {
    link.kind == InfiniBand && link.ibHopCount <= maxHops
  }

  lemma NvlinkInBlock(t: Topology, h: Shape, up: bool, i: nat, j: nat, minBw: real)
    requires IsHub(t, h, up) && 0 < i < Size(h) && 0 < j < Size(h)
    ensures HasNvlink(t, i, j, minBw) <==> InFirst(h, i) == InFirst(h, j) && Fast(BlockLink(h, i), minBw)
  {
    if k :| 0 <= k < |t.edges| && NvlinkBetween(t.edges[k], i, j, minBw) {
      assert BlockEdge(h, t.edges[k]);
    }
    if InFirst(h, i) == InFirst(h, j) {
      assert HasLink(t, i, j, BlockLink(h, i));
      var k :| 0 <= k < |t.edges| && Connects(t.edges[k], i, j) && t.edges[k].weight == BlockLink(h, i);
      assert Fast(BlockLink(h, i), minBw) ==> NvlinkBetween(t.edges[k], i, j, minBw);
    }
  }

  lemma IbInBlock(t: Topology, h: Shape, up: bool, i: nat, j: nat, maxHops: nat)
    requires IsHub(t, h, up) && 0 < i < Size(h) && 0 < j < Size(h)
    ensures HasIbHop(t, i, j, maxHops) <==> InFirst(h, i) == InFirst(h, j) && Near(BlockLink(h, i), maxHops)
  {
    if k :| 0 <= k < |t.edges| && IbBetween(t.edges[k], i, j, maxHops) {
      assert BlockEdge(h, t.edges[k]);
    }
    if InFirst(h, i) == InFirst(h, j) {
      assert HasLink(t, i, j, BlockLink(h, i));
      var k :| 0 <= k < |t.edges| && Connects(t.edges[k], i, j) && t.edges[k].weight == BlockLink(h, i);
      assert Near(BlockLink(h, i), maxHops) ==> IbBetween(t.edges[k], i, j, maxHops);
    }
  }

  /** A run of GPUs that lies within one block. */
  predicate Within(h: Shape, from: nat, len: nat) {
    && 0 < from && from + len <= Size(h)
    && (from + len <= h.first + 1 || h.first < from)
  }

  /** The links of a block meet what an atom asks of links. */
  predicate Meets(link: Link, atom: TopologySpec)
    requires atom.Atom?
  {
    match atom.dim
    case Tp(_) => Fast(link, MinBandwidth(atom.constraints))
    case Pp(_) => Near(link, MaxHops(atom.constraints))
    case Dp(_) => true
  }

  lemma BlockClique(t: Topology, h: Shape, up: bool, from: nat, len: nat, minBw: real)
    requires IsHub(t, h, up) && Within(h, from, len)
    requires len > 0 ==> Fast(BlockLink(h, from), minBw)
    ensures CliqueSeq(t, Slot(from, len), minBw)
  {
    var s := Slot(from, len);
    forall i, j | 0 <= i < j < len ensures HasNvlink(t, s[i], s[j], minBw) {
      NvlinkInBlock(t, h, up, from + i, from + j, minBw);
    }
  }

  lemma BlockPath(t: Topology, h: Shape, up: bool, from: nat, len: nat, maxHops: nat)
    requires IsHub(t, h, up) && Within(h, from, len)
    requires len > 0 ==> Near(BlockLink(h, from), maxHops)
    ensures IsIbPath(t, Slot(from, len), maxHops)
  {
    var s := Slot(from, len);
    forall i | 0 <= i < len - 1 ensures HasIbHop(t, s[i], s[i + 1], maxHops) {
      IbInBlock(t, h, up, from + i, from + i + 1, maxHops);
    }
  }

  /** A clique or a path that avoids the hub stays within a block. */
  lemma CliqueStays(t: Topology, h: Shape, s: seq<nat>, minBw: real)
    requires IsHub(t, h, false) && CliqueSeq(t, s, minBw)
    ensures forall i :: 0 <= i < |s| ==> s[i] > 0 && InFirst(h, s[i]) == InFirst(h, s[0])
    ensures |s| >= 2 ==> Fast(BlockLink(h, s[0]), minBw)
  {
    forall i | 0 <= i < |s| ensures s[i] > 0 { assert Usable(t, s[i]); }
    forall i | 1 <= i < |s| ensures InFirst(h, s[i]) == InFirst(h, s[0]) {
      assert Usable(t, s[0]) && Usable(t, s[i]);
      NvlinkInBlock(t, h, false, s[0], s[i], minBw);
    }
    if |s| >= 2 {
      assert HasNvlink(t, s[0], s[1], minBw) && Usable(t, s[0]) && Usable(t, s[1]);
      NvlinkInBlock(t, h, false, s[0], s[1], minBw);
    }
  }

  lemma {:induction false} PathStaysAt(t: Topology, h: Shape, s: seq<nat>, maxHops: nat, i: nat)
    requires IsHub(t, h, false) && IsIbPath(t, s, maxHops) && i < |s|
    ensures s[i] > 0 && InFirst(h, s[i]) == InFirst(h, s[0])
  {
    assert Usable(t, s[i]);
    if i > 0 {
      PathStaysAt(t, h, s, maxHops, i - 1);
      assert HasIbHop(t, s[i - 1], s[i - 1 + 1], maxHops) && Usable(t, s[i - 1]);
      IbInBlock(t, h, false, s[i - 1], s[i], maxHops);
    }
  }

  lemma PathStays(t: Topology, h: Shape, s: seq<nat>, maxHops: nat)
    requires IsHub(t, h, false) && IsIbPath(t, s, maxHops)
    ensures forall i :: 0 <= i < |s| ==> s[i] > 0 && InFirst(h, s[i]) == InFirst(h, s[0])
    ensures |s| >= 2 ==> Near(BlockLink(h, s[0]), maxHops)
  {
    forall i | 0 <= i < |s| ensures s[i] > 0 && InFirst(h, s[i]) == InFirst(h, s[0]) {
      PathStaysAt(t, h, s, maxHops, i);
    }
    if |s| >= 2 {
      assert HasIbHop(t, s[0], s[0 + 1], maxHops) && Usable(t, s[0]) && Usable(t, s[1]);
      IbInBlock(t, h, false, s[0], s[1], maxHops);
    }
  }

  /** Distinct GPUs of the first block are at most as many as it has. */
  lemma FitsFirst(h: Shape, s: seq<nat>)
    requires Distinct(s) && forall i :: 0 <= i < |s| ==> InFirst(h, s[i])
    ensures |s| <= h.first
  {
    var down: seq<nat> := seq(|s|, i requires 0 <= i < |s| => s[i] - 1);
    forall i, j | 0 <= i < j < |s| ensures down[i] != down[j] { assert s[i] != s[j]; }
    Pigeonhole(down, h.first);
  }

  lemma PathFitsFirst(t: Topology, h: Shape, s: seq<nat>, maxHops: nat)
    requires IsIbPath(t, s, maxHops) && forall i :: 0 <= i < |s| ==> InFirst(h, s[i])
    ensures |s| <= h.first
  {
    FitsFirst(h, s);
  }

  // ---- Once the hub has failed, each arm finds its block ----

  /** All named GPUs lie in the first block, or all outside it. */
  ghost predicate NamesIn(h: Shape, ids: seq<string>, inFirst: bool) {
    forall x :: x in ids ==> exists i: nat :: 0 < i < Size(h) && InFirst(h, i) == inFirst && Name(h, i) == x
  }

  lemma InBlock(t: Topology, h: Shape, s: seq<nat>, ids: seq<string>, inFirst: bool)
    requires IsHub(t, h, false) && Names(t, s, ids)
    requires forall i :: 0 <= i < |s| ==> s[i] > 0 && InFirst(h, s[i]) == inFirst
    ensures NamesIn(h, ids, inFirst)
  {
    forall x | x in ids ensures exists i: nat :: 0 < i < Size(h) && InFirst(h, i) == inFirst && Name(h, i) == x {
      var i :| 0 <= i < |ids| && ids[i] == x;
      assert Usable(t, s[i]) && Name(h, s[i]) == x;
    }
  }

  lemma BlocksDisjoint(h: Shape, a: seq<string>, b: seq<string>)
    requires NamesIn(h, a, true) && NamesIn(h, b, false)
    ensures Disjoint(a, b) && Disjoint(b, a)
  {
    forall x | x in a && x in b ensures false {
      var i: nat :| 0 < i < Size(h) && InFirst(h, i) && Name(h, i) == x;
      var j: nat :| 0 < j < Size(h) && !InFirst(h, j) && Name(h, j) == x;
      NamesApart(h, i, j);
    }
  }

  lemma {:induction false} IncreasingFrom(r: seq<nat>, from: nat, i: nat)
    requires Increasing(r) && i < |r| && r[0] >= from
    ensures r[i] >= from + i
  {
    if i > 0 { IncreasingFrom(r, from, i - 1); }
  }

  lemma LeastIsSlot(r: seq<nat>, from: nat)
    requires Increasing(r) && r != [] && r[0] >= from && LexLeq(r, Slot(from, |r|))
    ensures r == Slot(from, |r|)
  {
    forall i | 0 <= i < |r| ensures r[i] >= from + i { IncreasingFrom(r, from, i); }
  }

  lemma NamedByClique(t: Topology, n: u32, constraints: seq<Constraint>)
    requires WellFormed(t) && FindClique(t, n, MinBandwidth(constraints)).Some?
    ensures var r := AtomPlacement(t, Tp(n), constraints);
      r.placed && Names(t, FindClique(t, n, MinBandwidth(constraints)).value, r.gpuIds)
  {
    hide FindClique;
    FindCliqueExact(t, n, MinBandwidth(constraints));
  }

  lemma NamedByPath(t: Topology, n: u32, constraints: seq<Constraint>)
    requires WellFormed(t) && FindPath(t, n, MaxHops(constraints)).Some?
    ensures var r := AtomPlacement(t, Pp(n), constraints);
      r.placed && Names(t, FindPath(t, n, MaxHops(constraints)).value, r.gpuIds)
  {
    hide FindPath;
    FindPathExact(t, n, MaxHops(constraints));
  }

  lemma FirstArmPlaced(t: Topology, h: Shape, f: TopologySpec)
    requires IsHub(t, h, false) && f.Atom? && !f.dim.Dp?
    requires f.dim.degree == h.first >= 1 && Meets(h.firstLink, f)
    ensures var r := AtomPlacement(t, f.dim, f.constraints); r.placed && NamesIn(h, r.gpuIds, true)
  {
    assert WellFormed(t);
    hide IsHub, FindClique, FindPath, NamesIn, WellFormed;
    match f.dim
    case Tp(n) =>
      var bw := MinBandwidth(f.constraints);
      BlockClique(t, h, false, 1, n, bw);
      CliqueFromFirst(t, Slot(1, n), bw);
      var s := FindClique(t, n, bw).value;
      CliqueStays(t, h, s, bw);
      LeastIsSlot(s, 1);
      NamedByClique(t, n, f.constraints);
      InBlock(t, h, s, AtomPlacement(t, f.dim, f.constraints).gpuIds, true);
    case Pp(n) =>
      var hops := MaxHops(f.constraints);
      BlockPath(t, h, false, 1, n, hops);
      FirstIsOne(t, h);
      AnswerFromFirst(t, Slot(1, n), hops);
      FindPathExact(t, n, hops);
      var s := FindPath(t, n, hops).value;
      PathStays(t, h, s, hops);
      NamedByPath(t, n, f.constraints);
      InBlock(t, h, s, AtomPlacement(t, f.dim, f.constraints).gpuIds, true);
  }

  lemma FirstIsOne(t: Topology, h: Shape)
    requires IsHub(t, h, false) && h.first >= 1
    ensures HealthyIndices(t) != [] && HealthyIndices(t)[0] == 1
  {
    var all := HealthyIndices(t);
    assert Usable(t, 1);
    assert 1 in all && !Usable(t, 0);
    assert all[0] in all;
  }

  /** The first block cannot host the second arm: it is too small, or its links are of another kind or
      not good enough. */
  predicate Unsuitable(h: Shape, s: TopologySpec)
    requires s.Atom?
  {
    s.dim.Dp? || (s.dim.degree >= 2 && (s.dim.degree > h.first || !Meets(h.firstLink, s)))
  }

  lemma SecondArmPlaced(t: Topology, h: Shape, s: TopologySpec)
    requires IsHub(t, h, false) && s.Atom? && s.dim.degree == h.second >= 1
    requires Unsuitable(h, s) && Meets(h.secondLink, s)
    ensures var r := AtomPlacement(t, s.dim, s.constraints); r.placed && NamesIn(h, r.gpuIds, false)
  {
    match s.dim
    case Tp(_) => SecondTpPlaced(t, h, s);
    case Pp(_) => SecondPpPlaced(t, h, s);
    case Dp(n) => SecondDpPlaced(t, h, n, s.constraints);
  }

  lemma SecondTpPlaced(t: Topology, h: Shape, s: TopologySpec)
    requires IsHub(t, h, false) && s.Atom? && s.dim.Tp? && s.dim.degree == h.second
    requires Unsuitable(h, s) && Meets(h.secondLink, s)
    ensures var r := AtomPlacement(t, s.dim, s.constraints); r.placed && NamesIn(h, r.gpuIds, false)
  {
    assert WellFormed(t);
    hide IsHub, FindClique, NamesIn, WellFormed;
    var n, bw := s.dim.degree, MinBandwidth(s.constraints);
    BlockClique(t, h, false, h.first + 1, n, bw);
    CliqueFromFirst(t, Slot(h.first + 1, n), bw);
    var c := FindClique(t, n, bw).value;
    CliqueStays(t, h, c, bw);
    if InFirst(h, c[0]) {
      IncreasingDistinct(c);
      FitsFirst(h, c);
    }
    NamedByClique(t, n, s.constraints);
    InBlock(t, h, c, AtomPlacement(t, s.dim, s.constraints).gpuIds, false);
  }

  /** A path that the second arm accepts cannot run through the first block. */
  lemma PathInSecond(t: Topology, h: Shape, s: TopologySpec, p: seq<nat>)
    requires IsHub(t, h, false) && s.Atom? && s.dim.Pp? && Unsuitable(h, s)
    requires IsIbPath(t, p, MaxHops(s.constraints)) && |p| == s.dim.degree
    ensures forall i :: 0 <= i < |p| ==> p[i] > 0 && !InFirst(h, p[i])
  {
    hide IsHub, IsIbPath;
    PathStays(t, h, p, MaxHops(s.constraints));
    if InFirst(h, p[0]) {
      PathFitsFirst(t, h, p, MaxHops(s.constraints));
    }
  }

  lemma SecondPpPlaced(t: Topology, h: Shape, s: TopologySpec)
    requires IsHub(t, h, false) && s.Atom? && s.dim.Pp? && s.dim.degree == h.second >= 1
    requires Unsuitable(h, s) && Meets(h.secondLink, s)
    ensures var r := AtomPlacement(t, s.dim, s.constraints); r.placed && NamesIn(h, r.gpuIds, false)
  {
    assert WellFormed(t);
    var n, hops := s.dim.degree, MaxHops(s.constraints);
    BlockPath(t, h, false, h.first + 1, n, hops);
    var block := Slot(h.first + 1, n);
    assert |block| == n;
    hide IsHub, FindPath, NamesIn, WellFormed, IsIbPath, Names, Slot, AtomPlacement, Unsuitable, Meets;
    FindPathExact(t, n, hops);
    var p := FindPath(t, n, hops).value;
    PathInSecond(t, h, s, p);
    NamedByPath(t, n, s.constraints);
    InBlock(t, h, p, AtomPlacement(t, s.dim, s.constraints).gpuIds, false);
  }

  lemma LastInOrder(h: Shape, i: nat, j: nat)
    requires InFirst(h, i) && !InFirst(h, j)
    ensures !Leq(Name(h, i), Name(h, j))
  {
    assert Name(h, i)[0] == 'z' && Name(h, j)[0] == 'g';
  }

  lemma SecondDpPlaced(t: Topology, h: Shape, n: u32, constraints: seq<Constraint>)
    requires IsHub(t, h, false) && n == h.second >= 1
    ensures var r := AtomPlacement(t, Dp(n), constraints); r.placed && NamesIn(h, r.gpuIds, false)
  {
    var block := Slot(h.first + 1, n);
    var names := Ids(t, block);
    IdsDistinct(t, block);
    AtomComplete(t, Dp(n), constraints, names);
    AtomSound(t, Dp(n), constraints);
    DpTakesLeast(t, n, constraints);
    var ids := AtomPlacement(t, Dp(n), constraints).gpuIds;
    forall x | x in ids ensures exists i: nat :: 0 < i < Size(h) && !InFirst(h, i) && Name(h, i) == x {
      assert HealthyId(t, x);
      var v: nat :| Usable(t, v) && t.nodes[v].gpuId == x;
      if InFirst(h, v) {
        var y := OneLeftOut(names, ids, x) by { NotInBlock(t, h, v, n, names); }
        var i :| 0 <= i < |names| && names[i] == y;
        assert t.nodes[block[i]].gpuId == y && HealthyId(t, y);
        LastInOrder(h, v, block[i]);
        assert false;
      }
      assert 0 < v < Size(h) && !InFirst(h, v) && Name(h, v) == x;
    }
  }

  lemma NotInBlock(t: Topology, h: Shape, v: nat, n: u32, names: seq<string>)
    requires IsHub(t, h, false) && n == h.second && InFirst(h, v) && v < Size(h)
    requires names == Ids(t, Slot(h.first + 1, n))
    ensures t.nodes[v].gpuId !in names
  {
    forall i | 0 <= i < |names| ensures names[i] != t.nodes[v].gpuId {
      NamesApart(h, v, h.first + 1 + i);
    }
  }

  /** As many names, one of them from elsewhere: one is missing. */
  lemma OneLeftOut(names: seq<string>, ids: seq<string>, x: string) returns (y: string)
    requires Distinct(names) && Distinct(ids) && |names| == |ids| && x in ids && x !in names
    ensures y in names && y !in ids
  {
    DistinctSize(names);
    DistinctSize(ids);
    assert x in Elems(ids) && x !in Elems(names);
    if forall y :: y in names ==> y in ids {
      SubsetSize(Elems(names), Elems(ids));
      assert false;
    }
    y :| y in names && y !in ids;
  }

  // ---- While the hub is healthy, every arm takes it ----

  lemma HubClique(t: Topology, h: Shape, from: nat, len: nat, minBw: real)
    requires IsHub(t, h, true) && Within(h, from, len) && minBw <= h.hubGbps
    requires len > 0 ==> Fast(BlockLink(h, from), minBw)
    ensures CliqueSeq(t, [0] + Slot(from, len), minBw)
  {
    var s := [0] + Slot(from, len);
    BlockClique(t, h, true, from, len, minBw);
    forall i, j | 0 <= i < j < |s| ensures HasNvlink(t, s[i], s[j], minBw) {
      if i == 0 {
        assert HasNvlink(t, 0, from + j - 1, h.hubGbps);
        var k :| 0 <= k < |t.edges| && NvlinkBetween(t.edges[k], 0, from + j - 1, h.hubGbps);
        assert NvlinkBetween(t.edges[k], s[i], s[j], minBw);
      } else {
        assert HasNvlink(t, Slot(from, len)[i - 1], Slot(from, len)[j - 1], minBw);
      }
    }
  }

  lemma HubPath(t: Topology, h: Shape, from: nat, len: nat, maxHops: nat)
    requires IsHub(t, h, true) && Within(h, from, len)
    requires len > 0 ==> Near(BlockLink(h, from), maxHops)
    ensures IsIbPath(t, [0] + Slot(from, len), maxHops)
  {
    var s := [0] + Slot(from, len);
    BlockPath(t, h, true, from, len, maxHops);
    forall i | 0 <= i < |s| - 1 ensures HasIbHop(t, s[i], s[i + 1], maxHops) {
      if i == 0 {
        assert HasIbHop(t, 0, from, 0);
        var k :| 0 <= k < |t.edges| && IbBetween(t.edges[k], 0, from, 0);
        assert IbBetween(t.edges[k], s[0], s[1], maxHops);
      } else {
        assert HasIbHop(t, Slot(from, len)[i - 1], Slot(from, len)[i - 1 + 1], maxHops);
      }
    }
  }

  lemma HubIsFirst(t: Topology, h: Shape)
    requires IsHub(t, h, true)
    ensures WellFormed(t) && HealthyIndices(t) != [] && HealthyIndices(t)[0] == 0
    ensures LeastHealthy(t, GpuName(0))
  {
    var all := HealthyIndices(t);
    assert Usable(t, 0) && t.nodes[0].gpuId == GpuName(0);
    assert 0 in all;
    forall x | HealthyId(t, x) ensures Leq(GpuName(0), x) {
      var v: nat :| Usable(t, v) && t.nodes[v].gpuId == x;
      if InFirst(h, v) {
        assert GpuName(0)[0] == 'g' && x[0] == 'z';
      } else {
        ZeroIsLeast(v);
      }
    }
  }

  lemma TpTakesHub(t: Topology, h: Shape, from: nat, atom: TopologySpec)
    requires IsHub(t, h, true) && atom.Atom? && atom.dim.Tp? && atom.dim.degree >= 1 && Within(h, from, atom.dim.degree)
    requires Meets(BlockLink(h, from), atom) && MinBandwidth(atom.constraints) <= h.hubGbps
    ensures var r := AtomPlacement(t, atom.dim, atom.constraints); r.placed && GpuName(0) in r.gpuIds
  {
    hide AtomPlacement, CliqueSeq;
    var n := atom.dim.degree;
    var s := [0] + Slot(from, n as nat - 1);
    HubClique(t, h, from, n as nat - 1, MinBandwidth(atom.constraints));
    TpTakesVeryFirst(t, n, atom.constraints, s);
  }

  lemma PpTakesHub(t: Topology, h: Shape, from: nat, atom: TopologySpec)
    requires IsHub(t, h, true) && atom.Atom? && atom.dim.Pp? && atom.dim.degree >= 1 && Within(h, from, atom.dim.degree)
    requires Meets(BlockLink(h, from), atom)
    ensures var r := AtomPlacement(t, atom.dim, atom.constraints); r.placed && GpuName(0) in r.gpuIds
  {
    hide AtomPlacement, IsIbPath;
    var n := atom.dim.degree;
    var s := [0] + Slot(from, n as nat - 1);
    HubPath(t, h, from, n as nat - 1, MaxHops(atom.constraints));
    HubIsFirst(t, h);
    PpTakesVeryFirst(t, n, atom.constraints, s);
  }

  lemma EnoughForDp(t: Topology, h: Shape, from: nat, n: u32, constraints: seq<Constraint>)
    requires IsHub(t, h, true) && Within(h, from, n)
    ensures AtomPlacement(t, Dp(n), constraints).placed
  {
    IdsDistinct(t, Slot(from, n));
    AtomComplete(t, Dp(n), constraints, Ids(t, Slot(from, n)));
  }

  /** The arm fits the block that begins at `from`; with the hub at hand it takes the hub instead of the
      block's last GPU. */
  lemma ArmTakesHub(t: Topology, h: Shape, from: nat, atom: TopologySpec)
    requires IsHub(t, h, true) && atom.Atom? && atom.dim.degree >= 1 && Within(h, from, atom.dim.degree)
    requires Meets(BlockLink(h, from), atom) && MinBandwidth(atom.constraints) <= h.hubGbps
    ensures var r := AtomPlacement(t, atom.dim, atom.constraints); r.placed && GpuName(0) in r.gpuIds
  {
    hide IsHub, LeastHealthy;
    HubIsFirst(t, h);
    match atom.dim
    case Tp(_) => TpTakesHub(t, h, from, atom);
    case Pp(_) => PpTakesHub(t, h, from, atom);
    case Dp(n) =>
      EnoughForDp(t, h, from, n, atom.constraints);
      DpTakesVeryFirst(t, n, atom.constraints, GpuName(0));
  }
}
