/** What a placement means, and when a rejection means that none exists. */
module SolverTheorems {
  import opened MachineInts
  import opened Sequences
  import opened StringOrder
  import opened ClusterTopology
  import opened CliqueSearch
  import opened PathSearch
  import opened TopologySpecs
  import opened Checker
  import opened Solver

  ghost predicate Names(t: Topology, s: seq<nat>, ids: seq<string>) {
    && |ids| == |s|
    && (forall i :: 0 <= i < |s| ==> Usable(t, s[i]) && ids[i] == t.nodes[s[i]].gpuId)
  }

  ghost predicate AtomSatisfied(t: Topology, dim: ParallelDim, constraints: seq<Constraint>, ids: seq<string>) {
    match dim
    case Tp(n) => |ids| == n && exists s :: CliqueSeq(t, s, MinBandwidth(constraints)) && Names(t, s, ids)
    case Pp(n) => |ids| == n && n >= 1 && exists s :: IsIbPath(t, s, MaxHops(constraints)) && Names(t, s, ids)
    case Dp(n) => |ids| == n && Distinct(ids) && forall id :: id in ids ==> HealthyId(t, id)
  }

  ghost predicate Disjoint(a: seq<string>, b: seq<string>) {
    forall id :: id in a ==> id !in b
  }

  /** `ids` is an assignment of healthy GPUs that meets `spec`; no search is mentioned. */
  ghost predicate Satisfies(t: Topology, spec: TopologySpec, ids: seq<string>)
    decreases spec
  {
    match spec
    case Atom(dim, constraints) => AtomSatisfied(t, dim, constraints, ids)
    case Conjunction(l, r) =>
      exists k :: 0 <= k <= |ids| && Splits(ids, k) && Satisfies(t, l, ids[..k]) && Satisfies(t, r, ids[k..])
    case Disjunction(alts) => exists i :: 0 <= i < |alts| && Satisfies(t, alts[i], ids)
  }

  ghost predicate Splits(ids: seq<string>, k: nat)
    requires k <= |ids|
  {
    Disjoint(ids[..k], ids[k..])
  }

  ghost predicate Feasible(t: Topology, spec: TopologySpec) {
    exists ids :: Satisfies(t, spec, ids)
  }

  ghost predicate ProperResult(t: Topology, r: PlacementResult) {
    if r.placed then
      r.rejectionReason == "" && Distinct(r.gpuIds) && forall id :: id in r.gpuIds ==> HealthyId(t, id)
    else
      r.rejectionReason != "" && r.gpuIds == []
  }

  lemma AtomSound(t: Topology, dim: ParallelDim, constraints: seq<Constraint>)
    requires WellFormed(t)
    ensures var r := AtomPlacement(t, dim, constraints);
      ProperResult(t, r) && (r.placed ==> AtomSatisfied(t, dim, constraints, r.gpuIds))
  {
    var r := AtomPlacement(t, dim, constraints);
    match dim
    case Tp(n) =>
      var bw := MinBandwidth(constraints);
      FindCliqueExact(t, n, bw);
      if r.placed {
        var s := FindClique(t, n, bw).value;
        IncreasingDistinct(s);
        IdsDistinct(t, s);
        assert CliqueSeq(t, s, bw) && Names(t, s, r.gpuIds);
      }
    case Pp(n) =>
      FindPathExact(t, n, MaxHops(constraints));
      if r.placed {
        var s := FindPath(t, n, MaxHops(constraints)).value;
        IdsDistinct(t, s);
        assert IsIbPath(t, s, MaxHops(constraints)) && Names(t, s, r.gpuIds);
      }
    case Dp(n) =>
      HealthyIdsDistinct(t);
      SortKeepsMembers(HealthyIds(t));
  }

  lemma HealthyIdsDistinct(t: Topology)
    requires WellFormed(t)
    ensures Distinct(HealthyIds(t))
  {
    HealthyIndicesUsable(t);
    IdsDistinct(t, HealthyIndices(t));
  }

  lemma ArmsSatisfy(t: Topology, l: TopologySpec, r: TopologySpec, a: seq<string>, b: seq<string>)
    requires Satisfies(t, l, a) && Satisfies(t, r, b) && Disjoint(a, b)
    ensures Satisfies(t, Conjunction(l, r), a + b)
  {
    var ids := a + b;
    assert ids[..|a|] == a && ids[|a|..] == b;
    assert Splits(ids, |a|);
  }

  /** Placed means satisfied; rejected means a reason is given and no GPU is. */
  lemma {:induction false} PlacementSound(t: Topology, spec: TopologySpec)
    requires WellFormed(t)
    ensures var r := Placement(t, spec);
      ProperResult(t, r) && (r.placed ==> Satisfies(t, spec, r.gpuIds))
    decreases spec, 0
  {
    match spec
    case Atom(dim, constraints) => AtomSound(t, dim, constraints);
    case Conjunction(l, r) =>
      PlacementSound(t, l);
      PlacementSound(t, r);
      var res := Placement(t, spec);
      if res.placed {
        var a, b := Placement(t, l).gpuIds, Placement(t, r).gpuIds;
        ArmsSatisfy(t, l, r, a, b);
      }
    case Disjunction(alts) => FirstPlacementSound(t, alts, []);
  }

  lemma {:induction false} FirstPlacementSound(t: Topology, alts: seq<TopologySpec>, reasons: seq<string>)
    requires WellFormed(t)
    ensures var r := FirstPlacement(t, alts, reasons);
      && ProperResult(t, r)
      && (r.placed <==> exists i :: 0 <= i < |alts| && Placement(t, alts[i]).placed)
      && (r.placed ==> exists i :: && 0 <= i < |alts| && r == Placement(t, alts[i]) && Satisfies(t, alts[i], r.gpuIds)
                                   && forall j :: 0 <= j < i ==> !Placement(t, alts[j]).placed)
    decreases alts, |alts|
  {
    if alts != [] {
      var r0 := Placement(t, alts[0]);
      PlacementSound(t, alts[0]);
      if !r0.placed {
        FirstPlacementSound(t, alts[1..], reasons + [r0.rejectionReason]);
        var r := FirstPlacement(t, alts[1..], reasons + [r0.rejectionReason]);
        if r.placed {
          var i :| && 0 <= i < |alts[1..]| && r == Placement(t, alts[1..][i]) && Satisfies(t, alts[1..][i], r.gpuIds)
                   && forall j :: 0 <= j < i ==> !Placement(t, alts[1..][j]).placed;
          assert alts[1..][i] == alts[i + 1];
          forall j | 0 <= j < i + 1 ensures !Placement(t, alts[j]).placed {
            if j > 0 { assert alts[j] == alts[1..][j - 1]; }
          }
        }
        if i :| 0 <= i < |alts| && Placement(t, alts[i]).placed {
          assert i > 0 && alts[i] == alts[1..][i - 1];
        }
      }
    }
  }

  /** A disjunction is placed by its first placeable alternative, and by no other. */
  lemma FirstAlternativeWins(t: Topology, alts: seq<TopologySpec>)
    requires WellFormed(t)
    ensures var r := Placement(t, Disjunction(alts));
      && (r.placed <==> exists i :: 0 <= i < |alts| && Placement(t, alts[i]).placed)
      && (r.placed ==> exists i :: && 0 <= i < |alts| && r == Placement(t, alts[i])
                                   && forall j :: 0 <= j < i ==> !Placement(t, alts[j]).placed)
  {
    FirstPlacementSound(t, alts, []);
  }

  /** One more reason is appended after a separator. */
  lemma {:induction false} ReasonsInOrder(reasons: seq<string>, last: string)
    ensures JoinReasons(reasons + [last]) == if reasons == [] then last else JoinReasons(reasons) + "; " + last
  {
    if |reasons| > 1 {
      ReasonsInOrder(reasons[1..], last);
      assert (reasons + [last])[1..] == reasons[1..] + [last];
    } else if |reasons| == 1 {
      assert (reasons + [last])[1..] == [last];
    }
  }

  /** The reason given for each alternative. */
  function ReasonsOf(t: Topology, alts: seq<TopologySpec>): (r: seq<string>)
    requires WellFormed(t)
    ensures |r| == |alts| && forall i :: 0 <= i < |alts| ==> r[i] == Placement(t, alts[i]).rejectionReason
  {
    seq(|alts|, i requires 0 <= i < |alts| => Placement(t, alts[i]).rejectionReason)
  }

  lemma {:induction false} ReasonsCollected(t: Topology, alts: seq<TopologySpec>, before: seq<string>)
    requires WellFormed(t) && forall i :: 0 <= i < |alts| ==> !Placement(t, alts[i]).placed
    ensures FirstPlacement(t, alts, before) == Rejected(NoAlternative(before + ReasonsOf(t, alts)))
    decreases |alts|
  {
    hide Placement, NoAlternative;
    if alts == [] {
      assert before + ReasonsOf(t, alts) == before;
    } else {
      var rest, first := alts[1..], Placement(t, alts[0]).rejectionReason;
      ReasonsCollected(t, rest, before + [first]);
      assert before + [first] + ReasonsOf(t, rest) == before + ReasonsOf(t, alts);
    }
  }

  /** A rejected disjunction passes on the reason of every alternative, in order. */
  lemma AllReasonsGiven(t: Topology, alts: seq<TopologySpec>)
    requires WellFormed(t) && !Placement(t, Disjunction(alts)).placed
    ensures Placement(t, Disjunction(alts)).rejectionReason == NoAlternative(ReasonsOf(t, alts))
  {
    FirstAlternativeWins(t, alts);
    ReasonsCollected(t, alts, []);
    assert [] + ReasonsOf(t, alts) == ReasonsOf(t, alts);
  }

  /** The data-parallel placement takes the alphabetically least healthy GPUs. */
  lemma DpTakesLeast(t: Topology, n: u32, constraints: seq<Constraint>)
    requires WellFormed(t) && Placement(t, Atom(Dp(n), constraints)).placed
    ensures var ids := Placement(t, Atom(Dp(n), constraints)).gpuIds;
      && Sorted(ids)
      && forall id, x :: id in ids && HealthyId(t, x) && x !in ids ==> Leq(id, x)
  {
    var all := Sort(HealthyIds(t));
    SortKeepsMembers(HealthyIds(t));
    forall id, x | id in all[..n] && x in all && x !in all[..n] ensures Leq(id, x) {
      PrefixIsLeast(all, n, id, x);
    }
  }

  lemma PrefixIsLeast(all: seq<string>, n: nat, id: string, x: string)
    requires Sorted(all) && n <= |all| && id in all[..n] && x in all && x !in all[..n]
    ensures Leq(id, x)
  {
    var i :| 0 <= i < n && all[i] == id;
    var j :| 0 <= j < |all| && all[j] == x;
    assert forall k :: 0 <= k < n ==> all[k] == all[..n][k] && all[..n][k] in all[..n];
  }

  /** A clique from the very first GPU on makes the answer begin there. */
  lemma TpTakesVeryFirst(t: Topology, n: u32, constraints: seq<Constraint>, s: seq<nat>)
    requires WellFormed(t) && CliqueSeq(t, s, MinBandwidth(constraints)) && |s| == n >= 1 && s[0] == 0
    ensures var r := AtomPlacement(t, Tp(n), constraints);
      |t.nodes| > 0 && r.placed && r.gpuIds != [] && r.gpuIds[0] == t.nodes[0].gpuId
  {
    hide FindClique, WellFormed;
    CliqueFromFirst(t, s, MinBandwidth(constraints));
    var c := FindClique(t, n, MinBandwidth(constraints)).value;
    assert Usable(t, c[0]);
  }

  /** A path from the first healthy GPU on makes the answer begin there. */
  lemma PpTakesVeryFirst(t: Topology, n: u32, constraints: seq<Constraint>, s: seq<nat>)
    requires WellFormed(t) && IsIbPath(t, s, MaxHops(constraints)) && |s| == n >= 1
    requires HealthyIndices(t) != [] && HealthyIndices(t)[0] == s[0]
    ensures var r := AtomPlacement(t, Pp(n), constraints);
      s[0] < |t.nodes| && r.placed && r.gpuIds != [] && r.gpuIds[0] == t.nodes[s[0]].gpuId
  {
    assert Usable(t, s[0]);
    hide FindPath, IsIbPath, WellFormed;
    AnswerFromFirst(t, s, MaxHops(constraints));
  }

  ghost predicate LeastHealthy(t: Topology, id: string) {
    HealthyId(t, id) && forall x :: HealthyId(t, x) ==> Leq(id, x)
  }

  lemma DpTakesVeryFirst(t: Topology, n: u32, constraints: seq<Constraint>, first: string)
    requires WellFormed(t) && LeastHealthy(t, first) && n >= 1 && AtomPlacement(t, Dp(n), constraints).placed
    ensures first in AtomPlacement(t, Dp(n), constraints).gpuIds
  {
    AtomSound(t, Dp(n), constraints);
    DpTakesLeast(t, n, constraints);
    var ids := AtomPlacement(t, Dp(n), constraints).gpuIds;
    if first !in ids {
      assert ids[0] in ids && HealthyId(t, ids[0]);
      LeqTotal(first, ids[0]);
    }
  }

  // ---- Completeness ----

  lemma AtomComplete(t: Topology, dim: ParallelDim, constraints: seq<Constraint>, ids: seq<string>)
    requires WellFormed(t) && AtomSatisfied(t, dim, constraints, ids)
    ensures AtomPlacement(t, dim, constraints).placed
  {
    match dim
    case Tp(n) =>
      var bw := MinBandwidth(constraints);
      var s :| CliqueSeq(t, s, bw) && Names(t, s, ids);
      CliqueSetOfSeq(t, s, bw);
      FindCliqueExact(t, n, bw);
    case Pp(n) =>
      FindPathExact(t, n, MaxHops(constraints));
    case Dp(n) =>
      EnoughHealthy(t, ids);
  }

  lemma EnoughHealthy(t: Topology, ids: seq<string>)
    requires WellFormed(t) && Distinct(ids) && forall id :: id in ids ==> HealthyId(t, id)
    ensures |ids| <= |Sort(HealthyIds(t))|
  {
    var all := HealthyIds(t);
    HealthyIdsDistinct(t);
    SortKeepsMembers(all);
    DistinctSize(ids);
    DistinctSize(all);
    assert Elems(ids) <= Elems(all);
    SubsetSize(Elems(ids), Elems(all));
  }

  /** Without `+` the solver is exact: it places a spec on a cluster exactly when that is possible. */
  lemma {:induction false} PlusFreeExact(t: Topology, spec: TopologySpec)
    requires WellFormed(t) && PlusFree(spec)
    ensures Placement(t, spec).placed <==> Feasible(t, spec)
  {
    PlacementSound(t, spec);
    match spec
    case Atom(dim, constraints) =>
      if ids :| Satisfies(t, spec, ids) {
        AtomComplete(t, dim, constraints, ids);
      }
    case Disjunction(alts) =>
      FirstAlternativeWins(t, alts);
      if ids :| Satisfies(t, spec, ids) {
        var i :| 0 <= i < |alts| && Satisfies(t, alts[i], ids);
        PlusFreeExact(t, alts[i]);
      }
  }

  // ---- Which constraint counts ----

  /** No hop limit stands in the list. */
  ghost predicate NoHopLimit(constraints: seq<Constraint>) {
    forall i :: 0 <= i < |constraints| ==> !constraints[i].IbMax?
  }

  /** The first hop limit in the list is `hops`. */
  ghost predicate FirstHopLimit(constraints: seq<Constraint>, hops: u32) {
    exists i :: 0 <= i < |constraints| && constraints[i] == IbMax(hops) && NoHopLimit(constraints[..i])
  }

  ghost predicate NoBandwidth(constraints: seq<Constraint>) {
    forall i :: 0 <= i < |constraints| ==> !constraints[i].NvlMin?
  }

  ghost predicate FirstBandwidth(constraints: seq<Constraint>, gbps: nat) {
    exists i :: 0 <= i < |constraints| && constraints[i] == NvlMin(gbps) && NoBandwidth(constraints[..i])
  }

  lemma {:induction false} HopLimitRead(constraints: seq<Constraint>)
    ensures NoHopLimit(constraints) ==> MaxHops(constraints) == U32_MAX
    ensures !NoHopLimit(constraints) ==> FirstHopLimit(constraints, MaxHops(constraints))
    ensures forall h :: FirstHopLimit(constraints, h) ==> MaxHops(constraints) == h
  {
    if constraints != [] {
      var rest := constraints[1..];
      HopLimitRead(rest);
      if constraints[0].IbMax? {
        assert constraints[..0] == [];
        assert FirstHopLimit(constraints, constraints[0].hops);
      }
      forall h | FirstHopLimit(constraints, h) ensures MaxHops(constraints) == h {
        var i :| 0 <= i < |constraints| && constraints[i] == IbMax(h) && NoHopLimit(constraints[..i]);
        if i > 0 {
          assert constraints[..i][0] == constraints[0];
          assert rest[i - 1] == constraints[i] && rest[..i - 1] == constraints[..i][1..];
          assert FirstHopLimit(rest, h);
        }
      }
      if !constraints[0].IbMax? && !NoHopLimit(constraints) {
        assert !NoHopLimit(rest) by {
          var k :| 0 <= k < |constraints| && constraints[k].IbMax?;
          assert rest[k - 1] == constraints[k];
        }
        var i :| 0 <= i < |rest| && rest[i] == IbMax(MaxHops(rest)) && NoHopLimit(rest[..i]);
        assert constraints[i + 1] == rest[i] && constraints[..i + 1] == [constraints[0]] + rest[..i];
      }
    }
  }

  lemma {:induction false} BandwidthRead(constraints: seq<Constraint>)
    ensures NoBandwidth(constraints) ==> MinBandwidth(constraints) == 0.0
    ensures forall gbps :: FirstBandwidth(constraints, gbps) ==> MinBandwidth(constraints) == gbps as real
  {
    if constraints != [] {
      var rest := constraints[1..];
      BandwidthRead(rest);
      forall gbps | FirstBandwidth(constraints, gbps) ensures MinBandwidth(constraints) == gbps as real {
        var i :| 0 <= i < |constraints| && constraints[i] == NvlMin(gbps) && NoBandwidth(constraints[..i]);
        if i > 0 {
          assert constraints[..i][0] == constraints[0];
          assert rest[i - 1] == constraints[i] && rest[..i - 1] == constraints[..i][1..];
          assert FirstBandwidth(rest, gbps);
        }
      }
    }
  }

  lemma AnyHopCount(t: Topology, s: seq<nat>, maxHops: nat)
    requires IsIbPath(t, s, maxHops)
    ensures IsIbPath(t, s, U32_MAX)
  {
    forall i | 0 <= i < |s| - 1 ensures HasIbHop(t, s[i], s[i + 1], U32_MAX) {
      assert HasIbHop(t, s[i], s[i + 1], maxHops);
      var k :| 0 <= k < |t.edges| && IbBetween(t.edges[k], s[i], s[i + 1], maxHops);
      assert IbBetween(t.edges[k], s[i], s[i + 1], U32_MAX);
    }
  }

  /** A pipeline with no hop limit takes InfiniBand links of any hop count; with some, the first counts. */
  lemma PipelinePlaced(t: Topology, n: u32, constraints: seq<Constraint>)
    requires WellFormed(t)
    ensures var placed := Placement(t, Atom(Pp(n), constraints)).placed;
      && (NoHopLimit(constraints) ==>
            (placed <==> n >= 1 && exists s, maxHops: nat :: IsIbPath(t, s, maxHops) && |s| == n))
      && (forall hops: u32 :: FirstHopLimit(constraints, hops) ==>
            (placed <==> n >= 1 && exists s :: IsIbPath(t, s, hops) && |s| == n))
  {
    HopLimitRead(constraints);
    FindPathExact(t, n, MaxHops(constraints));
    forall s, maxHops: nat | IsIbPath(t, s, maxHops) ensures IsIbPath(t, s, U32_MAX) {
      AnyHopCount(t, s, maxHops);
    }
    if NoHopLimit(constraints) && FindPath(t, n, MaxHops(constraints)).Some? {
      var s :| IsIbPath(t, s, U32_MAX) && |s| == n;
      assert IsIbPath(t, s, U32_MAX as nat) && |s| == n;
    }
  }

  /** A tensor group with no bandwidth constraint takes NVLink of any bandwidth; with some, the first counts. */
  lemma TensorGroupPlaced(t: Topology, n: u32, constraints: seq<Constraint>)
    requires WellFormed(t)
    ensures var placed := Placement(t, Atom(Tp(n), constraints)).placed;
      && (NoBandwidth(constraints) ==> (placed <==> exists S :: IsClique(t, S, 0.0) && |S| == n))
      && (forall gbps :: FirstBandwidth(constraints, gbps) ==>
            (placed <==> exists S :: IsClique(t, S, gbps as real) && |S| == n))
  {
    BandwidthRead(constraints);
    FindCliqueExact(t, n, MinBandwidth(constraints));
  }

  lemma AtomRejectionPersists(t: Topology, u: Topology, dim: ParallelDim, constraints: seq<Constraint>)
    requires WellFormed(t) && WellFormed(u) && Degraded(t, u)
    requires !AtomPlacement(t, dim, constraints).placed
    ensures !AtomPlacement(u, dim, constraints).placed
  {
    match dim
    case Tp(n) => CliqueSearch.RejectionPersists(t, u, n, MinBandwidth(constraints));
    case Pp(n) => PathSearch.RejectionPersists(t, u, n, MaxHops(constraints));
    case Dp(n) =>
      var ids := Sort(HealthyIds(u));
      HealthyIdsDistinct(u);
      SortKeepsMembers(HealthyIds(u));
      forall id | id in ids ensures HealthyId(t, id) {
        var v: nat :| Usable(u, v) && u.nodes[v].gpuId == id;
        assert Usable(t, v);
      }
      EnoughHealthy(t, ids);
  }

  /** Without `+`, a rejection survives any later failures. */
  lemma {:induction false} RejectionSurvivesFailures(t: Topology, spec: TopologySpec, failed: seq<string>)
    requires WellFormed(t) && PlusFree(spec)
    requires !Placement(t, spec).placed
    ensures WellFormed(MarkAll(t, failed)) && !Placement(MarkAll(t, failed), spec).placed
  {
    var u := MarkAll(t, failed);
    MarkAllDegrades(t, failed);
    DegradedWellFormed(t, u);
    match spec
    case Atom(dim, constraints) =>
      AtomRejectionPersists(t, u, dim, constraints);
    case Disjunction(alts) =>
      FirstAlternativeWins(t, alts);
      FirstAlternativeWins(u, alts);
      forall i | 0 <= i < |alts| ensures !Placement(u, alts[i]).placed {
        RejectionSurvivesFailures(t, alts[i], failed);
      }
  }

  // ---- Sizes ----

  lemma {:induction false} SatisfiedSize(t: Topology, spec: TopologySpec, ids: seq<string>)
    requires PlusFree(spec) && WellTyped(spec) && Satisfies(t, spec, ids)
    ensures |ids| == GpuCount(spec)
  {
    match spec
    case Atom(_, _) =>
    case Disjunction(alts) =>
      var i :| 0 <= i < |alts| && Satisfies(t, alts[i], ids);
      SatisfiedSize(t, alts[i], ids);
      assert GpuCount(alts[i]) == GpuCount(alts[0]);
  }

  /** Without `+`, a well-typed spec is given exactly the GPU count it declares, whichever
      alternative wins. */
  lemma PlacementSize(t: Topology, spec: TopologySpec)
    requires WellFormed(t) && PlusFree(spec) && WellTyped(spec)
    ensures Placement(t, spec).placed ==> |Placement(t, spec).gpuIds| == GpuCount(spec)
  {
    PlacementSound(t, spec);
    if Placement(t, spec).placed {
      SatisfiedSize(t, spec, Placement(t, spec).gpuIds);
    }
  }

  lemma AtomSize(t: Topology, spec: TopologySpec)
    requires WellFormed(t) && spec.Atom?
    ensures Placement(t, spec).placed ==> |Placement(t, spec).gpuIds| == spec.dim.degree
  {
    AtomSound(t, spec.dim, spec.constraints);
  }

  // ---- When a placement can be empty ----

  /** Some way to satisfy the spec asks for no GPU at all. */
  ghost predicate AsksForNothing(spec: TopologySpec) {
    match spec
    case Atom(dim, _) => !dim.Pp? && dim.degree == 0
    case Conjunction(l, r) => AsksForNothing(l) && AsksForNothing(r)
    case Disjunction(alts) => exists i :: 0 <= i < |alts| && AsksForNothing(alts[i])
  }

  /** `placed` coincides with a nonempty answer on every cluster, as the solver's header promises,
      exactly for the specs that cannot ask for nothing. */
  lemma PlacedIffNonEmpty(spec: TopologySpec)
    ensures (forall t :: WellFormed(t) ==> (Placement(t, spec).placed <==> Placement(t, spec).gpuIds != []))
       <==> !AsksForNothing(spec)
  {
    forall t | WellFormed(t) ensures !Placement(t, spec).placed ==> Placement(t, spec).gpuIds == [] {
      PlacementSound(t, spec);
    }
    if AsksForNothing(spec) {
      EmptyClusterPlaces(spec);
      assert WellFormed(EMPTY_TOPOLOGY);
    } else {
      forall t | WellFormed(t) && Placement(t, spec).placed ensures Placement(t, spec).gpuIds != [] {
        if Placement(t, spec).gpuIds == [] {
          EmptyAnswerMeansNothingAsked(t, spec);
        }
      }
    }
  }

  lemma {:induction false} EmptyClusterPlaces(spec: TopologySpec)
    requires AsksForNothing(spec)
    ensures WellFormed(EMPTY_TOPOLOGY)
    ensures Placement(EMPTY_TOPOLOGY, spec).placed && Placement(EMPTY_TOPOLOGY, spec).gpuIds == []
  {
    match spec
    case Atom(dim, constraints) =>
    case Conjunction(l, r) =>
      EmptyClusterPlaces(l);
      EmptyClusterPlaces(r);
    case Disjunction(alts) =>
      var i :| 0 <= i < |alts| && AsksForNothing(alts[i]);
      EmptyClusterPlaces(alts[i]);
      FirstAlternativeWins(EMPTY_TOPOLOGY, alts);
      PlacementSound(EMPTY_TOPOLOGY, spec);
      var r := Placement(EMPTY_TOPOLOGY, spec);
      assert r.gpuIds == [] || HealthyId(EMPTY_TOPOLOGY, r.gpuIds[0]);
  }

  lemma {:induction false} EmptyAnswerMeansNothingAsked(t: Topology, spec: TopologySpec)
    requires WellFormed(t)
    requires Placement(t, spec).placed && Placement(t, spec).gpuIds == []
    ensures AsksForNothing(spec)
  {
    match spec
    case Atom(dim, constraints) => AtomSound(t, dim, constraints);
    case Conjunction(l, r) =>
      EmptyAnswerMeansNothingAsked(t, l);
      EmptyAnswerMeansNothingAsked(t, r);
    case Disjunction(alts) =>
      FirstAlternativeWins(t, alts);
      var i :| 0 <= i < |alts| && Placement(t, spec) == Placement(t, alts[i]);
      EmptyAnswerMeansNothingAsked(t, alts[i]);
  }
}
