/** Whether a request is granted whenever the unreserved GPUs could meet it. */
module FreeCapacity {
  import opened MachineInts
  import opened Sequences
  import opened StringOrder
  import opened ClusterTopology
  import opened TopologySpecs
  import opened Checker
  import opened Language
  import opened StringLanguage
  import opened Solver
  import opened SolverTheorems
  import opened SimClusters
  import opened Meshes
  import opened ConjunctionTheorems
  import opened Scheduler

  /** Some assignment of healthy, unreserved GPUs meets the spec. */
  ghost predicate FreeSuffices(t: Topology, reserved: set<string>, spec: TopologySpec) {
    exists ids :: Satisfies(t, spec, ids) && Elems(ids) !! reserved
  }

  /** The request is granted exactly when the free GPUs could meet it. */
  ghost predicate GrantsWhatIsFree(t: Topology, reserved: set<string>, spec: TopologySpec)
    requires WellFormed(t) && ParserShape(spec)
  {
    Granted(t, reserved, Print(spec)).Some? <==> FreeSuffices(t, reserved, spec)
  }

  // ---- Alternatives that ask for nothing, and alternatives that can never be met ----

  /** No arm is a pipeline of no stages, which no cluster offers. */
  predicate Live(spec: TopologySpec) {
    match spec
    case Atom(dim, _) => dim.Pp? ==> dim.degree > 0
    case Conjunction(l, r) => Live(l) && Live(r)
    case Disjunction(_) => true
  }

  /** The first alternative that can be met at all, if there is one, asks for nothing. */
  ghost predicate FirstLiveAsksForNothing(alts: seq<TopologySpec>) {
    alts == [] || (if Live(alts[0]) then AsksForNothing(alts[0]) else FirstLiveAsksForNothing(alts[1..]))
  }

  lemma DeadNever(t: Topology, alt: TopologySpec)
    requires WellFormed(t) && AlternativeShape(alt) && !Live(alt)
    ensures !Placement(t, alt).placed && !Feasible(t, alt)
  {
    PlacementSound(t, alt);
    if ids :| Satisfies(t, alt, ids) {
      if alt.Conjunction? {
        var k :| && 0 <= k <= |ids| && Splits(ids, k)
                 && Satisfies(t, alt.left, ids[..k]) && Satisfies(t, alt.right, ids[k..]);
      }
    }
  }

  lemma NothingAlwaysPlaced(t: Topology, alt: TopologySpec)
    requires WellFormed(t) && AlternativeShape(alt) && AsksForNothing(alt)
    ensures Placement(t, alt) == Placed([]) && Satisfies(t, alt, [])
  {
    hide AtomPlacement, AtomSatisfied;
    match alt
    case Atom(_, _) => EmptyAtom(t, alt);
    case Conjunction(l, r) =>
      EmptyAtom(t, l);
      EmptyAtom(t, r);
      PlacementSound(t, alt);
  }

  lemma EmptyAtom(t: Topology, atom: TopologySpec)
    requires WellFormed(t) && atom.Atom? && AsksForNothing(atom)
    ensures Placement(t, atom) == Placed([]) && Satisfies(t, atom, [])
  {
    var none: seq<string> := [];
    if atom.dim.Tp? {
      assert CliqueSearch.CliqueSeq(t, [], MinBandwidth(atom.constraints)) && Names(t, [], none);
    }
    AtomComplete(t, atom.dim, atom.constraints, none);
    AtomSound(t, atom.dim, atom.constraints);
  }

  /** What a spec of several alternatives, or of one, comes to on a cluster. */
  lemma ByAlternatives(t: Topology, spec: TopologySpec)
    requires WellFormed(t) && ParserShape(spec)
    ensures var alts := Alternatives(spec); var r := Placement(t, spec);
      && (forall i :: 0 <= i < |alts| ==> AlternativeShape(alts[i]))
      && (forall ids :: Satisfies(t, spec, ids) <==> exists i :: 0 <= i < |alts| && Satisfies(t, alts[i], ids))
      && (r.placed <==> exists i :: 0 <= i < |alts| && Placement(t, alts[i]).placed)
      && (r.placed ==> exists i :: && 0 <= i < |alts| && r == Placement(t, alts[i])
                                   && forall j :: 0 <= j < i ==> !Placement(t, alts[j]).placed)
  {
    var alts := Alternatives(spec);
    if spec.Disjunction? {
      FirstAlternativeWins(t, alts);
    } else {
      assert alts == [spec];
      assert Placement(t, spec) == Placement(t, alts[0]);
    }
  }

  // ---- Grants that miss nothing ----

  lemma {:induction false} FirstLive(alts: seq<TopologySpec>) returns (j: nat)
    ensures j <= |alts| && (forall i :: 0 <= i < j ==> !Live(alts[i]))
    ensures j < |alts| ==> Live(alts[j])
    ensures FirstLiveAsksForNothing(alts) <==> j == |alts| || AsksForNothing(alts[j])
  {
    if alts == [] || Live(alts[0]) {
      j := 0;
    } else {
      var rest := FirstLive(alts[1..]);
      j := rest + 1;
      assert forall i :: 1 <= i < |alts| ==> alts[i] == alts[1..][i - 1];
    }
  }

  lemma NothingIsAlwaysFree(t: Topology, reserved: set<string>, spec: TopologySpec)
    requires WellFormed(t) && ParserShape(spec) && WellTyped(spec)
    requires FirstLiveAsksForNothing(Alternatives(spec))
    ensures GrantsWhatIsFree(t, reserved, spec)
  {
    hide Placement, Satisfies, Print, Alternatives, AlternativeShape, Live, AsksForNothing, WellTyped;
    var alts := Alternatives(spec);
    ParsePrint(spec);
    ByAlternatives(t, spec);
    var j := FirstLive(alts);
    forall i | 0 <= i < j ensures !Placement(t, alts[i]).placed && !Feasible(t, alts[i]) { DeadNever(t, alts[i]); }
    if j < |alts| {
      NothingAlwaysPlaced(t, alts[j]);
      assert Placement(t, spec) == Placed([]);
      var none: seq<string> := [];
      assert Satisfies(t, spec, none) && Elems(none) !! reserved;
    } else {
      if ids :| Satisfies(t, spec, ids) {
        var i :| 0 <= i < |alts| && Satisfies(t, alts[i], ids);
        assert Feasible(t, alts[i]);
      }
    }
  }

  // ---- A mesh on which one reserved GPU stands in the way ----

  /** The links of the mesh and all but one of its GPUs are enough for the alternative. */
  predicate Roomy(n: nat, gbps: real, alt: TopologySpec) {
    match alt
    case Atom(dim, constraints) => LinksSuffice(gbps, 0, constraints) && dim.degree < n
    case Conjunction(l, r) =>
      && l.Atom? && r.Atom? && LinksSuffice(gbps, 0, l.constraints) && LinksSuffice(gbps, 0, r.constraints)
      && l.dim.degree as nat + r.dim.degree as nat < n
    case Disjunction(_) => false
  }

  lemma RoomyGrows(n: nat, gbps: real, alt: TopologySpec, n': nat, gbps': real)
    requires Roomy(n, gbps, alt) && n <= n' && gbps <= gbps'
    ensures Roomy(n', gbps', alt)
  {
  }

  lemma {:induction false} RoomForAll(alts: seq<TopologySpec>) returns (n: nat, gbps: real)
    requires forall i :: 0 <= i < |alts| ==> AlternativeShape(alts[i])
    ensures forall i :: 0 <= i < |alts| ==> Roomy(n, gbps, alts[i])
  {
    if alts == [] {
      n, gbps := 0, 0.0;
    } else {
      var n', gbps' := RoomForAll(alts[1..]);
      var need, link := RoomFor(alts[0]);
      n, gbps := if need <= n' then n' else need, if link <= gbps' then gbps' else link;
      RoomyGrows(need, link, alts[0], n, gbps);
      forall i | 0 <= i < |alts| ensures Roomy(n, gbps, alts[i]) {
        if i > 0 {
          assert alts[i] == alts[1..][i - 1];
          RoomyGrows(n', gbps', alts[i], n, gbps);
        }
      }
    }
  }

  lemma RoomFor(alt: TopologySpec) returns (n: nat, gbps: real)
    requires AlternativeShape(alt)
    ensures Roomy(n, gbps, alt)
  {
    match alt
    case Atom(dim, constraints) => n, gbps := dim.degree + 1, MinBandwidth(constraints);
    case Conjunction(l, r) =>
      n, gbps := l.dim.degree as nat + r.dim.degree as nat + 1, WidestLink(l.constraints, r.constraints);
  }

  /** Both arms ask for something. */
  predicate BothAsk(alt: TopologySpec) {
    alt.Conjunction? && alt.left.Atom? && alt.right.Atom? && alt.left.dim.degree > 0 && alt.right.dim.degree > 0
  }

  /** A live alternative that asks for something finds it beyond GPU 0, but insists on GPU 0. */
  lemma InsistsOnFirst(t: Topology, n: nat, gbps: real, alt: TopologySpec)
    requires IsMesh(t, n, gbps, 0) && Roomy(n, gbps, alt) && Live(alt) && !AsksForNothing(alt)
    ensures exists ids :: Satisfies(t, alt, ids) && GpuName(0) !in ids
    ensures Placement(t, alt).placed <==> !BothAsk(alt)
    ensures Placement(t, alt).placed ==> GpuName(0) in Placement(t, alt).gpuIds
  {
    hide IsMesh, AtomPlacement, AtomSatisfied;
    match alt
    case Atom(dim, constraints) =>
      SlotSatisfies(t, n, gbps, 0, dim, constraints, 1);
      PastFirst(dim.degree);
      assert Satisfies(t, alt, SlotNames(1, dim.degree));
      TakesFirst(t, n, gbps, 0, dim, constraints);
    case Conjunction(l, r) =>
      ArmsFit(t, n, gbps, l, r, 1);
      PastFirst(l.dim.degree as nat + r.dim.degree as nat);
      if l.dim.degree > 0 && r.dim.degree > 0 {
        ArmsCollide(t, n, gbps, l, r);
      } else {
        OneArmInsists(t, n, gbps, l, r);
      }
  }

  lemma OneArmInsists(t: Topology, n: nat, gbps: real, l: TopologySpec, r: TopologySpec)
    requires IsMesh(t, n, gbps, 0) && Roomy(n, gbps, Conjunction(l, r)) && Live(Conjunction(l, r))
    requires (l.dim.degree == 0) != (r.dim.degree == 0)
    ensures var p := Placement(t, Conjunction(l, r)); p.placed && GpuName(0) in p.gpuIds
  {
    hide AtomPlacement, AtomSatisfied;
    if l.dim.degree == 0 {
      EmptyAtom(t, l);
      TakesFirst(t, n, gbps, 0, r.dim, r.constraints);
    } else {
      EmptyAtom(t, r);
      TakesFirst(t, n, gbps, 0, l.dim, l.constraints);
    }
  }

  lemma PastFirst(len: nat)
    ensures GpuName(0) !in SlotNames(1, len)
  {
    forall i | 0 <= i < len ensures SlotNames(1, len)[i] != GpuName(0) { NamesDiffer(0, 1 + i); }
  }

  /** Counts agree, so next to an alternative in which both arms ask, every other one asks too. */
  lemma AllAsk(alts: seq<TopologySpec>, j: nat, i: nat)
    requires j < |alts| && i < |alts| && AlternativeShape(alts[i]) && BothAsk(alts[j])
    requires ExactCount(alts[i]) == ExactCount(alts[j])
    ensures Live(alts[i]) && !AsksForNothing(alts[i])
  {
    var l: nat, r: nat := alts[j].left.dim.degree, alts[j].right.dim.degree;
    assert ExactCount(alts[j]) == l * r && l * r >= 1;
    if alts[i].Conjunction? {
      var l': nat, r': nat := alts[i].left.dim.degree, alts[i].right.dim.degree;
      assert ExactCount(alts[i]) == l' * r';
    }
  }

  lemma SameCount(spec: TopologySpec, i: nat, j: nat)
    requires ParserShape(spec) && WellTypedExactly(spec) && i < |Alternatives(spec)| && j < |Alternatives(spec)|
    ensures ExactCount(Alternatives(spec)[i]) == ExactCount(Alternatives(spec)[j])
  {
  }

  /** The `w`-th alternative, if it is the first that is placed, insists on GPU 0. */
  lemma PlacedInsists(t: Topology, n: nat, gbps: real, alts: seq<TopologySpec>, j: nat, w: nat)
    requires IsMesh(t, n, gbps, 0) && j < |alts| && w < |alts|
    requires AlternativeShape(alts[w]) && Roomy(n, gbps, alts[j]) && Roomy(n, gbps, alts[w])
    requires Live(alts[j]) && !AsksForNothing(alts[j]) && (w < j ==> !Live(alts[w]))
    requires ExactCount(alts[w]) == ExactCount(alts[j])
    requires Placement(t, alts[w]).placed && (j < w ==> !Placement(t, alts[j]).placed)
    ensures GpuName(0) in Placement(t, alts[w]).gpuIds
  {
    hide *;
    if w < j {
      assert WellFormed(t) by { MeshWellFormed(t, n, gbps); }
      DeadNever(t, alts[w]);
    } else {
      InsistsOnFirst(t, n, gbps, alts[j]);
      if j < w {
        AllAsk(alts, j, w);
        InsistsOnFirst(t, n, gbps, alts[w]);
      }
    }
  }

  lemma MeshWellFormed(t: Topology, n: nat, gbps: real)
    requires IsMesh(t, n, gbps, 0)
    ensures WellFormed(t)
  {
  }

  lemma WinnerInsists(t: Topology, n: nat, gbps: real, spec: TopologySpec, j: nat)
    requires IsMesh(t, n, gbps, 0) && ParserShape(spec) && WellTypedExactly(spec)
    requires forall i :: 0 <= i < |Alternatives(spec)| ==> Roomy(n, gbps, Alternatives(spec)[i])
    requires j < |Alternatives(spec)| && Live(Alternatives(spec)[j]) && !AsksForNothing(Alternatives(spec)[j])
    requires forall i :: 0 <= i < j ==> !Live(Alternatives(spec)[i])
    ensures Placement(t, spec).placed ==> GpuName(0) in Placement(t, spec).gpuIds
  {
    MeshWellFormed(t, n, gbps);
    hide *;
    var alts := Alternatives(spec);
    ByAlternatives(t, spec);
    if Placement(t, spec).placed {
      var w :| && 0 <= w < |alts| && Placement(t, spec) == Placement(t, alts[w])
               && forall i :: 0 <= i < w ==> !Placement(t, alts[i]).placed;
      SameCount(spec, w, j);
      PlacedInsists(t, n, gbps, alts, j, w);
    }
  }

  lemma WellFormedMesh(n: nat, gbps: real)
    ensures IsMesh(Mesh(n, gbps, 0), n, gbps, 0) && WellFormed(Mesh(n, gbps, 0))
  {
    hide Mesh;
    MeshIsMesh(n, gbps, 0);
  }

  lemma OneReservedGpuBlocks(spec: TopologySpec) returns (t: Topology)
    requires ParserShape(spec) && WellTypedExactly(spec) && !FirstLiveAsksForNothing(Alternatives(spec))
    ensures WellFormed(t)
    ensures FreeSuffices(t, {GpuName(0)}, spec) && Granted(t, {GpuName(0)}, Print(spec)).None?
  {
    hide IsMesh, Mesh, Placement, Satisfies, Print, Alternatives, AlternativeShape, Live, AsksForNothing,
      WellTypedExactly, Roomy, BothAsk;
    var alts := Alternatives(spec);
    assert forall i :: 0 <= i < |alts| ==> AlternativeShape(alts[i]) by {
      assert WellFormed(EMPTY_TOPOLOGY);
      ByAlternatives(EMPTY_TOPOLOGY, spec);
    }
    var n, gbps := RoomForAll(alts);
    t := Mesh(n, gbps, 0);
    WellFormedMesh(n, gbps);
    var j := FirstLive(alts);
    ByAlternatives(t, spec);
    InsistsOnFirst(t, n, gbps, alts[j]);
    var ids :| Satisfies(t, alts[j], ids) && GpuName(0) !in ids;
    assert Satisfies(t, spec, ids) && Elems(ids) !! {GpuName(0)};
    WinnerInsists(t, n, gbps, spec, j);
    ParsePrint(spec);
  }

  /** The solver does not look at what is reserved. If the first alternative that can be met at all
      asks for nothing, or there is none, requests are granted on every cluster exactly when the free
      GPUs could meet them; for specs that obey the documented rules, only then. */
  lemma GrantsWhatIsFreeExactly(spec: TopologySpec)
    requires ParserShape(spec) && WellTyped(spec)
    ensures var always := forall t, reserved :: WellFormed(t) ==> GrantsWhatIsFree(t, reserved, spec);
      && (FirstLiveAsksForNothing(Alternatives(spec)) ==> always)
      && (WellTypedExactly(spec) ==> (always <==> FirstLiveAsksForNothing(Alternatives(spec))))
  {
    hide Granted, FreeSuffices, Alternatives, WellTypedExactly, WellTyped;
    if FirstLiveAsksForNothing(Alternatives(spec)) {
      forall t, reserved | WellFormed(t) ensures GrantsWhatIsFree(t, reserved, spec) {
        NothingIsAlwaysFree(t, reserved, spec);
      }
    } else if WellTypedExactly(spec) {
      var t := OneReservedGpuBlocks(spec);
      assert !GrantsWhatIsFree(t, {GpuName(0)}, spec);
    }
  }

  lemma {:induction false} AtomsOfOneDegree(alts: seq<TopologySpec>, n: u32)
    requires forall i :: 0 <= i < |alts| ==> alts[i].Atom? && alts[i].dim.degree == n
    ensures FirstLiveAsksForNothing(alts) <==> n == 0 || alts == []
  {
    if alts != [] && !Live(alts[0]) {
      AtomsOfOneDegree(alts[1..], n);
    }
  }

  lemma PlusFreeCounts(spec: TopologySpec)
    requires ParserShape(spec) && PlusFree(spec) && WellTyped(spec)
    ensures WellTypedExactly(spec)
    ensures forall i :: 0 <= i < |Alternatives(spec)| ==>
      Alternatives(spec)[i].Atom? && Alternatives(spec)[i].dim.degree == GpuCount(spec)
  {
    var alts := Alternatives(spec);
    if spec.Disjunction? {
      forall i | 0 <= i < |alts| ensures alts[i].Atom? && alts[i].dim.degree == GpuCount(spec) {
        assert AlternativeShape(alts[i]) && PlusFree(alts[i]);
        assert GpuCount(alts[i]) == GpuCount(alts[0]);
      }
    }
    SmallCountsSuffice(spec);
  }

  /** Without `+` that means: exactly when the spec declares no GPUs. */
  lemma PlusFreeGrantsWhatIsFree(spec: TopologySpec)
    requires ParserShape(spec) && PlusFree(spec) && WellTyped(spec)
    ensures (forall t, reserved :: WellFormed(t) ==> GrantsWhatIsFree(t, reserved, spec)) <==> GpuCount(spec) == 0
  {
    hide Granted, FreeSuffices, Alternatives, WellTypedExactly, WellTyped;
    PlusFreeCounts(spec);
    AtomsOfOneDegree(Alternatives(spec), GpuCount(spec));
    GrantsWhatIsFreeExactly(spec);
  }

  // ---- Data parallelism, cluster by cluster ----

  /** The healthy GPUs before `id` in alphabetical order. */
  function EarlierNames(t: Topology, id: string): set<string> {
    set x | x in HealthyIds(t) && x != id && Leq(x, id)
  }

  lemma PlaceInOrder(t: Topology, i: nat)
    requires WellFormed(t) && i < |Sort(HealthyIds(t))|
    ensures |EarlierNames(t, Sort(HealthyIds(t))[i])| == i
  {
    hide Leq, Sort;
    var all := Sort(HealthyIds(t));
    HealthyIdsDistinct(t);
    SortKeepsMembers(HealthyIds(t));
    forall j | 0 <= j < |all| && j != i ensures Leq(all[j], all[i]) <==> j < i {
      LeqTotal(all[i], all[j]);
      assert all[i] != all[j];
    }
    assert EarlierNames(t, all[i]) == Elems(all[..i]) by {
      forall x ensures x in EarlierNames(t, all[i]) <==> x in all[..i] {
        if x in all {
          var j :| 0 <= j < |all| && all[j] == x;
          assert x in all[..i] ==> exists k :: 0 <= k < i && all[k] == x;
          assert j < i ==> all[..i][j] == x;
        }
      }
    }
    DistinctSize(all[..i]);
  }

  /** The solver does not know what is reserved: a data-parallel request is granted exactly when enough
      GPUs are healthy and none of the alphabetically first `n` is reserved, however many others are free. */
  lemma DpGranted(t: Topology, reserved: set<string>, n: u32, constraints: seq<Constraint>)
    requires WellFormed(t)
    ensures Granted(t, reserved, Print(Atom(Dp(n), constraints))).Some?
       <==> n <= |HealthyIds(t)| && forall id :: HealthyId(t, id) && |EarlierNames(t, id)| < n ==> id !in reserved
  {
    hide Print, Sort, Leq, HealthyId, EarlierNames;
    var spec, all := Atom(Dp(n), constraints), Sort(HealthyIds(t));
    ParsePrint(spec);
    SortKeepsMembers(HealthyIds(t));
    if n <= |all| {
      forall i | 0 <= i < |all| ensures |EarlierNames(t, all[i])| == i { PlaceInOrder(t, i); }
      forall id | HealthyId(t, id) ensures |EarlierNames(t, id)| < n <==> id in all[..n] {
        var i :| 0 <= i < |all| && all[i] == id;
        if i < n {
          assert all[..n][i] == id;
        }
      }
      assert Placement(t, spec).gpuIds == all[..n];
      assert forall i :: 0 <= i < n ==> all[..n][i] in all[..n] && HealthyId(t, all[..n][i]);
    }
  }

  function FreeNames(t: Topology, reserved: set<string>): set<string> {
    set id | id in HealthyIds(t) && id !in reserved
  }

  /** Any `n` free GPUs would do. */
  lemma DpFreeSuffices(t: Topology, reserved: set<string>, n: u32, constraints: seq<Constraint>)
    requires WellFormed(t)
    ensures FreeSuffices(t, reserved, Atom(Dp(n), constraints)) <==> n <= |FreeNames(t, reserved)|
  {
    var spec, free := Atom(Dp(n), constraints), FreeNames(t, reserved);
    if ids :| Satisfies(t, spec, ids) && Elems(ids) !! reserved {
      DistinctSize(ids);
      assert Elems(ids) <= free;
      SubsetSize(Elems(ids), free);
    }
    if n <= |free| {
      var all := ListOf(free);
      DistinctSize(all);
      forall id | id in all[..n] ensures HealthyId(t, id) && id !in reserved { assert id in Elems(all); }
      assert Satisfies(t, spec, all[..n]) && Elems(all[..n]) !! reserved;
    }
  }
}
