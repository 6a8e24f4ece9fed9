/** Which pairs of atoms joined by `+` can be placed at all, and for which a rejection is final. */
module PairTheorems {
  import opened ClusterTopology
  import opened CliqueSearch
  import opened PathSearch
  import opened TopologySpecs
  import opened Solver
  import opened SolverTheorems
  import opened SimClusters
  import opened Meshes
  import opened ConjunctionTheorems
  import opened FreeCapacity
  import opened HubClusters

  /** The two searches pick a common GPU on every cluster where both succeed. */
  predicate Lookalike(l: TopologySpec, r: TopologySpec)
    requires l.Atom? && r.Atom?
  {
    if l.dim.Dp? || r.dim.Dp? then l.dim.Dp? && r.dim.Dp?
    else l.dim.degree == r.dim.degree && (l.dim.degree == 1 || SameSearch(l, r))
  }

  predicate SameSearch(l: TopologySpec, r: TopologySpec)
    requires l.Atom? && r.Atom?
  {
    || (l.dim.Tp? && r.dim.Tp? && MinBandwidth(l.constraints) == MinBandwidth(r.constraints))
    || (l.dim.Pp? && r.dim.Pp? && MaxHops(l.constraints) == MaxHops(r.constraints))
  }

  /** Two atoms, each asking for something. */
  predicate BothAskFor(l: TopologySpec, r: TopologySpec) {
    l.Atom? && r.Atom? && l.dim.degree >= 1 && r.dim.degree >= 1
  }

  // ---- Lookalikes are never placed ----

  lemma SingleTakesFirst(t: Topology, atom: TopologySpec)
    requires WellFormed(t) && atom.Atom? && !atom.dim.Dp? && atom.dim.degree == 1 && Placement(t, atom).placed
    ensures HealthyIndices(t) != [] && Usable(t, HealthyIndices(t)[0])
    ensures Placement(t, atom).gpuIds == [t.nodes[HealthyIndices(t)[0]].gpuId]
  {
    HealthyIndicesUsable(t);
    var all := HealthyIndices(t);
    AtomSound(t, atom.dim, atom.constraints);
    AtomSize(t, atom);
    var id := Placement(t, atom).gpuIds[0];
    assert HealthyId(t, id);
    var v: nat :| Usable(t, v) && t.nodes[v].gpuId == id;
    assert v in all && Usable(t, all[0]);
    var s := [all[0]];
    match atom.dim
    case Tp(_) =>
      assert CliqueSeq(t, s, MinBandwidth(atom.constraints));
      CliqueFromFirst(t, s, MinBandwidth(atom.constraints));
      var c := FindClique(t, 1, MinBandwidth(atom.constraints)).value;
      assert Usable(t, c[0]) && c[0] in all;
    case Pp(_) =>
      assert IsIbPath(t, s, MaxHops(atom.constraints));
      AnswerFromFirst(t, s, MaxHops(atom.constraints));
  }

  lemma LookalikesNeverPlaced(t: Topology, l: TopologySpec, r: TopologySpec)
    requires WellFormed(t) && BothAskFor(l, r) && Lookalike(l, r)
    ensures !Placement(t, Conjunction(l, r)).placed
  {
    if l.dim.Dp? {
      TwoDataParallelArms(t, l.dim.degree, r.dim.degree, l.constraints, r.constraints);
    } else if Placement(t, l).placed && Placement(t, r).placed {
      AtomSize(t, l);
      AtomSize(t, r);
      if l.dim.degree == 1 {
        SingleTakesFirst(t, l);
        SingleTakesFirst(t, r);
      }
      var a, b := Placement(t, l).gpuIds, Placement(t, r).gpuIds;
      assert a == b && b[0] in a;
    }
  }

  // ---- Any other pair is placed on some cluster, after a failure that frees it ----

  /** `f` can be given a block of its own in which `s` finds nothing. */
  predicate Separates(f: TopologySpec, s: TopologySpec) {
    && BothAskFor(f, s) && !f.dim.Dp?
    && (s.dim.Dp? || (s.dim.degree >= 2 && (s.dim.degree > f.dim.degree || !Meets(LinkFor(f), s))))
  }

  /** A link just good enough for the atom. */
  function LinkFor(atom: TopologySpec): Link
    requires atom.Atom?
  {
    match atom.dim
    case Tp(_) => Link(NvLink, MinBandwidth(atom.constraints), 0)
    case Pp(_) => Link(InfiniBand, 0.0, MaxHops(atom.constraints))
    case Dp(_) => UNRELATED
  }

  lemma OtherPairsSeparate(l: TopologySpec, r: TopologySpec)
    requires BothAskFor(l, r) && !Lookalike(l, r)
    ensures Separates(l, r) || Separates(r, l)
  {
  }

  function ShapeFor(f: TopologySpec, s: TopologySpec): Shape
    requires f.Atom? && s.Atom?
  {
    Shape(f.dim.degree, s.dim.degree, LinkFor(f), LinkFor(s), WidestLink(f.constraints, s.constraints))
  }

  lemma BothTakeHub(t: Topology, f: TopologySpec, s: TopologySpec)
    requires Separates(f, s) && IsHub(t, ShapeFor(f, s), true)
    ensures WellFormed(t)
    ensures !Placement(t, Conjunction(f, s)).placed && !Placement(t, Conjunction(s, f)).placed
  {
    hide AtomPlacement;
    var h := ShapeFor(f, s);
    ArmTakesHub(t, h, 1, f);
    ArmTakesHub(t, h, h.first + 1, s);
    var a, b := Placement(t, f).gpuIds, Placement(t, s).gpuIds;
    var i :| 0 <= i < |b| && b[i] == GpuName(0);
    var j :| 0 <= j < |a| && a[j] == GpuName(0);
    assert b[i] in a && a[j] in b;
  }

  lemma BothPlaced(t: Topology, f: TopologySpec, s: TopologySpec)
    requires Separates(f, s) && IsHub(t, ShapeFor(f, s), false)
    ensures WellFormed(t)
    ensures Placement(t, Conjunction(f, s)).placed && Placement(t, Conjunction(s, f)).placed
  {
    hide AtomPlacement;
    var h := ShapeFor(f, s);
    FirstArmPlaced(t, h, f);
    SecondArmPlaced(t, h, s);
    BlocksDisjoint(h, Placement(t, f).gpuIds, Placement(t, s).gpuIds);
  }

  /** A cluster on which the pair is rejected, until the GPU that both arms take has failed. */
  lemma FailureFrees(l: TopologySpec, r: TopologySpec) returns (t: Topology)
    requires BothAskFor(l, r) && !Lookalike(l, r)
    ensures WellFormed(t) && !Placement(t, Conjunction(l, r)).placed
    ensures var u := MarkAll(t, [GpuName(0)]); WellFormed(u) && Placement(u, Conjunction(l, r)).placed
  {
    hide Placement, Hub, IsHub;
    OtherPairsSeparate(l, r);
    var f, s := if Separates(l, r) then l else r, if Separates(l, r) then r else l;
    var h := ShapeFor(f, s);
    t := Hub(h);
    HubIsHub(h);
    HubFails(t, h);
    BothTakeHub(t, f, s);
    BothPlaced(MarkAll(t, [GpuName(0)]), f, s);
  }

  // ---- The two characterisations ----

  ghost predicate PlacedOn(t: Topology, l: TopologySpec, r: TopologySpec) {
    WellFormed(t) && Placement(t, Conjunction(l, r)).placed
  }

  /** Two atoms can be placed together on some cluster exactly when neither is a pipeline of no stages
      and, if both ask for something, the two are no lookalikes. */
  lemma PlaceableExactly(l: TopologySpec, r: TopologySpec)
    requires l.Atom? && r.Atom?
    ensures (exists t :: PlacedOn(t, l, r)) <==> Live(Conjunction(l, r)) && (BothAskFor(l, r) ==> !Lookalike(l, r))
  {
    hide Placement, Live;
    forall t | PlacedOn(t, l, r) ensures Live(Conjunction(l, r)) && (BothAskFor(l, r) ==> !Lookalike(l, r)) {
      if !Live(Conjunction(l, r)) { DeadNever(t, Conjunction(l, r)); }
      if BothAskFor(l, r) && Lookalike(l, r) { LookalikesNeverPlaced(t, l, r); }
    }
    if Live(Conjunction(l, r)) && (BothAskFor(l, r) ==> !Lookalike(l, r)) {
      if BothAskFor(l, r) {
        var t := FailureFrees(l, r);
        assert PlacedOn(MarkAll(t, [GpuName(0)]), l, r);
      } else {
        var n, gbps := RoomFor(Conjunction(l, r));
        MeshIsMesh(n, gbps, 0);
        EmptyArmPlaced(Mesh(n, gbps, 0), n, gbps, l, r);
        assert PlacedOn(Mesh(n, gbps, 0), l, r);
      }
    }
  }

  lemma EmptyArmPlaced(t: Topology, n: nat, gbps: real, l: TopologySpec, r: TopologySpec)
    requires IsMesh(t, n, gbps, 0) && Roomy(n, gbps, Conjunction(l, r)) && Live(Conjunction(l, r)) && !BothAskFor(l, r)
    ensures Placement(t, Conjunction(l, r)).placed
  {
    assert WellFormed(t);
    hide IsMesh;
    if l.dim.degree == r.dim.degree {
      NothingAlwaysPlaced(t, Conjunction(l, r));
    } else {
      OneArmInsists(t, n, gbps, l, r);
    }
  }

  /** Rejections of the pair are final: no failures turn one into a placement. */
  ghost predicate RejectionsFinal(l: TopologySpec, r: TopologySpec) {
    forall t, failed :: WellFormed(t) && !Placement(t, Conjunction(l, r)).placed ==> StaysRejected(t, failed, l, r)
  }

  ghost predicate StaysRejected(t: Topology, failed: seq<string>, l: TopologySpec, r: TopologySpec) {
    !PlacedOn(MarkAll(t, failed), l, r)
  }

  lemma EmptyArmStaysRejected(t: Topology, failed: seq<string>, l: TopologySpec, r: TopologySpec)
    requires WellFormed(t) && l.Atom? && r.Atom? && !BothAskFor(l, r)
    requires !Placement(t, Conjunction(l, r)).placed
    ensures StaysRejected(t, failed, l, r)
  {
    hide AtomPlacement;
    var u := MarkAll(t, failed);
    MarkAllDegrades(t, failed);
    DegradedWellFormed(t, u);
    AtomSize(t, l);
    AtomSize(t, r);
    AtomSize(u, l);
    AtomSize(u, r);
    if !Placement(t, l).placed {
      AtomRejectionPersists(t, u, l.dim, l.constraints);
    } else {
      AtomRejectionPersists(t, u, r.dim, r.constraints);
    }
  }

  /** A rejected pair stays rejected whatever fails exactly when an arm asks for nothing or the two are
      lookalikes. Any other pair can be rejected now and placed after a failure. */
  lemma RejectionsFinalExactly(l: TopologySpec, r: TopologySpec)
    requires l.Atom? && r.Atom?
    ensures RejectionsFinal(l, r) <==> !BothAskFor(l, r) || Lookalike(l, r)
  {
    hide Placement, Lookalike;
    if !BothAskFor(l, r) || Lookalike(l, r) {
      forall t, failed | WellFormed(t) && !Placement(t, Conjunction(l, r)).placed
        ensures StaysRejected(t, failed, l, r)
      {
        if BothAskFor(l, r) {
          if WellFormed(MarkAll(t, failed)) { LookalikesNeverPlaced(MarkAll(t, failed), l, r); }
        } else {
          EmptyArmStaysRejected(t, failed, l, r);
        }
      }
    } else {
      var t := FailureFrees(l, r);
      assert !StaysRejected(t, [GpuName(0)], l, r);
    }
  }
}
