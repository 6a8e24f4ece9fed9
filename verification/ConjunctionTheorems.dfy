/** Specs with `+`: when the solver finds what exists, and how many GPUs it gives. */
module ConjunctionTheorems {
  import opened MachineInts
  import opened Powers
  import opened Sequences
  import opened StringOrder
  import opened ClusterTopology
  import opened TopologySpecs
  import opened Solver
  import opened SolverTheorems
  import opened SimClusters
  import opened Meshes

  // ---- Exactness ----

  /** The solver places `l + r` on a cluster exactly when that is possible there. */
  ghost predicate ExactOn(t: Topology, l: TopologySpec, r: TopologySpec)
    requires WellFormed(t)
  {
    Placement(t, Conjunction(l, r)).placed <==> Feasible(t, Conjunction(l, r))
  }

  /** The arms are solved separately, so both pick from the same end of the cluster: the solver is exact
      on every cluster if and only if one arm asks for nothing, whatever the kinds and constraints. */
  lemma ConjunctionExactness(l: TopologySpec, r: TopologySpec)
    requires l.Atom? && r.Atom?
    ensures (forall t :: WellFormed(t) ==> ExactOn(t, l, r)) <==> l.dim.degree == 0 || r.dim.degree == 0
  {
    hide Placement, Feasible;
    if l.dim.degree == 0 || r.dim.degree == 0 {
      forall t | WellFormed(t) ensures ExactOn(t, l, r) {
        EmptyArmExact(t, l, r);
      }
    } else {
      var gbps, hops := WidestLink(l.constraints, r.constraints), 0;
      var n := l.dim.degree as nat + r.dim.degree as nat;
      var t := Mesh(n, gbps, hops);
      MeshIsMesh(n, gbps, hops);
      ArmsFit(t, n, gbps, l, r, 0);
      ArmsCollide(t, n, gbps, l, r);
      SatisfiedIsFeasible(t, Conjunction(l, r), SlotNames(0, n));
      assert !ExactOn(t, l, r);
    }
  }

  lemma SatisfiedIsFeasible(t: Topology, spec: TopologySpec, ids: seq<string>)
    requires Satisfies(t, spec, ids)
    ensures Feasible(t, spec)
  {
  }

  function WidestLink(c: seq<Constraint>, d: seq<Constraint>): real {
    if MinBandwidth(c) <= MinBandwidth(d) then MinBandwidth(d) else MinBandwidth(c)
  }

  lemma EmptyArmExact(t: Topology, l: TopologySpec, r: TopologySpec)
    requires WellFormed(t) && l.Atom? && r.Atom?
    requires l.dim.degree == 0 || r.dim.degree == 0
    ensures ExactOn(t, l, r)
  {
    hide AtomPlacement, AtomSatisfied;
    var spec := Conjunction(l, r);
    PlacementSound(t, spec);
    PlusFreeExact(t, l);
    PlusFreeExact(t, r);
    AtomSize(t, l);
    AtomSize(t, r);
    if ids :| Satisfies(t, spec, ids) {
      var k :| 0 <= k <= |ids| && Splits(ids, k) && Satisfies(t, l, ids[..k]) && Satisfies(t, r, ids[k..]);
      assert Feasible(t, l) && Feasible(t, r);
    }
  }

  /** Every `+` joins two atoms of which one asks for nothing. */
  ghost predicate Separable(spec: TopologySpec) {
    match spec
    case Atom(_, _) => true
    case Conjunction(l, r) => l.Atom? && r.Atom? && (l.dim.degree == 0 || r.dim.degree == 0)
    case Disjunction(alts) => forall i :: 0 <= i < |alts| ==> Separable(alts[i])
  }

  /** Among alternatives it is enough that each conjunction has an empty arm. */
  lemma {:induction false} SeparableExact(t: Topology, spec: TopologySpec)
    requires WellFormed(t) && Separable(spec)
    ensures Placement(t, spec).placed <==> Feasible(t, spec)
  {
    match spec
    case Atom(_, _) => PlusFreeExact(t, spec);
    case Conjunction(l, r) => EmptyArmExact(t, l, r);
    case Disjunction(alts) =>
      PlacementSound(t, spec);
      FirstAlternativeWins(t, alts);
      if ids :| Satisfies(t, spec, ids) {
        var i :| 0 <= i < |alts| && Satisfies(t, alts[i], ids);
        SeparableExact(t, alts[i]);
      }
  }

  /** Both arms find room side by side on a mesh, from any GPU on. */
  lemma ArmsFit(t: Topology, n: nat, gbps: real, l: TopologySpec, r: TopologySpec, from: nat)
    requires IsMesh(t, n, gbps, 0) && l.Atom? && r.Atom?
    requires LinksSuffice(gbps, 0, l.constraints) && LinksSuffice(gbps, 0, r.constraints)
    requires (l.dim.Pp? ==> l.dim.degree >= 1) && (r.dim.Pp? ==> r.dim.degree >= 1)
    requires from + l.dim.degree as nat + r.dim.degree as nat <= n
    ensures Satisfies(t, Conjunction(l, r), SlotNames(from, l.dim.degree as nat + r.dim.degree as nat))
  {
    hide AtomPlacement, AtomSatisfied;
    var k, m: nat := l.dim.degree, r.dim.degree;
    SlotSatisfies(t, n, gbps, 0, l.dim, l.constraints, from);
    SlotSatisfies(t, n, gbps, 0, r.dim, r.constraints, from + k);
    SlotsDisjoint(from, k, m);
    ArmsSatisfy(t, l, r, SlotNames(from, k), SlotNames(from + k, m));
    assert SlotNames(from, k + m) == SlotNames(from, k) + SlotNames(from + k, m);
  }

  /** Each arm takes GPU 0 all the same. */
  lemma ArmsCollide(t: Topology, n: nat, gbps: real, l: TopologySpec, r: TopologySpec)
    requires IsMesh(t, n, gbps, 0) && l.Atom? && r.Atom?
    requires LinksSuffice(gbps, 0, l.constraints) && LinksSuffice(gbps, 0, r.constraints)
    requires 1 <= l.dim.degree <= n && 1 <= r.dim.degree <= n
    ensures !Placement(t, Conjunction(l, r)).placed
  {
    hide AtomPlacement, AtomSatisfied;
    TakesFirst(t, n, gbps, 0, l.dim, l.constraints);
    TakesFirst(t, n, gbps, 0, r.dim, r.constraints);
    var a, b := Placement(t, l).gpuIds, Placement(t, r).gpuIds;
    var i :| 0 <= i < |b| && b[i] == GpuName(0);
    assert b[i] in a;
  }

  lemma SlotsDisjoint(from: nat, k: nat, m: nat)
    ensures Disjoint(SlotNames(from, k), SlotNames(from + k, m))
  {
    var a, b := SlotNames(from, k), SlotNames(from + k, m);
    forall i, j | 0 <= i < |a| && 0 <= j < |b| ensures a[i] != b[j] {
      NamesDiffer(from + i, from + k + j);
    }
  }

  // ---- Two data-parallel arms, cluster by cluster ----

  lemma TwoGroupsNeed(t: Topology, n: u32, m: u32, c: seq<Constraint>, d: seq<Constraint>, ids: seq<string>)
    requires WellFormed(t) && Satisfies(t, Conjunction(Atom(Dp(n), c), Atom(Dp(m), d)), ids)
    ensures n as nat + m as nat <= |Sort(HealthyIds(t))|
  {
    var l, r := Atom(Dp(n), c), Atom(Dp(m), d);
    var k :| 0 <= k <= |ids| && Splits(ids, k) && Satisfies(t, l, ids[..k]) && Satisfies(t, r, ids[k..]);
    DistinctConcat(ids[..k], ids[k..]);
    assert ids == ids[..k] + ids[k..];
    EnoughHealthy(t, ids);
  }

  lemma SliceSatisfies(t: Topology, all: seq<string>, i: nat, n: u32, c: seq<Constraint>)
    requires Distinct(all) && (forall id :: id in all ==> HealthyId(t, id)) && i + n as nat <= |all|
    ensures AtomSatisfied(t, Dp(n), c, all[i..i + n as nat])
  {
    hide HealthyId;
  }

  lemma SlicesDisjoint(all: seq<string>, k: nat, end: nat)
    requires Distinct(all) && k <= end <= |all|
    ensures Disjoint(all[0..k], all[k..end])
  {
  }

  lemma TwoGroupsFound(t: Topology, n: u32, m: u32, c: seq<Constraint>, d: seq<Constraint>)
    requires WellFormed(t) && n as nat + m as nat <= |Sort(HealthyIds(t))|
    ensures Feasible(t, Conjunction(Atom(Dp(n), c), Atom(Dp(m), d)))
  {
    hide AtomSatisfied, Disjoint, HealthyId;
    var all, k := Sort(HealthyIds(t)), n as nat;
    HealthyIdsDistinct(t);
    SortKeepsMembers(HealthyIds(t));
    SliceSatisfies(t, all, 0, n, c);
    SliceSatisfies(t, all, k, m, d);
    SlicesDisjoint(all, k, k + m as nat);
    ArmsSatisfy(t, Atom(Dp(n), c), Atom(Dp(m), d), all[0..k], all[k..k + m as nat]);
  }

  /** Two disjoint groups of `n` and `m` healthy GPUs exist exactly when enough GPUs are healthy. */
  lemma TwoGroupsFeasible(t: Topology, n: u32, m: u32, c: seq<Constraint>, d: seq<Constraint>)
    requires WellFormed(t)
    ensures Feasible(t, Conjunction(Atom(Dp(n), c), Atom(Dp(m), d))) <==> n as nat + m as nat <= |HealthyIds(t)|
  {
    SortKeepsMembers(HealthyIds(t));
    if ids :| Satisfies(t, Conjunction(Atom(Dp(n), c), Atom(Dp(m), d)), ids) {
      TwoGroupsNeed(t, n, m, c, d, ids);
    }
    if n as nat + m as nat <= |HealthyIds(t)| {
      TwoGroupsFound(t, n, m, c, d);
    }
  }

  lemma DistinctConcat(a: seq<string>, b: seq<string>)
    requires Distinct(a) && Distinct(b) && Disjoint(a, b)
    ensures Distinct(a + b)
  {
    forall i, j | 0 <= i < j < |a + b| ensures (a + b)[i] != (a + b)[j] {
      if i < |a| <= j {
        assert a[i] in a && b[j - |a|] in b;
      } else if j < |a| {
      } else {
        assert b[i - |a|] != b[j - |a|];
      }
    }
  }

  /** For two data-parallel arms this is so on each cluster by itself: the pair is placed exactly when
      it is feasible and one arm asks for nothing. */
  lemma TwoDataParallelArms(t: Topology, n: u32, m: u32, c: seq<Constraint>, d: seq<Constraint>)
    requires WellFormed(t)
    ensures var spec := Conjunction(Atom(Dp(n), c), Atom(Dp(m), d));
      Placement(t, spec).placed <==> Feasible(t, spec) && (n == 0 || m == 0)
  {
    var all := Sort(HealthyIds(t));
    SortKeepsMembers(HealthyIds(t));
    TwoGroupsFeasible(t, n, m, c, d);
    if n <= |all| && m <= |all| {
      var a, b := Placement(t, Atom(Dp(n), c)).gpuIds, Placement(t, Atom(Dp(m), d)).gpuIds;
      assert a == all[..n] && b == all[..m];
      if n > 0 && m > 0 {
        assert b[0] == a[0] && a[0] in a;
      }
    }
  }

  // ---- Sizes ----

  /** The arms' sizes add while the declared counts multiply, in 32 bits. The two agree exactly when the
      sum fits and the degrees, each less one, are inverse to each other modulo 2^32; for products that
      fit, that leaves two arms of 2 and two arms of 0. */
  lemma ConjunctionSize(t: Topology, l: TopologySpec, r: TopologySpec)
    requires WellFormed(t) && l.Atom? && r.Atom?
    requires Placement(t, Conjunction(l, r)).placed
    ensures var n: nat := l.dim.degree; var m: nat := r.dim.degree; var ids := Placement(t, Conjunction(l, r)).gpuIds;
      && |ids| == n + m
      && (|ids| == GpuCount(Conjunction(l, r)) <==> n + m < TWO_32 && ((n - 1) * (m - 1)) % TWO_32 == 1)
      && (n * m < TWO_32 ==> (|ids| == GpuCount(Conjunction(l, r)) <==> (n == m == 2 || n == m == 0)))
  {
    hide Placement, GpuCount, WrapU32;
    var n: nat := l.dim.degree;
    var m: nat := r.dim.degree;
    ArmsAdd(t, l, r);
    SumIsWrappedProduct(n, m);
    SmallProduct(n, m);
  }

  lemma ArmsAdd(t: Topology, l: TopologySpec, r: TopologySpec)
    requires WellFormed(t) && l.Atom? && r.Atom?
    requires Placement(t, Conjunction(l, r)).placed
    ensures |Placement(t, Conjunction(l, r)).gpuIds| == l.dim.degree as nat + r.dim.degree as nat
    ensures GpuCount(Conjunction(l, r)) == WrapU32(l.dim.degree * r.dim.degree)
  {
    hide AtomPlacement;
    AtomSize(t, l);
    AtomSize(t, r);
  }

  lemma SumIsWrappedProduct(n: nat, m: nat)
    ensures WrapU32(n * m) == n + m <==> n + m < TWO_32 && ((n - 1) * (m - 1)) % TWO_32 == 1
  {
    Distribute(n, -1, m - 1);
    Distribute(m, -1, n);
    assert (n - 1) * (m - 1) - 1 == n * m - (n + m);
    SameRemainder(n * m, n + m, TWO_32);
    SameRemainder((n - 1) * (m - 1), 1, TWO_32);
  }

  /** Larger degrees can agree by wrapping. */
  lemma LargeArmsAgree()
    ensures GpuCount(Conjunction(Atom(Dp(4), []), Atom(Dp(2_863_311_532), []))) == 4 + 2_863_311_532
  {
    assert (4 * 2_863_311_532) % TWO_32 == 2_863_311_536;
  }

  lemma SmallProduct(n: nat, m: nat)
    ensures n * m < TWO_32 ==> (WrapU32(n * m) == n + m <==> (n == m == 2 || n == m == 0))
  {
    SumEqualsProduct(n, m);
    assert n * m >= 0;
  }

  lemma SumEqualsProduct(n: nat, m: nat)
    ensures n * m == n + m <==> (n == m == 2 || n == m == 0)
  {
    if n >= 3 && m >= 3 {
      assert n * m >= 3 * m && n * m >= n * 3;
    } else if n == 2 {
    } else if m == 2 {
    }
  }
}
