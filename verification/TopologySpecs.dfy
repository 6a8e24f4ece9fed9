/** Typed topology specifications, as the parser builds them. */
module TopologySpecs {
  import opened MachineInts
  import opened Powers

  datatype ParallelDim = Tp(degree: u32) | Pp(degree: u32) | Dp(degree: u32)

  datatype Constraint = NvlMin(gbps: nat) | IbMax(hops: u32) | Numa

  datatype TopologySpec =
    | Atom(dim: ParallelDim, constraints: seq<Constraint>)
    | Conjunction(left: TopologySpec, right: TopologySpec)
    | Disjunction(alts: seq<TopologySpec>)

  /** The declared GPU count, in the 32-bit arithmetic of the code: products wrap. */
  function GpuCount(spec: TopologySpec): u32 {
    match spec
    case Atom(dim, _) => dim.degree
    case Conjunction(l, r) => WrapU32(GpuCount(l) * GpuCount(r))
    case Disjunction(alts) => if alts == [] then 0 else GpuCount(alts[0])
  }

  /** The same count without a width limit. */
  function ExactCount(spec: TopologySpec): nat {
    match spec
    case Atom(dim, _) => dim.degree
    case Conjunction(l, r) => ExactCount(l) * ExactCount(r)
    case Disjunction(alts) => if alts == [] then 0 else ExactCount(alts[0])
  }

  /** Wrapping at every product comes to one reduction at the end, so the 32-bit count is right
      exactly when the count itself fits. */
  lemma {:induction false} CountWraps(spec: TopologySpec)
    ensures GpuCount(spec) == ExactCount(spec) % TWO_32
    ensures GpuCount(spec) == ExactCount(spec) <==> ExactCount(spec) < TWO_32
  {
    match spec
    case Atom(_, _) =>
    case Conjunction(l, r) =>
      CountWraps(l);
      CountWraps(r);
      ModTimes(ExactCount(l), ExactCount(r), TWO_32);
    case Disjunction(alts) =>
      if alts != [] { CountWraps(alts[0]); }
  }

  /** No `+` anywhere. */
  ghost predicate PlusFree(spec: TopologySpec) {
    match spec
    case Atom(_, _) => true
    case Conjunction(_, _) => false
    case Disjunction(alts) => forall i :: 0 <= i < |alts| ==> PlusFree(alts[i])
  }

  /** The shape of every spec the parser can build: one alternative or at least two, each an atom or
      exactly two atoms. */
  predicate ParserShape(spec: TopologySpec) {
    match spec
    case Disjunction(alts) => |alts| >= 2 && forall i :: 0 <= i < |alts| ==> AlternativeShape(alts[i])
    case _ => AlternativeShape(spec)
  }

  predicate AlternativeShape(spec: TopologySpec) {
    spec.Atom? || (spec.Conjunction? && spec.left.Atom? && spec.right.Atom?)
  }
}
