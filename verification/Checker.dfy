/** The type checker for topology specifications. */
module Checker {
  import opened MachineInts
  import opened Powers
  import opened TopologySpecs

  /** Bitwise and of two naturals, digit by binary digit. */
  function BitAnd(a: nat, b: nat): nat {
    if a == 0 || b == 0 then 0 else (a % 2) * (b % 2) + 2 * BitAnd(a / 2, b / 2)
  }

  ghost predicate PowerOfTwo(n: nat) {
    exists k: nat :: n == Pow2(k)
  }

  lemma {:induction false} AndWithSelf(n: nat)
    ensures BitAnd(n, n) == n
  {
    if n != 0 { AndWithSelf(n / 2); }
  }

  /** The bit test decides being a power of two, for every positive number. */
  lemma {:induction false} BitTestDecides(n: nat)
    requires n > 0
    ensures BitAnd(n, n - 1) == 0 <==> PowerOfTwo(n)
  {
    if n == 1 {
      assert n == Pow2(0);
    } else if n % 2 == 1 {
      AndWithSelf(n / 2);
      assert (n - 1) / 2 == n / 2;
      assert BitAnd(n, n - 1) == 2 * (n / 2);
      forall k: nat ensures n != Pow2(k) {
        if k > 0 { assert Pow2(k) == 2 * Pow2(k - 1); }
      }
    } else {
      var h := n / 2;
      assert (n - 1) / 2 == h - 1;
      BitTestDecides(h);
      assert BitAnd(n, n - 1) == 2 * BitAnd(h, h - 1);
      if k: nat :| h == Pow2(k) {
        assert n == Pow2(k + 1);
      }
      if k: nat :| n == Pow2(k) {
        assert h == Pow2(k - 1);
      }
    }
  }

  predicate HasNvl(constraints: seq<Constraint>) {
    exists i :: 0 <= i < |constraints| && constraints[i].NvlMin?
  }

  class ErrorLog {
    var errors: seq<string>

    constructor ()
      ensures errors == []
    {
      errors := [];
    }

    method Push(message: string)
      modifies this
      ensures errors == old(errors) + [message]
    {
      errors := errors + [message];
    }
  }

  // ---- The rules, stated independently of how they are checked ----

  ghost predicate AtomOk(dim: ParallelDim, constraints: seq<Constraint>) {
    dim.Tp? ==> PowerOfTwo(dim.degree) && (HasNvl(constraints) ==> dim.degree in {1, 2, 4, 8})
  }

  /** Well-typed, with counts as the code computes them. */
  ghost predicate WellTyped(spec: TopologySpec) {
    match spec
    case Atom(dim, constraints) => AtomOk(dim, constraints)
    case Conjunction(l, r) => WellTyped(l) && WellTyped(r)
    case Disjunction(alts) =>
      && (forall i :: 0 <= i < |alts| ==> WellTyped(alts[i]))
      && SameCounts(alts)
  }

  /** Well-typed, with counts as the documentation defines them. */
  ghost predicate WellTypedExactly(spec: TopologySpec) {
    match spec
    case Atom(dim, constraints) => AtomOk(dim, constraints)
    case Conjunction(l, r) => WellTypedExactly(l) && WellTypedExactly(r)
    case Disjunction(alts) =>
      && (forall i :: 0 <= i < |alts| ==> WellTypedExactly(alts[i]))
      && (forall i, j :: 0 <= i < |alts| && 0 <= j < |alts| ==> ExactCount(alts[i]) == ExactCount(alts[j]))
  }

  /** The rules for one atom, kind by kind: only tensor parallelism is restricted. */
  lemma AtomRules(n: u32, constraints: seq<Constraint>)
    ensures WellTyped(Atom(Pp(n), constraints)) && WellTyped(Atom(Dp(n), constraints))
    ensures (forall i :: 0 <= i < |constraints| ==> !constraints[i].NvlMin?) ==>
      (WellTyped(Atom(Tp(n), constraints)) <==> PowerOfTwo(n))
    ensures (exists i :: 0 <= i < |constraints| && constraints[i].NvlMin?) ==>
      (WellTyped(Atom(Tp(n), constraints)) <==> n == 1 || n == 2 || n == 4 || n == 8)
  {
    SmallPowers(n);
  }

  lemma SmallPowers(n: nat)
    ensures PowerOfTwo(n) && n <= 8 <==> n in {1, 2, 4, 8}
  {
    assert Pow2(0) == 1 && Pow2(1) == 2 && Pow2(2) == 4 && Pow2(3) == 8;
    if k: nat :| n == Pow2(k) && n <= 8 {
      if k > 3 { Pow2Grows(3, k); }
    }
  }

  /** The sliding comparison of neighbours finds a mismatch exactly when some two counts differ. */
  lemma {:induction false} NeighboursDecide(counts: seq<nat>)
    ensures (exists i :: 0 <= i < |counts| - 1 && counts[i] != counts[i + 1])
       <==> !(forall i, j :: 0 <= i < |counts| && 0 <= j < |counts| ==> counts[i] == counts[j])
  {
    if forall i :: 0 <= i < |counts| - 1 ==> counts[i] == counts[i + 1] {
      forall i | 0 <= i < |counts| ensures counts[i] == counts[0] {
        AllLikeFirst(counts, i);
      }
    }
  }

  lemma {:induction false} AllLikeFirst(counts: seq<nat>, i: nat)
    requires i < |counts|
    requires forall k :: 0 <= k < |counts| - 1 ==> counts[k] == counts[k + 1]
    ensures counts[i] == counts[0]
  {
    if i > 0 {
      AllLikeFirst(counts, i - 1);
      assert counts[i - 1] == counts[i - 1 + 1];
    }
  }

  ghost predicate SameCounts(alts: seq<TopologySpec>) {
    forall i, j :: 0 <= i < |alts| && 0 <= j < |alts| ==> GpuCount(alts[i]) == GpuCount(alts[j])
  }

  lemma CountsDecide(alts: seq<TopologySpec>, counts: seq<u32>)
    requires |counts| == |alts| && forall j :: 0 <= j < |alts| ==> counts[j] == GpuCount(alts[j])
    ensures (exists i :: 0 <= i < |counts| - 1 && counts[i] != counts[i + 1]) <==> !SameCounts(alts)
  {
    NeighboursDecide(counts);
    if SameCounts(alts) {
      forall i, j | 0 <= i < |counts| && 0 <= j < |counts| ensures counts[i] == counts[j] {
        assert GpuCount(alts[i]) == GpuCount(alts[j]);
      }
    }
  }

  // ---- The checker ----

  method TypeCheck(spec: TopologySpec) returns (errors: seq<string>)
    ensures errors == [] <==> WellTyped(spec)
  {
    var log := new ErrorLog();
    Check(spec, log);
    errors := log.errors;
  }

  /** Only ever appends, and appends something exactly when the spec breaks a rule. */
  method Check(spec: TopologySpec, log: ErrorLog)
    modifies log
    ensures old(log.errors) <= log.errors
    ensures log.errors == old(log.errors) <==> WellTyped(spec)
  {
    match spec
    case Atom(dim, constraints) => CheckAtom(dim, constraints, log);
    case Conjunction(l, r) =>
      Check(l, log);
      Check(r, log);
    case Disjunction(alts) =>
      var counts: seq<u32> := [];
      for i := 0 to |alts|
        invariant old(log.errors) <= log.errors
        invariant log.errors == old(log.errors) <==> forall j :: 0 <= j < i ==> WellTyped(alts[j])
        invariant |counts| == i && forall j :: 0 <= j < i ==> counts[j] == GpuCount(alts[j])
      {
        Check(alts[i], log);
        counts := counts + [GpuCount(alts[i])];
      }
      CountsDecide(alts, counts);
      if exists i :: 0 <= i < |counts| - 1 && counts[i] != counts[i + 1] {
        log.Push("disjunction alternatives have mismatched gpu_count");
      }
  }

  method CheckAtom(dim: ParallelDim, constraints: seq<Constraint>, log: ErrorLog)
    modifies log
    ensures old(log.errors) <= log.errors
    ensures log.errors == old(log.errors) <==> AtomOk(dim, constraints)
  {
    if dim.Tp? {
      var n := dim.degree;
      if n == 0 || BitAnd(n, n - 1) != 0 {
        log.Push("TP degree must be a power of 2");
      }
      if HasNvl(constraints) && n > 8 {
        log.Push("TP with NVLink constraint exceeds NVLink mesh maximum of 8 GPUs");
      }
      SmallPowers(n);
      if n > 0 {
        BitTestDecides(n);
      } else {
        forall k: nat ensures n != Pow2(k) { Pow2Positive(k); }
      }
    }
  }

  /** Somewhere two alternatives declare counts that differ by a nonzero multiple of 2^32. */
  predicate Aliased(spec: TopologySpec) {
    match spec
    case Atom(_, _) => false
    case Conjunction(l, r) => Aliased(l) || Aliased(r)
    case Disjunction(alts) =>
      || (exists i :: 0 <= i < |alts| && Aliased(alts[i]))
      || (exists i, j :: 0 <= i < |alts| && 0 <= j < |alts| && SameLowBits(ExactCount(alts[i]), ExactCount(alts[j])))
  }

  predicate SameLowBits(m: nat, n: nat) {
    m != n && (m - n) % TWO_32 == 0
  }

  /** The checker decides the documented rules but for counts it cannot tell apart: a spec that obeys
      them is never rejected, and one that breaks them passes exactly when it is rejected for nothing
      else and somewhere two alternatives differ by a nonzero multiple of 2^32. */
  lemma {:induction false} DocumentedRules(spec: TopologySpec)
    ensures WellTypedExactly(spec) <==> WellTyped(spec) && !Aliased(spec)
  {
    match spec
    case Atom(_, _) =>
    case Conjunction(l, r) =>
      DocumentedRules(l);
      DocumentedRules(r);
    case Disjunction(alts) =>
      forall i | 0 <= i < |alts|
        ensures WellTypedExactly(alts[i]) <==> WellTyped(alts[i]) && !Aliased(alts[i])
      {
        DocumentedRules(alts[i]);
      }
      forall i, j | 0 <= i < |alts| && 0 <= j < |alts|
        ensures ExactCount(alts[i]) == ExactCount(alts[j])
           <==> GpuCount(alts[i]) == GpuCount(alts[j]) && !SameLowBits(ExactCount(alts[i]), ExactCount(alts[j]))
      {
        CountWraps(alts[i]);
        CountWraps(alts[j]);
        SameRemainder(ExactCount(alts[i]), ExactCount(alts[j]), TWO_32);
      }
  }

  /** Every alternative declares fewer than 2^32 GPUs. */
  predicate CountsFit(spec: TopologySpec) {
    match spec
    case Atom(_, _) => true
    case Conjunction(l, r) => CountsFit(l) && CountsFit(r)
    case Disjunction(alts) => forall i :: 0 <= i < |alts| ==> CountsFit(alts[i]) && ExactCount(alts[i]) < TWO_32
  }

  lemma {:induction false} SmallCountsNotAliased(spec: TopologySpec)
    requires CountsFit(spec)
    ensures !Aliased(spec)
  {
    match spec
    case Atom(_, _) =>
    case Conjunction(l, r) =>
      SmallCountsNotAliased(l);
      SmallCountsNotAliased(r);
    case Disjunction(alts) =>
      forall i | 0 <= i < |alts| ensures !Aliased(alts[i]) {
        SmallCountsNotAliased(alts[i]);
      }
  }

  /** Counts below 2^32 are never confused, so then the documented rules are decided exactly. */
  lemma SmallCountsSuffice(spec: TopologySpec)
    requires CountsFit(spec)
    ensures WellTyped(spec) <==> WellTypedExactly(spec)
  {
    DocumentedRules(spec);
    SmallCountsNotAliased(spec);
  }

  /** One that passes wrongly: its alternatives declare 2^32 and 0 GPUs. */
  lemma OverflowEscapesRule4()
    ensures var big := Conjunction(Atom(Dp(65536), []), Atom(Dp(65536), []));
      var spec := Disjunction([big, Atom(Dp(0), [])]);
      WellTyped(spec) && !WellTypedExactly(spec)
  {
    var big := Conjunction(Atom(Dp(65536), []), Atom(Dp(65536), []));
    var spec := Disjunction([big, Atom(Dp(0), [])]);
    assert GpuCount(big) == 0 && ExactCount(big) == TWO_32;
    assert ExactCount(spec.alts[0]) != ExactCount(spec.alts[1]);
  }
}
