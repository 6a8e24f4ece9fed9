/** What every run of the scheduler service keeps, what it can lose, and what a release undoes. */
module SchedulerTheorems {
  import opened Wrappers
  import opened Sequences
  import opened ClusterTopology
  import opened TopologySpecs
  import opened Parser
  import opened Checker
  import opened Solver
  import opened SolverTheorems
  import opened Scheduler
  import opened StringOrder
  import opened CliqueSearch
  import opened StringLanguage

  ghost predicate GoodRpcs(rpcs: seq<Rpc>) {
    forall i :: 0 <= i < |rpcs| ==> GoodRpc(rpcs[i])
  }

  ghost function Run(s: Reservations, rpcs: seq<Rpc>): Reservations
    requires GoodRpcs(rpcs)
  {
    if rpcs == [] then s else Step(Run(s, rpcs[..|rpcs| - 1]), rpcs[|rpcs| - 1])
  }

  // ---- What a grant means, from the request text to the cluster ----

  /** Granted GPUs are distinct, healthy, unreserved and satisfy the well-typed spec that the text
      denotes; without `+` there are exactly as many as it declares. Without `+`, a request is refused
      only if it does not parse, is ill-typed, cannot be met, or meets a reserved GPU. */
  lemma GrantMeans(t: Topology, reserved: set<string>, dsl: string)
    requires WellFormed(t)
    ensures var r := Granted(t, reserved, dsl);
      && (r.Some? ==>
            && Accepted(dsl).Some? && WellTyped(Accepted(dsl).value)
            && Satisfies(t, Accepted(dsl).value, r.value) && Distinct(r.value) && Elems(r.value) !! reserved
            && (forall id :: id in r.value ==> HealthyId(t, id))
            && (PlusFree(Accepted(dsl).value) ==> |r.value| == GpuCount(Accepted(dsl).value)))
      && (r.None? && Accepted(dsl).Some? && PlusFree(Accepted(dsl).value) && WellTyped(Accepted(dsl).value) ==>
            !Feasible(t, Accepted(dsl).value)
            || exists id :: id in Placement(t, Accepted(dsl).value).gpuIds && id in reserved)
  {
    if Accepted(dsl).Some? {
      var spec := Accepted(dsl).value;
      PlacementSound(t, spec);
      if PlusFree(spec) && WellTyped(spec) {
        PlacementSize(t, spec);
        PlusFreeExact(t, spec);
      }
    }
  }

  // ---- No GPU is given twice ----

  ghost predicate Owns(s: Reservations, job: string, id: string) {
    job in s.jobs && id in s.jobs[job]
  }

  /** Live jobs' lists are duplicate-free, pairwise disjoint and reserved. */
  ghost predicate Exclusive(s: Reservations) {
    && (forall job :: job in s.jobs ==> Distinct(s.jobs[job]))
    && (forall job, other, id :: Owns(s, job, id) && Owns(s, other, id) ==> job == other)
    && (forall job, id :: Owns(s, job, id) ==> id in s.reserved)
  }

  /** What is known of a grant made from `s`. */
  ghost predicate FreshGrant(s: Reservations, e: Effect) {
    e.Grant? ==> Distinct(e.gpuIds) && Elems(e.gpuIds) !! s.reserved
  }

  lemma EffectIsFresh(s: Reservations, rpc: Rpc)
    requires GoodRpc(rpc)
    ensures FreshGrant(s, EffectOf(s, rpc))
  {
    if rpc.Schedule? && Accepted(rpc.dsl).Some? {
      PlacementSound(rpc.cluster, Accepted(rpc.dsl).value);
    }
  }

  lemma ApplyKeepsExclusive(s: Reservations, e: Effect)
    requires Exclusive(s) && FreshGrant(s, e)
    ensures Exclusive(Apply(s, e))
  {
    var s' := Apply(s, e);
    if e.Grant? {
      forall job, id ensures Owns(s', job, id) <==> if job == e.job then id in e.gpuIds else Owns(s, job, id) { }
      assert forall id :: id in e.gpuIds ==> id !in s.reserved;
    } else if e.Free? && e.job in s.jobs {
      forall job, id ensures Owns(s', job, id) <==> job != e.job && Owns(s, job, id) { }
      assert forall id :: id in s.jobs[e.job] <==> Owns(s, e.job, id);
    }
  }

  /** Over every run, with any job ids and any cluster changes in between, no GPU is held twice. */
  lemma {:induction false} ExclusiveAlways(rpcs: seq<Rpc>)
    requires GoodRpcs(rpcs)
    ensures Exclusive(Run(NO_RESERVATIONS, rpcs))
  {
    if rpcs != [] {
      var before := Run(NO_RESERVATIONS, rpcs[..|rpcs| - 1]);
      ExclusiveAlways(rpcs[..|rpcs| - 1]);
      EffectIsFresh(before, rpcs[|rpcs| - 1]);
      ApplyKeepsExclusive(before, EffectOf(before, rpcs[|rpcs| - 1]));
    }
  }

  // ---- Which reservations are lost ----

  /** Reserved GPUs that no live job can release. */
  ghost function Leaked(s: Reservations): set<string> {
    set id | id in s.reserved && forall job :: !Owns(s, job, id)
  }

  /** The GPUs a grant drops by replacing an entry that the same job id already had. */
  ghost function Overwritten(s: Reservations, e: Effect): set<string> {
    if e.Grant? && e.job in s.jobs then Elems(s.jobs[e.job]) else {}
  }

  lemma LeakFree(s: Reservations, job: string)
    requires Exclusive(s)
    ensures Leaked(Apply(s, Free(job))) == Leaked(s)
  {
    var s' := Apply(s, Free(job));
    if job in s.jobs {
      forall id ensures id in Leaked(s') <==> id in Leaked(s) {
        assert id in s.jobs[job] <==> Owns(s, job, id);
        forall other ensures Owns(s', other, id) <==> other != job && Owns(s, other, id) { }
      }
    }
  }

  lemma LeakGrant(s: Reservations, job: string, ids: seq<string>)
    requires Exclusive(s) && FreshGrant(s, Grant(job, ids))
    ensures Leaked(Apply(s, Grant(job, ids))) == Leaked(s) + Overwritten(s, Grant(job, ids))
    ensures Leaked(s) !! Overwritten(s, Grant(job, ids))
  {
    var s', lost := Apply(s, Grant(job, ids)), Overwritten(s, Grant(job, ids));
    forall id ensures id in Leaked(s') <==> id in Leaked(s) + lost
      ensures !(id in Leaked(s) && id in lost)
    {
      assert id in lost <==> Owns(s, job, id);
      assert id in ids <==> Owns(s', job, id);
      assert id in ids ==> id !in s.reserved;
      forall other ensures Owns(s', other, id) <==> (if other == job then id in ids else Owns(s, other, id)) { }
    }
  }

  lemma LeakStep(s: Reservations, e: Effect)
    requires Exclusive(s) && FreshGrant(s, e)
    ensures Leaked(Apply(s, e)) == Leaked(s) + Overwritten(s, e)
  {
    match e
    case Grant(job, ids) => LeakGrant(s, job, ids);
    case Free(job) => LeakFree(s, job);
    case Nothing =>
  }

  /** No grant of the run replaced a nonempty entry of its own job id. */
  ghost predicate NeverOverwrites(rpcs: seq<Rpc>)
    requires GoodRpcs(rpcs)
  {
    rpcs == [] ||
    var n := |rpcs| - 1;
    var before := Run(NO_RESERVATIONS, rpcs[..n]);
    NeverOverwrites(rpcs[..n]) && Overwritten(before, EffectOf(before, rpcs[n])) == {}
  }

  /** One more RPC at the end of a run. */
  lemma LastStep(rpcs: seq<Rpc>) returns (before: Reservations, e: Effect)
    requires GoodRpcs(rpcs) && rpcs != []
    ensures before == Run(NO_RESERVATIONS, rpcs[..|rpcs| - 1]) && e == EffectOf(before, rpcs[|rpcs| - 1])
    ensures Run(NO_RESERVATIONS, rpcs) == Apply(before, e)
    ensures Exclusive(before) && FreshGrant(before, e)
  {
    before := Run(NO_RESERVATIONS, rpcs[..|rpcs| - 1]);
    e := EffectOf(before, rpcs[|rpcs| - 1]);
    ExclusiveAlways(rpcs[..|rpcs| - 1]);
    EffectIsFresh(before, rpcs[|rpcs| - 1]);
  }

  /** `reserved` is exactly the union of the live jobs' lists. */
  ghost predicate Accounted(s: Reservations) {
    forall id :: id in s.reserved <==> exists job :: Owns(s, job, id)
  }

  lemma AccountedMeansNoLeak(s: Reservations)
    requires Exclusive(s)
    ensures Accounted(s) <==> Leaked(s) == {}
  {
    if Leaked(s) == {} {
      forall id ensures id in s.reserved <==> exists job :: Owns(s, job, id) {
        assert id !in Leaked(s);
      }
    }
  }

  /** `reserved` is exactly what live jobs hold, if and only if no grant of the run replaced a
      nonempty entry of the same job id. */
  lemma ReservedIsHeld(rpcs: seq<Rpc>)
    requires GoodRpcs(rpcs)
    ensures Accounted(Run(NO_RESERVATIONS, rpcs)) <==> NeverOverwrites(rpcs)
  {
    ExclusiveAlways(rpcs);
    AccountedMeansNoLeak(Run(NO_RESERVATIONS, rpcs));
    NoLeak(rpcs);
  }

  lemma {:induction false} NoLeak(rpcs: seq<Rpc>)
    requires GoodRpcs(rpcs)
    ensures Leaked(Run(NO_RESERVATIONS, rpcs)) == {} <==> NeverOverwrites(rpcs)
  {
    hide EffectOf, Apply, Exclusive, FreshGrant;
    if rpcs != [] {
      NoLeak(rpcs[..|rpcs| - 1]);
      var before, e := LastStep(rpcs);
      LeakStep(before, e);
    }
  }

  const TWO_GPUS := Topology([GpuNode("b", "node-0", 0, true), GpuNode("a", "node-0", 0, true)], [], [[], []])

  lemma TwoGpusHealthy()
    ensures WellFormed(TWO_GPUS) && HealthyIndices(TWO_GPUS) == [0, 1]
  {
    assert HealthyBelow(TWO_GPUS, 0) == [];
    assert HealthyBelow(TWO_GPUS, 1) == [0];
  }

  lemma TwoGpusTp()
    ensures WellFormed(TWO_GPUS) && Placement(TWO_GPUS, Atom(Tp(1), [])) == Placed(["b"])
  {
    hide HealthyIndices;
    TwoGpusHealthy();
    assert [0, 1][1..] == [1] && [] + [0] == [0];
    assert FirstClique(TWO_GPUS, [1], 1, 0.0, [0]) == Some([0]);
    assert FindClique(TWO_GPUS, 1, 0.0) == Some([0]);
    assert Ids(TWO_GPUS, [0]) == ["b"];
  }

  lemma TwoGpusDp()
    ensures WellFormed(TWO_GPUS) && Placement(TWO_GPUS, Atom(Dp(1), [])) == Placed(["a"])
  {
    hide HealthyIndices;
    TwoGpusHealthy();
    assert HealthyIds(TWO_GPUS) == ["b", "a"];
    SortTwo();
    assert ["a", "b"][..1] == ["a"];
  }

  lemma SortTwo()
    ensures Sort(["b", "a"]) == ["a", "b"]
  {
    assert ["b", "a"][1..] == ["a"] && ["a"][1..] == [];
    assert Sort(["a"]) == ["a"] && !Leq("b", "a");
    assert Insert("b", ["a"]) == ["a"] + Insert("b", []);
  }

  /** A printed, well-typed spec that can be placed on free GPUs is granted them. */
  lemma RequestGranted(s: Reservations, job: string, spec: TopologySpec, t: Topology, ids: seq<string>)
    requires ParserShape(spec) && WellTyped(spec) && WellFormed(t)
    requires Placement(t, spec) == Placed(ids) && forall id :: id in ids ==> id !in s.reserved
    ensures EffectOf(s, Schedule(job, Print(spec), t)) == Grant(job, ids)
  {
    ParsePrint(spec);
  }

  /** It does happen: one job id granted a tensor-parallel and then a data-parallel GPU loses the first. */
  lemma OverwriteLeaks() returns (rpcs: seq<Rpc>)
    ensures GoodRpcs(rpcs) && |rpcs| == 2 && rpcs[0].Schedule? && rpcs[1].Schedule? && rpcs[0].job == rpcs[1].job
    ensures "b" in Leaked(Run(NO_RESERVATIONS, rpcs))
  {
    hide Placement, EffectOf, Print;
    var tp, dp := Atom(Tp(1), []), Atom(Dp(1), []);
    TwoGpusTp();
    TwoGpusDp();
    assert WellTyped(tp) by { SmallPowers(1); }
    var first, second := Schedule("job", Print(tp), TWO_GPUS), Schedule("job", Print(dp), TWO_GPUS);
    rpcs := [first, second];
    RequestGranted(NO_RESERVATIONS, "job", tp, TWO_GPUS, ["b"]);
    var s := Step(NO_RESERVATIONS, first);
    assert Elems(["b"]) == {"b"};
    RequestGranted(s, "job", dp, TWO_GPUS, ["a"]);
    assert rpcs[..1] == [first] && [first][..0] == [];
    assert Run(NO_RESERVATIONS, [first]) == s;
    assert Run(NO_RESERVATIONS, rpcs) == Apply(s, Grant("job", ["a"]));
    assert "b" in Run(NO_RESERVATIONS, rpcs).reserved;
  }

  /** A lost GPU stays lost: no later run returns it or grants it to anyone. */
  lemma {:induction false} LeaksArePermanent(rpcs: seq<Rpc>, more: seq<Rpc>)
    requires GoodRpcs(rpcs) && GoodRpcs(more) && GoodRpcs(rpcs + more)
    ensures Leaked(Run(NO_RESERVATIONS, rpcs)) <= Leaked(Run(NO_RESERVATIONS, rpcs + more))
    decreases |more|
  {
    hide EffectOf, Apply, Exclusive, FreshGrant;
    if more == [] {
      assert rpcs + more == rpcs;
    } else {
      var n, all := |more| - 1, rpcs + more;
      assert all[..|all| - 1] == rpcs + more[..n];
      LeaksArePermanent(rpcs, more[..n]);
      var before, e := LastStep(all);
      LeakStep(before, e);
    }
  }

  // ---- Release undoes schedule ----

  ghost predicate Concerns(rpc: Rpc, job: string) {
    rpc.job == job
  }

  ghost predicate OthersOnly(rpcs: seq<Rpc>, job: string) {
    forall i :: 0 <= i < |rpcs| ==> !Concerns(rpcs[i], job)
  }

  /** `s'` is `s` with `job` holding `ids` in addition. */
  ghost predicate With(s: Reservations, s': Reservations, job: string, ids: seq<string>) {
    && job !in s.jobs && s'.jobs == s.jobs[job := ids]
    && s'.reserved == s.reserved + Elems(ids) && Elems(ids) !! s.reserved
  }

  lemma WithStep(s: Reservations, s': Reservations, job: string, ids: seq<string>, e: Effect)
    requires With(s, s', job, ids) && Exclusive(s') && FreshGrant(s', e)
    requires !e.Nothing? ==> e.job != job
    ensures With(Apply(s, e), Apply(s', e), job, ids)
  {
    if e.Free? && e.job in s.jobs {
      forall id | id in s'.jobs[e.job] ensures id !in ids {
        assert Owns(s', e.job, id);
        assert id in ids ==> Owns(s', job, id);
      }
    }
  }

  /** The effects that the RPCs of a run have, starting from `s`. */
  ghost function Effects(s: Reservations, rpcs: seq<Rpc>): (r: seq<Effect>)
    requires GoodRpcs(rpcs)
    ensures |r| == |rpcs|
  {
    if rpcs == [] then [] else
    var n := |rpcs| - 1;
    Effects(s, rpcs[..n]) + [EffectOf(Run(s, rpcs[..n]), rpcs[n])]
  }

  ghost function ApplyAll(s: Reservations, es: seq<Effect>): Reservations {
    if es == [] then s else Apply(ApplyAll(s, es[..|es| - 1]), es[|es| - 1])
  }

  lemma EffectConcerns(s: Reservations, rpc: Rpc)
    requires GoodRpc(rpc)
    ensures var e := EffectOf(s, rpc); !e.Nothing? ==> e.job == rpc.job
  {
  }

  lemma {:induction false} WithRun(s: Reservations, s': Reservations, job: string, ids: seq<string>, rpcs: seq<Rpc>)
    requires With(s, s', job, ids) && Exclusive(s') && GoodRpcs(rpcs) && OthersOnly(rpcs, job)
    ensures With(ApplyAll(s, Effects(s', rpcs)), Run(s', rpcs), job, ids) && Exclusive(Run(s', rpcs))
  {
    hide EffectOf, Apply;
    if rpcs != [] {
      var n := |rpcs| - 1;
      WithRun(s, s', job, ids, rpcs[..n]);
      var now, e := Run(s', rpcs[..n]), EffectOf(Run(s', rpcs[..n]), rpcs[n]);
      EffectConcerns(now, rpcs[n]);
      assert !Concerns(rpcs[n], job);
      EffectIsFresh(now, rpcs[n]);
      ApplyKeepsExclusive(now, e);
      WithStep(ApplyAll(s, Effects(s', rpcs[..n])), now, job, ids, e);
      assert Effects(s', rpcs)[..n] == Effects(s', rpcs[..n]);
    }
  }

  /** A fresh job's schedule and release cancel out, whatever other jobs do in between: both maps end
      exactly as if only the other jobs' grants and releases had happened. */
  lemma ReleaseUndoesSchedule(s: Reservations, grant: Rpc, others: seq<Rpc>)
    requires Exclusive(s) && GoodRpc(grant) && GoodRpcs(others)
    requires grant.Schedule? && grant.job !in s.jobs && OthersOnly(others, grant.job)
    ensures EffectOf(s, grant).Grant? ==>
      var s' := Step(s, grant);
      Step(Run(s', others), Release(grant.job)) == ApplyAll(s, Effects(s', others))
  {
    if !EffectOf(s, grant).Grant? { return; }
    var s', ids := Step(s, grant), EffectOf(s, grant).gpuIds;
    EffectIsFresh(s, grant);
    ApplyKeepsExclusive(s, EffectOf(s, grant));
    WithRun(s, s', grant.job, ids, others);
    var base, now := ApplyAll(s, Effects(s', others)), Run(s', others);
    assert now.jobs[grant.job] == ids;
    assert now.jobs - {grant.job} == base.jobs;
    assert now.reserved - Elems(ids) == base.reserved;
  }

  /** While a job holds GPUs, the same request on the same cluster is refused to everyone; once the
      job releases them, it is granted exactly the same GPUs. */
  lemma SameRequestWaitsForRelease(s: Reservations, grant: Rpc, others: seq<Rpc>, next: string)
    requires Exclusive(s) && GoodRpc(grant) && GoodRpcs(others)
    requires grant.Schedule? && grant.job !in s.jobs && OthersOnly(others, grant.job)
    ensures EffectOf(s, grant).Grant? && EffectOf(s, grant).gpuIds != [] ==>
      var again := Schedule(next, grant.dsl, grant.cluster);
      var now := Run(Step(s, grant), others);
      && EffectOf(now, again) == Nothing
      && EffectOf(Step(now, Release(grant.job)), again) == Grant(next, EffectOf(s, grant).gpuIds)
  {
    hide Placement, Accepted, WellTyped;
    if !EffectOf(s, grant).Grant? || EffectOf(s, grant).gpuIds == [] { return; }
    var s', ids := Step(s, grant), EffectOf(s, grant).gpuIds;
    EffectIsFresh(s, grant);
    ApplyKeepsExclusive(s, EffectOf(s, grant));
    WithRun(s, s', grant.job, ids, others);
    var now := Run(s', others);
    assert ids[0] in now.reserved;
    var freed := Step(now, Release(grant.job));
    forall i | 0 <= i < |ids| ensures ids[i] !in freed.reserved { }
  }

  lemma ReleaseIdempotent(s: Reservations, job: string)
    ensures Step(Step(s, Release(job)), Release(job)) == Step(s, Release(job))
  {
  }
}
