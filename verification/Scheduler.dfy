/** The scheduler service: reservations granted to jobs and released again. */
module Scheduler {
  import opened Wrappers
  import opened Sequences
  import opened ClusterTopology
  import opened ClusterGraphs
  import opened Lexer
  import opened Parser
  import opened Checker
  import opened Solver
  import opened SolverTheorems

  /** The two locked maps: the reserved GPUs, and the GPUs recorded for each job. */
  datatype Reservations = Reservations(reserved: set<string>, jobs: map<string, seq<string>>)

  const NO_RESERVATIONS := Reservations({}, map[])

  /** An RPC as it takes effect; a placement sees the cluster as it is at that moment. */
  datatype Rpc = Schedule(job: string, dsl: string, cluster: Topology) | Release(job: string)

  /** What an RPC does to the reservations. */
  datatype Effect = Grant(job: string, gpuIds: seq<string>) | Free(job: string) | Nothing

  /** The GPUs a request is granted, if any. */
  ghost function Granted(t: Topology, reserved: set<string>, dsl: string): Option<seq<string>>
    requires WellFormed(t)
  {
    match Accepted(dsl)
    case None => None
    case Some(spec) =>
      var r := Placement(t, spec);
      if WellTyped(spec) && r.placed && (forall i :: 0 <= i < |r.gpuIds| ==> r.gpuIds[i] !in reserved)
      then Some(r.gpuIds) else None
  }

  ghost predicate GoodRpc(rpc: Rpc) {
    rpc.Schedule? ==> WellFormed(rpc.cluster)
  }

  ghost function EffectOf(s: Reservations, rpc: Rpc): Effect
    requires GoodRpc(rpc)
  {
    match rpc
    case Schedule(job, dsl, cluster) =>
      (match Granted(cluster, s.reserved, dsl)
       case Some(ids) => Grant(job, ids)
       case None => Nothing)
    case Release(job) => Free(job)
  }

  ghost function Apply(s: Reservations, e: Effect): Reservations {
    match e
    case Grant(job, ids) => Reservations(s.reserved + Elems(ids), s.jobs[job := ids])
    case Free(job) =>
      if job in s.jobs then Reservations(s.reserved - Elems(s.jobs[job]), s.jobs - {job}) else s
    case Nothing => s
  }

  ghost function Step(s: Reservations, rpc: Rpc): Reservations
    requires GoodRpc(rpc)
  {
    Apply(s, EffectOf(s, rpc))
  }

  datatype Reply = InvalidArgument | Answer(result: PlacementResult)

  class SchedulerService {
    const graph: ClusterGraph
    const solver: TopologySolver
    const letters: set<char>
    var reserved: set<string>
    var jobReservations: map<string, seq<string>>

    ghost predicate Valid()
      reads this, graph
    {
      graph.Valid() && solver.graph == graph && BeyondAscii(letters)
    }

    ghost function View(): Reservations
      reads this
    {
      Reservations(reserved, jobReservations)
    }

    constructor (graph: ClusterGraph, letters: set<char>)
      requires graph.Valid() && BeyondAscii(letters)
      ensures this.graph == graph && Valid() && View() == NO_RESERVATIONS
    {
      this.graph, this.letters := graph, letters;
      solver := new TopologySolver(graph);
      reserved, jobReservations := {}, map[];
    }

    method Validate(dsl: string) returns (valid: bool)
      requires Valid()
      ensures valid <==> Accepted(dsl).Some? && WellTyped(Accepted(dsl).value)
    {
      var spec := Parse(dsl, letters);
      if spec.Err? {
        return false;
      }
      var errors := TypeCheck(spec.value);
      return errors == [];
    }

    method Reserve(ids: seq<string>)
      modifies this`reserved
      ensures reserved == old(reserved) + Elems(ids)
    {
      for i := 0 to |ids|
        invariant reserved == old(reserved) + Elems(ids[..i])
      {
        assert Elems(ids[..i + 1]) == Elems(ids[..i]) + {ids[i]};
        reserved := reserved + {ids[i]};
      }
      assert ids[..|ids|] == ids;
    }

    method Unreserve(ids: seq<string>)
      modifies this`reserved
      ensures reserved == old(reserved) - Elems(ids)
    {
      for i := 0 to |ids|
        invariant reserved == old(reserved) - Elems(ids[..i])
      {
        assert Elems(ids[..i + 1]) == Elems(ids[..i]) + {ids[i]};
        reserved := reserved - {ids[i]};
      }
      assert ids[..|ids|] == ids;
    }

    /** A granted job is told its GPUs; a refused one changes nothing. */
    method ScheduleJob(jobId: string, dsl: string) returns (reply: Reply)
      requires Valid()
      modifies this
      ensures Valid()
      ensures View() == Step(old(View()), Schedule(jobId, dsl, graph.View()))
      ensures reply == InvalidArgument <==> Accepted(dsl).None?
      ensures match Granted(graph.View(), old(reserved), dsl)
        case Some(ids) => reply == Answer(Placed(ids))
        case None =>
          && View() == old(View())
          && (reply.Answer? ==> !reply.result.placed && reply.result.gpuIds == [] && reply.result.rejectionReason != "")
    {
      var spec := Parse(dsl, letters);
      if spec.Err? {
        return InvalidArgument;
      }
      var errors := TypeCheck(spec.value);
      if errors != [] {
        return Answer(Rejected("type errors"));
      }
      var result := solver.Solve(spec.value);
      if result.placed {
        if exists i :: 0 <= i < |result.gpuIds| && result.gpuIds[i] in reserved {
          return Answer(Rejected("GPUs already reserved by a concurrent job"));
        }
        Reserve(result.gpuIds);
        jobReservations := jobReservations[jobId := result.gpuIds];
      }
      PlacementSound(graph.View(), spec.value);
      return Answer(result);
    }

    method ReleaseJob(jobId: string)
      requires Valid()
      modifies this
      ensures Valid()
      ensures View() == Step(old(View()), Release(jobId))
    {
      if jobId in jobReservations {
        var ids := jobReservations[jobId];
        jobReservations := jobReservations - {jobId};
        Unreserve(ids);
      }
    }
  }
}
