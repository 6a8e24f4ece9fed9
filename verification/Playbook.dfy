/** Playbook execution by the healer service: templates are expanded, shrink steps reach the backend,
    and every step is recorded. */
module Playbook {
  import opened Wrappers
  import opened MachineInts
  import opened Decimal
  import opened Lcg
  import opened NcclSims
  import opened Templates
  import opened Ranks

  datatype PlaybookStep = PlaybookStep(action: string, description: string, params: map<string, string>)

  function Lookup(m: map<string, string>, key: string): Option<string> {
    if key in m then Some(m[key]) else None
  }

  function OrElse(a: Option<string>, b: Option<string>): Option<string> {
    if a.Some? then a else b
  }

  function OrDefault(a: Option<string>, default: string): string {
    if a.Some? then a.value else default
  }

  /** The step's own parameter, else the request's, else the job's registered communicator, else nothing. */
  function CommId(
      resolved: map<string, string>, parameters: map<string, string>, jobComms: map<string, string>): string
  {
    var registered := if "job_id" in parameters then Lookup(jobComms, parameters["job_id"]) else None;
    OrDefault(OrElse(OrElse(Lookup(resolved, "comm_id"), Lookup(parameters, "comm_id")), registered), "")
  }

  function ExcludeRanks(resolved: map<string, string>): seq<u32> {
    if "exclude_ranks" in resolved then ParseRanks(resolved["exclude_ranks"]) else []
  }

  /** The record of a step that does not reach the backend. */
  function LogEntry(step: PlaybookStep, resolved: map<string, string>, parameters: map<string, string>): string {
    if step.action == "drain_gpu" then
      "drain_gpu gpu=" + OrDefault(OrElse(Lookup(resolved, "gpu_id"), Lookup(parameters, "gpu_id")), "") + ": "
        + step.description
    else if step.action == "checkpoint_jobs" then
      "checkpoint_jobs jobs=["
        + OrDefault(OrElse(Lookup(resolved, "job_ids"), Lookup(parameters, "active_job_ids")), "")
      + "]: " + step.description
    else if step.action == "notify" then
      "notify event=" + OrDefault(Lookup(resolved, "event_kind"), "UNSPECIFIED")
      + " gpu=" + OrDefault(OrElse(Lookup(resolved, "gpu_id"), Lookup(parameters, "gpu_id")), "")
    else step.action + ": " + step.description
  }

  /** A communicator is looked for in the step, then in the request, then under the registered job. */
  lemma CommIdPrecedence(
      resolved: map<string, string>, parameters: map<string, string>, jobComms: map<string, string>)
    ensures var id := CommId(resolved, parameters, jobComms);
      && ("comm_id" in resolved ==> id == resolved["comm_id"])
      && ("comm_id" !in resolved && "comm_id" in parameters ==> id == parameters["comm_id"])
      && ("comm_id" !in resolved && "comm_id" !in parameters ==>
            && ("job_id" in parameters && parameters["job_id"] in jobComms ==> id == jobComms[parameters["job_id"]])
            && ("job_id" !in parameters || parameters["job_id"] !in jobComms ==> id == ""))
  {
  }

  /** The value that a step or, failing that, the request gives for a key; otherwise nothing. */
  ghost predicate Given(
      resolved: map<string, string>, own: string, parameters: map<string, string>, other: string, value: string)
  {
    && (own in resolved ==> value == resolved[own])
    && (own !in resolved && other in parameters ==> value == parameters[other])
    && (own !in resolved && other !in parameters ==> value == "")
  }

  /** What is recorded of each kind of step that leaves the communicator alone. */
  lemma RecordTexts(step: PlaybookStep, resolved: map<string, string>, parameters: map<string, string>)
      returns (gpu: string, jobs: string, event: string)
    ensures Given(resolved, "gpu_id", parameters, "gpu_id", gpu)
    ensures Given(resolved, "job_ids", parameters, "active_job_ids", jobs)
    ensures event == if "event_kind" in resolved then resolved["event_kind"] else "UNSPECIFIED"
    ensures LogEntry(step, resolved, parameters) ==
      match step.action
      case "drain_gpu" => "drain_gpu gpu=" + gpu + ": " + step.description
      case "checkpoint_jobs" => "checkpoint_jobs jobs=[" + jobs + "]: " + step.description
      case "notify" => "notify event=" + event + " gpu=" + gpu
      case other => other + ": " + step.description
  {
    gpu := OrDefault(OrElse(Lookup(resolved, "gpu_id"), Lookup(parameters, "gpu_id")), "");
    jobs := OrDefault(OrElse(Lookup(resolved, "job_ids"), Lookup(parameters, "active_job_ids")), "");
    event := OrDefault(Lookup(resolved, "event_kind"), "UNSPECIFIED");
  }

  // ---- Expanded parameters ----

  ghost predicate ExpandsTo(s: string, params: map<string, string>, out: string) {
    exists order :: IsOrder(order, params) && out == ExpandInOrder(s, order, params)
  }

  /** Each of the step's parameters is expanded, in some order of its own. */
  ghost predicate Expanded(step: PlaybookStep, parameters: map<string, string>, resolved: map<string, string>) {
    resolved.Keys == step.params.Keys && forall k :: k in resolved ==>
      ExpandsTo(step.params[k], parameters, resolved[k])
  }

  /** A step's parameters with every known token replaced, all at once. */
  function Resolved(step: PlaybookStep, parameters: map<string, string>): map<string, string> {
    map k | k in step.params :: Substitute(step.params[k], parameters)
  }

  /** Parameters and templates on which expansion does not depend on map order. */
  ghost predicate Unambiguous(step: PlaybookStep, parameters: map<string, string>) {
    Harmless(parameters) && forall k :: k in step.params ==> IsTemplate(step.params[k])
  }

  lemma ExpandedOnce(step: PlaybookStep, parameters: map<string, string>, resolved: map<string, string>)
    requires Expanded(step, parameters, resolved) && Unambiguous(step, parameters)
    ensures resolved == Resolved(step, parameters)
  {
    hide Harmless, IsTemplate, Substitute;
    forall k | k in resolved ensures resolved[k] == Substitute(step.params[k], parameters) {
      assert ExpandsTo(step.params[k], parameters, resolved[k]);
      var order :| IsOrder(order, parameters) && resolved[k] == ExpandInOrder(step.params[k], order, parameters);
      Confluent(step.params[k], order, parameters);
    }
  }

  /** A parameter handed over as `{{failing_ranks}}` reaches the shrink request as it is, in every order
      of the parameters and whatever braces the other ones hold. */
  lemma ListArrives(parameters: map<string, string>, step: PlaybookStep, resolved: map<string, string>)
    requires "failing_ranks" in parameters && '{' !in parameters["failing_ranks"]
    requires "exclude_ranks" in step.params && step.params["exclude_ranks"] == "{{failing_ranks}}"
    requires Expanded(step, parameters, resolved)
    ensures ExcludeRanks(resolved) == ParseRanks(parameters["failing_ranks"])
  {
    hide ParseRanks, ExpandInOrder;
    var key := "failing_ranks";
    assert Token(key) == "{{failing_ranks}}";
    assert ExpandsTo(Token(key), parameters, resolved["exclude_ranks"]);
    var order :| IsOrder(order, parameters)
      && resolved["exclude_ranks"] == ExpandInOrder(Token(key), order, parameters);
    NoTokenWithoutBrace(key, parameters);
    LoneToken(key, parameters);
  }

  /** So numerals arrive as their values, however they are spaced. */
  lemma NumeralsArrive(parameters: map<string, string>, parts: seq<Part>, step: PlaybookStep,
      resolved: map<string, string>)
    requires IsList(parts) && forall i :: 0 <= i < |parts| ==> IsNumeral(parts[i])
    requires "failing_ranks" in parameters && parameters["failing_ranks"] == CommaSeparated(parts)
    requires "exclude_ranks" in step.params && step.params["exclude_ranks"] == "{{failing_ranks}}"
    requires Expanded(step, parameters, resolved)
    ensures ExcludeRanks(resolved) == Values(parts)
  {
    NumeralCharacters(parts);
    ListArrives(parameters, step, resolved);
    RankListRead(parts);
  }

  /** And joined ranks arrive exactly as they were. */
  lemma RanksArrive(parameters: map<string, string>, ranks: seq<u32>, step: PlaybookStep, resolved: map<string, string>)
    requires "failing_ranks" in parameters && parameters["failing_ranks"] == JoinRanks(ranks)
    requires "exclude_ranks" in step.params && step.params["exclude_ranks"] == "{{failing_ranks}}"
    requires Expanded(step, parameters, resolved)
    ensures ExcludeRanks(resolved) == ranks
  {
    hide JoinRanks, ParseRanks;
    JoinedCharacters(ranks);
    ListArrives(parameters, step, resolved);
    RanksRoundTrip(ranks);
  }

  // ---- What a playbook does to the communicator ----

  predicate IsShrink(step: PlaybookStep) {
    step.action == "shrink_communicator"
  }

  /** A shrink is admitted only if it leaves a rank; a refused one leaves the generator alone too. */
  function AfterRequest(s: SimState, ranks: seq<u32>): SimState {
    var excluded := WrapU32(|ranks|);
    if excluded < s.activeRanks then SimState(s.activeRanks - excluded, Next(s.seed)) else s
  }

  function AfterStep(s: SimState, step: PlaybookStep, resolved: map<string, string>): SimState {
    if IsShrink(step) then AfterRequest(s, ExcludeRanks(resolved)) else s
  }

  /** Only an action of that name touches the backend, and only if the ranks it lists leave one. */
  lemma StepEffect(s: SimState, step: PlaybookStep, resolved: map<string, string>)
    ensures var excluded := if "exclude_ranks" in resolved then |ParseRanks(resolved["exclude_ranks"])| else 0;
      AfterStep(s, step, resolved) ==
        if step.action == "shrink_communicator" && excluded % 4_294_967_296 < s.activeRanks
        then SimState(s.activeRanks - excluded % 4_294_967_296, Next(s.seed))
        else s
  {
    hide ParseRanks, Next;
  }

  /** The backend after the steps with these expanded parameters: each admitted shrink step removes its
      ranks and samples one latency, every other step leaves the backend alone. */
  function AfterSteps(s: SimState, steps: seq<PlaybookStep>, resolved: seq<map<string, string>>): SimState
    requires |resolved| == |steps|
  {
    if steps == [] then s
    else
      var n := |steps| - 1;
      AfterStep(AfterSteps(s, steps[..n], resolved[..n]), steps[n], resolved[n])
  }

  /** The record of a shrink request. */
  function ShrinkEntry(commId: string, ranks: seq<u32>, s: SimState): string {
    if WrapU32(|ranks|) < s.activeRanks then
      "shrink_communicator comm=" + commId + " exclude=" + JoinRanks(ranks)
      + " active_after=" + Show(AfterRequest(s, ranks).activeRanks)
    else "shrink_communicator FAILED: " + REFUSAL
  }

  /** What is recorded of a shrink that is admitted, and of one that is refused. */
  lemma ShrinkTexts(commId: string, ranks: seq<u32>, s: SimState, left: u32)
    ensures s.activeRanks as int - |ranks| % 4_294_967_296 == left > 0 ==>
      ShrinkEntry(commId, ranks, s)
      == "shrink_communicator comm=" + commId + " exclude=" + JoinRanks(ranks) + " active_after=" + Show(left)
    ensures s.activeRanks <= |ranks| % 4_294_967_296 ==>
      ShrinkEntry(commId, ranks, s) == "shrink_communicator FAILED: " + REFUSAL
  {
    hide JoinRanks, Show, Next, REFUSAL;
  }

  /** The record of a step that finds the backend in state `s`. */
  function Entry(
      step: PlaybookStep, s: SimState, resolved: map<string, string>, parameters: map<string, string>,
      jobComms: map<string, string>): string
  {
    if IsShrink(step) then ShrinkEntry(CommId(resolved, parameters, jobComms), ExcludeRanks(resolved), s)
    else LogEntry(step, resolved, parameters)
  }

  /** Each step so far was expanded, unambiguously where that is possible. */
  ghost predicate AllExpanded(
      steps: seq<PlaybookStep>, parameters: map<string, string>, resolved: seq<map<string, string>>)
  {
    && |resolved| <= |steps|
    && (forall i :: 0 <= i < |resolved| ==>
          && Expanded(steps[i], parameters, resolved[i])
          && (Unambiguous(steps[i], parameters) ==> resolved[i] == Resolved(steps[i], parameters)))
  }

  /** Each step so far left the record of what it did to the backend as it found it. */
  ghost predicate Records(
      s: SimState, steps: seq<PlaybookStep>, resolved: seq<map<string, string>>, parameters: map<string, string>,
      jobComms: map<string, string>, actions: seq<string>)
  {
    && |actions| == |resolved| <= |steps|
    && (forall i :: 0 <= i < |actions| ==>
          actions[i] == Entry(steps[i], AfterSteps(s, steps[..i], resolved[..i]), resolved[i], parameters, jobComms))
  }

  lemma NothingRecorded(
      s: SimState, steps: seq<PlaybookStep>, parameters: map<string, string>, jobComms: map<string, string>)
    ensures Records(s, steps, [], parameters, jobComms, []) && AfterSteps(s, steps[..0], []) == s
  {
  }

  lemma OneMoreStep(
      s: SimState, steps: seq<PlaybookStep>, resolved: seq<map<string, string>>, parameters: map<string, string>,
      jobComms: map<string, string>, actions: seq<string>, params: map<string, string>, action: string)
    requires Records(s, steps, resolved, parameters, jobComms, actions) && |actions| < |steps|
    requires action == Entry(steps[|actions|], AfterSteps(s, steps[..|actions|], resolved), params, parameters,
      jobComms)
    ensures Records(s, steps, resolved + [params], parameters, jobComms, actions + [action])
    ensures AfterSteps(s, steps[..|actions| + 1], resolved + [params])
         == AfterStep(AfterSteps(s, steps[..|actions|], resolved), steps[|actions|], params)
  {
    hide Entry, AfterStep;
    var n, more := |actions|, resolved + [params];
    assert steps[..n + 1][..n] == steps[..n] && more[..n] == resolved == resolved[..n];
    assert forall i :: 0 <= i < n ==> more[..i] == resolved[..i];
  }

  class HealerService {
    const backend: NcclSim
    var jobComms: map<string, string>
    var worldSizes: map<string, u32>

    constructor (defaultWorldSize: u32, seed: u64)
      ensures fresh(backend) && backend.View() == SimState(defaultWorldSize, seed)
      ensures jobComms == map[] && worldSizes == map[]
    {
      backend := new NcclSim(defaultWorldSize, seed);
      jobComms, worldSizes := map[], map[];
    }

    /** Registering a job again replaces its communicator and its world size. */
    method RegisterJob(jobId: string, worldSize: u32, commId: string)
      modifies this
      ensures jobComms == old(jobComms)[jobId := commId] && worldSizes == old(worldSizes)[jobId := worldSize]
    {
      jobComms := jobComms[jobId := commId];
      worldSizes := worldSizes[jobId := worldSize];
    }

    method Resolve(step: PlaybookStep, parameters: map<string, string>) returns (resolved: map<string, string>)
      ensures Expanded(step, parameters, resolved)
      ensures Unambiguous(step, parameters) ==> resolved == Resolved(step, parameters)
    {
      hide Harmless, IsTemplate, Substitute, ExpandInOrder, IsOrder;
      resolved := map[];
      var keys := step.params.Keys;
      while keys != {}
        invariant keys <= step.params.Keys && resolved.Keys == step.params.Keys - keys
        invariant forall k :: k in resolved ==> ExpandsTo(step.params[k], parameters, resolved[k])
        decreases |keys|
      {
        var k :| k in keys;
        var v, order := ExpandTemplate(step.params[k], parameters);
        assert ExpandsTo(step.params[k], parameters, v);
        resolved := resolved[k := v];
        keys := keys - {k};
      }
      if Unambiguous(step, parameters) {
        ExpandedOnce(step, parameters, resolved);
      }
    }

    /** Best-effort execution: one record per step whatever fails, the last rank is never removed, and
        exactly the admissible shrink steps take effect, in order, each with its parameters expanded. */
    method ExecutePlaybook(steps: seq<PlaybookStep>, parameters: map<string, string>)
        returns (actionsTaken: seq<string>, ghost resolved: seq<map<string, string>>)
      modifies backend
      ensures |actionsTaken| == |resolved| == |steps| && AllExpanded(steps, parameters, resolved)
      ensures backend.View() == AfterSteps(old(backend.View()), steps, resolved)
      ensures Records(old(backend.View()), steps, resolved, parameters, jobComms, actionsTaken)
      ensures backend.activeRanks <= old(backend.activeRanks)
      ensures old(backend.activeRanks) >= 1 ==> backend.activeRanks >= 1
    {
      hide Entry, AfterStep, AfterSteps, Records, Expanded, Unambiguous, Resolved;
      actionsTaken, resolved := [], [];
      NothingRecorded(old(backend.View()), steps, parameters, jobComms);
      for i := 0 to |steps|
        invariant |actionsTaken| == |resolved| == i && AllExpanded(steps, parameters, resolved)
        invariant backend.View() == AfterSteps(old(backend.View()), steps[..i], resolved)
        invariant Records(old(backend.View()), steps, resolved, parameters, jobComms, actionsTaken)
        invariant backend.activeRanks <= old(backend.activeRanks)
        invariant old(backend.activeRanks) >= 1 ==> backend.activeRanks >= 1
      {
        var step := steps[i];
        var params := Resolve(step, parameters);
        var action := RunStep(step, params, parameters);
        OneMoreStep(old(backend.View()), steps, resolved, parameters, jobComms, actionsTaken, params, action);
        actionsTaken, resolved := actionsTaken + [action], resolved + [params];
      }
      assert steps[..|steps|] == steps;
    }

    /** One step with its parameters expanded: only a shrink reaches the backend, and a refused one
        leaves its whole state as it was. */
    method RunStep(step: PlaybookStep, resolved: map<string, string>, parameters: map<string, string>)
        returns (action: string)
      modifies backend
      ensures backend.View() == AfterStep(old(backend.View()), step, resolved)
      ensures action == Entry(step, old(backend.View()), resolved, parameters, jobComms)
      ensures backend.activeRanks <= old(backend.activeRanks)
      ensures old(backend.activeRanks) >= 1 ==> backend.activeRanks >= 1
    {
      hide CommId, ExcludeRanks, JoinRanks, LogEntry;
      if IsShrink(step) {
        var commId := CommId(resolved, parameters, jobComms);
        var ranks := ExcludeRanks(resolved);
        var m := backend.Shrink(ranks);
        if m.success {
          action := "shrink_communicator comm=" + commId + " exclude=" + JoinRanks(ranks) + " active_after="
            + Show(m.activeRankCount);
        } else {
          action := "shrink_communicator FAILED: " + m.error;
        }
      } else {
        action := LogEntry(step, resolved, parameters);
      }
    }
  }
}
