# NEMESIS cluster control plane: verified model

NEMESIS places training jobs on a GPU cluster, watches the hardware and shrinks a job's communicator
when a GPU is about to fail. This project models the parts that decide something and proves what they
promise:

- **Cluster graph and placement search** (`ClusterTopology`, `CliqueSearch`, `PathSearch`,
  `ClusterGraph`): the mutable multigraph and its two backtracking searches over a shared stack. Both
  are sound, complete and terminating, and each returns the first answer in its own order.
- **Topology DSL** (`Lexer`, `Parser`, `Language`, `StringLanguage`, `TopologySpecs`, `Checker`): the
  exact language as tokens and as characters, the printing round trip, and the exact set of
  well-typed specs.
- **Solver and scheduler** (`Solver`, `SolverTheorems`, `Meshes`, `ConjunctionTheorems`, `HubClusters`,
  `PairTheorems`, `ConstraintTheorems`, `Scheduler`, `SchedulerTheorems`, `FreeCapacity`): soundness of
  every placement, completeness without `+` and exactly when it holds with `+`, which pairs can be placed
  at all and whose rejections are final, which constraints a placement respects, which requests are
  granted whenever free GPUs could meet them, and the reservation service over every run of RPCs. An RPC
  takes effect as one step, because the code holds both write locks from the solve to the insert.
- **Communicator simulator and playbooks** (`Lcg`, `NcclSim`, `NcclRuns`, `Templates`, `Ranks`,
  `Playbook`): the full period of the random generator, interleaved shrink and expand calls, and
  exactly which parameters make template expansion independent of map order.
- **Telemetry** (`MetricRing`, `TelemetryStore`): a ring per GPU that refines the log of all samples.
- **Training hook, predictor and simulated clusters** (`TrainingHook`, `TemporalConvNet`,
  `SimCluster`): a flag protocol between threads, causality and sharp reach of the convolution
  stack, and what each simulated topology promises the searches, whatever fails.

`dafny verify dfyconfig.toml` checks everything.

## Where the code departs from its documentation

The model follows the code. Each departure is stated as a theorem.

- `solver.rs` says `placed` holds exactly when the answer is nonempty. `TP0` and `DP0` are placed with
  no GPU. `PlacedIffNonEmpty` says for exactly which specs the promise holds.
- The parser's EBNF allows any number of `+`; the code reads at most one. `TokenLanguage` states the
  implemented grammar.
- `checker.rs` says all alternatives must declare the same GPU count. Counts are 32-bit products, which
  wrap in a release build (a debug build panics instead). `DocumentedRules`: the checker rejects no
  spec that obeys the documented rules, and wrongly accepts exactly those it accepts although two
  alternatives differ by a nonzero multiple of 2^32; `OverflowEscapesRule4` is one, with 2^32 and 0.
- A conjunction declares the product of its arms, cut to 32 bits, and is given their sum.
  `ConjunctionSize`: the two agree exactly when the sum is below 2^32 and the degrees, each less one,
  multiply to 1 modulo 2^32 (2 and 2, 0 and 0, but also 4 and 2863311532: `LargeArmsAgree`); among
  products below 2^32 only 2 and 2 or 0 and 0 remain.
- The arms of a conjunction are solved separately and can collide although disjoint GPUs exist, for
  every pair of arm kinds and all constraints. `ConjunctionExactness`: the solver finds every feasible
  conjunction exactly when one arm asks for nothing.
- A rejected conjunction can become placeable when a GPU fails: `TP1+DP1` on healthy GPUs named a, z and
  b without links, once a has failed. `RejectionsFinalExactly`: rejections are final exactly when one arm
  asks for nothing or the arms always pick a common GPU, and then they can never be placed together at
  all, by `PlaceableExactly`.
- A TP atom is held to its first bandwidth constraint only, and a PP atom to its first hop limit only:
  `FirstConstraintGoverns`, `FirstHopLimitGoverns`. `_NUMA` ("all ranks must be NUMA-local" in
  `parser.rs`) is read and never used: `NumaIsIgnored`.
- The solver does not know what is reserved, so a request of any kind that free GPUs could meet is
  refused when its placement meets a reserved one. `GrantsWhatIsFreeExactly`: specs that obey the
  documented rules are granted on every cluster whenever free GPUs suffice only if their first
  alternative that can be met at all asks for nothing; without `+` that is a declared count of 0
  (`PlusFreeGrantsWhatIsFree`). For DP, `DpFreeSuffices` and `DpGranted` tell both sides apart cluster by
  cluster.
- Scheduling a job id that already holds GPUs forgets them for good: `ReservedIsHeld`,
  `OverwriteLeaks`, `LeaksArePermanent`.
- `backend.rs` says a shrink removes and an expand adds as many ranks as are listed. List lengths are cut
  to 32 bits and expanding saturates: `NcclSim.Shrink` and `NcclSim.Expand` say that the promise is kept
  exactly for lists below 2^32 and for sums below 2^32.
- `sim.rs` describes a jitter in [-sigma, +sigma) with a floor. The jitter is never negative and the
  floor never applies: `SampledExactly`.
- Nothing serialises shrink calls, and two of them can drive the rank count below zero:
  `TwoShrinksUnderflow`, `SafeExactlyWhenSolvent`.
- Template expansion can depend on map iteration order: `OrderMatters`. `ConfluentExactly`: it does so
  on some template exactly when the other parameters' values can be put together, with brace-free text
  between them, into the token of a parameter that does not stand for itself. Values without opening
  braces, or without closing ones, never can: `OneKindOfBrace`.
- The hook sends an empty rank list, so by `NcclSim.Shrink` its call removes nobody.

## Model

| member | source | states |
|---|---|---|
| ClusterGraphs.ClusterGraph.AddGpu | substrate/crates/nemesis-graph/src/graph.rs:60-72 | a new healthy vertex is appended under a fresh name and the name index stays the exact inverse of the naming |
| ClusterGraphs.ClusterGraph.AddLink | substrate/crates/nemesis-graph/src/graph.rs:77-96 | a link, parallel or not, is added between two known GPUs; every incidence list still lists exactly the links at its GPU |
| ClusterGraphs.ClusterGraph.SetUnhealthy | substrate/crates/nemesis-graph/src/graph.rs:99-103 | exactly the named GPU turns unhealthy; an unknown name changes nothing |
| ClusterGraphs.ClusterGraph.FindNvlinkClique | substrate/crates/nemesis-graph/src/graph.rs:143-161 | answers if and only if a set of `size` healthy GPUs pairwise joined by fast enough NVLink exists, early exit included, and then names the first such clique |
| ClusterGraphs.ClusterGraph.SearchClique | substrate/crates/nemesis-graph/src/graph.rs:167-202 | the pruned search on a shared stack equals unpruned enumeration; a failing call hands the stack back unchanged |
| CliqueSearch.PruningIsSafe | substrate/crates/nemesis-graph/src/graph.rs:182-185 | when too few candidates remain, the full enumeration finds nothing either |
| CliqueSearch.FirstCliqueLeast | substrate/crates/nemesis-graph/src/graph.rs:163-202 | any completion of the current partial clique forces an answer that is lexicographically no later |
| CliqueSearch.FindCliqueExact | substrate/crates/nemesis-graph/src/graph.rs:137-202 | some answer if and only if a clique set of that size exists; the answer is such a clique and the first in index order |
| CliqueSearch.RejectionPersists | substrate/crates/nemesis-graph/src/graph.rs:98-103 | a clique rejection survives any later GPU failures |
| ClusterGraphs.ClusterGraph.FindIbPath | substrate/crates/nemesis-graph/src/graph.rs:217-241 | answers if and only if the size is positive and a simple path of exactly that many healthy GPUs within the hop limit exists |
| ClusterGraphs.ClusterGraph.DfsIbPath | substrate/crates/nemesis-graph/src/graph.rs:244-278 | terminates on every multigraph, equals the specified search, restores the path on failure and leaves it as the answer on success |
| PathSearch.ExtendPathComplete | substrate/crates/nemesis-graph/src/graph.rs:254-277 | if a simple path of the wanted length continues the current one over an untried link, one is found |
| PathSearch.FindPathExact | substrate/crates/nemesis-graph/src/graph.rs:213-241 | sound and complete for every multigraph; a request for zero GPUs is never met |
| PathSearch.FindPathFirst | substrate/crates/nemesis-graph/src/graph.rs:223-277 | the path found is the first one: where it parts from any other path of that size within the limit, it starts at an earlier GPU or leaves by an earlier link |
| PathSearch.RejectionPersists | substrate/crates/nemesis-graph/src/graph.rs:98-103 | a path rejection survives any later GPU failures |
| Lexer.CharStream.CollectAlpha | substrate/crates/nemesis-topology/src/lexer.rs:34-45 | consumes exactly the longest alphabetic prefix, whatever letters there are beyond ASCII |
| Lexer.CharStream.CollectDigits | substrate/crates/nemesis-topology/src/lexer.rs:48-59 | consumes exactly the longest prefix of digits |
| Lexer.Lex | substrate/crates/nemesis-topology/src/lexer.rs:65-133 | the streaming lexer yields the specified token sequence, or the first error |
| Lexer.OtherLettersRejected | substrate/crates/nemesis-topology/src/lexer.rs:65-133 | letters beyond ASCII, whichever they are, change neither which strings are tokenised nor into what |
| StringLanguage.TokeniseSpelling | substrate/crates/nemesis-topology/src/lexer.rs:65-133 | any sequence of well-spelled lexemes whose letters do not run together is split into exactly its tokens |
| StringLanguage.SpellingOf | substrate/crates/nemesis-topology/src/lexer.rs:65-133 | whatever is tokenised is a sequence of well-spelled lexemes with those tokens |
| Parser.ParseAtom | substrate/crates/nemesis-topology/src/parser.rs:113-154 | succeeds exactly when an atom stands at the cursor, with its value, and leaves the cursor after its last constraint |
| Parser.ParseConjunction | substrate/crates/nemesis-topology/src/parser.rs:101-110 | reads one atom, or two around a single plus sign; the cursor never passes the end |
| Parser.ParseDisjunction | substrate/crates/nemesis-topology/src/parser.rs:83-95 | reads alternatives as long as bars follow, collapsing a single one |
| Parser.ExpectNumber | substrate/crates/nemesis-topology/src/parser.rs:157-168 | takes a number token exactly when one is there, and otherwise does not move |
| Parser.Parse | substrate/crates/nemesis-topology/src/parser.rs:69-80 | accepts exactly the strings whose tokens form one spec with nothing left over, whatever letters there are beyond ASCII |
| Language.TokenLanguage | substrate/crates/nemesis-topology/src/parser.rs:69-168 | tokens parse into a spec if and only if they are that spec's tokens under the implemented grammar; derivations are unique and consume everything |
| StringLanguage.StringLanguage | substrate/crates/nemesis-topology/src/parser.rs:69-80 | a string parses into a spec if and only if it spells that spec's tokens, leading zeros allowed, numbers below 2^32 |
| StringLanguage.ParsePrint | substrate/crates/nemesis-topology/src/parser.rs:69-80 | parsing the canonical text of any parser-shaped spec gives the spec back |
| StringLanguage.ParsePrintParse | substrate/crates/nemesis-topology/src/parser.rs:69-80 | whatever parses can be reprinted canonically without changing its meaning |
| TopologySpecs.CountWraps | substrate/crates/nemesis-topology/src/parser.rs:54-62 | the 32-bit count is the exact count modulo 2^32, however often it wraps on the way, and right exactly when that fits |
| Checker.BitTestDecides | substrate/crates/nemesis-topology/src/checker.rs:52-56 | for every positive number, n and (n-1) share no binary digit if and only if n is a power of two |
| Checker.NeighboursDecide | substrate/crates/nemesis-topology/src/checker.rs:38-43 | comparing neighbours finds a mismatch if and only if some two counts differ |
| Checker.TypeCheck | substrate/crates/nemesis-topology/src/checker.rs:18-22 | no error if and only if every rule holds: powers of two, NVLink degrees in {1, 2, 4, 8}, equal counts |
| Checker.Check | substrate/crates/nemesis-topology/src/checker.rs:24-46 | only appends to the shared error list, and appends if and only if the spec breaks a rule |
| Checker.CheckAtom | substrate/crates/nemesis-topology/src/checker.rs:48-69 | appends if and only if the atom breaks the degree rules |
| Checker.DocumentedRules | substrate/crates/nemesis-topology/src/checker.rs:3-11 | for every spec: the documented rules over exact counts hold if and only if the checker accepts and no two alternatives differ by a nonzero multiple of 2^32 |
| Checker.SmallCountsSuffice | substrate/crates/nemesis-topology/src/checker.rs:9-11 | with alternatives below 2^32 the checker decides the documented rules |
| Checker.OverflowEscapesRule4 | substrate/crates/nemesis-topology/src/checker.rs:36-43 | a concrete spec whose alternatives declare 2^32 and 0 GPUs passes |
| Solver.TopologySolver.Solve | substrate/crates/nemesis-topology/src/solver.rs:81-87 | the solver answers the specified placement of any spec on a fixed graph |
| Solver.TopologySolver.SolveAtom | substrate/crates/nemesis-topology/src/solver.rs:98-162 | clique for TP, path for PP, sorted prefix of the healthy names for DP |
| Solver.TopologySolver.SolveConjunction | substrate/crates/nemesis-topology/src/solver.rs:165-189 | both arms' GPUs concatenated if disjoint, otherwise the failing arm's or the overlap rejection |
| Solver.TopologySolver.SolveDisjunction | substrate/crates/nemesis-topology/src/solver.rs:195-208 | the first placeable alternative, otherwise all reasons in order |
| SolverTheorems.PlacementSound | substrate/crates/nemesis-topology/src/solver.rs:12-16 | placed GPUs are distinct, healthy and satisfy the spec; a rejection names a reason and no GPU |
| SolverTheorems.FirstAlternativeWins | substrate/crates/nemesis-topology/src/solver.rs:191-208 | a disjunction is placed if and only if some alternative is, by the first one that is |
| SolverTheorems.AllReasonsGiven | substrate/crates/nemesis-topology/src/solver.rs:195-208 | a rejected disjunction gives the reasons of all its alternatives, in order |
| SolverTheorems.DpTakesLeast | substrate/crates/nemesis-topology/src/solver.rs:145-153 | a DP placement is sorted and takes the alphabetically least healthy GPUs |
| StringOrder.LeqIsDictionaryOrder | substrate/crates/nemesis-topology/src/solver.rs:149 | names are sorted in dictionary order: a prefix first, otherwise by the first character that differs |
| SolverTheorems.PlusFreeExact | substrate/crates/nemesis-topology/src/solver.rs:98-162 | without `+`, a spec is placed if and only if some assignment satisfies it |
| SolverTheorems.PipelinePlaced | substrate/crates/nemesis-topology/src/solver.rs:123-144 | a PP atom is placed if and only if a simple path of n healthy GPUs, at least one, exists within the first hop limit in its list, or over links of any hop count when the list has none |
| SolverTheorems.TensorGroupPlaced | substrate/crates/nemesis-topology/src/solver.rs:101-122 | a TP atom is placed if and only if a clique of n healthy GPUs exists at the first bandwidth in its list, or at bandwidth 0 when the list has none |
| SolverTheorems.RejectionSurvivesFailures | substrate/crates/nemesis-topology/src/solver.rs:98-162 | without `+`, a rejection survives marking any GPUs unhealthy |
| Meshes.TakesFirst | substrate/crates/nemesis-topology/src/solver.rs:98-162 | on a cluster linked in every pair by NVLink and InfiniBand, placements of every kind that fit succeed and take GPU 0 |
| ConjunctionTheorems.ConjunctionExactness | substrate/crates/nemesis-topology/src/solver.rs:164-189 | for any two atoms, joined specs are placed on every cluster exactly when feasible if and only if one arm asks for nothing |
| ConjunctionTheorems.SeparableExact | substrate/crates/nemesis-topology/src/solver.rs:164-208 | with an empty arm in every conjunction, any spec is placed if and only if it is feasible |
| ConjunctionTheorems.TwoGroupsFeasible | substrate/crates/nemesis-topology/src/solver.rs:164-189 | two DP arms are feasible if and only if the healthy GPUs suffice for their sum |
| ConjunctionTheorems.TwoDataParallelArms | substrate/crates/nemesis-topology/src/solver.rs:164-189 | on each cluster, two DP arms are placed if and only if they are feasible and one asks for nothing |
| PairTheorems.PlaceableExactly | substrate/crates/nemesis-topology/src/solver.rs:98-189 | two atoms can be placed together on some cluster if and only if no arm is `PP0` and, when both ask for something, they are not lookalikes: two DP arms, two single GPUs of TP or PP, or the same search twice |
| PairTheorems.RejectionsFinalExactly | substrate/crates/nemesis-topology/src/solver.rs:98-189 | no failures turn a rejection of two atoms into a placement if and only if an arm asks for nothing or they are lookalikes |
| PairTheorems.FailureFrees | substrate/crates/nemesis-topology/src/solver.rs:174-184 | for every other pair, a cluster that rejects it until one GPU has failed |
| SolverTheorems.PlacementSize | substrate/crates/nemesis-topology/src/checker.rs:36-43 | without `+`, a well-typed placed spec gets exactly its declared count, whichever alternative wins |
| ConjunctionTheorems.ConjunctionSize | substrate/crates/nemesis-topology/src/parser.rs:48-62 | two atoms joined by `+` get the sum of their degrees; it equals the declared wrapped product exactly when it is below 2^32 and (n-1)(m-1) is 1 modulo 2^32, which for products below 2^32 means 2 and 2 or 0 and 0 |
| SolverTheorems.PlacedIffNonEmpty | substrate/crates/nemesis-topology/src/solver.rs:14-16 | placed coincides with nonempty on every cluster if and only if the spec cannot ask for nothing |
| ConstraintTheorems.FirstConstraintGoverns | substrate/crates/nemesis-topology/src/solver.rs:101-113 | TP placements respect all bandwidth constraints on every cluster if and only if the first is the strictest or at most one GPU is asked for |
| ConstraintTheorems.FirstHopLimitGoverns | substrate/crates/nemesis-topology/src/solver.rs:123-135 | PP placements respect all hop limits on every cluster if and only if the first is the strictest or at most one GPU is asked for |
| ConstraintTheorems.NumaIsIgnored | substrate/crates/nemesis-topology/src/parser.rs:33-34 | placements of an atom of any kind with `_NUMA` are NUMA-local on every cluster if and only if it asks for at most one GPU |
| Scheduler.SchedulerService.Validate | substrate/crates/nemesis-topology/src/service.rs:76-97 | valid if and only if the text parses into a well-typed spec |
| Scheduler.SchedulerService.ScheduleJob | substrate/crates/nemesis-topology/src/service.rs:99-145 | a granted job gets the reply, the reservation and the record of its GPUs; every refusal gives a reason or is an invalid argument, and changes nothing |
| Scheduler.SchedulerService.ReleaseJob | substrate/crates/nemesis-topology/src/service.rs:152-172 | exactly the job's GPUs and its entry disappear; an unknown job changes nothing |
| SchedulerTheorems.GrantMeans | substrate/crates/nemesis-topology/src/service.rs:99-145 | from text to cluster: what a grant guarantees, and without `+` the only reasons for a refusal |
| FreeCapacity.GrantsWhatIsFreeExactly | substrate/crates/nemesis-topology/src/service.rs:115-131 | a well-typed spec whose first satisfiable alternative asks for nothing is granted on every cluster exactly when unreserved GPUs satisfy it; specs that obey the documented rules only then |
| FreeCapacity.PlusFreeGrantsWhatIsFree | substrate/crates/nemesis-topology/src/service.rs:115-131 | without `+`, requests are granted on every cluster exactly when unreserved GPUs satisfy them if and only if the declared count is 0 |
| FreeCapacity.OneReservedGpuBlocks | substrate/crates/nemesis-topology/src/service.rs:120-131 | otherwise a cluster with one reserved GPU where the request is refused although the others satisfy it |
| FreeCapacity.DpGranted | substrate/crates/nemesis-topology/src/service.rs:115-131 | a DP request is granted if and only if enough GPUs are healthy and none of the alphabetically first n is reserved |
| FreeCapacity.DpFreeSuffices | substrate/crates/nemesis-topology/src/service.rs:120-131 | unreserved GPUs satisfy a DP request if and only if at least that many are healthy |
| SchedulerTheorems.ExclusiveAlways | substrate/crates/nemesis-topology/src/service.rs:115-144 | over every run with any job ids, live jobs' lists are duplicate-free, pairwise disjoint and reserved |
| SchedulerTheorems.ReservedIsHeld | substrate/crates/nemesis-topology/src/service.rs:132-137 | after any run, the reserved set is the union of the live lists if and only if no grant replaced a nonempty entry of its own job id |
| SchedulerTheorems.OverwriteLeaks | substrate/crates/nemesis-topology/src/service.rs:136 | a concrete run of two grants to one job id that loses a GPU |
| SchedulerTheorems.LeaksArePermanent | substrate/crates/nemesis-topology/src/service.rs:152-172 | a lost GPU stays reserved and unowned in every continuation of the run |
| SchedulerTheorems.ReleaseUndoesSchedule | substrate/crates/nemesis-topology/src/service.rs:8-13 | a fresh job's schedule and release cancel out in both maps, whatever other jobs do in between |
| SchedulerTheorems.SameRequestWaitsForRelease | substrate/crates/nemesis-topology/src/service.rs:120-131 | the same request is refused to everyone until the holder releases, and is then granted the same GPUs |
| Lcg.SumValuation | substrate/crates/nemesis-nccl/src/sim.rs:66-70 | 1 + a + ... + a^(n-1) is divisible by exactly the powers of two that divide n, for a = 1 modulo 4 |
| Lcg.StatesRepeat | substrate/crates/nemesis-nccl/src/sim.rs:66-70 | two states of a run coincide if and only if 2^k divides the steps between them |
| Lcg.FullPeriod | substrate/crates/nemesis-nccl/src/sim.rs:66-70 | for every k and seed the recurrence visits all 2^k states once and then returns |
| Lcg.GeneratorFullPeriod | substrate/crates/nemesis-nccl/src/sim.rs:65-70 | the 64-bit generator with the code's constants has period 2^64 from every seed and reaches every state |
| NcclSims.SampledExactly | substrate/crates/nemesis-nccl/src/sim.rs:61-75 | from every seed, a latency is sampled if and only if it lies in [4.0, 4.5) seconds |
| NcclSims.DurationRead | substrate/crates/nemesis-nccl/src/sim.rs:71-74 | the latency is 4 s and as many nanoseconds as the seed without its low 33 bits leaves over 500000000 |
| NcclSims.NcclSim.SeededDurationNs | substrate/crates/nemesis-nccl/src/sim.rs:65-75 | advances only the seed and returns a latency in [4.0, 4.5) seconds |
| NcclSims.NcclSim.Shrink | substrate/crates/nemesis-nccl/src/sim.rs:81-118 | uninterrupted, meets the backend contract exactly for fewer than 2^32 listed ranks: count before minus excluded, at least one rank left, positive duration; or an error and no change |
| NcclSims.NcclSim.Expand | substrate/crates/nemesis-nccl/src/sim.rs:121-147 | uninterrupted, adds one rank for each new GPU if and only if the sum is below 2^32; otherwise the length is cut to 32 bits and the sum saturates |
| NcclRuns.SectionKeepsSolvent | substrate/crates/nemesis-nccl/src/sim.rs:84-111 | every critical section keeps pending exclusions below the active ranks if each admitted shrink can be afforded, and then no decrement underflows |
| NcclRuns.WholeShrink | substrate/crates/nemesis-nccl/src/sim.rs:83-111 | an admissible shrink whose steps nothing interrupts removes exactly its ranks and advances the generator once |
| NcclRuns.WholeExpand | substrate/crates/nemesis-nccl/src/sim.rs:126-140 | an expand whose steps nothing interrupts adds its ranks, saturating at 2^32 - 1, and advances the generator once |
| NcclRuns.OneShrinkAtATime | substrate/crates/nemesis-nccl/src/sim.rs:81-146 | with at most one shrink in flight and any expands interleaved, a rank stays active, nothing underflows and ranks balance below 2^32 |
| NcclRuns.TwoShrinksUnderflow | substrate/crates/nemesis-nccl/src/sim.rs:83-111 | two shrinks of 5 on 8 ranks are both admitted and the count wraps around |
| NcclRuns.SafeExactlyWhenSolvent | substrate/crates/nemesis-nccl/src/sim.rs:83-111 | calls in flight are safe under every interleaving without a new shrink if and only if their total is below the active ranks |
| Templates.ExpandTemplate | substrate/crates/nemesis-nccl/src/service.rs:112-118 | the result of replacement in some order of the map's keys; with harmless parameters the simultaneous substitution |
| Templates.Confluent | substrate/crates/nemesis-nccl/src/service.rs:111-118 | on brace-free text with tokens, when no parameter's token can be assembled from the other values, replacement in any order is the simultaneous substitution |
| Templates.ConfluentExactly | substrate/crates/nemesis-nccl/src/service.rs:111-118 | for brace-free keys, all orders agree on every template if and only if no parameter's token can be assembled from the other values or it stands for itself |
| Templates.OneKindOfBrace | substrate/crates/nemesis-nccl/src/service.rs:111-118 | values that all lack opening braces, or all lack closing ones, are harmless |
| Templates.LoneToken | substrate/crates/nemesis-nccl/src/service.rs:112-118 | a template that is one token becomes that value in every order if and only if the value holds no other parameter's token, tokens that stand for themselves aside; the braces of other keys and values are free |
| Templates.OrderMatters | substrate/crates/nemesis-nccl/src/service.rs:112-118 | a value with braces makes two orders disagree |
| Ranks.RanksRoundTrip | substrate/crates/nemesis-nccl/src/service.rs:120-125 | parsing a comma-joined rank list gives the ranks back |
| Ranks.RankListRead | substrate/crates/nemesis-nccl/src/service.rs:120-125 | for comma-separated parts, numerals with leading zeros, a plus sign and any white space around them give exactly their values in order; a part that is no 32-bit numeral contributes nothing, wherever it stands |
| Playbook.RanksArrive | substrate/crates/nemesis-nccl/src/service.rs:268-277 | ranks passed through `{{failing_ranks}}` arrive in the shrink request exactly, in every expansion order and whatever the other parameters hold |
| Playbook.NumeralsArrive | substrate/crates/nemesis-nccl/src/service.rs:268-277 | the same for any list of numerals with white space, leading zeros or plus signs: the shrink request holds exactly their values |
| Playbook.CommIdPrecedence | substrate/crates/nemesis-nccl/src/service.rs:251-260 | the communicator comes from the step, failing that from the request, failing that from the job's registration, and is otherwise empty |
| Playbook.StepEffect | substrate/crates/nemesis-nccl/src/service.rs:247-351 | only a shrink step below the active ranks has an effect: the listed ranks, modulo 2^32, leave and the generator advances once |
| Playbook.HealerService.Resolve | substrate/crates/nemesis-nccl/src/service.rs:240-245 | every parameter of a step is expanded in some order of the request's parameters, unambiguously when those are harmless |
| Playbook.HealerService.RunStep | substrate/crates/nemesis-nccl/src/service.rs:247-351 | only a shrink step reaches the backend; any other step and a refused shrink leave its ranks and its seed as they were |
| Playbook.HealerService.ExecutePlaybook | substrate/crates/nemesis-nccl/src/service.rs:237-361 | one record per step whatever fails, never the last rank removed, and exactly the admissible shrinks take effect in order on ranks and seed |
| Playbook.RecordTexts | substrate/crates/nemesis-nccl/src/service.rs:310-351 | what the record of every step other than a shrink says, and whether its parts come from the step or the request |
| MetricRings.MetricRing.Push | substrate/crates/nemesis-telemetry/src/ring.rs:47-54 | appends to the abstract history, overwriting the oldest slot of a full ring, for any positive capacity |
| MetricRings.MetricRing.Window | substrate/crates/nemesis-telemetry/src/ring.rs:62-89 | the answer has min(n, capacity, samples pushed) samples, and they are the last ones ever pushed, oldest first, index by index |
| TelemetryStores.TelemetryStore.Ingest | substrate/crates/nemesis-telemetry/src/store.rs:53-56 | appends to the global log and keeps one ring per GPU seen, each holding that GPU's part of the log |
| TelemetryStores.TelemetryStore.Window | substrate/crates/nemesis-telemetry/src/store.rs:61-67 | the answer has min(n, 36000, entries of that GPU) samples, and they are the last of its log entries, oldest first, each at its place in the log; nothing for an unknown GPU |
| TelemetryStores.TelemetryStore.GpuIds | substrate/crates/nemesis-telemetry/src/store.rs:70-72 | every GPU that ever sent a sample, once |
| TelemetryStores.TelemetryStore.LatestSamples | substrate/crates/nemesis-telemetry/src/service.rs:126-132 | the newest log entry of every GPU seen, once each |
| TrainingHook.NoEventLost | agents/nemesis/hook.py:52-81 | under any interleaving, every action that receives a confidence of at least 0.95 is recorded, and its event waits behind the raised flag, is held by a thread about to call, or is followed by a call begun later |
| TrainingHook.ArrivalsExact | agents/nemesis/hook.py:52-60 | the recorded arrivals are exactly the positions of the actions that receive a confidence of at least 0.95, in order |
| TrainingHook.CallsExact | agents/nemesis/hook.py:66-81 | the recorded calls are exactly the positions of the actions that begin one, in order |
| TrainingHook.NoEventDuplicated | agents/nemesis/hook.py:71-74 | no event is consumed by two calls or two threads |
| TrainingHook.CallsWithinEvents | agents/nemesis/hook.py:52-81 | never more actions that begin a shrink call than actions that receive a confidence of at least 0.95 |
| TemporalConvNet.NetworkLength | agents/nemesis/models/ecc_predictor.py:33-36 | padding both sides and chomping keeps the sequence length at any depth |
| TemporalConvNet.LayerAgrees | agents/nemesis/models/ecc_predictor.py:74-87 | one padded and chomped convolution sees the present and (k-1)*dilation steps of the past, nothing later |
| TemporalConvNet.NetworkIsCausal | agents/nemesis/models/ecc_predictor.py:74-120 | the network computes, block by block, the causal convolutions, rectifiers and projected residual of an independent definition without padding |
| TemporalConvNet.NetworkAgrees | agents/nemesis/models/ecc_predictor.py:94-120 | outputs agree wherever inputs agree on the reach before them, for any depth, kernel and weights |
| TemporalConvNet.ReachFormula | agents/nemesis/models/ecc_predictor.py:98-99 | the reach is 2(k-1)(2^depth - 1) |
| TemporalConvNet.PredictorReach | agents/nemesis/models/ecc_predictor.py:143-157 | the read-out at the last step depends on the last 373 steps only |
| TemporalConvNet.ReachIsSharp | agents/nemesis/models/ecc_predictor.py:98-99 | for every depth and kernel some weights and two inputs differing only at the far end of the reach give different outputs |
| SimClusters.FromConfig | sim/crates/nemesis-sim/src/cluster.rs:15-56 | fails only for an empty cluster; otherwise the GPUs are gpu-0, gpu-1, ..., two of them have a link of a kind if and only if the topology says so, and after any failures both searches answer exactly as the topology promises |
| SimClusters.AddMesh | sim/crates/nemesis-sim/src/cluster.rs:24-37 | the nested loops link every pair once, all with the same weight, and nothing else |
| SimClusters.AddChain | sim/crates/nemesis-sim/src/cluster.rs:38-48 | the loop links every GPU to the next by one InfiniBand hop, once, and nothing else |
| SimClusters.NvlinkMeshPromise | sim/crates/nemesis-sim/src/cluster.rs:24-30 | whatever has failed, a clique is found if and only if the size is at most the number of healthy GPUs and, beyond one GPU, the bandwidth is offered |
| SimClusters.NoCliques | sim/crates/nemesis-sim/src/cluster.rs:31-48 | whatever has failed, no clique of two or more is found where no link is NVLink: on the PCIe mesh and on the chain |
| SimClusters.NoPaths | sim/crates/nemesis-sim/src/cluster.rs:24-37 | whatever has failed, no path of two or more is found where no link is InfiniBand: on both meshes |
| SimClusters.IbChainPromise | sim/crates/nemesis-sim/src/cluster.rs:38-48 | whatever has failed, a path is found if and only if its size is positive, that many consecutive GPUs are healthy, and a hop is allowed when needed |
| SimClusters.MeshJoins | sim/crates/nemesis-sim/src/cluster.rs:24-37 | two GPUs of a mesh have a link of a kind if and only if they differ and it is the kind of the mesh |
| SimClusters.ChainJoins | sim/crates/nemesis-sim/src/cluster.rs:38-48 | two GPUs of a chain have a link of a kind if and only if they are neighbours and it is the kind of the chain |
| SimClusters.SimCluster.Jitter | sim/crates/nemesis-sim/src/cluster.rs:62-66 | advances the shared generator and returns 2 percent of the share of the new seed in 2^64 - 1 |
| SchedulerTheorems.ReleaseIdempotent | substrate/crates/nemesis-topology/src/service.rs:147-151 | releasing twice equals releasing once |
| Playbook.HealerService.RegisterJob | substrate/crates/nemesis-nccl/src/service.rs:135-157 | both maps record the job, replacing an earlier registration |
| TrainingHook.StepServesAll | agents/nemesis/hook.py:66-81 | a step on a raised flag begins one call serving everything waiting; on a lowered flag it begins none |

## Left out

- The gRPC, protobuf and async plumbing, `to_proto`, both `main.rs`, YAML loading, logging, clocks, UUIDs and sleeping: I/O around the modelled decisions.
- The hardware communicator backend, the LLM agent loops, training, gradients and benchmarks: behaviour outside this code.
- The broadcast event bus and its lag handling: library semantics.
- Floating point: bandwidths, jitter and weights are exact reals, and the digits of a bandwidth constraint denote an exact natural; dropout is taken at inference, where it does nothing.
- The order in which the graph library lists the links at a GPU: any order satisfies the theorems; the model puts new links first.
- The table of letters beyond ASCII: any set of them; no theorem about accepted strings depends on it.
- Wording of error messages: kept only as far as empty or not, and a reason list is joined in order.
- Concurrent changes of the graph during one placement: the solver locks it once per atom, and its theorems are stated for a fixed graph; health may change freely between RPCs.
- Constraints of the other kind (a hop limit on TP, a bandwidth on PP, either on DP): ignored by the code, as `solver.rs:95-97` documents.
- ConjunctionTheorems.SeparableExact: one direction only, because a disjunction can be exact in spite of a colliding alternative that another one makes up for, as in `DP1+DP1|DP2`; the condition for one conjunction is exact.
- FreeCapacity.GrantsWhatIsFreeExactly: its second half is for specs that obey the documented rules; a spec that passes only because products wrap can put a never-placeable alternative before one that asks for nothing, as in `DP65536+DP65536|DP0`, and is then granted whenever free GPUs suffice.
- Cost of a debug build: 32-bit overflow wraps here as in a release build, where a debug build panics.
- Templates.ConfluentExactly: for brace-free keys and templates of brace-free text and tokens; a key with braces could overlap another key's token.
- Playbook.HealerService.ExecutePlaybook: for a backend that no other call touches meanwhile; `NcclRuns` covers interleaved calls.
- The remaining fields of a synthetic sample, `link_bandwidth`, `list_playbooks` and the sigmoid head: direct formulas on modelled values.
