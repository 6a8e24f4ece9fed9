/** Shrink and expand calls interleaved: each call is split at its awaits, and its critical sections
    may alternate with those of any other call. */
module NcclRuns {
  import opened MachineInts
  import opened Lcg
  import opened NcclSims

  /** A call in flight. A shrink has passed its check; a sampled call is about to be committed. */
  datatype Call =
    | ShrinkAdmitted(excluded: u32)
    | ShrinkSampled(excluded: u32)
    | ExpandSampled(added: u32)

  /** The simulator, the calls in flight, and the ranks that completed calls have added and removed. */
  datatype RunState = RunState(sim: SimState, calls: seq<Call>, joined: nat, left: nat)

  /** One critical section of some call. */
  datatype Section =
    | CheckShrink(excluded: u32)
    | SampleShrink(call: nat)
    | CommitShrink(call: nat)
    | SampleExpand(added: u32)
    | CommitExpand(call: nat)

  function Start(worldSize: u32, seed: u64): RunState {
    RunState(SimState(worldSize, seed), [], 0, 0)
  }

  function Without(calls: seq<Call>, i: nat): seq<Call>
    requires i < |calls|
  {
    calls[..i] + calls[i + 1..]
  }

  /** A section that no call is ready for does nothing; a shrink that fails its check is over. */
  function Execute(s: RunState, section: Section): RunState {
    match section
    case CheckShrink(e) =>
      if e >= s.sim.activeRanks then s else s.(calls := s.calls + [ShrinkAdmitted(e)])
    case SampleShrink(i) =>
      if i < |s.calls| && s.calls[i].ShrinkAdmitted?
      then s.(sim := AfterSample(s.sim), calls := s.calls[i := ShrinkSampled(s.calls[i].excluded)]) else s
    case CommitShrink(i) =>
      if i < |s.calls| && s.calls[i].ShrinkSampled?
      then
        s.(sim := AfterShrink(s.sim, s.calls[i].excluded), calls := Without(s.calls, i),
           left := s.left + s.calls[i].excluded)
      else s
    case SampleExpand(n) =>
      s.(sim := AfterSample(s.sim), calls := s.calls + [ExpandSampled(n)])
    case CommitExpand(i) =>
      if i < |s.calls| && s.calls[i].ExpandSampled?
      then
        s.(sim := AfterExpand(s.sim, s.calls[i].added), calls := Without(s.calls, i),
           joined := s.joined + s.calls[i].added)
      else s
  }

  function Run(s: RunState, sections: seq<Section>): RunState {
    if sections == [] then s else Execute(Run(s, sections[..|sections| - 1]), sections[|sections| - 1])
  }

  // ---- A call that no other interrupts ----

  /** Check, sample and commit in a row remove the ranks and advance the generator once, whatever else is
      in flight. */
  lemma WholeShrink(s: RunState, excluded: u32)
    requires excluded < s.sim.activeRanks
    ensures var n := |s.calls|;
      Execute(Execute(Execute(s, CheckShrink(excluded)), SampleShrink(n)), CommitShrink(n))
      == RunState(SimState(s.sim.activeRanks - excluded, Next(s.sim.seed)), s.calls, s.joined, s.left + excluded)
  {
    var n := |s.calls|;
    var admitted := Execute(s, CheckShrink(excluded));
    assert admitted.calls == s.calls + [ShrinkAdmitted(excluded)];
    var sampled := Execute(admitted, SampleShrink(n));
    assert sampled.calls == s.calls + [ShrinkSampled(excluded)];
    assert Without(sampled.calls, n) == s.calls;
  }

  /** A refused shrink changes nothing. */
  lemma RefusedShrink(s: RunState, excluded: u32)
    requires excluded >= s.sim.activeRanks
    ensures Execute(s, CheckShrink(excluded)) == s
  {
  }

  /** Sample and commit in a row add the ranks, up to the largest 32-bit number. */
  lemma WholeExpand(s: RunState, added: u32)
    ensures var n := |s.calls|; var total := s.sim.activeRanks as nat + added as nat;
      Execute(Execute(s, SampleExpand(added)), CommitExpand(n))
      == RunState(
           SimState(if total < 4_294_967_296 then total else 4_294_967_295, Next(s.sim.seed)),
           s.calls, s.joined + added, s.left)
  {
    var n := |s.calls|;
    var sampled := Execute(s, SampleExpand(added));
    assert sampled.calls == s.calls + [ExpandSampled(added)];
    assert Without(sampled.calls, n) == s.calls;
  }

  /** Ranks that calls in flight are going to remove. */
  function Pending(calls: seq<Call>): nat {
    if calls == [] then 0
    else Pending(calls[..|calls| - 1]) + (if calls[|calls| - 1].ExpandSampled? then 0 else calls[|calls| - 1].excluded)
  }

  lemma {:induction false} PendingConcat(a: seq<Call>, b: seq<Call>)
    ensures Pending(a + b) == Pending(a) + Pending(b)
  {
    if b == [] {
      assert a + b == a;
    } else {
      PendingConcat(a, b[..|b| - 1]);
      assert (a + b)[..|a + b| - 1] == a + b[..|b| - 1];
    }
  }

  lemma PendingReplaced(calls: seq<Call>, i: nat, c: Call)
    requires i < |calls|
    ensures Pending(calls[i := c]) == Pending(Without(calls, i)) + Pending([c])
  {
    hide Pending;
    var a, b := calls[..i], calls[i + 1..];
    assert calls[i := c] == a + [c] + b;
    PendingConcat(a + [c], b);
    PendingConcat(a, [c]);
    PendingConcat(a, b);
  }

  lemma PendingAt(calls: seq<Call>, i: nat, c: Call)
    requires i < |calls|
    ensures Pending(calls) == Pending(Without(calls, i)) + Pending([calls[i]])
    ensures Pending(calls[i := c]) == Pending(Without(calls, i)) + Pending([c])
  {
    hide Pending;
    assert calls == calls[i := calls[i]];
    PendingReplaced(calls, i, calls[i]);
    PendingReplaced(calls, i, c);
  }

  /** Every call in flight can still be committed and leave a rank. */
  ghost predicate Solvent(s: RunState) {
    Pending(s.calls) < s.sim.activeRanks
  }

  /** The admitted shrink still leaves a rank once everything in flight is committed. */
  ghost predicate Affordable(s: RunState, section: Section) {
    section.CheckShrink? && section.excluded < s.sim.activeRanks ==>
      Pending(s.calls) + section.excluded as nat < s.sim.activeRanks
  }

  /** At most one shrink in flight: a shrink is admitted only when none is. */
  ghost predicate Alone(s: RunState, section: Section) {
    section.CheckShrink? && section.excluded < s.sim.activeRanks ==>
      forall i :: 0 <= i < |s.calls| ==> s.calls[i].ExpandSampled?
  }

  ghost predicate AlwaysAlone(s: RunState, sections: seq<Section>) {
    sections == [] ||
    (AlwaysAlone(s, sections[..|sections| - 1]) && Alone(Run(s, sections[..|sections| - 1]), sections[|sections| - 1]))
  }

  lemma {:induction false} AloneIsAffordable(s: RunState, section: Section)
    requires Alone(s, section)
    ensures Affordable(s, section)
  {
    if section.CheckShrink? && section.excluded < s.sim.activeRanks {
      NothingPending(s.calls);
    }
  }

  lemma {:induction false} NothingPending(calls: seq<Call>)
    requires forall i :: 0 <= i < |calls| ==> calls[i].ExpandSampled?
    ensures Pending(calls) == 0
  {
    if calls != [] { NothingPending(calls[..|calls| - 1]); }
  }

  /** Ranks present equal ranks at the start, plus those joined, minus those that left. */
  ghost predicate Balanced(s: RunState, worldSize: u32) {
    s.sim.activeRanks as nat + s.left == worldSize as nat + s.joined
  }

  lemma SectionKeepsSolvent(s: RunState, section: Section)
    requires Solvent(s) && Affordable(s, section)
    ensures Solvent(Execute(s, section))
    ensures section.CommitShrink? && Execute(s, section) != s ==>
      Execute(s, section).sim.activeRanks == s.sim.activeRanks - s.calls[section.call].excluded
  {
    match section
    case CheckShrink(e) => PendingConcat(s.calls, [ShrinkAdmitted(e)]);
    case SampleShrink(i) => if i < |s.calls| { PendingAt(s.calls, i, ShrinkSampled(0)); SampleKeepsPending(s, i); }
    case CommitShrink(i) => if i < |s.calls| { PendingAt(s.calls, i, s.calls[i]); }
    case SampleExpand(n) => PendingConcat(s.calls, [ExpandSampled(n)]);
    case CommitExpand(i) => if i < |s.calls| { PendingAt(s.calls, i, s.calls[i]); }
  }

  lemma SampleKeepsPending(s: RunState, i: nat)
    requires i < |s.calls|
    ensures Pending(Execute(s, SampleShrink(i)).calls) == Pending(s.calls)
  {
    if s.calls[i].ShrinkAdmitted? { PendingAt(s.calls, i, ShrinkSampled(s.calls[i].excluded)); }
  }

  lemma SectionKeepsBalance(s: RunState, section: Section, worldSize: u32)
    requires Solvent(s) && Affordable(s, section) && Balanced(s, worldSize)
    requires worldSize as nat + Execute(s, section).joined < TWO_32
    ensures Balanced(Execute(s, section), worldSize)
  {
    SectionKeepsSolvent(s, section);
  }

  lemma {:induction false} JoinedGrows(s: RunState, section: Section)
    ensures s.joined <= Execute(s, section).joined
  {
  }

  /** With at most one shrink in flight and any expands in between, over every run from at least one
      rank: at least one rank stays active, every admitted shrink can be committed without underflow,
      and while the total stays below 2^32 the count is exactly start + joined - left. */
  lemma {:induction false} OneShrinkAtATime(worldSize: u32, seed: u64, sections: seq<Section>)
    requires worldSize >= 1 && AlwaysAlone(Start(worldSize, seed), sections)
    ensures var s := Run(Start(worldSize, seed), sections);
      && s.sim.activeRanks >= 1 && Solvent(s)
      && (worldSize as nat + s.joined < TWO_32 ==> Balanced(s, worldSize))
  {
    if sections != [] {
      var n := |sections| - 1;
      var s, section := Run(Start(worldSize, seed), sections[..n]), sections[n];
      OneShrinkAtATime(worldSize, seed, sections[..n]);
      AloneIsAffordable(s, section);
      SectionKeepsSolvent(s, section);
      JoinedGrows(s, section);
      if worldSize as nat + Execute(s, section).joined < TWO_32 {
        SectionKeepsBalance(s, section, worldSize);
      }
    }
  }

  /** Without that condition it fails: two shrinks of 5 are both admitted on 8 ranks, and the second
      decrement wraps around. */
  lemma TwoShrinksUnderflow(seed: u64)
    ensures var s := Execute(Execute(Start(8, seed), CheckShrink(5)), CheckShrink(5));
      var sampled := Execute(Execute(s, SampleShrink(0)), SampleShrink(1));
      Execute(Execute(sampled, CommitShrink(0)), CommitShrink(0)).sim.activeRanks == 4_294_967_294
  {
    var s := Execute(Execute(Start(8, seed), CheckShrink(5)), CheckShrink(5));
    assert s.calls == [ShrinkAdmitted(5), ShrinkAdmitted(5)];
    var sampled := Execute(Execute(s, SampleShrink(0)), SampleShrink(1));
    assert sampled.calls == [ShrinkSampled(5), ShrinkSampled(5)];
    assert Execute(sampled, CommitShrink(0)).calls == [ShrinkSampled(5)];
  }

  // ---- Exactly when the shrinks in flight are safe ----

  predicate Underflows(s: RunState, section: Section) {
    section.CommitShrink? && section.call < |s.calls| && s.calls[section.call].ShrinkSampled?
    && s.calls[section.call].excluded > s.sim.activeRanks
  }

  /** No decrement underflows and at least one rank is active throughout. */
  predicate SafeRun(s: RunState, sections: seq<Section>)
    decreases |sections|
  {
    && s.sim.activeRanks >= 1
    && (sections == [] || (!Underflows(s, sections[0]) && SafeRun(Execute(s, sections[0]), sections[1..])))
  }

  /** No further shrink is requested. */
  predicate NoNewShrink(sections: seq<Section>) {
    forall i :: 0 <= i < |sections| ==> !sections[i].CheckShrink?
  }

  /** Samples and commits the shrinks among the first `k` calls, last first. */
  function Drain(calls: seq<Call>, k: nat): seq<Section>
    requires k <= |calls|
  {
    if k == 0 then []
    else match calls[k - 1]
      case ExpandSampled(_) => Drain(calls, k - 1)
      case ShrinkAdmitted(_) => [SampleShrink(k - 1), CommitShrink(k - 1)] + Drain(calls, k - 1)
      case ShrinkSampled(_) => [CommitShrink(k - 1)] + Drain(calls, k - 1)
  }

  lemma {:induction false} DrainAsksNoMore(calls: seq<Call>, k: nat)
    requires k <= |calls|
    ensures NoNewShrink(Drain(calls, k))
  {
    if k > 0 { DrainAsksNoMore(calls, k - 1); }
  }

  lemma {:induction false} DrainDependsOnPrefix(calls: seq<Call>, others: seq<Call>, k: nat)
    requires k <= |calls| && k <= |others| && calls[..k] == others[..k]
    ensures Drain(calls, k) == Drain(others, k)
  {
    if k > 0 {
      assert calls[k - 1] == calls[..k][k - 1] == others[k - 1];
      assert calls[..k - 1] == calls[..k][..k - 1] == others[..k - 1];
      DrainDependsOnPrefix(calls, others, k - 1);
    }
  }

  lemma {:induction false} InsolventDrainFails(s: RunState, k: nat)
    requires k <= |s.calls| && Pending(s.calls[..k]) >= s.sim.activeRanks
    ensures !SafeRun(s, Drain(s.calls, k))
    decreases k, 1
  {
    if k > 0 {
      var i, c := k - 1, s.calls[k - 1];
      assert s.calls[..k][..k - 1] == s.calls[..i];
      if c.ExpandSampled? {
        InsolventDrainFails(s, i);
      } else {
        var sampled := if c.ShrinkAdmitted? then Execute(s, SampleShrink(i)) else s;
        CommitFails(s, sampled, i);
        if c.ShrinkAdmitted? {
          assert Drain(s.calls, k)[1..] == [CommitShrink(i)] + Drain(s.calls, i);
        }
      }
    }
  }

  /** The commit of call `i`, once sampled, underflows or leaves an insolvent rest. */
  lemma {:induction false} CommitFails(s: RunState, sampled: RunState, i: nat)
    requires i < |s.calls| && !s.calls[i].ExpandSampled?
    requires Pending(s.calls[..i]) + s.calls[i].excluded as nat >= s.sim.activeRanks
    requires sampled == if s.calls[i].ShrinkAdmitted? then Execute(s, SampleShrink(i)) else s
    ensures !SafeRun(sampled, [CommitShrink(i)] + Drain(s.calls, i))
    decreases i + 1, 0
  {
    var run := [CommitShrink(i)] + Drain(s.calls, i);
    assert run[1..] == Drain(s.calls, i);
    if !Underflows(sampled, CommitShrink(i)) {
      var rest := Execute(sampled, CommitShrink(i));
      assert rest.calls[..i] == s.calls[..i];
      DrainDependsOnPrefix(rest.calls, s.calls, i);
      InsolventDrainFails(rest, i);
    }
  }

  lemma {:induction false} SolventIsSafe(s: RunState, sections: seq<Section>)
    requires Solvent(s) && NoNewShrink(sections)
    ensures SafeRun(s, sections)
    decreases |sections|
  {
    if sections != [] {
      SectionKeepsSolvent(s, sections[0]);
      if sections[0].CommitShrink? && sections[0].call < |s.calls| {
        PendingAt(s.calls, sections[0].call, s.calls[sections[0].call]);
      }
      SolventIsSafe(Execute(s, sections[0]), sections[1..]);
    }
  }

  /** The shrinks in flight are safe under every further interleaving, as long as no new one is asked
      for, exactly when their total is below the number of active ranks. */
  lemma SafeExactlyWhenSolvent(s: RunState)
    ensures (forall sections :: NoNewShrink(sections) ==> SafeRun(s, sections)) <==> Solvent(s)
  {
    if Solvent(s) {
      forall sections | NoNewShrink(sections) ensures SafeRun(s, sections) {
        SolventIsSafe(s, sections);
      }
    } else {
      assert s.calls[..|s.calls|] == s.calls;
      DrainAsksNoMore(s.calls, |s.calls|);
      InsolventDrainFails(s, |s.calls|);
    }
  }
}
