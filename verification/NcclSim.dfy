/** The simulated communicator backend: its latency samples, its three critical sections, and whole calls. */
module NcclSims {
  import opened MachineInts
  import opened Lcg

  const SHRINK_MEAN_NS: u64 := 4_000_000_000
  const SHRINK_SIGMA_NS: u64 := 500_000_000
  const SHRINK_FLOOR_NS: u64 := 100_000_000
  const TWO_33: nat := 0x2_0000_0000

  /** The latency read off a seed: mean plus the seed's high 31 bits modulo sigma, never below the floor. */
  function DurationNs(seed: u64): u64 {
    var raw := SHRINK_MEAN_NS + (seed / TWO_33) % SHRINK_SIGMA_NS;
    if raw < SHRINK_FLOOR_NS then SHRINK_FLOOR_NS else raw
  }

  /** The latency is 4 s plus the seed's high 31 bits, as nanoseconds modulo half a second. */
  lemma DurationRead(seed: u64, high: nat, low: nat)
    requires seed == 8_589_934_592 * high + low && low < 8_589_934_592
    ensures DurationNs(seed) == 4_000_000_000 + high % 500_000_000
  {
  }

  /** `d` is sampled among the first 2^64 advances from `seed`. */
  ghost predicate Sampled(seed: u64, d: u64) {
    exists n: nat :: 0 < n <= TWO_64 && DurationNs(Advance(seed, n)) == d
  }

  /** From every seed, exactly the latencies in [4.0, 4.5) seconds occur: the jitter is never negative
      and the floor never applies. */
  lemma SampledExactly(seed: u64, d: u64)
    ensures Sampled(seed, d) <==> 4_000_000_000 <= d < 4_500_000_000
  {
    if SHRINK_MEAN_NS <= d < SHRINK_MEAN_NS + SHRINK_SIGMA_NS {
      var y: u64 := (d - SHRINK_MEAN_NS) * TWO_33;
      assert DurationNs(y) == d;
      GeneratorFullPeriod(seed);
      assert Reaches(seed, y);
      var n: nat :| n < TWO_64 && Advance(seed, n) == y;
      var n' := if n == 0 then TWO_64 else n;
      assert Advance(seed, n') == y;
    }
  }

  datatype SimState = SimState(activeRanks: u32, seed: u64)

  function AfterSample(s: SimState): SimState {
    s.(seed := Next(s.seed))
  }

  /** The decrement, in 32-bit arithmetic. */
  function AfterShrink(s: SimState, excluded: u32): SimState {
    s.(activeRanks := WrapU32(s.activeRanks - excluded))
  }

  /** The saturating increment. */
  function AfterExpand(s: SimState, added: u32): SimState {
    s.(activeRanks := if s.activeRanks as nat + added as nat > U32_MAX then U32_MAX else s.activeRanks + added)
  }

  const REFUSAL := "cannot exclude that many ranks"

  datatype Metrics = Metrics(success: bool, durationNs: u64, activeRankCount: u32, error: string)

  class NcclSim {
    var activeRanks: u32
    var seed: u64

    function View(): SimState
      reads this
    {
      SimState(activeRanks, seed)
    }

    constructor (worldSize: u32, seed: u64)
      ensures View() == SimState(worldSize, seed)
    {
      activeRanks, this.seed := worldSize, seed;
    }

    method SeededDurationNs() returns (durationNs: u64)
      modifies this
      ensures View() == AfterSample(old(View())) && durationNs == DurationNs(seed)
      ensures 4_000_000_000 <= durationNs < 4_500_000_000
    {
      seed := Next(seed);
      durationNs := DurationNs(seed);
    }

    // The critical sections of a call; between them other calls may run.

    method CommitShrink(excluded: u32) returns (activeRankCount: u32)
      modifies this
      ensures View() == AfterShrink(old(View()), excluded) && activeRankCount == activeRanks
    {
      activeRanks := WrapU32(activeRanks - excluded);
      activeRankCount := activeRanks;
    }

    method CommitExpand(added: u32) returns (activeRankCount: u32)
      modifies this
      ensures View() == AfterExpand(old(View()), added) && activeRankCount == activeRanks
    {
      var total := activeRanks as nat + added as nat;
      activeRanks := if total > U32_MAX then U32_MAX else total;
      activeRankCount := activeRanks;
    }

    /** A whole shrink call that no other call interrupts: it removes as many ranks as requested, cut to
        32 bits, and leaves at least one, or it fails, says why, and changes nothing. Removed is what was
        asked for exactly when fewer than 2^32 ranks are listed. */
    method Shrink(excludeRanks: seq<u32>) returns (m: Metrics)
      modifies this
      ensures m.success <==> WrapU32(|excludeRanks|) < old(activeRanks)
      ensures m.success ==> activeRanks == old(activeRanks) - WrapU32(|excludeRanks|) && activeRanks >= 1
      ensures m.success ==> (activeRanks == old(activeRanks) as int - |excludeRanks| <==> |excludeRanks| < TWO_32)
      ensures m.success ==> seed == Next(old(seed)) && m.durationNs == DurationNs(seed) > 0
      ensures !m.success ==> View() == old(View()) && m.durationNs == 0
      ensures m.activeRankCount == activeRanks && m.error == if m.success then "" else REFUSAL
    {
      var excluded := WrapU32(|excludeRanks|);
      if excluded >= activeRanks {
        return Metrics(false, 0, activeRanks, REFUSAL);
      }
      var durationNs := SeededDurationNs();
      var activeRankCount := CommitShrink(excluded);
      return Metrics(true, durationNs, activeRankCount, "");
    }

    /** A whole expand call that no other call interrupts. It adds a rank for each GPU exactly when the
        new count fits 32 bits; otherwise the length is cut and the addition saturates. */
    method Expand(newGpuIds: seq<string>) returns (m: Metrics)
      modifies this
      ensures m.success && m.error == "" && m.activeRankCount == activeRanks
      ensures seed == Next(old(seed)) && m.durationNs == DurationNs(seed) > 0
      ensures var total := old(activeRanks) as nat + WrapU32(|newGpuIds|) as nat;
        activeRanks == if total > U32_MAX then U32_MAX else total
      ensures activeRanks == old(activeRanks) as nat + |newGpuIds| <==> old(activeRanks) as nat + |newGpuIds| < TWO_32
    {
      var durationNs := SeededDurationNs();
      var activeRankCount := CommitExpand(WrapU32(|newGpuIds|));
      return Metrics(true, durationNs, activeRankCount, "");
    }
  }
}
