/** The telemetry store: one ring per GPU, refining the log of everything ingested. */
module TelemetryStores {
  import opened Sequences
  import opened MetricRings

  /** 60 minutes of samples at 10 Hz. */
  const WINDOW: nat := 36_000

  /** The samples of one GPU, in order of ingestion. */
  function OfGpu(log: seq<MetricSample>, gpuId: string): seq<MetricSample> {
    if log == [] then []
    else
      var n := |log| - 1;
      OfGpu(log[..n], gpuId) + (if log[n].gpuId == gpuId then [log[n]] else [])
  }

  /** `ps` are the positions of the GPU's samples in the log, in order. */
  ghost predicate PositionsOf(log: seq<MetricSample>, gpuId: string, ps: seq<nat>) {
    Increasing(ps) && forall i: nat :: i in ps <==> i < |log| && log[i].gpuId == gpuId
  }

  /** The entries of `all` stand in the log at the positions `ps`. */
  ghost predicate StandsAt(log: seq<MetricSample>, all: seq<MetricSample>, ps: seq<nat>) {
    |all| == |ps| && forall k :: 0 <= k < |ps| ==> ps[k] < |log| && all[k] == log[ps[k]]
  }

  lemma {:induction false} FindPositions(log: seq<MetricSample>, gpuId: string) returns (ps: seq<nat>)
    ensures PositionsOf(log, gpuId, ps) && StandsAt(log, OfGpu(log, gpuId), ps)
  {
    if log == [] {
      ps := [];
    } else {
      hide PositionsOf, StandsAt;
      var n := |log| - 1;
      ps := FindPositions(log[..n], gpuId);
      OnePosition(log[..n], log[n], gpuId, OfGpu(log[..n], gpuId), ps);
      assert log == log[..n] + [log[n]];
      if log[n].gpuId == gpuId {
        ps := ps + [n];
      } else {
        assert OfGpu(log[..n], gpuId) + [] == OfGpu(log[..n], gpuId);
      }
    }
  }

  lemma OnePosition(log: seq<MetricSample>, sample: MetricSample, gpuId: string, all: seq<MetricSample>, ps: seq<nat>)
    requires PositionsOf(log, gpuId, ps) && StandsAt(log, all, ps)
    ensures sample.gpuId == gpuId ==>
      PositionsOf(log + [sample], gpuId, ps + [|log|]) && StandsAt(log + [sample], all + [sample], ps + [|log|])
    ensures sample.gpuId != gpuId ==> PositionsOf(log + [sample], gpuId, ps) && StandsAt(log + [sample], all, ps)
  {
    assert forall k :: 0 <= k < |ps| ==> ps[k] in ps;
  }

  lemma LatestStands(log: seq<MetricSample>, all: seq<MetricSample>, ps: seq<nat>, n: nat)
    requires StandsAt(log, all, ps)
    ensures var samples := Latest(all, Min(n, WINDOW));
      && |samples| <= n && |samples| <= 36_000 && |samples| <= |ps|
      && (|samples| == n || |samples| == 36_000 || |samples| == |ps|)
      && (forall i :: 0 <= i < |samples| ==>
            var j := |ps| - |samples| + i; ps[j] < |log| && samples[i] == log[ps[j]])
  {
  }

  /** GPUs that have sent a sample. */
  ghost function Seen(log: seq<MetricSample>): set<string> {
    set i | 0 <= i < |log| :: log[i].gpuId
  }

  lemma {:induction false} OfGpuMembers(log: seq<MetricSample>, gpuId: string)
    ensures forall i :: 0 <= i < |OfGpu(log, gpuId)| ==> OfGpu(log, gpuId)[i].gpuId == gpuId
    ensures OfGpu(log, gpuId) != [] <==> gpuId in Seen(log)
  {
    if log != [] {
      var n := |log| - 1;
      OfGpuMembers(log[..n], gpuId);
      assert Seen(log) == Seen(log[..n]) + {log[n].gpuId} by {
        assert log == log[..n] + [log[n]];
      }
    } else {
      assert Seen(log) == {};
    }
  }

  lemma NothingSent(log: seq<MetricSample>, gpuId: string, n: nat)
    requires gpuId !in Seen(log)
    ensures Latest(OfGpu(log, gpuId), Min(n, WINDOW)) == []
  {
    OfGpuMembers(log, gpuId);
  }

  /** The last sample that the GPU has sent. */
  ghost predicate NewestOf(log: seq<MetricSample>, gpuId: string, sample: MetricSample) {
    exists i :: 0 <= i < |log| && log[i] == sample && sample.gpuId == gpuId && forall j :: i < j < |log| ==>
      log[j].gpuId != gpuId
  }

  lemma {:induction false} NewestIsLast(log: seq<MetricSample>, gpuId: string)
    requires gpuId in Seen(log)
    ensures Latest(OfGpu(log, gpuId), 1) != [] && NewestOf(log, gpuId, Latest(OfGpu(log, gpuId), 1)[0])
  {
    OfGpuMembers(log, gpuId);
    var n := |log| - 1;
    if log[n].gpuId == gpuId {
      assert log[n] == log[n];
    } else {
      assert gpuId in Seen(log[..n]) by { assert log == log[..n] + [log[n]]; }
      NewestIsLast(log[..n], gpuId);
      var sample := Latest(OfGpu(log, gpuId), 1)[0];
      var i :| 0 <= i < n && log[..n][i] == sample && sample.gpuId == gpuId && forall j :: i < j < n ==>
        log[..n][j].gpuId != gpuId;
      forall j | i < j < |log| ensures log[j].gpuId != gpuId {
        if j < n { assert log[j] == log[..n][j]; }
      }
      assert log[i] == sample;
    }
  }

  lemma OneMore(log: seq<MetricSample>, sample: MetricSample)
    ensures Seen(log + [sample]) == Seen(log) + {sample.gpuId}
    ensures forall g :: OfGpu(log + [sample], g) == OfGpu(log, g) + (if g == sample.gpuId then [sample] else [])
  {
    var all := log + [sample];
    assert all[..|log|] == log;
    assert forall i :: 0 <= i < |log| ==> all[i] == log[i];
    assert all[|log|] == sample;
  }

  /** The members of a set, each once, in an arbitrary order. */
  method Enumeration(s: set<string>) returns (ids: seq<string>)
    ensures Distinct(ids) && Elems(ids) == s
  {
    ids := [];
    var rest := s;
    while rest != {}
      invariant rest <= s && Distinct(ids)
      invariant Elems(ids) == s - rest
      invariant forall id :: id in ids ==> id !in rest
      decreases |rest|
    {
      var id :| id in rest;
      assert Elems(ids + [id]) == Elems(ids) + {id};
      ids := ids + [id];
      rest := rest - {id};
    }
  }

  class TelemetryStore {
    var rings: map<string, MetricRing>
    /** Every sample ever ingested, from all GPUs. */
    ghost var log: seq<MetricSample>

    /** Each GPU seen has its own ring, whose history is that GPU's part of the log. */
    ghost predicate Valid()
      reads this, set g | g in rings :: rings[g], set g | g in rings :: rings[g].buf
    {
      && rings.Keys == Seen(log)
      && (forall g :: g in rings ==>
        rings[g].Valid() && rings[g].capacity == WINDOW && rings[g].history == OfGpu(log, g))
      && (forall g, h :: g in rings && h in rings && g != h ==> rings[g] != rings[h] && rings[g].buf != rings[h].buf)
    }

    constructor ()
      ensures Valid() && log == []
    {
      rings, log := map[], [];
    }

    method Ingest(sample: MetricSample)
      requires Valid()
      modifies this, set g | g in rings :: rings[g], set g | g in rings :: rings[g].buf
      ensures Valid() && log == old(log) + [sample]
    {
      hide Seen, OfGpu, MetricRing.Valid;
      var id := sample.gpuId;
      if id !in rings {
        OfGpuMembers(log, id);
        var ring := new MetricRing(WINDOW);
        rings := rings[id := ring];
      }
      rings[id].Push(sample);
      OneMore(log, sample);
      log := log + [sample];
    }

    /** The last samples of a GPU in the whole log, oldest first; nothing for an unknown GPU. */
    method Window(gpuId: string, n: nat) returns (samples: seq<MetricSample>, ghost ps: seq<nat>)
      requires Valid()
      ensures samples == Latest(OfGpu(log, gpuId), Min(n, WINDOW))
      ensures PositionsOf(log, gpuId, ps)
      ensures |samples| <= n && |samples| <= 36_000 && |samples| <= |ps|
      ensures |samples| == n || |samples| == 36_000 || |samples| == |ps|
      ensures forall i :: 0 <= i < |samples| ==>
        var j := |ps| - |samples| + i; ps[j] < |log| && samples[i] == log[ps[j]]
    {
      hide OfGpu, PositionsOf, StandsAt, Latest, Seen;
      ps := FindPositions(log, gpuId);
      LatestStands(log, OfGpu(log, gpuId), ps, n);
      if gpuId !in rings {
        NothingSent(log, gpuId, n);
        return [], ps;
      }
      samples := rings[gpuId].Window(n);
    }

    method GpuIds() returns (ids: seq<string>)
      requires Valid()
      ensures Distinct(ids) && Elems(ids) == Seen(log)
    {
      ids := Enumeration(rings.Keys);
    }

    /** The cluster snapshot: the newest sample of every GPU that has sent one, each exactly once. */
    method LatestSamples() returns (ids: seq<string>, latest: seq<MetricSample>)
      requires Valid()
      ensures Distinct(ids) && Elems(ids) == Seen(log) && |latest| == |ids|
      ensures forall i :: 0 <= i < |ids| ==> NewestOf(log, ids[i], latest[i])
    {
      hide Seen, OfGpu, NewestOf;
      ids := GpuIds();
      latest := [];
      for i := 0 to |ids|
        invariant |latest| == i
        invariant forall k :: 0 <= k < i ==> NewestOf(log, ids[k], latest[k])
      {
        assert ids[i] in Elems(ids);
        NewestIsLast(log, ids[i]);
        var samples, _ := Window(ids[i], 1);
        if samples != [] {
          latest := latest + [samples[0]];
        }
      }
    }
  }
}
