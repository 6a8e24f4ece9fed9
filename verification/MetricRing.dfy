/** The fixed-capacity ring of telemetry samples. */
module MetricRings {
  import opened Wrappers
  import opened Powers

  datatype MetricSample = MetricSample(gpuId: string, timestampNs: nat, readings: seq<real>)

  function Min(a: nat, b: nat): nat {
    if a < b then a else b
  }

  /** The last `n` elements, or all of them if there are fewer. */
  function Latest<T>(s: seq<T>, n: nat): seq<T> {
    s[|s| - Min(n, |s|)..]
  }

  // ---- Remainders ----

  /** Positions less than `m` apart fall into different slots. */
  lemma SlotsDiffer(a: nat, b: nat, m: nat)
    requires a < b < a + m
    ensures a % m != b % m
  {
    var d, r := b - a, a % m;
    ModAdd(a, d, m);
    if r + d < m {
      DivisionUnique(r + d, m, 0, r + d);
    } else {
      DivisionUnique(r + d, m, 1, r + d - m);
    }
  }

  /** The slot of a position: indices are taken modulo the capacity. */
  function Slot(j: nat, capacity: nat): (r: nat)
    requires capacity > 0
    ensures r < capacity
  {
    j % capacity
  }

  class MetricRing {
    const capacity: nat
    const buf: array<Option<MetricSample>>
    var head: nat
    var len: nat
    /** Every sample ever pushed. */
    ghost var history: seq<MetricSample>

    ghost predicate Valid()
      reads this, buf
    {
      && capacity > 0 && buf.Length == capacity
      && head == Slot(|history|, capacity)
      && len == Min(|history|, capacity)
      && (forall j :: |history| - len <= j < |history| ==> buf[Slot(j, capacity)] == Some(history[j]))
    }

    constructor (capacity: nat)
      requires capacity > 0
      ensures Valid() && history == [] && this.capacity == capacity && fresh(buf)
    {
      this.capacity := capacity;
      buf := new Option<MetricSample>[capacity](_ => None);
      head, len, history := 0, 0, [];
    }

    /** The oldest sample of a full ring is overwritten. */
    method Push(sample: MetricSample)
      requires Valid()
      modifies this, buf
      ensures Valid() && history == old(history) + [sample]
    {
      ghost var n := |history|;
      forall j | n - len <= j < n && j + capacity > n ensures Slot(j, capacity) != head {
        SlotsDiffer(j, n, capacity);
      }
      buf[head] := Some(sample);
      ModAdd(n, 1, capacity);
      head := Slot(head + 1, capacity);
      if len < capacity {
        len := len + 1;
      }
      history := history + [sample];
    }

    /** The slot that the window reads for the `i`-th stored sample holds that sample. */
    lemma SlotHolds(i: nat)
      requires Valid() && i < len
      ensures buf[Slot(Slot(head + capacity - len, capacity) + i, capacity)] == Some(history[|history| - len + i])
    {
      hide Slot;
      SlotOf(|history|, len, i, capacity);
    }

    /** The most recent samples, oldest first; no slot in the window is ever empty. */
    method Window(n: nat) returns (samples: seq<MetricSample>)
      requires Valid()
      ensures samples == Latest(history, Min(n, capacity))
      ensures |samples| <= n && |samples| <= capacity && |samples| <= |history|
      ensures |samples| == n || |samples| == capacity || |samples| == |history|
      ensures forall i :: 0 <= i < |samples| ==> samples[i] == history[|history| - |samples| + i]
    {
      hide Slot;
      var take := Min(n, len);
      samples := [];
      if take == 0 {
        return;
      }
      var oldest := Slot(head + capacity - len, capacity);
      var skip := len - take;
      ghost var from := |history| - take;
      for i := 0 to take
        invariant samples == history[from..from + i]
      {
        SlotHolds(skip + i);
        assert oldest + skip + i == oldest + (skip + i);
        var slot := buf[Slot(oldest + skip + i, capacity)];
        if slot.Some? {
          samples := samples + [slot.value];
        }
      }
    }
  }

  /** Reading backwards from the head finds the slot that position `n - len + i` was written to. */
  lemma SlotOf(n: nat, len: nat, i: nat, capacity: nat)
    requires capacity > 0 && len <= n && len <= capacity && i < len
    ensures Slot(Slot(Slot(n, capacity) + capacity - len, capacity) + i, capacity) == Slot(n - len + i, capacity)
  {
    ModAdd(n, capacity - len, capacity);
    ModSkip(n - len, capacity);
    assert (n % capacity + capacity - len) % capacity == (n - len) % capacity;
    ModAdd(n - len, i, capacity);
  }
}
