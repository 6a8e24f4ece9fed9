/** The training hook: a listener thread that raises a flag, and training steps that test and clear it
    under a lock before they call for a shrink. Threads interleave between any two operations. */
module TrainingHook {
  import opened Wrappers
  import opened Sequences

  const THRESHOLD: real := 0.95

  /** Where a stepping thread is: outside `step`; holding the lock before its test, before its clear,
      or after it; past the lock and about to call; inside the call. */
  datatype Pc = Outside | Testing | Clearing | Leaving | Calling | InCall

  /** A shrink call: when it began, and the events whose flag it took. */
  datatype ShrinkCall = ShrinkCall(beganAt: nat, events: set<nat>)

  /** The program's state is `flag`, `lock` and `pcs`. The rest is history: a clock, when each
      high-confidence event arrived, the events raised since the last clear, the events each thread
      has taken without having called yet, and the calls begun. */
  datatype HookState = HookState(
    flag: bool, lock: Option<nat>, pcs: map<nat, Pc>,
    clock: nat, arrivals: seq<nat>, waiting: set<nat>, taken: map<nat, set<nat>>, calls: seq<ShrinkCall>)

  const INITIAL := HookState(false, None, map[], 0, [], {}, map[], [])

  datatype Action =
    | Receive(confidence: real)
    | Acquire(thread: nat)
    | Test(thread: nat)
    | Clear(thread: nat)
    | Unlock(thread: nat)
    | Begin(thread: nat)
    | End(thread: nat)

  function PcOf(s: HookState, i: nat): Pc {
    if i in s.pcs then s.pcs[i] else Outside
  }

  /** One operation of one thread; an operation the thread is not at does nothing but pass time. */
  function Execute(s: HookState, action: Action): HookState {
    var t := s.(clock := s.clock + 1);
    match action
    case Receive(confidence) =>
      if confidence >= THRESHOLD
      then t.(flag := true, arrivals := s.arrivals + [s.clock], waiting := s.waiting + {|s.arrivals|})
      else t
    case Acquire(i) =>
      if s.lock == None && PcOf(s, i) == Outside then t.(lock := Some(i), pcs := s.pcs[i := Testing]) else t
    case Test(i) =>
      if PcOf(s, i) != Testing then t
      else if s.flag then t.(pcs := s.pcs[i := Clearing])
      else t.(lock := None, pcs := s.pcs[i := Outside])
    case Clear(i) =>
      if PcOf(s, i) == Clearing
      then t.(flag := false, pcs := s.pcs[i := Leaving], taken := s.taken[i := s.waiting], waiting := {})
      else t
    case Unlock(i) =>
      if PcOf(s, i) == Leaving then t.(lock := None, pcs := s.pcs[i := Calling]) else t
    case Begin(i) =>
      if PcOf(s, i) == Calling && i in s.taken
      then t.(pcs := s.pcs[i := InCall], calls := s.calls + [ShrinkCall(s.clock, s.taken[i])], taken := s.taken - {i})
      else t
    case End(i) =>
      if PcOf(s, i) == InCall then t.(pcs := s.pcs[i := Outside]) else t
  }

  function Run(actions: seq<Action>): HookState {
    if actions == [] then INITIAL else Execute(Run(actions[..|actions| - 1]), actions[|actions| - 1])
  }

  // ---- What every run keeps ----

  predicate Holds(pc: Pc) {
    pc == Testing || pc == Clearing || pc == Leaving
  }

  /** The lock excludes: exactly its holder is inside the critical section. */
  ghost predicate LockInv(s: HookState) {
    forall i: nat :: Holds(PcOf(s, i)) <==> s.lock == Some(i)
  }

  /** The flag is up exactly while events wait, and stays up under a thread that is about to clear it. */
  ghost predicate FlagInv(s: HookState) {
    && (s.flag <==> s.waiting != {})
    && (forall i: nat :: PcOf(s, i) == Clearing ==> s.flag)
    && (forall i: nat :: i in s.taken <==> PcOf(s, i) == Leaving || PcOf(s, i) == Calling)
    && (forall i :: i in s.taken ==> s.taken[i] != {})
  }

  /** Where an event is: waiting, taken by a thread, or served by a call. */
  datatype Place = Waiting | TakenBy(thread: nat) | ServedBy(call: nat)

  ghost predicate At(s: HookState, e: nat, p: Place) {
    match p
    case Waiting => e in s.waiting
    case TakenBy(i) => i in s.taken && e in s.taken[i]
    case ServedBy(k) => k < |s.calls| && e in s.calls[k].events
  }

  ghost predicate Somewhere(s: HookState, e: nat) {
    exists p :: At(s, e, p)
  }

  /** Every event is at exactly one place, and nothing else is anywhere. */
  ghost predicate PlaceInv(s: HookState) {
    && (forall e: nat, p :: At(s, e, p) ==> e < |s.arrivals|)
    && (forall e: nat, p, q :: At(s, e, p) && At(s, e, q) ==> p == q)
    && (forall e: nat :: e < |s.arrivals| ==> Somewhere(s, e))
  }

  /** Calls serve at least one event each, and only events that arrived before them. */
  ghost predicate TimeInv(s: HookState) {
    && (forall e :: 0 <= e < |s.arrivals| ==> s.arrivals[e] < s.clock)
    && (forall k :: 0 <= k < |s.calls| ==> s.calls[k].events != {})
    && (forall k, e: nat :: 0 <= k < |s.calls| && e in s.calls[k].events && e < |s.arrivals| ==>
      s.arrivals[e] < s.calls[k].beganAt)
  }

  ghost predicate Inv(s: HookState) {
    LockInv(s) && FlagInv(s) && PlaceInv(s) && TimeInv(s)
  }

  lemma LockStep(s: HookState, action: Action)
    requires LockInv(s)
    ensures LockInv(Execute(s, action))
  {
    var t := Execute(s, action);
    if !action.Receive? {
      assert Holds(PcOf(s, action.thread)) <==> s.lock == Some(action.thread);
      forall i: nat ensures Holds(PcOf(t, i)) <==> t.lock == Some(i) {
        assert Holds(PcOf(s, i)) <==> s.lock == Some(i);
        assert i != action.thread ==> PcOf(t, i) == PcOf(s, i);
      }
    } else {
      forall i: nat ensures Holds(PcOf(t, i)) <==> t.lock == Some(i) {
        assert PcOf(t, i) == PcOf(s, i);
      }
    }
  }

  lemma FlagStep(s: HookState, action: Action)
    requires LockInv(s) && FlagInv(s)
    ensures FlagInv(Execute(s, action))
  {
    var t := Execute(s, action);
    if action.Receive? {
      assert forall i: nat :: PcOf(t, i) == PcOf(s, i);
      if action.confidence >= THRESHOLD { assert |s.arrivals| in t.waiting; }
    } else {
      var j := action.thread;
      assert Holds(PcOf(s, j)) <==> s.lock == Some(j);
      forall i: nat ensures i != j ==> PcOf(t, i) == PcOf(s, i) && (i in t.taken <==> i in s.taken) { }
      forall i: nat ensures PcOf(t, i) == Clearing ==> t.flag {
        assert Holds(PcOf(s, i)) <==> s.lock == Some(i);
      }
    }
  }

  /** Where an event moves: a clear takes what waits, and a call serves what its thread took. */
  function Moved(s: HookState, action: Action, p: Place): Place {
    match action
    case Clear(i) => if PcOf(s, i) == Clearing && p == Waiting then TakenBy(i) else p
    case Begin(i) => if PcOf(s, i) == Calling && i in s.taken && p == TakenBy(i) then ServedBy(|s.calls|) else p
    case _ => p
  }

  lemma EventsMove(s: HookState, action: Action, e: nat, p: Place)
    requires LockInv(s) && FlagInv(s) && PlaceInv(s) && e < |s.arrivals| && At(s, e, p)
    ensures At(Execute(s, action), e, Moved(s, action, p))
  {
  }

  lemma EventsCome(s: HookState, action: Action, e: nat, q: Place)
    requires LockInv(s) && FlagInv(s) && PlaceInv(s) && At(Execute(s, action), e, q)
    ensures (exists p :: At(s, e, p) && q == Moved(s, action, p))
         || (e == |s.arrivals| && q == Waiting && action.Receive? && action.confidence >= THRESHOLD)
  {
    match action
    case Clear(i) =>
      if PcOf(s, i) == Clearing && q == TakenBy(i) { assert At(s, e, Waiting); } else { assert At(s, e, q); }
    case Begin(i) =>
      if PcOf(s, i) == Calling && i in s.taken && q == ServedBy(|s.calls|) {
        assert At(s, e, TakenBy(i));
      } else {
        assert At(s, e, q);
      }
    case Receive(c) => if e != |s.arrivals| || q != Waiting || c < THRESHOLD { assert At(s, e, q); }
    case _ => assert At(s, e, q);
  }

  lemma PlaceStep(s: HookState, action: Action)
    requires LockInv(s) && FlagInv(s) && PlaceInv(s)
    ensures PlaceInv(Execute(s, action))
  {
    var t := Execute(s, action);
    hide LockInv, FlagInv;
    forall e: nat, q | At(t, e, q) ensures e < |t.arrivals| {
      EventsCome(s, action, e, q);
    }
    forall e: nat, q, r | At(t, e, q) && At(t, e, r) ensures q == r {
      EventsCome(s, action, e, q);
      EventsCome(s, action, e, r);
    }
    forall e: nat | e < |t.arrivals| ensures Somewhere(t, e) {
      if e < |s.arrivals| {
        assert Somewhere(s, e);
        var p :| At(s, e, p);
        EventsMove(s, action, e, p);
      } else {
        assert At(t, e, Waiting);
      }
    }
  }

  lemma TimeStep(s: HookState, action: Action)
    requires Inv(s)
    ensures TimeInv(Execute(s, action))
  {
    var t := Execute(s, action);
    forall k, e: nat | 0 <= k < |t.calls| && e in t.calls[k].events && e < |t.arrivals|
      ensures t.arrivals[e] < t.calls[k].beganAt
    {
      if k < |s.calls| {
        assert At(s, e, ServedBy(k));
      } else {
        assert At(s, e, TakenBy(action.thread));
      }
    }
  }

  lemma {:induction false} InvAlways(actions: seq<Action>)
    ensures Inv(Run(actions))
  {
    if actions != [] {
      var s, action := Run(actions[..|actions| - 1]), actions[|actions| - 1];
      InvAlways(actions[..|actions| - 1]);
      LockStep(s, action);
      FlagStep(s, action);
      PlaceStep(s, action);
      TimeStep(s, action);
    } else {
      assert PlaceInv(INITIAL);
    }
  }

  // ---- Events and calls, read off the actions ----

  /** The `i`-th action is a high-confidence prediction. */
  predicate High(actions: seq<Action>, i: nat) {
    i < |actions| && actions[i].Receive? && actions[i].confidence >= 0.95
  }

  /** The `j`-th action begins a shrink call. */
  predicate Calls(actions: seq<Action>, j: nat) {
    j < |actions| && actions[j].Begin? && PcOf(Run(actions[..j]), actions[j].thread) == Calling
  }

  lemma PrefixHigh(actions: seq<Action>, n: nat, i: nat)
    requires n <= |actions|
    ensures High(actions[..n], i) <==> i < n && High(actions, i)
  {
  }

  lemma PrefixCalls(actions: seq<Action>, n: nat, j: nat)
    requires n <= |actions|
    ensures Calls(actions[..n], j) <==> j < n && Calls(actions, j)
  {
    if j < n { assert actions[..n][..j] == actions[..j]; }
  }

  /** The recorded arrivals are exactly the high-confidence predictions, whatever the threads are doing. */
  lemma {:induction false} ArrivalsExact(actions: seq<Action>)
    ensures var s := Run(actions);
      s.clock == |actions| && Increasing(s.arrivals) && forall i: nat :: i in s.arrivals <==> High(actions, i)
  {
    if actions != [] {
      var n := |actions| - 1;
      ArrivalsExact(actions[..n]);
      var s, t := Run(actions[..n]), Run(actions);
      assert forall k :: 0 <= k < |s.arrivals| ==> s.arrivals[k] in s.arrivals;
      forall i: nat { PrefixHigh(actions, n, i); }
      assert t.arrivals == if High(actions, n) then s.arrivals + [n] else s.arrivals;
    }
  }

  ghost predicate BeginsAt(calls: seq<ShrinkCall>, j: nat) {
    exists k :: 0 <= k < |calls| && calls[k].beganAt == j
  }

  ghost predicate OneByOne(calls: seq<ShrinkCall>) {
    forall k, l :: 0 <= k < l < |calls| ==> calls[k].beganAt < calls[l].beganAt
  }

  /** The recorded calls are exactly the actions that begin one. */
  lemma {:induction false} CallsExact(actions: seq<Action>)
    ensures forall j: nat :: Calls(actions, j) <==> BeginsAt(Run(actions).calls, j)
    ensures OneByOne(Run(actions).calls)
  {
    if actions != [] {
      var n := |actions| - 1;
      var s, t := Run(actions[..n]), Run(actions);
      CallsExact(actions[..n]);
      ArrivalsExact(actions[..n]);
      InvAlways(actions[..n]);
      forall j: nat { PrefixCalls(actions, n, j); }
      forall k | 0 <= k < |s.calls| ensures s.calls[k].beganAt < n {
        assert BeginsAt(s.calls, s.calls[k].beganAt);
      }
      CallsGrow(s, actions[n]);
      assert Calls(actions, n) <==> |t.calls| == |s.calls| + 1;
      forall j: nat ensures Calls(actions, j) <==> BeginsAt(t.calls, j) {
        if k :| 0 <= k < |s.calls| && s.calls[k].beganAt == j { assert t.calls[k].beganAt == j; }
        if j == n && Calls(actions, n) { assert t.calls[|s.calls|].beganAt == n; }
      }
    }
  }

  lemma CallsGrow(s: HookState, action: Action)
    requires FlagInv(s)
    ensures var t := Execute(s, action);
      if action.Begin? && PcOf(s, action.thread) == Calling
      then |t.calls| == |s.calls| + 1 && t.calls[..|s.calls|] == s.calls && t.calls[|s.calls|].beganAt == s.clock
      else t.calls == s.calls
  {
  }

  // ---- Main results ----

  /** No event is lost: over every interleaving, each high-confidence prediction is still waiting behind
      a raised flag, or was taken by a thread that is about to call, or was followed by a shrink call that
      took it and began after it arrived. */
  lemma NoEventLost(actions: seq<Action>, i: nat)
    requires High(actions, i)
    ensures var s := Run(actions);
      exists e: nat :: e < |s.arrivals| && s.arrivals[e] == i &&
        (|| (s.flag && e in s.waiting)
         || (exists t :: t in s.taken && e in s.taken[t] && PcOf(s, t) in {Leaving, Calling})
         || (exists k :: 0 <= k < |s.calls| && e in s.calls[k].events && i < s.calls[k].beganAt))
    ensures var s := Run(actions);
      s.flag || (exists t :: PcOf(s, t) in {Leaving, Calling}) || (exists j: nat :: i < j && Calls(actions, j))
  {
    InvAlways(actions);
    ArrivalsExact(actions);
    CallsExact(actions);
    var s := Run(actions);
    assert i in s.arrivals;
    var e: nat :| e < |s.arrivals| && s.arrivals[e] == i;
    assert Somewhere(s, e);
    var p :| At(s, e, p);
    match p
    case Waiting => assert s.flag && e in s.waiting;
    case TakenBy(t) => assert t in s.taken && e in s.taken[t] && PcOf(s, t) in {Leaving, Calling};
    case ServedBy(k) =>
      assert 0 <= k < |s.calls| && e in s.calls[k].events && i < s.calls[k].beganAt;
      assert BeginsAt(s.calls, s.calls[k].beganAt);
  }

  /** No event is served twice: two calls, or a call and a thread about to call, never share one. */
  lemma NoEventDuplicated(actions: seq<Action>, e: nat, p: Place, q: Place)
    requires At(Run(actions), e, p) && At(Run(actions), e, q)
    ensures p == q
  {
    InvAlways(actions);
  }

  ghost function HighSet(actions: seq<Action>): set<nat> {
    set i: nat | i < |actions| && High(actions, i)
  }

  ghost function CallSet(actions: seq<Action>): set<nat> {
    set j: nat | j < |actions| && Calls(actions, j)
  }

  lemma HighSetSize(actions: seq<Action>)
    ensures |HighSet(actions)| == |Run(actions).arrivals|
  {
    hide Run;
    ArrivalsExact(actions);
    DistinctSize(Run(actions).arrivals);
    assert Elems(Run(actions).arrivals) == HighSet(actions);
  }

  lemma CallSetSize(actions: seq<Action>)
    ensures |CallSet(actions)| == |Run(actions).calls|
  {
    CallsExact(actions);
    var begun := BeginTimes(Run(actions).calls);
    hide Run, Calls, BeginsAt;
    DistinctSize(begun);
    CallsInRange(actions);
    assert Elems(begun) == CallSet(actions);
  }

  /** When the calls began. */
  lemma BeginTimes(calls: seq<ShrinkCall>) returns (begun: seq<nat>)
    requires OneByOne(calls)
    ensures |begun| == |calls| && Distinct(begun)
    ensures forall j: nat :: j in begun <==> BeginsAt(calls, j)
  {
    begun := seq(|calls|, k requires 0 <= k < |calls| => calls[k].beganAt);
    forall j: nat ensures j in begun <==> BeginsAt(calls, j) {
      if k :| 0 <= k < |calls| && calls[k].beganAt == j { assert begun[k] == j; }
    }
  }

  lemma CallsInRange(actions: seq<Action>)
    ensures forall j: nat :: Calls(actions, j) ==> j < |actions|
  {
  }

  lemma RecordsWithinEvents(actions: seq<Action>)
    ensures |Run(actions).calls| <= |Run(actions).arrivals|
  {
    InvAlways(actions);
    var s := Run(actions);
    forall j, k, e: nat | 0 <= j < k < |s.calls| && e in s.calls[j].events ensures e !in s.calls[k].events {
      assert At(s, e, ServedBy(j)) && ServedBy(j) != ServedBy(k);
      assert At(s, e, ServedBy(k)) <==> e in s.calls[k].events;
    }
    forall k, e: nat | 0 <= k < |s.calls| && e in s.calls[k].events ensures e in Range(|s.arrivals|) {
      assert At(s, e, ServedBy(k));
    }
    RangeSize(|s.arrivals|);
    DisjointGroups(s.calls, Range(|s.arrivals|));
  }

  /** There are never more shrink calls than high-confidence predictions. */
  lemma CallsWithinEvents(actions: seq<Action>)
    ensures |CallSet(actions)| <= |HighSet(actions)|
  {
    hide CallSet, HighSet, Run;
    HighSetSize(actions);
    CallSetSize(actions);
    RecordsWithinEvents(actions);
  }

  lemma {:induction false} DisjointGroups(calls: seq<ShrinkCall>, all: set<nat>)
    requires forall k :: 0 <= k < |calls| ==> calls[k].events != {}
    requires forall k, e :: 0 <= k < |calls| && e in calls[k].events ==> e in all
    requires forall j, k, e :: 0 <= j < k < |calls| && e in calls[j].events ==> e !in calls[k].events
    ensures |calls| <= |all|
  {
    if calls != [] {
      var n := |calls| - 1;
      var e :| e in calls[n].events;
      forall k, x | 0 <= k < n && x in calls[k].events ensures x in all - {e} { }
      DisjointGroups(calls[..n], all - {e});
    }
  }

  /** A thread enters the critical section exactly when the lock is free, whatever the flag says. */
  lemma LockTaken(s: HookState, i: nat)
    requires PcOf(s, i) == Outside
    ensures var t := Execute(s, Acquire(i));
      if s.lock == None then t.lock == Some(i) && PcOf(t, i) == Testing else t == s.(clock := s.clock + 1)
  {
  }

  /** A step taken on a raised flag, uninterrupted, begins exactly one call that serves everything
      waiting; on a lowered flag it begins none and takes nothing. Either way the thread can step again. */
  lemma StepServesAll(s: HookState, i: nat)
    requires Inv(s) && s.lock == None && PcOf(s, i) == Outside
    ensures var t := Execute(Execute(s, Acquire(i)), Test(i));
      if s.flag then
        var u := Execute(Execute(Execute(t, Clear(i)), Unlock(i)), Begin(i));
        && u.calls == s.calls + [ShrinkCall(s.clock + 4, s.waiting)]
        && !u.flag && u.waiting == {} && u.lock == None && u.taken == s.taken
        && PcOf(u, i) == InCall && PcOf(Execute(u, End(i)), i) == Outside
      else
        t.calls == s.calls && t.taken == s.taken && t.lock == None && PcOf(t, i) == Outside
  {
    assert i !in s.taken;
  }
}
