/** What the NVLink clique search computes, and why it misses nothing. */
module CliqueSearch {
  import opened Wrappers
  import opened Sequences
  import opened ClusterTopology

  predicate Extends(t: Topology, current: seq<nat>, v: nat, minBw: real) {
    forall i :: 0 <= i < |current| ==> HasNvlink(t, current[i], v, minBw)
  }

  /** Plain include-or-exclude enumeration, with no pruning: the first completion of `current` to
      `target` GPUs drawn from `candidates`. */
  function FirstClique(t: Topology, candidates: seq<nat>, target: nat, minBw: real, current: seq<nat>): Option<seq<nat>>
    decreases |candidates|
  {
    if |current| == target then Some(current)
    else if candidates == [] then None
    else
      var v, rest := candidates[0], candidates[1..];
      var including :=
        if Extends(t, current, v, minBw) then FirstClique(t, rest, target, minBw, current + [v]) else None;
      if including.Some? then including else FirstClique(t, rest, target, minBw, current)
  }

  function FindClique(t: Topology, size: nat, minBw: real): Option<seq<nat>> {
    FirstClique(t, HealthyIndices(t), size, minBw, [])
  }

  /** The pruning test of the search never discards an answer. */
  lemma {:induction false} PruningIsSafe(t: Topology, candidates: seq<nat>, target: nat, minBw: real, current: seq<nat>)
    requires |current| + |candidates| < target
    ensures FirstClique(t, candidates, target, minBw, current) == None
    decreases |candidates|
  {
    if candidates != [] {
      PruningIsSafe(t, candidates[1..], target, minBw, current + [candidates[0]]);
      PruningIsSafe(t, candidates[1..], target, minBw, current);
    }
  }

  /** An increasing index sequence whose members form a clique. */
  ghost predicate CliqueSeq(t: Topology, s: seq<nat>, minBw: real) {
    && Increasing(s)
    && AllUsable(t, s)
    && (forall i, j :: 0 <= i < j < |s| ==> HasNvlink(t, s[i], s[j], minBw))
  }

  ghost predicate LexLeq(a: seq<nat>, b: seq<nat>) {
    a == b || exists k :: 0 <= k < |a| && k < |b| && a[..k] == b[..k] && a[k] < b[k]
  }

  /** `s` completes `current` with members of `candidates`. */
  ghost predicate Completes(s: seq<nat>, current: seq<nat>, candidates: seq<nat>) {
    && |current| <= |s| && s[..|current|] == current
    && (forall i :: |current| <= i < |s| ==> s[i] in candidates)
  }

  ghost predicate Beyond(current: seq<nat>, candidates: seq<nat>) {
    forall i, j :: 0 <= i < |current| && 0 <= j < |candidates| ==> current[i] < candidates[j]
  }

  lemma ExtendKeepsClique(t: Topology, candidates: seq<nat>, minBw: real, current: seq<nat>)
    requires Increasing(candidates) && AllUsable(t, candidates) && Beyond(current, candidates) && candidates != []
    requires CliqueSeq(t, current, minBw) && Extends(t, current, candidates[0], minBw)
    ensures CliqueSeq(t, current + [candidates[0]], minBw) && Beyond(current + [candidates[0]], candidates[1..])
  {
    hide HasNvlink;
  }

  lemma RestCandidates(t: Topology, candidates: seq<nat>, current: seq<nat>)
    requires Increasing(candidates) && AllUsable(t, candidates) && Beyond(current, candidates) && candidates != []
    ensures Increasing(candidates[1..]) && AllUsable(t, candidates[1..]) && Beyond(current, candidates[1..])
  {
  }

  lemma CompletesEarlier(s: seq<nat>, current: seq<nat>, candidates: seq<nat>)
    requires candidates != []
    ensures Completes(s, current + [candidates[0]], candidates[1..]) ==>
      Completes(s, current, candidates) && s[|current|] == candidates[0]
    ensures Completes(s, current, candidates[1..]) ==> Completes(s, current, candidates)
  {
    var k := |current|;
    if Completes(s, current + [candidates[0]], candidates[1..]) {
      assert s[..k] == s[..k + 1][..k] && s[k] == s[..k + 1][k];
    }
  }

  lemma {:induction false} FirstCliqueSound(t: Topology, candidates: seq<nat>, target: nat, minBw: real,
      current: seq<nat>)
    requires Increasing(candidates) && AllUsable(t, candidates) && Beyond(current, candidates)
    requires CliqueSeq(t, current, minBw)
    ensures var r := FirstClique(t, candidates, target, minBw, current);
      r.Some? ==> CliqueSeq(t, r.value, minBw) && |r.value| == target && Completes(r.value, current, candidates)
    decreases |candidates|
  {
    hide CliqueSeq, Extends, Beyond, AllUsable, Increasing;
    if |current| != target && candidates != [] {
      var v, rest := candidates[0], candidates[1..];
      RestCandidates(t, candidates, current);
      FirstCliqueSound(t, rest, target, minBw, current);
      CompletesBoth(t, candidates, target, minBw, current);
      if Extends(t, current, v, minBw) {
        ExtendKeepsClique(t, candidates, minBw, current);
        FirstCliqueSound(t, rest, target, minBw, current + [v]);
      }
    }
  }

  lemma CompletesBoth(t: Topology, candidates: seq<nat>, target: nat, minBw: real, current: seq<nat>)
    requires candidates != []
    ensures forall s :: Completes(s, current + [candidates[0]], candidates[1..]) ==> Completes(s, current, candidates)
    ensures forall s :: Completes(s, current, candidates[1..]) ==> Completes(s, current, candidates)
  {
    forall s {
      CompletesEarlier(s, current, candidates);
    }
  }

  /** When the next member of a completion is the next candidate, that candidate is admitted. */
  lemma CompletionTakes(t: Topology, candidates: seq<nat>, minBw: real, current: seq<nat>, s: seq<nat>)
    requires Increasing(candidates) && candidates != []
    requires CliqueSeq(t, s, minBw) && Completes(s, current, candidates)
    requires |current| < |s| && s[|current|] == candidates[0]
    ensures Extends(t, current, candidates[0], minBw)
    ensures Completes(s, current + [candidates[0]], candidates[1..])
  {
    var k := |current|;
    forall i | 0 <= i < k ensures HasNvlink(t, current[i], candidates[0], minBw) {
      assert s[i] == s[..k][i];
    }
    forall i | k + 1 <= i < |s| ensures s[i] in candidates[1..] {
      assert s[i] in candidates && s[i] > s[k];
    }
    assert s[..k + 1] == current + [candidates[0]];
  }

  /** Otherwise the completion lies among the later candidates. */
  lemma CompletionSkips(t: Topology, candidates: seq<nat>, minBw: real, current: seq<nat>, s: seq<nat>)
    requires Increasing(candidates) && candidates != []
    requires CliqueSeq(t, s, minBw) && Completes(s, current, candidates)
    requires |current| < |s| && s[|current|] != candidates[0]
    ensures candidates[0] < s[|current|]
    ensures Completes(s, current, candidates[1..])
  {
    var k := |current|;
    assert s[k] in candidates;
    forall i | k <= i < |s| ensures s[i] in candidates[1..] {
      assert s[i] in candidates && s[i] >= s[k];
    }
  }

  lemma EarlierChoiceIsLess(r: seq<nat>, s: seq<nat>, current: seq<nat>, v: nat)
    requires |current| < |r| && |current| < |s|
    requires r[..|current| + 1] == current + [v] && s[..|current|] == current && v < s[|current|]
    ensures LexLeq(r, s)
  {
    var k := |current|;
    assert r[..k] == r[..k + 1][..k] == s[..k];
    assert r[k] == r[..k + 1][k];
  }

  lemma {:induction false} FirstCliqueLeast(
      t: Topology, candidates: seq<nat>, target: nat, minBw: real, current: seq<nat>, s: seq<nat>)
    requires Increasing(candidates) && AllUsable(t, candidates) && Beyond(current, candidates)
    requires CliqueSeq(t, current, minBw)
    requires CliqueSeq(t, s, minBw) && |s| == target && Completes(s, current, candidates)
    ensures var r := FirstClique(t, candidates, target, minBw, current);
      r.Some? && LexLeq(r.value, s)
    decreases |candidates|
  {
    var k := |current|;
    if k == target {
      assert s == current;
    } else {
      assert s[k] in candidates;
      var v, rest := candidates[0], candidates[1..];
      assert AllUsable(t, rest) && Increasing(rest) && Beyond(current, rest);
      if s[k] == v {
        CompletionTakes(t, candidates, minBw, current, s);
        assert Beyond(current + [v], rest);
        FirstCliqueLeast(t, rest, target, minBw, current + [v], s);
      } else {
        CompletionSkips(t, candidates, minBw, current, s);
        FirstCliqueLeast(t, rest, target, minBw, current, s);
        if Extends(t, current, v, minBw) {
          FirstCliqueSound(t, rest, target, minBw, current + [v]);
          var r := FirstClique(t, rest, target, minBw, current + [v]);
          if r.Some? {
            EarlierChoiceIsLess(r.value, s, current, v);
          }
        }
      }
    }
  }

  lemma CliqueSeqOfSet(t: Topology, S: set<nat>, minBw: real) returns (s: seq<nat>)
    requires IsClique(t, S, minBw)
    ensures CliqueSeq(t, s, minBw) && |s| == |S|
    ensures forall v :: v in s <==> v in S
  {
    s := Enumerate(S, |t.nodes|);
    forall i, j | 0 <= i < j < |s| ensures HasNvlink(t, s[i], s[j], minBw) {
      assert s[i] in S && s[j] in S && s[i] != s[j];
    }
    forall i | 0 <= i < |s| ensures Usable(t, s[i]) {
      assert s[i] in S;
    }
  }

  lemma CliqueSetOfSeq(t: Topology, s: seq<nat>, minBw: real)
    requires CliqueSeq(t, s, minBw)
    ensures IsClique(t, Elems(s), minBw) && |Elems(s)| == |s|
  {
    DistinctSize(s);
    forall a, b | a in Elems(s) && b in Elems(s) && a != b ensures HasNvlink(t, a, b, minBw) {
      var i :| 0 <= i < |s| && s[i] == a;
      var j :| 0 <= j < |s| && s[j] == b;
      NvlinkSymmetric(t, s[if i < j then i else j], s[if i < j then j else i], minBw);
    }
  }

  lemma NvlinkSymmetric(t: Topology, a: nat, b: nat, minBw: real)
    requires HasNvlink(t, a, b, minBw)
    ensures HasNvlink(t, b, a, minBw)
  {
    var k :| 0 <= k < |t.edges| && NvlinkBetween(t.edges[k], a, b, minBw);
    assert NvlinkBetween(t.edges[k], b, a, minBw);
  }

  /** The search is exact: it answers with a clique of the requested size, the first in index
      order, and gives up only when the cluster holds no such clique at all. */
  lemma FindCliqueExact(t: Topology, size: nat, minBw: real)
    ensures var r := FindClique(t, size, minBw);
      && (r.Some? <==> exists S :: IsClique(t, S, minBw) && |S| == size)
      && (r.Some? ==> CliqueSeq(t, r.value, minBw) && |r.value| == size
                      && IsClique(t, Elems(r.value), minBw) && |Elems(r.value)| == size)
      && (r.Some? ==> forall s :: CliqueSeq(t, s, minBw) && |s| == size ==> LexLeq(r.value, s))
  {
    var r, all := FindClique(t, size, minBw), HealthyIndices(t);
    assert AllUsable(t, all) by {
      forall i | 0 <= i < |all| ensures Usable(t, all[i]) { assert all[i] in all; }
    }
    FirstCliqueSound(t, all, size, minBw, []);
    if r.Some? {
      CliqueSetOfSeq(t, r.value, minBw);
    }
    forall s | CliqueSeq(t, s, minBw) && |s| == size ensures r.Some? && LexLeq(r.value, s) {
      FirstCliqueLeast(t, all, size, minBw, [], s);
    }
    if S :| IsClique(t, S, minBw) && |S| == size {
      var s := CliqueSeqOfSet(t, S, minBw);
      assert CliqueSeq(t, s, minBw) && |s| == size;
    }
  }

  /** No clique of the same size begins before the answer does. */
  lemma CliqueFromFirst(t: Topology, s: seq<nat>, minBw: real)
    requires CliqueSeq(t, s, minBw) && |s| >= 1
    ensures var r := FindClique(t, |s|, minBw);
      r.Some? && CliqueSeq(t, r.value, minBw) && |r.value| == |s| && LexLeq(r.value, s) && r.value[0] <= s[0]
  {
    hide FindClique, CliqueSeq, IsClique;
    CliqueSetOfSeq(t, s, minBw);
    FindCliqueExact(t, |s|, minBw);
  }

  /** A rejection survives any later failures. */
  lemma RejectionPersists(t: Topology, u: Topology, size: nat, minBw: real)
    requires Degraded(t, u)
    requires FindClique(t, size, minBw) == None
    ensures FindClique(u, size, minBw) == None
  {
    FindCliqueExact(t, size, minBw);
    FindCliqueExact(u, size, minBw);
    if S :| IsClique(u, S, minBw) && |S| == size {
      forall v | v in S ensures Usable(t, v) { assert Usable(u, v); }
      forall a, b | a in S && b in S && a != b ensures HasNvlink(t, a, b, minBw) {
        assert HasNvlink(u, a, b, minBw);
      }
      assert IsClique(t, S, minBw);
    }
  }
}
