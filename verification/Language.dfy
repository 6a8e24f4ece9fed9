/** The exact language of the topology DSL: which strings parse, into which spec, and that printing
    a spec and parsing it again gives it back. */
module Language {
  import opened Wrappers
  import opened TopologySpecs
  import opened Lexer
  import opened Parser

  // ---- Tokens of a spec: the grammar, with at most one `+` per alternative ----

  function KeywordOf(dim: ParallelDim): Token {
    match dim
    case Tp(_) => KwTp
    case Pp(_) => KwPp
    case Dp(_) => KwDp
  }

  function ConstraintToken(c: Constraint): Token {
    match c
    case NvlMin(bw) => NvlWord(bw)
    case IbMax(h) => IbWord(h)
    case Numa => NumaWord
  }

  function ConstraintTokens(cs: seq<Constraint>): (r: seq<Token>)
    ensures |r| == |cs|
  {
    seq(|cs|, i requires 0 <= i < |cs| => ConstraintToken(cs[i]))
  }

  function AtomTokens(spec: TopologySpec): (r: seq<Token>)
    ensures |r| == AtomLength(spec)
  {
    match spec
    case Atom(dim, constraints) => [KeywordOf(dim), Number(dim.degree)] + ConstraintTokens(constraints)
    case _ => []
  }

  function AlternativeTokens(spec: TopologySpec): (r: seq<Token>)
    ensures |r| == AlternativeLength(spec)
  {
    match spec
    case Conjunction(l, r) => AtomTokens(l) + [Plus] + AtomTokens(r)
    case _ => AtomTokens(spec)
  }

  function MoreTokens(alts: seq<TopologySpec>): seq<Token> {
    if alts == [] then [] else [Pipe] + AlternativeTokens(alts[0]) + MoreTokens(alts[1..])
  }

  function AtomLength(spec: TopologySpec): nat {
    if spec.Atom? then 2 + |spec.constraints| else 0
  }

  function AlternativeLength(spec: TopologySpec): nat {
    if spec.Conjunction? then AtomLength(spec.left) + 1 + AtomLength(spec.right) else AtomLength(spec)
  }

  ghost predicate AllAlternatives(alts: seq<TopologySpec>) {
    forall i :: 0 <= i < |alts| ==> AlternativeShape(alts[i])
  }

  function Alternatives(spec: TopologySpec): (alts: seq<TopologySpec>)
    requires ParserShape(spec)
    ensures alts != [] && AsSpec(alts) == spec && AllAlternatives(alts)
  {
    if spec.Disjunction? then spec.alts else [spec]
  }

  function SpecTokens(spec: TopologySpec): seq<Token>
    requires ParserShape(spec)
  {
    var alts := Alternatives(spec);
    AlternativeTokens(alts[0]) + MoreTokens(alts[1..])
  }

  // ---- The same tokens, position by position ----

  ghost predicate ConstraintsAt(ts: seq<Token>, at: nat, cs: seq<Constraint>) {
    at + |cs| <= |ts| && forall i :: 0 <= i < |cs| ==> ts[at + i] == ConstraintToken(cs[i])
  }

  ghost predicate AtomAt(ts: seq<Token>, at: nat, spec: TopologySpec) {
    && spec.Atom? && at + 1 < |ts|
    && ts[at] == KeywordOf(spec.dim) && ts[at + 1] == Number(spec.dim.degree)
    && ConstraintsAt(ts, at + 2, spec.constraints)
  }

  ghost predicate AlternativeAt(ts: seq<Token>, at: nat, spec: TopologySpec) {
    match spec
    case Conjunction(l, r) =>
      var plus := at + AtomLength(l);
      AtomAt(ts, at, l) && plus < |ts| && ts[plus] == Plus && AtomAt(ts, plus + 1, r)
    case _ => AtomAt(ts, at, spec)
  }

  /** The alternatives stand in `ts` from `at` to its end, each after a `|`. */
  ghost predicate MoreAt(ts: seq<Token>, at: nat, alts: seq<TopologySpec>)
    decreases |alts|
  {
    if alts == [] then at == |ts|
    else
      && at < |ts| && ts[at] == Pipe && AlternativeAt(ts, at + 1, alts[0])
      && MoreAt(ts, at + 1 + AlternativeLength(alts[0]), alts[1..])
  }

  ghost predicate AlternativesFill(ts: seq<Token>, alts: seq<TopologySpec>) {
    alts != [] && AlternativeAt(ts, 0, alts[0]) && MoreAt(ts, AlternativeLength(alts[0]), alts[1..])
  }

  // ---- Reading positions ----

  predicate Ends(ts: seq<Token>, at: nat) {
    at >= |ts| || !IsConstraint(ts[at])
  }

  predicate EndsAlternative(ts: seq<Token>, at: nat) {
    at >= |ts| || (!IsConstraint(ts[at]) && ts[at] != Plus)
  }

  lemma {:induction false} ConstraintsExact(ts: seq<Token>, at: nat)
    requires at <= |ts|
    ensures var r := ReadConstraints(ts, at);
      r.next == at + |r.value| && ConstraintsAt(ts, at, r.value) && Ends(ts, r.next)
    decreases |ts| - at
  {
    if at < |ts| && IsConstraint(ts[at]) {
      ConstraintsExact(ts, at + 1);
      var more, cs := ReadConstraints(ts, at + 1).value, ReadConstraints(ts, at).value;
      forall i | 0 <= i < |cs| ensures ts[at + i] == ConstraintToken(cs[i]) {
        if i > 0 { assert ts[at + 1 + (i - 1)] == ConstraintToken(more[i - 1]); }
      }
    }
  }

  lemma {:induction false} ConstraintsUnique(ts: seq<Token>, at: nat, cs: seq<Constraint>)
    requires ConstraintsAt(ts, at, cs) && Ends(ts, at + |cs|)
    ensures ReadConstraints(ts, at) == Reading(cs, at + |cs|)
    decreases |cs|
  {
    if cs != [] {
      assert ts[at + 0] == ConstraintToken(cs[0]);
      forall i | 0 <= i < |cs[1..]| ensures ts[at + 1 + i] == ConstraintToken(cs[1..][i]) {
        assert ts[at + (i + 1)] == ConstraintToken(cs[i + 1]);
      }
      ConstraintsUnique(ts, at + 1, cs[1..]);
      assert cs == [cs[0]] + cs[1..];
    }
  }

  lemma AtomExact(ts: seq<Token>, at: nat)
    requires at <= |ts|
    ensures var r := ReadAtom(ts, at);
      r.Some? ==>
        && AtomAt(ts, at, r.value.value) && r.value.next == at + AtomLength(r.value.value)
        && Ends(ts, r.value.next)
  {
    if ReadAtom(ts, at).Some? {
      ConstraintsExact(ts, at + 2);
    }
  }

  lemma AtomUnique(ts: seq<Token>, at: nat, spec: TopologySpec)
    requires AtomAt(ts, at, spec) && Ends(ts, at + AtomLength(spec))
    ensures ReadAtom(ts, at) == Some(Reading(spec, at + AtomLength(spec)))
  {
    ConstraintsUnique(ts, at + 2, spec.constraints);
  }

  lemma AlternativeExact(ts: seq<Token>, at: nat)
    requires at <= |ts|
    ensures var r := ReadAlternative(ts, at);
      r.Some? ==> AlternativeShape(r.value.value) && AlternativeAt(ts, at, r.value.value)
                  && r.value.next == at + AlternativeLength(r.value.value)
  {
    AtomExact(ts, at);
    var first := ReadAtom(ts, at);
    if first.Some? && first.value.next < |ts| && ts[first.value.next] == Plus {
      AtomExact(ts, first.value.next + 1);
    }
  }

  lemma AlternativeUnique(ts: seq<Token>, at: nat, spec: TopologySpec)
    requires AlternativeShape(spec) && AlternativeAt(ts, at, spec) && EndsAlternative(ts, at + AlternativeLength(spec))
    ensures ReadAlternative(ts, at) == Some(Reading(spec, at + AlternativeLength(spec)))
  {
    if spec.Atom? {
      AtomUnique(ts, at, spec);
    } else {
      AtomUnique(ts, at, spec.left);
      AtomUnique(ts, at + AtomLength(spec.left) + 1, spec.right);
    }
  }

  lemma {:induction false} MoreExact(ts: seq<Token>, at: nat, alts: seq<TopologySpec>)
      returns (added: seq<TopologySpec>)
    requires at <= |ts| && ReadMore(ts, at, alts).Some? && ReadMore(ts, at, alts).value.next == |ts|
    ensures ReadMore(ts, at, alts).value.value == alts + added
    ensures MoreAt(ts, at, added) && AllAlternatives(added)
    decreases |ts| - at
  {
    hide AlternativeAt;
    if at == |ts| || ts[at] != Pipe {
      added := [];
    } else {
      AlternativeExact(ts, at + 1);
      var alt := ReadAlternative(ts, at + 1).value;
      var more := MoreExact(ts, alt.next, alts + [alt.value]);
      added := [alt.value] + more;
      assert alts + [alt.value] + more == alts + added;
      assert added[1..] == more;
    }
  }

  lemma {:induction false} MoreUnique(ts: seq<Token>, at: nat, alts: seq<TopologySpec>, added: seq<TopologySpec>)
    requires MoreAt(ts, at, added) && AllAlternatives(added)
    ensures at <= |ts| && ReadMore(ts, at, alts) == Some(Reading(alts + added, |ts|))
    ensures EndsAlternative(ts, at)
    decreases |added|
  {
    if added == [] {
      assert alts + added == alts;
    } else {
      MoreUnique(ts, at + 1 + AlternativeLength(added[0]), alts + [added[0]], added[1..]);
      AlternativeUnique(ts, at + 1, added[0]);
      assert alts + [added[0]] + added[1..] == alts + added;
    }
  }

  lemma FilledMeansRead(ts: seq<Token>, alts: seq<TopologySpec>)
    requires AllAlternatives(alts) && AlternativesFill(ts, alts)
    ensures SpecOf(ts) == Some(AsSpec(alts))
  {
    MoreUnique(ts, AlternativeLength(alts[0]), [alts[0]], alts[1..]);
    AlternativeUnique(ts, 0, alts[0]);
    assert [alts[0]] + alts[1..] == alts;
  }

  lemma ReadMeansFilled(ts: seq<Token>) returns (alts: seq<TopologySpec>)
    requires SpecOf(ts).Some?
    ensures AllAlternatives(alts) && AlternativesFill(ts, alts) && SpecOf(ts) == Some(AsSpec(alts))
  {
    AlternativeExact(ts, 0);
    var first := ReadAlternative(ts, 0).value;
    var added := MoreExact(ts, first.next, [first.value]);
    alts := [first.value] + added;
    assert alts[1..] == added;
  }

  // ---- Positions and token sequences agree ----

  lemma AtomStands(before: seq<Token>, spec: TopologySpec, after: seq<Token>)
    requires spec.Atom?
    ensures AtomAt(before + AtomTokens(spec) + after, |before|, spec)
  {
    var ts, cs := before + AtomTokens(spec) + after, spec.constraints;
    forall i | 0 <= i < |cs| ensures ts[|before| + 2 + i] == ConstraintToken(cs[i]) {
      assert ts[|before| + 2 + i] == AtomTokens(spec)[2 + i] == ConstraintTokens(cs)[i];
    }
  }

  lemma RegroupPair(a: seq<Token>, b: seq<Token>, sep: Token, c: seq<Token>, d: seq<Token>)
    ensures a + (b + [sep] + c) + d == a + b + ([sep] + c + d) == (a + b + [sep]) + c + d
    ensures (a + (b + [sep] + c) + d)[|a| + |b|] == sep
  {
  }

  lemma AlternativeStands(before: seq<Token>, spec: TopologySpec, after: seq<Token>)
    requires AlternativeShape(spec)
    ensures AlternativeAt(before + AlternativeTokens(spec) + after, |before|, spec)
  {
    hide AtomAt, AtomTokens;
    if spec.Atom? {
      AtomStands(before, spec, after);
    } else {
      var l, r := AtomTokens(spec.left), AtomTokens(spec.right);
      RegroupPair(before, l, Plus, r, after);
      AtomStands(before, spec.left, [Plus] + r + after);
      AtomStands(before + l + [Plus], spec.right, after);
    }
  }

  lemma Regroup(a: seq<Token>, b: seq<Token>, c: seq<Token>, d: seq<Token>)
    ensures a + (b + c + d) == (a + b) + c + d == (a + b + c) + d
  {
  }

  lemma MoreAtStep(ts: seq<Token>, at: nat, alts: seq<TopologySpec>)
    requires alts != [] && at < |ts| && ts[at] == Pipe && AlternativeAt(ts, at + 1, alts[0])
    requires MoreAt(ts, at + 1 + AlternativeLength(alts[0]), alts[1..])
    ensures MoreAt(ts, at, alts)
  {
  }

  /** The tokens of `alts` split at the end of the first alternative. */
  lemma MoreTokensSplit(before: seq<Token>, alts: seq<TopologySpec>)
    requires alts != []
    ensures var upto := before + [Pipe]; var head := AlternativeTokens(alts[0]);
      && before + MoreTokens(alts) == upto + head + MoreTokens(alts[1..])
      && (before + MoreTokens(alts))[|before|] == Pipe
  {
    Regroup(before, [Pipe], AlternativeTokens(alts[0]), MoreTokens(alts[1..]));
  }

  lemma {:induction false} MoreStands(ts: seq<Token>, before: seq<Token>, alts: seq<TopologySpec>)
    requires AllAlternatives(alts) && ts == before + MoreTokens(alts)
    ensures MoreAt(ts, |before|, alts)
    decreases |alts|
  {
    hide AlternativeAt, AlternativeTokens;
    if alts != [] {
      var upto, head := before + [Pipe], AlternativeTokens(alts[0]);
      MoreTokensSplit(before, alts);
      AlternativeStands(upto, alts[0], MoreTokens(alts[1..]));
      MoreStands(ts, upto + head, alts[1..]);
      MoreAtStep(ts, |before|, alts);
    }
  }

  lemma TokensFill(alts: seq<TopologySpec>)
    requires AllAlternatives(alts) && alts != []
    ensures AlternativesFill(AlternativeTokens(alts[0]) + MoreTokens(alts[1..]), alts)
  {
    var head, rest := AlternativeTokens(alts[0]), MoreTokens(alts[1..]);
    assert [] + head + rest == head + rest;
    AlternativeStands([], alts[0], rest);
    MoreStands(head + rest, head, alts[1..]);
  }

  /** Both sequences hold the same tokens from `at` up to `to`. */
  ghost predicate SameBetween(ts: seq<Token>, us: seq<Token>, at: nat, to: nat) {
    to <= |ts| && to <= |us| && forall i :: at <= i < to ==> ts[i] == us[i]
  }

  lemma AtomDetermines(ts: seq<Token>, us: seq<Token>, at: nat, spec: TopologySpec)
    requires AtomAt(ts, at, spec) && AtomAt(us, at, spec)
    ensures SameBetween(ts, us, at, at + AtomLength(spec))
  {
    forall i | at + 2 <= i < at + AtomLength(spec) ensures ts[i] == us[i] {
      var k := i - (at + 2);
      assert ts[at + 2 + k] == ConstraintToken(spec.constraints[k]) == us[at + 2 + k];
    }
  }

  lemma AlternativeDetermines(ts: seq<Token>, us: seq<Token>, at: nat, spec: TopologySpec)
    requires AlternativeAt(ts, at, spec) && AlternativeAt(us, at, spec)
    ensures SameBetween(ts, us, at, at + AlternativeLength(spec))
  {
    if spec.Conjunction? {
      AtomDetermines(ts, us, at, spec.left);
      AtomDetermines(ts, us, at + AtomLength(spec.left) + 1, spec.right);
    } else {
      AtomDetermines(ts, us, at, spec);
    }
  }

  lemma {:induction false} MoreDetermines(ts: seq<Token>, us: seq<Token>, at: nat, alts: seq<TopologySpec>)
    requires MoreAt(ts, at, alts) && MoreAt(us, at, alts)
    ensures |ts| == |us| && SameBetween(ts, us, at, |ts|)
    decreases |alts|
  {
    if alts != [] {
      AlternativeDetermines(ts, us, at + 1, alts[0]);
      MoreDetermines(ts, us, at + 1 + AlternativeLength(alts[0]), alts[1..]);
    }
  }

  lemma FillDetermines(ts: seq<Token>, us: seq<Token>, alts: seq<TopologySpec>)
    requires AlternativesFill(ts, alts) && AlternativesFill(us, alts)
    ensures ts == us
  {
    AlternativeDetermines(ts, us, 0, alts[0]);
    MoreDetermines(ts, us, AlternativeLength(alts[0]), alts[1..]);
  }

  /** A token sequence parses into a spec exactly when it is that spec's token sequence: the parser
      accepts the implemented grammar and nothing else, derivations are unique, and every token is used. */
  lemma TokenLanguage(ts: seq<Token>, spec: TopologySpec)
    ensures SpecOf(ts) == Some(spec) <==> ParserShape(spec) && ts == SpecTokens(spec)
  {
    if SpecOf(ts) == Some(spec) {
      var alts := ReadMeansFilled(ts);
      assert ParserShape(spec) && Alternatives(spec) == alts;
      TokensFill(alts);
      FillDetermines(ts, SpecTokens(spec), alts);
    }
    if ParserShape(spec) {
      TokensFill(Alternatives(spec));
      FilledMeansRead(SpecTokens(spec), Alternatives(spec));
    }
  }
}
