/** The recursive-descent parser of the topology DSL, on a token sequence with a moving cursor. */
module Parser {
  import opened Wrappers
  import opened MachineInts
  import opened TopologySpecs
  import opened Lexer

  predicate IsConstraint(t: Token) {
    t.NvlWord? || t.IbWord? || t.NumaWord?
  }

  function ConstraintOf(t: Token): Constraint
    requires IsConstraint(t)
  {
    match t
    case NvlWord(bw) => NvlMin(bw)
    case IbWord(h) => IbMax(h)
    case NumaWord => Numa
  }

  function DimOf(kw: Token, degree: u32): ParallelDim
    requires IsKeyword(kw)
  {
    match kw
    case KwTp => Tp(degree)
    case KwPp => Pp(degree)
    case KwDp => Dp(degree)
  }

  // ---- What each parsing function reads from position `at`, and where it stops ----

  datatype Reading<+T> = Reading(value: T, next: nat)

  function ReadConstraints(ts: seq<Token>, at: nat): (r: Reading<seq<Constraint>>)
    requires at <= |ts|
    ensures at <= r.next <= |ts|
    decreases |ts| - at
  {
    if at == |ts| || !IsConstraint(ts[at]) then Reading([], at)
    else
      var more := ReadConstraints(ts, at + 1);
      Reading([ConstraintOf(ts[at])] + more.value, more.next)
  }

  function ReadAtom(ts: seq<Token>, at: nat): (r: Option<Reading<TopologySpec>>)
    requires at <= |ts|
    ensures r.Some? ==> at < r.value.next <= |ts|
  {
    if at + 1 >= |ts| || !IsKeyword(ts[at]) || !ts[at + 1].Number? then None
    else
      var cs := ReadConstraints(ts, at + 2);
      Some(Reading(Atom(DimOf(ts[at], ts[at + 1].degree), cs.value), cs.next))
  }

  function ReadAlternative(ts: seq<Token>, at: nat): (r: Option<Reading<TopologySpec>>)
    requires at <= |ts|
    ensures r.Some? ==> at < r.value.next <= |ts|
  {
    var first := ReadAtom(ts, at);
    if first.None? || first.value.next == |ts| || ts[first.value.next] != Plus then first
    else
      var second := ReadAtom(ts, first.value.next + 1);
      if second.None? then None
      else Some(Reading(Conjunction(first.value.value, second.value.value), second.value.next))
  }

  /** Further alternatives, each preceded by `|`, added to those in `alts`. */
  function ReadMore(ts: seq<Token>, at: nat, alts: seq<TopologySpec>): (r: Option<Reading<seq<TopologySpec>>>)
    requires at <= |ts|
    ensures r.Some? ==> at <= r.value.next <= |ts| && |r.value.value| >= |alts|
    decreases |ts| - at
  {
    if at == |ts| || ts[at] != Pipe then Some(Reading(alts, at))
    else
      var alt := ReadAlternative(ts, at + 1);
      if alt.None? then None else ReadMore(ts, alt.value.next, alts + [alt.value.value])
  }

  function AsSpec(alts: seq<TopologySpec>): TopologySpec
    requires alts != []
  {
    if |alts| == 1 then alts[0] else Disjunction(alts)
  }

  function ReadSpec(ts: seq<Token>, at: nat): (r: Option<Reading<TopologySpec>>)
    requires at <= |ts|
    ensures r.Some? ==> at < r.value.next <= |ts|
  {
    var first := ReadAlternative(ts, at);
    if first.None? then None
    else
      var alts := ReadMore(ts, first.value.next, [first.value.value]);
      if alts.None? then None else Some(Reading(AsSpec(alts.value.value), alts.value.next))
  }

  /** The spec a token sequence denotes: one is read from the front and nothing is left over. */
  function SpecOf(ts: seq<Token>): Option<TopologySpec> {
    var r := ReadSpec(ts, 0);
    if r.Some? && r.value.next == |ts| then Some(r.value.value) else None
  }

  function Accepted(input: string): Option<TopologySpec> {
    match Tokenise(input)
    case Ok(tokens) => SpecOf(tokens)
    case Err(_) => None
  }

  // ---- The parser ----

  class Cursor {
    var at: nat

    constructor ()
      ensures at == 0
    {
      at := 0;
    }
  }

  /** A parsing method succeeds exactly when the reading exists, with its value, and then leaves the
      cursor where the reading stops. */
  ghost predicate Agrees<T>(r: Result<T>, at: nat, reading: Option<Reading<T>>) {
    match reading
    case Some(Reading(value, next)) => r == Ok(value) && at == next
    case None => r.Err?
  }

  method ExpectNumber(tokens: seq<Token>, pos: Cursor) returns (r: Result<u32>)
    requires pos.at <= |tokens|
    modifies pos
    ensures r.Ok? <==> old(pos.at) < |tokens| && tokens[old(pos.at)].Number?
    ensures r.Ok? ==> tokens[old(pos.at)] == Number(r.value) && pos.at == old(pos.at) + 1
    ensures r.Err? ==> pos.at == old(pos.at)
  {
    if pos.at < |tokens| && tokens[pos.at].Number? {
      r := Ok(tokens[pos.at].degree);
      pos.at := pos.at + 1;
    } else {
      r := Err("expected degree number");
    }
  }

  method ParseAtom(tokens: seq<Token>, pos: Cursor) returns (r: Result<TopologySpec>)
    requires pos.at <= |tokens|
    modifies pos
    ensures pos.at <= |tokens| && Agrees(r, pos.at, ReadAtom(tokens, old(pos.at)))
  {
    if pos.at == |tokens| || !IsKeyword(tokens[pos.at]) {
      return Err("expected TP/PP/DP");
    }
    var kw := tokens[pos.at];
    pos.at := pos.at + 1;
    var degree := ExpectNumber(tokens, pos);
    if degree.Err? {
      return Err(degree.error);
    }
    var constraints: seq<Constraint> := [];
    ghost var all := ReadConstraints(tokens, pos.at);
    while pos.at < |tokens| && IsConstraint(tokens[pos.at])
      invariant pos.at <= |tokens|
      invariant all.next == ReadConstraints(tokens, pos.at).next
      invariant all.value == constraints + ReadConstraints(tokens, pos.at).value
      decreases |tokens| - pos.at
    {
      constraints := constraints + [ConstraintOf(tokens[pos.at])];
      pos.at := pos.at + 1;
    }
    assert all.value == constraints + [] == constraints;
    return Ok(Atom(DimOf(kw, degree.value), constraints));
  }

  method ParseConjunction(tokens: seq<Token>, pos: Cursor) returns (r: Result<TopologySpec>)
    requires pos.at <= |tokens|
    modifies pos
    ensures pos.at <= |tokens| && Agrees(r, pos.at, ReadAlternative(tokens, old(pos.at)))
  {
    var first := ParseAtom(tokens, pos);
    if first.Ok? && pos.at < |tokens| && tokens[pos.at] == Plus {
      pos.at := pos.at + 1;
      var second := ParseAtom(tokens, pos);
      if second.Err? {
        return second;
      }
      return Ok(Conjunction(first.value, second.value));
    }
    return first;
  }

  method ParseDisjunction(tokens: seq<Token>, pos: Cursor) returns (r: Result<TopologySpec>)
    requires pos.at <= |tokens|
    modifies pos
    ensures pos.at <= |tokens| && Agrees(r, pos.at, ReadSpec(tokens, old(pos.at)))
  {
    var first := ParseConjunction(tokens, pos);
    if first.Err? {
      return first;
    }
    var alts := [first.value];
    ghost var all := ReadMore(tokens, pos.at, alts);
    while pos.at < |tokens| && tokens[pos.at] == Pipe
      invariant pos.at <= |tokens| && alts != []
      invariant all == ReadMore(tokens, pos.at, alts)
      decreases |tokens| - pos.at
    {
      pos.at := pos.at + 1;
      var alt := ParseConjunction(tokens, pos);
      if alt.Err? {
        return alt;
      }
      alts := alts + [alt.value];
    }
    return Ok(AsSpec(alts));
  }

  /** The letters that exist beyond ASCII make no difference. */
  method Parse(input: string, letters: set<char>) returns (r: Result<TopologySpec>)
    requires BeyondAscii(letters)
    ensures match Accepted(input) case Some(spec) => r == Ok(spec) case None => r.Err?
  {
    OtherLettersRejected(input, letters);
    var tokens := Lex(input, letters);
    if tokens.Err? {
      return Err(tokens.error);
    }
    var pos := new Cursor();
    r := ParseDisjunction(tokens.value, pos);
    if r.Ok? && pos.at != |tokens.value| {
      return Err("unexpected tokens");
    }
  }
}
