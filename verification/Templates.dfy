/** Template expansion by repeated replacement, in whatever order the parameter map is iterated. */
module Templates {
  import opened Sequences

  /** Every non-overlapping occurrence of `pattern`, from the left, becomes `v`. */
  function Replace(s: string, pattern: string, v: string): string
    requires pattern != ""
  {
    if |s| < |pattern| then s
    else if s[..|pattern|] == pattern then v + Replace(s[|pattern|..], pattern, v)
    else [s[0]] + Replace(s[1..], pattern, v)
  }

  function Token(key: string): string {
    "{{" + key + "}}"
  }

  ghost predicate IsOrder(order: seq<string>, params: map<string, string>) {
    Distinct(order) && Elems(order) == params.Keys && forall k :: k in order ==> k in params
  }

  /** Sequential replacement, one key after the other. */
  function ExpandInOrder(s: string, order: seq<string>, params: map<string, string>): string
    requires forall k :: k in order ==> k in params
  {
    if order == [] then s
    else
      var n := |order| - 1;
      Replace(ExpandInOrder(s, order[..n], params), Token(order[n]), params[order[n]])
  }

  /** The map is iterated in an arbitrary order. */
  method ExpandTemplate(s: string, params: map<string, string>) returns (out: string, ghost order: seq<string>)
    ensures IsOrder(order, params) && out == ExpandInOrder(s, order, params)
    ensures Harmless(params) && IsTemplate(s) ==> out == Substitute(s, params)
  {
    hide Harmless, IsTemplate, Substitute, Replace;
    out, order := s, [];
    var keys := params.Keys;
    while keys != {}
      invariant keys <= params.Keys && Distinct(order)
      invariant Elems(order) == params.Keys - keys
      invariant forall k :: k in order ==> k in params && k !in keys
      invariant out == ExpandInOrder(s, order, params)
      decreases |keys|
    {
      var k :| k in keys;
      out := Replace(out, Token(k), params[k]);
      assert Elems(order + [k]) == Elems(order) + {k};
      assert (order + [k])[..|order|] == order;
      order := order + [k];
      keys := keys - {k};
    }
    if Harmless(params) && IsTemplate(s) {
      Confluent(s, order, params);
    }
  }

  // ---- The simultaneous meaning ----

  predicate BraceFree(s: string) {
    forall i :: 0 <= i < |s| ==> s[i] != '{' && s[i] != '}'
  }

  predicate CleanKeys(params: map<string, string>) {
    forall k :: k in params ==> BraceFree(k)
  }

  // ---- When values can join into a token ----

  function ValuesOf(params: map<string, string>, keys: set<string>): set<string> {
    set k | k in keys && k in params :: params[k]
  }

  /** The rest of a token can be spelled out with values, the last one possibly cut short, and with any
      brace-free text between them. */
  predicate Finishes(rest: string, values: set<string>)
    decreases |rest|
  {
    || rest == ""
    || (exists v :: v in values && rest <= v)
    || (exists v :: v in values && v != "" && v <= rest && Finishes(rest[|v|..], values))
    || (rest[0] != '{' && rest[0] != '}' && Finishes(rest[1..], values))
  }

  predicate StartsToken(tail: string, token: string, values: set<string>) {
    token <= tail || (tail <= token && Finishes(token[|tail|..], values))
  }

  /** Text that holds the token can be put together from values and brace-free text. */
  predicate Assembles(token: string, values: set<string>) {
    exists v, i :: v in values && 0 <= i < |v| && StartsToken(v[i..], token, values)
  }

  /** No parameter's token can be assembled from the other parameters' values, unless the token stands
      for itself. */
  predicate Inert(params: map<string, string>) {
    forall k :: k in params ==> params[k] == Token(k) || !Assembles(Token(k), ValuesOf(params, params.Keys - {k}))
  }

  predicate Harmless(params: map<string, string>) {
    CleanKeys(params) && Inert(params)
  }

  function PlainRun(s: string): (n: nat)
    ensures n <= |s| && BraceFree(s[..n]) && (n < |s| ==> s[n] == '{' || s[n] == '}')
  {
    if s == "" || s[0] == '{' || s[0] == '}' then 0 else
    var n := 1 + PlainRun(s[1..]);
    assert forall i :: 1 <= i < n ==> s[i] == s[1..][..n - 1][i - 1];
    n
  }

  /** The brace-free key of a token at the front of `s`, if one stands there. */
  predicate TokenAhead(s: string) {
    |s| >= 4 && s[..2] == "{{" && var n := PlainRun(s[2..]); n + 4 <= |s| && s[2 + n..4 + n] == "}}"
  }

  function KeyAhead(s: string): string
    requires TokenAhead(s)
  {
    s[2..2 + PlainRun(s[2..])]
  }

  /** One pass over the text: every token whose key has a parameter is replaced, all at once. */
  function Substitute(s: string, params: map<string, string>): string
    decreases |s|
  {
    if s == "" then ""
    else if TokenAhead(s) && KeyAhead(s) in params then params[KeyAhead(s)] + Substitute(s[|KeyAhead(s)| + 4..], params)
    else [s[0]] + Substitute(s[1..], params)
  }

  datatype Piece = Text(text: string) | Hole(key: string)

  function Write(p: Piece): string {
    match p
    case Text(t) => t
    case Hole(k) => Token(k)
  }

  function WriteAll(ps: seq<Piece>): string {
    if ps == [] then "" else Write(ps[0]) + WriteAll(ps[1..])
  }

  predicate PlainPieces(ps: seq<Piece>) {
    forall i :: 0 <= i < |ps| ==> match ps[i] case Text(t) => BraceFree(t) case Hole(k) => BraceFree(k)
  }

  /** Brace-free text interspersed with `{{key}}` tokens. */
  ghost predicate IsTemplate(s: string) {
    exists ps :: PlainPieces(ps) && WriteAll(ps) == s
  }

  function FillPiece(p: Piece, params: map<string, string>): Piece {
    if p.Hole? && p.key in params then Text(params[p.key]) else p
  }

  function Fill(ps: seq<Piece>, params: map<string, string>): (r: seq<Piece>)
    ensures |r| == |ps|
  {
    seq(|ps|, i requires 0 <= i < |ps| => FillPiece(ps[i], params))
  }

  // ---- Replacement on pieces ----

  /** Where `pattern` does not start, one character is copied. */
  lemma OneStep(s: string, pattern: string, v: string)
    requires s != "" && pattern != "" && !(pattern <= s)
    ensures Replace(s, pattern, v) == [s[0]] + Replace(s[1..], pattern, v)
  {
    if |s| >= |pattern| {
      assert s[..|pattern|] != pattern;
    } else {
      assert s == [s[0]] + s[1..];
    }
  }

  lemma {:induction false} ReplaceSkips(t: string, rest: string, pattern: string, v: string)
    requires pattern != "" && pattern[0] == '{' && forall i :: 0 <= i < |t| ==> t[i] != '{'
    ensures Replace(t + rest, pattern, v) == t + Replace(rest, pattern, v)
  {
    hide Replace;
    if t == "" {
      assert t + rest == rest;
    } else {
      var s := t + rest;
      assert s[0] == t[0] && s[1..] == t[1..] + rest;
      OneStep(s, pattern, v);
      ReplaceSkips(t[1..], rest, pattern, v);
      assert [t[0]] + (t[1..] + Replace(rest, pattern, v)) == t + Replace(rest, pattern, v);
    }
  }

  lemma ReplaceHit(k: string, rest: string, v: string)
    ensures Replace(Token(k) + rest, Token(k), v) == v + Replace(rest, Token(k), v)
  {
    var s := Token(k) + rest;
    assert s[..|Token(k)|] == Token(k) && s[|Token(k)|..] == rest;
  }

  lemma TokensDiffer(j: string, k: string, rest: string)
    requires BraceFree(j) && BraceFree(k) && j != k
    ensures !(Token(k) <= Token(j) + rest)
  {
    var s, n, m := Token(j) + rest, |j|, |k|;
    var p := n;
    if m < n {
      p := m;
    } else if n == m {
      assert (forall i :: 0 <= i < n ==> j[i] == k[i]) ==> j == k;
      p :| 0 <= p < n && j[p] != k[p];
    }
    assert s[2 + p] == if p < n then j[p] else '}';
    assert Token(k)[2 + p] == if p < m then k[p] else '}';
    assert s[2 + p] != Token(k)[2 + p];
  }

  lemma {:induction false} ReplacePasses(t: string, rest: string, pattern: string, v: string)
    requires pattern != "" && forall i :: 0 <= i < |t| ==> !(pattern <= (t + rest)[i..])
    ensures Replace(t + rest, pattern, v) == t + Replace(rest, pattern, v)
  {
    hide Replace;
    var s := t + rest;
    if t == "" {
      assert s == rest;
    } else {
      assert s[0..] == s && s[1..] == t[1..] + rest;
      forall i | 0 <= i < |t[1..]| ensures !(pattern <= (t[1..] + rest)[i..]) {
        assert s[i + 1..] == s[1..][i..];
      }
      OneStep(s, pattern, v);
      ReplacePasses(t[1..], rest, pattern, v);
      assert [t[0]] + (t[1..] + Replace(rest, pattern, v)) == t + Replace(rest, pattern, v);
    }
  }

  /** No other token starts anywhere in a token. */
  lemma NoOtherToken(j: string, k: string, rest: string, i: nat)
    requires BraceFree(j) && BraceFree(k) && j != k && i < |Token(j)|
    ensures !(Token(k) <= (Token(j) + rest)[i..])
  {
    var s := Token(j) + rest;
    if i == 0 {
      TokensDiffer(j, k, rest);
      assert s[0..] == s;
    } else {
      assert i == 1 ==> s[i + 1] != '{';
      assert i >= 2 ==> s[i] != '{';
    }
  }

  lemma ReplaceMiss(j: string, k: string, rest: string, v: string)
    requires BraceFree(j) && BraceFree(k) && j != k
    ensures Replace(Token(j) + rest, Token(k), v) == Token(j) + Replace(rest, Token(k), v)
  {
    forall i | 0 <= i < |Token(j)| ensures !(Token(k) <= (Token(j) + rest)[i..]) {
      NoOtherToken(j, k, rest, i);
    }
    ReplacePasses(Token(j), rest, Token(k), v);
  }

  /** Holes with brace-free keys, and text that is brace-free or one of the values. */
  predicate PiecesOver(ps: seq<Piece>, values: set<string>) {
    forall i :: 0 <= i < |ps| ==> match ps[i] case Text(t) => BraceFree(t) || t in values case Hole(k) => BraceFree(k)
  }

  lemma {:induction false} PlainFinishes(u: string, rest: string, values: set<string>)
    requires BraceFree(u) && u <= rest && Finishes(rest[|u|..], values)
    ensures Finishes(rest, values)
    decreases |u|
  {
    if u != "" {
      assert rest[1..][|u[1..]|..] == rest[|u|..];
      PlainFinishes(u[1..], rest[1..], values);
      assert rest[0] == u[0];
    } else {
      assert rest[0..] == rest;
    }
  }

  /** What is left of a token after at least its first brace. */
  ghost predicate TokenRest(k: string, rest: string) {
    exists i :: 1 <= i <= |Token(k)| && rest == Token(k)[i..]
  }

  lemma RestShrinks(k: string, rest: string, n: nat)
    requires TokenRest(k, rest) && n <= |rest|
    ensures TokenRest(k, rest[n..])
    ensures rest != "" ==> rest[|rest| - 1] == '}'
  {
    var i :| 1 <= i <= |Token(k)| && rest == Token(k)[i..];
    assert rest[n..] == Token(k)[i + n..];
  }

  /** The braces of a hole fit no token but the hole itself. */
  lemma HoleClashes(k: string, rest: string, j: string, after: string)
    requires BraceFree(k) && TokenRest(k, rest) && rest != ""
    ensures !(rest <= Token(j) + after)
  {
    var i :| 1 <= i <= |Token(k)| && rest == Token(k)[i..];
    var s := Token(j) + after;
    assert s[0] == '{' && s[1] == '{' && rest[|rest| - 1] == '}';
  }

  lemma TextFinishes(u: string, rest: string, values: set<string>)
    requires rest != "" && rest[|rest| - 1] == '}' && (BraceFree(u) || u in values)
    requires rest <= u || (u <= rest && Finishes(rest[|u|..], values))
    ensures Finishes(rest, values)
  {
    if rest <= u {
      assert u[|rest| - 1] == '}';
    } else if BraceFree(u) {
      PlainFinishes(u, rest, values);
    }
  }

  lemma BeyondText(u: string, after: string, r: string)
    requires r <= u + after && !(r <= u)
    ensures u <= r && r[|u|..] <= after
  {
    if |r| > |u| {
      assert r[|u|..] == after[..|r| - |u|];
    }
  }

  lemma RestOver(ps: seq<Piece>, values: set<string>)
    requires PiecesOver(ps, values) && ps != []
    ensures PiecesOver(ps[1..], values)
  {
    assert forall j :: 0 <= j < |ps| - 1 ==> ps[1..][j] == ps[j + 1];
  }

  /** The rest of a token that stands at the front of some pieces is spelled by them alone. */
  lemma {:induction false} PiecesFinish(k: string, r: string, ps: seq<Piece>, values: set<string>)
    requires BraceFree(k) && PiecesOver(ps, values)
    requires TokenRest(k, r) && r <= WriteAll(ps)
    ensures Finishes(r, values)
    decreases |ps|
  {
    if r != "" {
      hide Finishes, BraceFree, TokenRest, Token;
      var rest := ps[1..];
      RestShrinks(k, r, 0);
      RestOver(ps, values);
      match ps[0]
      case Text(u) =>
        if !(r <= u) {
          BeyondText(u, WriteAll(rest), r);
          RestShrinks(k, r, |u|);
          PiecesFinish(k, r[|u|..], rest, values);
        }
        TextFinishes(u, r, values);
      case Hole(j) => HoleClashes(k, r, j, WriteAll(rest));
    }
  }

  lemma NothingStarts(k: string, t: string, ps: seq<Piece>, values: set<string>, i: nat)
    requires BraceFree(k) && PiecesOver(ps, values) && (BraceFree(t) || t in values) && i < |t|
    requires !Assembles(Token(k), values)
    ensures !(Token(k) <= (t + WriteAll(ps))[i..])
  {
    if Token(k) <= (t + WriteAll(ps))[i..] {
      assert t[i] == Token(k)[0];
      assert (t + WriteAll(ps))[i..] == t[i..] + WriteAll(ps);
      TokenStarts(k, t[i..], ps, values);
    }
  }

  lemma TokenStarts(k: string, tail: string, ps: seq<Piece>, values: set<string>)
    requires BraceFree(k) && PiecesOver(ps, values) && tail != "" && Token(k) <= tail + WriteAll(ps)
    ensures StartsToken(tail, Token(k), values)
  {
    hide Finishes, PiecesOver, BraceFree, WriteAll;
    var token := Token(k);
    if |tail| < |token| {
      assert tail <= token && token[|tail|..] <= WriteAll(ps);
      PiecesFinish(k, token[|tail|..], ps, values);
    }
  }

  /** Where its token cannot be assembled, replacing a key fills its holes and nothing else. */
  lemma {:induction false} ReplaceOnPieces(ps: seq<Piece>, k: string, v: string, values: set<string>)
    requires PiecesOver(ps, values) && BraceFree(k) && !Assembles(Token(k), values)
    ensures Replace(WriteAll(ps), Token(k), v) == WriteAll(Fill(ps, map[k := v]))
  {
    hide Assembles;
    if ps != [] {
      var rest, one := ps[1..], map[k := v];
      assert forall i :: 0 <= i < |rest| ==> rest[i] == ps[i + 1];
      ReplaceOnPieces(rest, k, v, values);
      assert Fill(ps, one)[1..] == Fill(rest, one);
      match ps[0]
      case Text(t) =>
        forall i | 0 <= i < |t| ensures !(Token(k) <= (t + WriteAll(rest))[i..]) {
          NothingStarts(k, t, rest, values, i);
        }
        ReplacePasses(t, WriteAll(rest), Token(k), v);
      case Hole(j) =>
        if j == k { ReplaceHit(k, WriteAll(rest), v); } else { ReplaceMiss(j, k, WriteAll(rest), v); }
    }
  }

  lemma {:induction false} ReplaceBySelf(s: string, pattern: string)
    requires pattern != ""
    ensures Replace(s, pattern, pattern) == s
  {
    if |s| >= |pattern| {
      if s[..|pattern|] == pattern {
        ReplaceBySelf(s[|pattern|..], pattern);
      } else {
        ReplaceBySelf(s[1..], pattern);
      }
    }
  }

  lemma {:induction false} FillBySelf(ps: seq<Piece>, k: string)
    ensures WriteAll(Fill(ps, map[k := Token(k)])) == WriteAll(ps)
  {
    if ps != [] {
      FillBySelf(ps[1..], k);
      assert Fill(ps, map[k := Token(k)])[1..] == Fill(ps[1..], map[k := Token(k)]);
    }
  }

  lemma FillTwice(ps: seq<Piece>, a: map<string, string>, b: map<string, string>)
    requires a.Keys !! b.Keys
    ensures Fill(Fill(ps, a), b) == Fill(ps, a + b)
  {
  }

  /** The parameters whose keys occur in `order`. */
  function Restrict(params: map<string, string>, order: seq<string>): map<string, string> {
    map k | k in params && k in order :: params[k]
  }

  ghost predicate KeysOf(order: seq<string>, params: map<string, string>) {
    Distinct(order) && forall k :: k in order ==> k in params
  }

  /** Replacement in this order fills the holes of these keys and nothing else. */
  ghost predicate Fills(ps: seq<Piece>, order: seq<string>, params: map<string, string>)
    requires KeysOf(order, params)
  {
    ExpandInOrder(WriteAll(ps), order, params) == WriteAll(Fill(ps, Restrict(params, order)))
  }

  /** A key that stands for itself, or whose token the values filled in so far cannot form. */
  ghost predicate StepInert(start: seq<string>, k: string, params: map<string, string>)
    requires k in params
  {
    params[k] == Token(k) || !Assembles(Token(k), ValuesOf(params, Elems(start)))
  }

  lemma NothingFilled(ps: seq<Piece>, params: map<string, string>)
    ensures Fill(ps, Restrict(params, [])) == ps
  {
  }

  lemma StepFills(ps: seq<Piece>, order: seq<string>, params: map<string, string>)
    requires PlainPieces(ps) && CleanKeys(params) && KeysOf(order, params) && order != []
    requires var n := |order| - 1; Fills(ps, order[..n], params) && StepInert(order[..n], order[n], params)
    ensures Fills(ps, order, params)
  {
    hide Assembles;
    var n := |order| - 1;
    var k, start := order[n], order[..n];
    var done := Restrict(params, start);
    var filled := Fill(ps, done);
    RestrictMore(params, order);
    FillTwice(ps, done, map[k := params[k]]);
    if params[k] == Token(k) {
      ReplaceBySelf(WriteAll(filled), Token(k));
      FillBySelf(filled, k);
    } else {
      FilledOver(ps, start, params);
      ReplaceOnPieces(filled, k, params[k], ValuesOf(params, Elems(start)));
    }
  }

  lemma FilledOver(ps: seq<Piece>, start: seq<string>, params: map<string, string>)
    requires PlainPieces(ps) && KeysOf(start, params)
    ensures PiecesOver(Fill(ps, Restrict(params, start)), ValuesOf(params, Elems(start)))
  {
  }

  lemma RestrictMore(params: map<string, string>, order: seq<string>)
    requires order != [] && Distinct(order) && forall k :: k in order ==> k in params
    ensures var n := |order| - 1; var k := order[n]; var done := Restrict(params, order[..n]);
      k !in done && Restrict(params, order) == done + map[k := params[k]]
  {
    var n := |order| - 1;
    assert order == order[..n] + [order[n]];
    assert order[n] !in order[..n];
  }

  lemma {:induction false} FinishesMore(rest: string, few: set<string>, many: set<string>)
    requires few <= many && Finishes(rest, few)
    ensures Finishes(rest, many)
    decreases |rest|
  {
    if rest != "" && !exists v :: v in few && rest <= v {
      if v :| v in few && v != "" && v <= rest && Finishes(rest[|v|..], few) {
        FinishesMore(rest[|v|..], few, many);
      } else {
        FinishesMore(rest[1..], few, many);
      }
    }
  }

  lemma AssemblesMore(token: string, few: set<string>, many: set<string>)
    requires few <= many && Assembles(token, few)
    ensures Assembles(token, many)
  {
    hide Finishes;
    var v, i :| v in few && 0 <= i < |v| && StartsToken(v[i..], token, few);
    if !(token <= v[i..]) {
      FinishesMore(token[|v[i..]|..], few, many);
    }
    assert StartsToken(v[i..], token, many);
  }

  lemma {:induction false} SequentialIsFill(ps: seq<Piece>, order: seq<string>, params: map<string, string>)
    requires PlainPieces(ps) && Harmless(params) && KeysOf(order, params)
    ensures Fills(ps, order, params)
  {
    hide Assembles;
    if order == [] {
      NothingFilled(ps, params);
    } else {
      var n := |order| - 1;
      SequentialIsFill(ps, order[..n], params);
      var few, many := ValuesOf(params, Elems(order[..n])), ValuesOf(params, params.Keys - {order[n]});
      if Assembles(Token(order[n]), few) {
        AssemblesMore(Token(order[n]), few, many);
      }
      StepFills(ps, order, params);
    }
  }

  // ---- Substitution on pieces ----

  /** No token starts at a character other than an opening brace. */
  lemma NoTokenHere(s: string, params: map<string, string>)
    requires s != "" && s[0] != '{'
    ensures Substitute(s, params) == [s[0]] + Substitute(s[1..], params)
  {
    if |s| >= 4 { assert s[..2][0] == s[0]; }
  }

  lemma {:induction false} SubstituteSkips(t: string, rest: string, params: map<string, string>)
    requires BraceFree(t)
    ensures Substitute(t + rest, params) == t + Substitute(rest, params)
  {
    hide Substitute;
    if t == "" {
      assert t + rest == rest;
    } else {
      assert (t + rest)[0] == t[0] && (t + rest)[1..] == t[1..] + rest;
      NoTokenHere(t + rest, params);
      SubstituteSkips(t[1..], rest, params);
      assert [t[0]] + (t[1..] + Substitute(rest, params)) == t + Substitute(rest, params);
    }
  }

  lemma {:induction false} PlainRunOf(k: string, after: string)
    requires BraceFree(k) && after != "" && after[0] == '}'
    ensures PlainRun(k + after) == |k|
  {
    if k != "" {
      assert (k + after)[1..] == k[1..] + after;
      PlainRunOf(k[1..], after);
    } else {
      assert k + after == after;
    }
  }

  lemma TokenIsAhead(k: string, rest: string)
    requires BraceFree(k)
    ensures TokenAhead(Token(k) + rest) && KeyAhead(Token(k) + rest) == k
    ensures (Token(k) + rest)[|k| + 4..] == rest
  {
    var s := Token(k) + rest;
    assert s[2..] == k + ("}}" + rest);
    PlainRunOf(k, "}}" + rest);
  }

  lemma SubstituteHole(k: string, rest: string, params: map<string, string>)
    requires BraceFree(k)
    ensures Substitute(Token(k) + rest, params)
         == (if k in params then params[k] else Token(k)) + Substitute(rest, params)
  {
    TokenIsAhead(k, rest);
    if k !in params {
      UnknownHole(k, rest, params);
    }
  }

  lemma UnknownHole(k: string, rest: string, params: map<string, string>)
    requires BraceFree(k) && k !in params
    ensures Substitute(Token(k) + rest, params) == Token(k) + Substitute(rest, params)
  {
    hide Substitute, BraceFree;
    var body, more := k + ("}}" + rest), Substitute(rest, params);
    FirstBraceCopied(k, rest, params);
    NoTokenAtSecondBrace(body, params) by { BodyStart(k, rest); }
    SubstituteSkips(k, "}}" + rest, params);
    CloseBraces(rest, params);
    assert ['{'] + (['{'] + (k + ("}}" + more))) == Token(k) + more;
  }

  lemma BodyStart(k: string, rest: string)
    requires BraceFree(k)
    ensures (k + ("}}" + rest))[0] != '{'
  {
  }

  lemma FirstBraceCopied(k: string, rest: string, params: map<string, string>)
    requires BraceFree(k) && k !in params
    ensures Substitute(Token(k) + rest, params) == ['{'] + Substitute(['{'] + (k + ("}}" + rest)), params)
  {
    TokenIsAhead(k, rest);
    var s := Token(k) + rest;
    assert s[1..] == ['{'] + (k + ("}}" + rest));
  }

  lemma NoTokenAtSecondBrace(body: string, params: map<string, string>)
    requires body != "" && body[0] != '{'
    ensures Substitute(['{'] + body, params) == ['{'] + Substitute(body, params)
  {
    var s := ['{'] + body;
    assert s[1..] == body;
    if |s| >= 4 { assert s[..2][1] == body[0]; }
  }

  lemma CloseBraces(rest: string, params: map<string, string>)
    ensures Substitute("}}" + rest, params) == "}}" + Substitute(rest, params)
  {
    hide Substitute;
    var s := "}}" + rest;
    assert s[1..] == "}" + rest && s[1..][1..] == rest;
    NoTokenHere(s, params);
    NoTokenHere(s[1..], params);
    assert ['}'] + (['}'] + Substitute(rest, params)) == "}}" + Substitute(rest, params);
  }

  lemma {:induction false} SubstituteIsFill(ps: seq<Piece>, params: map<string, string>)
    requires PlainPieces(ps)
    ensures Substitute(WriteAll(ps), params) == WriteAll(Fill(ps, params))
  {
    if ps != [] {
      var rest := ps[1..];
      assert forall i :: 0 <= i < |rest| ==> rest[i] == ps[i + 1];
      SubstituteIsFill(rest, params);
      assert Fill(ps, params)[1..] == Fill(rest, params);
      match ps[0]
      case Text(t) => SubstituteSkips(t, WriteAll(rest), params);
      case Hole(k) => SubstituteHole(k, WriteAll(rest), params);
    }
  }

  /** Confluence: on a template, with harmless parameters, sequential replacement in any order is the
      one simultaneous substitution. */
  lemma Confluent(s: string, order: seq<string>, params: map<string, string>)
    requires IsTemplate(s) && Harmless(params) && IsOrder(order, params)
    ensures ExpandInOrder(s, order, params) == Substitute(s, params)
  {
    hide Inert;
    var ps :| PlainPieces(ps) && WriteAll(ps) == s;
    SequentialIsFill(ps, order, params);
    assert Restrict(params, order) == params by {
      assert forall k :: k in params ==> k in Elems(order);
    }
    SubstituteIsFill(ps, params);
  }

  // ---- Harmful parameters always show ----

  /** The order of the parameters makes no difference on any template. */
  ghost predicate OrderFree(params: map<string, string>) {
    forall s, a, b :: IsTemplate(s) && IsOrder(a, params) && IsOrder(b, params) ==> SameExpansion(s, a, b, params)
  }

  ghost predicate SameExpansion(s: string, a: seq<string>, b: seq<string>, params: map<string, string>)
    requires IsOrder(a, params) && IsOrder(b, params)
  {
    ExpandInOrder(s, a, params) == ExpandInOrder(s, b, params)
  }

  /** Brace-free text, and holes of the given keys only. */
  ghost predicate HolesAmong(ps: seq<Piece>, keys: set<string>) {
    forall i :: 0 <= i < |ps| && ps[i].Hole? ==> ps[i].key in keys
  }

  lemma ConsPieces(p: Piece, ps: seq<Piece>, params: map<string, string>)
    ensures WriteAll(Fill([p] + ps, params)) == Write(FillPiece(p, params)) + WriteAll(Fill(ps, params))
  {
    assert Fill([p] + ps, params)[1..] == Fill(ps, params);
  }

  lemma HoleFirst(k: string, more: seq<Piece>, rest: string, params: map<string, string>, keys: set<string>)
    requires CleanKeys(params) && keys <= params.Keys && k in keys && PlainPieces(more) && HolesAmong(more, keys)
    requires rest <= params[k] || (params[k] <= rest && rest[|params[k]|..] <= WriteAll(Fill(more, params)))
    ensures PlainPieces([Hole(k)] + more) && HolesAmong([Hole(k)] + more, keys)
    ensures rest <= WriteAll(Fill([Hole(k)] + more, params))
  {
    hide WriteAll, Fill;
    ConsPieces(Hole(k), more, params);
  }

  lemma CharacterFirst(c: char, more: seq<Piece>, rest: string, params: map<string, string>, keys: set<string>)
    requires c != '{' && c != '}' && PlainPieces(more) && HolesAmong(more, keys)
    requires rest != "" && rest[0] == c && rest[1..] <= WriteAll(Fill(more, params))
    ensures PlainPieces([Text([c])] + more) && HolesAmong([Text([c])] + more, keys)
    ensures rest <= WriteAll(Fill([Text([c])] + more, params))
  {
    hide WriteAll, Fill;
    ConsPieces(Text([c]), more, params);
    assert rest == [c] + rest[1..];
  }

  lemma {:induction false} FinishingPieces(rest: string, params: map<string, string>, keys: set<string>)
      returns (ps: seq<Piece>)
    requires CleanKeys(params) && keys <= params.Keys && Finishes(rest, ValuesOf(params, keys))
    ensures PlainPieces(ps) && HolesAmong(ps, keys) && rest <= WriteAll(Fill(ps, params))
    decreases |rest|
  {
    hide PlainPieces, HolesAmong, WriteAll, Fill, CleanKeys, BraceFree;
    var values := ValuesOf(params, keys);
    NoPieces(params, keys);
    if rest == "" {
      ps := [];
    } else if v :| v in values && rest <= v {
      var k :| k in keys && params[k] == v;
      ps := [Hole(k)] + [];
      HoleFirst(k, [], rest, params, keys);
    } else if v :| v in values && v != "" && v <= rest && Finishes(rest[|v|..], values) {
      var k :| k in keys && params[k] == v;
      var more := FinishingPieces(rest[|v|..], params, keys);
      ps := [Hole(k)] + more;
      HoleFirst(k, more, rest, params, keys);
    } else {
      var more := FinishingPieces(rest[1..], params, keys);
      ps := [Text([rest[0]])] + more;
      CharacterFirst(rest[0], more, rest, params, keys);
    }
  }

  lemma NoPieces(params: map<string, string>, keys: set<string>)
    ensures PlainPieces([]) && HolesAmong([], keys) && WriteAll(Fill([], params)) == ""
  {
  }

  lemma HoleAt(k: string, i: nat, more: seq<Piece>, token: string, params: map<string, string>)
    requires k in params && i < |params[k]|
    requires var tail := params[k][i..];
      token <= tail || (tail <= token && token[|tail|..] <= WriteAll(Fill(more, params)))
    ensures var text := WriteAll(Fill([Hole(k)] + more, params)); i <= |text| && token <= text[i..]
  {
    var v, after := params[k], WriteAll(Fill(more, params));
    ConsPieces(Hole(k), more, params);
    assert (v + after)[i..] == v[i..] + after;
  }

  lemma AssemblingPieces(token: string, params: map<string, string>, keys: set<string>)
      returns (ps: seq<Piece>, at: nat)
    requires CleanKeys(params) && keys <= params.Keys && Assembles(token, ValuesOf(params, keys))
    ensures PlainPieces(ps) && HolesAmong(ps, keys)
    ensures at <= |WriteAll(Fill(ps, params))| && token <= WriteAll(Fill(ps, params))[at..]
  {
    hide Finishes, WriteAll, Fill;
    var values := ValuesOf(params, keys);
    var v, i :| v in values && 0 <= i < |v| && StartsToken(v[i..], token, values);
    var k :| k in keys && params[k] == v;
    var more: seq<Piece> := [];
    if !(token <= v[i..]) {
      more := FinishingPieces(token[|v[i..]|..], params, keys);
    }
    HoleAt(k, i, more, token, params);
    ps, at := [Hole(k)] + more, i;
  }

  /** Replacing a pattern that occurs by anything else is noticed. */
  lemma {:induction false} ReplaceChanges(s: string, pattern: string, v: string, at: nat)
    requires pattern != "" && v != pattern
    ensures |v| >= |pattern| ==> |Replace(s, pattern, v)| >= |s|
    ensures |v| <= |pattern| ==> |Replace(s, pattern, v)| <= |s|
    ensures at <= |s| && pattern <= s[at..] ==>
      && (|v| > |pattern| ==> |Replace(s, pattern, v)| > |s|)
      && (|v| < |pattern| ==> |Replace(s, pattern, v)| < |s|)
      && Replace(s, pattern, v) != s
  {
    if |s| >= |pattern| {
      if s[..|pattern|] == pattern {
        var rest := s[|pattern|..];
        ReplaceChanges(rest, pattern, v, 0);
        if |v| == |pattern| {
          assert Replace(s, pattern, v)[..|pattern|] == v;
        }
      } else if at > 0 && at <= |s| {
        assert s[1..][at - 1..] == s[at..];
        ReplaceChanges(s[1..], pattern, v, at - 1);
        assert Replace(s, pattern, v)[1..] == Replace(s[1..], pattern, v);
      } else {
        ReplaceChanges(s[1..], pattern, v, |s|);
        assert s[0..] == s;
      }
    }
  }

  lemma {:induction false} ExpandConcat(s: string, a: seq<string>, b: seq<string>, params: map<string, string>)
    requires forall k :: k in a + b ==> k in params
    ensures (forall k :: k in a ==> k in params) && (forall k :: k in b ==> k in params)
    ensures ExpandInOrder(s, a + b, params) == ExpandInOrder(ExpandInOrder(s, a, params), b, params)
  {
    assert forall k :: k in a ==> k in a + b;
    assert forall k :: k in b ==> k in a + b;
    if b == [] {
      assert a + b == a;
    } else {
      var n := |b| - 1;
      assert (a + b)[..|a + b| - 1] == a + b[..n];
      ExpandConcat(s, a, b[..n], params);
    }
  }

  lemma {:induction false} UnusedKeys(ps: seq<Piece>, order: seq<string>, params: map<string, string>)
    requires PlainPieces(ps) && CleanKeys(params) && KeysOf(order, params)
    requires HolesAmong(ps, params.Keys - Elems(order))
    ensures ExpandInOrder(WriteAll(ps), order, params) == WriteAll(ps)
  {
    if order != [] {
      var n := |order| - 1;
      var k := order[n];
      assert Elems(order[..n]) <= Elems(order);
      UnusedKeys(ps, order[..n], params);
      ReplaceOnPieces(ps, k, params[k], {});
      assert k in Elems(order);
      assert Fill(ps, map[k := params[k]]) == ps;
    }
  }

  lemma PrefixKeys(order: seq<string>, i: nat, params: map<string, string>)
    requires KeysOf(order, params) && i <= |order|
    ensures KeysOf(order[..i], params)
  {
    assert forall j :: 0 <= j < i ==> order[..i][j] == order[j];
  }

  lemma {:induction false} FirstBadStep(ps: seq<Piece>, order: seq<string>, params: map<string, string>)
      returns (i: nat)
    requires KeysOf(order, params) && !Fills(ps, order, params)
    ensures i < |order| && KeysOf(order[..i], params) && KeysOf(order[..i + 1], params)
    ensures Fills(ps, order[..i], params) && !Fills(ps, order[..i + 1], params)
  {
    if order == [] {
      NothingFilled(ps, params);
      assert false;
    }
    hide Fills, KeysOf;
    i := |order| - 1;
    PrefixKeys(order, i, params);
    assert order[..i + 1] == order;
    if !Fills(ps, order[..i], params) {
      var whole := order[..i];
      i := FirstBadStep(ps, whole, params);
      assert whole[..i] == order[..i] && whole[..i + 1] == order[..i + 1];
    }
  }

  /** If the values of the keys in `order` can assemble the token of `k`, two orders disagree. */
  lemma {:induction false} Diverges(order: seq<string>, k: string, params: map<string, string>)
    requires CleanKeys(params) && KeysOf(order, params) && k in params && k !in order
    requires !StepInert(order, k, params)
    ensures !OrderFree(params)
    decreases |order|
  {
    hide Assembles, OrderFree;
    var ps, at := AssemblingPieces(Token(k), params, Elems(order));
    if Fills(ps, order, params) {
      LastOrFirst(ps, order, k, params, at);
    } else {
      var i := FirstBadStep(ps, order, params);
      var bad := order[..i + 1];
      assert bad[..i] == order[..i] && bad[i] == order[i];
      if StepInert(order[..i], order[i], params) {
        StepFills(ps, bad, params);
      }
      Diverges(order[..i], order[i], params);
    }
  }

  /** The text of `ps` holds the token of `k` once `order` is done: then it matters whether `k` comes
      last or just before them. */
  lemma LastOrFirst(ps: seq<Piece>, order: seq<string>, k: string, params: map<string, string>, at: nat)
    requires CleanKeys(params) && KeysOf(order, params) && k in params && k !in order && params[k] != Token(k)
    requires PlainPieces(ps) && HolesAmong(ps, Elems(order)) && Fills(ps, order, params)
    requires at <= |WriteAll(Fill(ps, params))| && Token(k) <= WriteAll(Fill(ps, params))[at..]
    ensures !OrderFree(params)
  {
    hide CleanKeys, PlainPieces, Replace, ExpandInOrder, WriteAll, Fill, IsOrder;
    var s, text := WriteAll(ps), WriteAll(Fill(ps, params));
    var rest := ListOf(params.Keys - Elems(order) - {k});
    var a, b := rest + order + [k], rest + [k] + order;
    assert ExpandInOrder(s, order, params) == text by { OnlyTheseHoles(ps, order, params); }
    OrdersOf(rest, order, k, params);
    UnusedFirst(ps, rest, order, k, params);
    OrderKeys(a, params);
    OrderKeys(b, params);
    ExpandConcat(s, rest + order, [k], params);
    ExpandConcat(s, rest, order, params);
    ExpandConcat(s, rest + [k], order, params);
    ExpandOne(text, k, params);
    ReplaceChanges(text, Token(k), params[k], at);
    assert IsTemplate(s);
    assert !SameExpansion(s, a, b, params);
  }

  lemma ExpandOne(s: string, k: string, params: map<string, string>)
    requires k in params
    ensures ExpandInOrder(s, [k], params) == Replace(s, Token(k), params[k])
  {
    assert [k][..0] == [];
  }

  lemma OrderKeys(order: seq<string>, params: map<string, string>)
    requires IsOrder(order, params)
    ensures forall j :: j in order ==> j in params
  {
  }

  lemma OnlyTheseHoles(ps: seq<Piece>, order: seq<string>, params: map<string, string>)
    requires KeysOf(order, params) && HolesAmong(ps, Elems(order))
    ensures Fill(ps, Restrict(params, order)) == Fill(ps, params)
  {
  }

  lemma UnusedFirst(ps: seq<Piece>, rest: seq<string>, order: seq<string>, k: string, params: map<string, string>)
    requires CleanKeys(params) && KeysOf(order, params) && k in params && k !in order
    requires PlainPieces(ps) && HolesAmong(ps, Elems(order))
    requires Distinct(rest) && Elems(rest) == params.Keys - Elems(order) - {k}
    ensures KeysOf(rest, params) && KeysOf(rest + [k], params)
    ensures ExpandInOrder(WriteAll(ps), rest, params) == ExpandInOrder(WriteAll(ps), rest + [k], params) == WriteAll(ps)
  {
    hide CleanKeys, PlainPieces;
    forall j | j in rest ensures j in params && j !in order && j != k { assert j in Elems(rest); }
    KeysApart(rest, order, ps, params);
    KeysApart(rest + [k], order, ps, params);
    assert forall i :: 0 <= i < |rest| ==> rest[i] in rest;
    UnusedKeys(ps, rest, params);
    UnusedKeys(ps, rest + [k], params);
  }

  lemma KeysApart(some: seq<string>, order: seq<string>, ps: seq<Piece>, params: map<string, string>)
    requires KeysOf(order, params) && HolesAmong(ps, Elems(order)) && forall j :: j in some ==> j !in order
    ensures HolesAmong(ps, params.Keys - Elems(some))
  {
  }

  lemma OrdersOf(rest: seq<string>, order: seq<string>, k: string, params: map<string, string>)
    requires KeysOf(order, params) && k in params && k !in order
    requires Distinct(rest) && Elems(rest) == params.Keys - Elems(order) - {k}
    ensures IsOrder(rest + order + [k], params) && IsOrder(rest + [k] + order, params)
  {
    forall j | j in rest ensures j in params && j !in order && j != k { assert j in Elems(rest); }
    var a, b := rest + order + [k], rest + [k] + order;
    assert forall i :: 0 <= i < |order| ==> order[i] in order;
    assert forall i :: 0 <= i < |rest| ==> rest[i] in rest;
    assert Elems(a) == Elems(rest) + Elems(order) + {k};
    assert Elems(b) == Elems(rest) + {k} + Elems(order);
  }

  /** For brace-free keys, expansion is independent of the order on every template exactly when no
      parameter's token can be assembled from the other parameters' values. */
  lemma ConfluentExactly(params: map<string, string>)
    requires CleanKeys(params)
    ensures OrderFree(params) <==> Inert(params)
  {
    if Inert(params) {
      forall s, a, b | IsTemplate(s) && IsOrder(a, params) && IsOrder(b, params)
        ensures SameExpansion(s, a, b, params)
      {
        Confluent(s, a, params);
        Confluent(s, b, params);
      }
    } else {
      var k :| k in params && params[k] != Token(k) && Assembles(Token(k), ValuesOf(params, params.Keys - {k}));
      var order := ListOf(params.Keys - {k});
      forall j | j in order ensures j in params && j != k { assert j in Elems(order); }
      Diverges(order, k, params);
    }
  }

  ghost predicate Without(values: set<string>, c: char) {
    forall v :: v in values ==> c !in v
  }

  lemma HasLast(part: string, v: string)
    requires part != "" && part <= v
    ensures part[|part| - 1] in v
  {
    assert v[|part| - 1] == part[|part| - 1];
  }

  lemma {:induction false} NothingCloses(rest: string, values: set<string>)
    requires Without(values, '}') && rest != "" && rest[|rest| - 1] == '}'
    ensures !Finishes(rest, values)
    decreases |rest|
  {
    forall v | v in values ensures !(rest <= v) {
      if rest <= v { HasLast(rest, v); }
    }
    forall v | v in values && v != "" && v <= rest ensures !Finishes(rest[|v|..], values) {
      assert v[|v| - 1] in v;
      NothingCloses(rest[|v|..], values);
    }
    if rest[0] != '}' {
      NothingCloses(rest[1..], values);
    }
  }

  /** Values that all lack the opening brace, or all lack the closing one, are harmless. */
  lemma OneKindOfBrace(params: map<string, string>)
    requires CleanKeys(params)
    requires Without(params.Values, '{') || Without(params.Values, '}')
    ensures Harmless(params)
  {
    hide Finishes;
    forall k | k in params ensures !Assembles(Token(k), ValuesOf(params, params.Keys - {k})) {
      var token, values := Token(k), ValuesOf(params, params.Keys - {k});
      forall v, i | v in values && 0 <= i < |v| ensures !StartsToken(v[i..], token, values) {
        var tail := v[i..];
        assert v in params.Values && tail[0] in v && tail[|tail| - 1] in v;
        if Without(params.Values, '{') {
          assert token[0] == '{';
        } else {
          if token <= tail {
            HasLast(token, tail);
          } else if tail <= token {
            NothingCloses(token[|tail|..], values);
          }
        }
      }
    }
  }

  // ---- A token on its own ----

  lemma TokenInside(j: string, k: string, i: nat)
    requires BraceFree(k) && i <= |Token(k)| && Token(j) <= Token(k)[i..]
    ensures j == k
  {
    var s, p := Token(k), Token(j);
    assert s[i] == p[0] && s[i + 1] == p[1] && i == 0;
    assert s[0..] == s;
    assert s[|j| + 2] == p[|j| + 2] == '}' && s[|j| + 3] == p[|j| + 3] == '}';
    assert |j| == |k|;
    forall n | 0 <= n < |k| ensures j[n] == k[n] { assert s[n + 2] == p[n + 2]; }
  }

  lemma TokenNonempty(k: string)
    ensures Token(k) != ""
  {
  }

  ghost predicate Occurs(pattern: string, s: string) {
    exists i :: 0 <= i <= |s| && pattern <= s[i..]
  }

  lemma ReplaceAbsent(s: string, pattern: string, v: string)
    requires pattern != "" && !Occurs(pattern, s)
    ensures Replace(s, pattern, v) == s
  {
    assert s + "" == s;
    ReplacePasses(s, "", pattern, v);
  }

  lemma OtherTokenAbsent(j: string, k: string)
    requires BraceFree(k) && j != k
    ensures !Occurs(Token(j), Token(k))
  {
    if i :| 0 <= i <= |Token(k)| && Token(j) <= Token(k)[i..] {
      TokenInside(j, k, i);
    }
  }

  /** The value of `k` holds no other parameter's token, but for tokens that stand for themselves. */
  ghost predicate Settled(k: string, params: map<string, string>)
    requires k in params
  {
    forall j :: j in params && j != k && Occurs(Token(j), params[k]) ==> params[j] == Token(j)
  }

  lemma {:induction false} LoneTokenFilled(k: string, order: seq<string>, params: map<string, string>)
    requires BraceFree(k) && k in params && KeysOf(order, params)
    requires Settled(k, params) || k !in order
    ensures ExpandInOrder(Token(k), order, params) == if k in order then params[k] else Token(k)
  {
    hide Replace, Occurs, Token;
    if order != [] {
      var n := |order| - 1;
      var j, w := order[n], params[order[n]];
      assert order == order[..n] + [j];
      TokenNonempty(j);
      LoneTokenFilled(k, order[..n], params);
      if j == k {
        ReplaceHit(k, "", w);
        NoText(Token(k), w);
      } else if k !in order[..n] {
        OtherTokenAbsent(j, k);
        ReplaceAbsent(Token(k), Token(j), w);
      } else if Occurs(Token(j), params[k]) {
        ReplaceBySelf(params[k], Token(j));
      } else {
        ReplaceAbsent(params[k], Token(j), w);
      }
    }
  }

  lemma NoText(token: string, w: string)
    requires token != ""
    ensures token + "" == token && w + Replace("", token, w) == w
  {
  }

  lemma LastTwo(k: string, j: string, rest: seq<string>, params: map<string, string>)
    requires BraceFree(k) && k in params && j in params && KeysOf(rest, params) && k !in rest
    ensures (forall i :: i in rest + [k] + [j] ==> i in params)
    ensures ExpandInOrder(Token(k), rest + [k] + [j], params) == Replace(params[k], Token(j), params[j])
  {
    hide Replace, ExpandInOrder, Token;
    LoneTokenFilled(k, rest, params);
    ExpandConcat(Token(k), rest + [k], [j], params);
    ExpandConcat(Token(k), rest, [k], params);
    ExpandOne(Token(k), k, params);
    ExpandOne(params[k], j, params);
    ReplaceHit(k, "", params[k]);
    TokenNonempty(k);
    NoText(Token(k), params[k]);
  }

  lemma EndingIn(k: string, j: string, params: map<string, string>) returns (rest: seq<string>)
    requires k in params && j in params && j != k
    ensures KeysOf(rest, params) && k !in rest && IsOrder(rest + [k] + [j], params)
  {
    rest := ListOf(params.Keys - {k, j});
    forall i | i in rest ensures i in params && i != k && i != j { assert i in Elems(rest); }
    assert forall i :: 0 <= i < |rest| ==> rest[i] in rest;
    assert Elems(rest + [k] + [j]) == Elems(rest) + {k, j};
  }

  lemma UnsettledShows(k: string, j: string, params: map<string, string>) returns (order: seq<string>)
    requires BraceFree(k) && k in params && j in params && j != k
    requires Occurs(Token(j), params[k]) && params[j] != Token(j)
    ensures IsOrder(order, params) && ExpandInOrder(Token(k), order, params) != params[k]
  {
    hide Replace, ExpandInOrder, BraceFree, IsOrder, KeysOf;
    var rest := EndingIn(k, j, params);
    order := rest + [k] + [j];
    LastTwo(k, j, rest, params);
    var at :| 0 <= at <= |params[k]| && Token(j) <= params[k][at..];
    ReplaceChanges(params[k], Token(j), params[j], at);
  }

  /** A template that is one token becomes that parameter's value in every order exactly when the value
      holds no other parameter's token, but for tokens that stand for themselves. The braces of the other
      keys and values are free. */
  lemma LoneToken(k: string, params: map<string, string>)
    requires BraceFree(k) && k in params
    ensures (forall order :: IsOrder(order, params) ==> ExpandInOrder(Token(k), order, params) == params[k])
       <==> Settled(k, params)
  {
    hide Replace, Token, BraceFree, Occurs, ExpandInOrder;
    if Settled(k, params) {
      forall order | IsOrder(order, params) ensures ExpandInOrder(Token(k), order, params) == params[k] {
        LoneTokenFilled(k, order, params);
        assert k in Elems(order);
      }
    } else {
      var j :| j in params && j != k && Occurs(Token(j), params[k]) && params[j] != Token(j);
      var order := UnsettledShows(k, j, params);
    }
  }

  /** In particular, a value in which no brace opens is handed over as it is. */
  lemma NoTokenWithoutBrace(k: string, params: map<string, string>)
    requires k in params && '{' !in params[k]
    ensures Settled(k, params)
  {
    var v := params[k];
    forall j, i | j in params && 0 <= i <= |v| ensures !(Token(j) <= v[i..]) {
      if i < |v| { assert v[i] in v; }
    }
  }

  /** With a brace in a value the order shows: `{{a}}` expands to `x` one way and to `{{b}}` the other. */
  lemma OrderMatters()
    ensures var params := map["a" := "{{b}}", "b" := "x"];
      && ExpandInOrder("{{a}}", ["a", "b"], params) == "x"
      && ExpandInOrder("{{a}}", ["b", "a"], params) == "{{b}}"
  {
    var params := map["a" := "{{b}}", "b" := "x"];
    assert ["a", "b"][..1] == ["a"] && ["b", "a"][..1] == ["b"];
    assert Token("a") == "{{a}}" && Token("b") == "{{b}}";
    ReplaceHit("a", "", "{{b}}");
    ReplaceHit("b", "", "x");
    ReplaceMiss("a", "b", "", "x");
    assert "{{a}}" + "" == "{{a}}" && "{{b}}" + "" == "{{b}}";
  }
}
