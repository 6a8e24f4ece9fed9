/** The language of the topology DSL as strings of characters, and the printing round trip. */
module StringLanguage {
  import opened Wrappers
  import opened MachineInts
  import opened Decimal
  import opened TopologySpecs
  import opened Lexer
  import opened Parser
  import opened Language

  /** One lexeme of the DSL as it is written; numerals may carry leading zeros. */
  datatype Piece =
    | DimPiece(keyword: Token, digits: string)
    | NvlPiece(digits: string)
    | IbPiece(digits: string)
    | NumaPiece
    | PlusPiece
    | PipePiece

  ghost predicate Numeral(s: string) {
    s != [] && AllDigits(s)
  }

  ghost predicate GoodPiece(p: Piece) {
    match p
    case DimPiece(kw, ds) => IsKeyword(kw) && Numeral(ds) && Value(ds) < TWO_32
    case NvlPiece(ds) => Numeral(ds)
    case IbPiece(ds) => Numeral(ds) && Value(ds) < TWO_32
    case _ => true
  }

  ghost predicate GoodPieces(ps: seq<Piece>) {
    forall i :: 0 <= i < |ps| ==> GoodPiece(ps[i])
  }

  function KeywordText(kw: Token): string {
    match kw
    case KwTp => "TP"
    case KwPp => "PP"
    case _ => "DP"
  }

  function Spell(p: Piece): string {
    match p
    case DimPiece(kw, ds) => KeywordText(kw) + ds
    case NvlPiece(ds) => "_NVL" + ds
    case IbPiece(ds) => "_IB" + ds
    case NumaPiece => "_NUMA"
    case PlusPiece => "+"
    case PipePiece => "|"
  }

  ghost function PieceTokens(p: Piece): seq<Token>
    requires GoodPiece(p)
  {
    match p
    case DimPiece(kw, ds) => [kw, Number(Value(ds))]
    case NvlPiece(ds) => [NvlWord(Value(ds))]
    case IbPiece(ds) => [IbWord(Value(ds))]
    case NumaPiece => [NumaWord]
    case PlusPiece => [Plus]
    case PipePiece => [Pipe]
  }

  function SpellAll(ps: seq<Piece>): string {
    if ps == [] then "" else Spell(ps[0]) + SpellAll(ps[1..])
  }

  ghost function TokensOf(ps: seq<Piece>): seq<Token>
    requires GoodPieces(ps)
  {
    if ps == [] then [] else PieceTokens(ps[0]) + TokensOf(ps[1..])
  }

  /** `_NUMA` must not run into a following keyword, or its letters would be read as one word. */
  ghost predicate Separable(ps: seq<Piece>) {
    forall i :: 0 <= i < |ps| - 1 && ps[i].NumaPiece? ==> !ps[i + 1].DimPiece?
  }

  // ---- One lexeme ----

  lemma {:induction false} AlphaRunOf(word: string, after: string)
    requires forall i :: 0 <= i < |word| ==> IsAlphabetic(word[i])
    requires after == [] || !IsAlphabetic(after[0])
    ensures AlphaRun(word + after) == |word|
  {
    if word != [] {
      assert (word + after)[1..] == word[1..] + after;
      AlphaRunOf(word[1..], after);
    } else {
      assert word + after == after;
    }
  }

  lemma {:induction false} DigitRunOf(digits: string, after: string)
    requires AllDigits(digits)
    requires after == [] || !IsDigit(after[0])
    ensures DigitRun(digits + after) == |digits|
    ensures (digits + after)[..|digits|] == digits && (digits + after)[|digits|..] == after
  {
    if digits != [] {
      assert (digits + after)[1..] == digits[1..] + after;
      DigitRunOf(digits[1..], after);
    } else {
      assert digits + after == after;
    }
  }

  ghost predicate Word(s: string) {
    s != [] && forall i :: 0 <= i < |s| ==> IsAlphabetic(s[i])
  }

  /** The letters after an underscore are read as one word. */
  lemma ScanUnderscore(word: string, rest: string)
    requires Word(word) && (rest == [] || !IsAlphabetic(rest[0]))
    ensures Scan("_" + word + rest) == ScanConstraint(word, rest)
  {
    AlphaRunOf(word, rest);
    var s := "_" + word + rest;
    assert s[1..] == word + rest;
    assert s[1..][..|word|] == word && s[1..][|word|..] == rest;
  }

  lemma ScanLetters(word: string, rest: string)
    requires Word(word) && (rest == [] || !IsAlphabetic(rest[0]))
    ensures Scan(word + rest) == ScanDim(word, rest)
  {
    AlphaRunOf(word, rest);
    var s := word + rest;
    assert s[..|word|] == word && s[|word|..] == rest;
  }

  ghost predicate MayFollow(p: Piece, after: string) {
    after == [] || match p
      case NumaPiece => !IsAlphabetic(after[0])
      case PlusPiece => true
      case PipePiece => true
      case _ => !IsDigit(after[0])
  }

  lemma ScanConstraintPiece(word: string, digits: string, after: string)
    requires Numeral(digits) && (after == [] || !IsDigit(after[0]))
    ensures word == "NVL" ==> ScanConstraint(word, digits + after) == Ok(Lexeme([NvlWord(Value(digits))], after))
    ensures word == "IB" && Value(digits) < TWO_32 ==>
      ScanConstraint(word, digits + after) == Ok(Lexeme([IbWord(Value(digits))], after))
  {
    DigitRunOf(digits, after);
  }

  lemma ScanDimPiece(kw: Token, digits: string, after: string)
    requires IsKeyword(kw) && Numeral(digits) && Value(digits) < TWO_32 && (after == [] || !IsDigit(after[0]))
    ensures ScanDim(KeywordText(kw), digits + after) == Ok(Lexeme([kw, Number(Value(digits))], after))
  {
    DigitRunOf(digits, after);
    assert Keyword(KeywordText(kw)) == Some(kw);
  }

  /** Scanning the spelling of a lexeme yields its tokens and stops right after it. */
  lemma ScanPiece(p: Piece, after: string)
    requires GoodPiece(p) && MayFollow(p, after)
    ensures Spell(p) + after != [] && Scan(Spell(p) + after) == Ok(Lexeme(PieceTokens(p), after))
  {
    match p
    case DimPiece(kw, ds) => ScanDimSpelled(kw, ds, after);
    case NvlPiece(ds) =>
      assert "_NVL" == "_" + "NVL";
      ScanNumbered("NVL", ds, after);
      ScanConstraintPiece("NVL", ds, after);
    case IbPiece(ds) =>
      assert "_IB" == "_" + "IB";
      ScanNumbered("IB", ds, after);
      ScanConstraintPiece("IB", ds, after);
    case NumaPiece =>
      assert "_NUMA" + after == "_" + "NUMA" + after;
      ScanUnderscore("NUMA", after);
    case PlusPiece =>
    case PipePiece =>
  }

  lemma ScanDimSpelled(kw: Token, ds: string, after: string)
    requires IsKeyword(kw) && Numeral(ds) && Value(ds) < TWO_32 && (after == [] || !IsDigit(after[0]))
    ensures Scan(KeywordText(kw) + ds + after) == Ok(Lexeme([kw, Number(Value(ds))], after))
  {
    assert KeywordText(kw) + ds + after == KeywordText(kw) + (ds + after);
    assert IsDigit((ds + after)[0]);
    ScanLetters(KeywordText(kw), ds + after);
    ScanDimPiece(kw, ds, after);
  }

  lemma ScanNumbered(word: string, ds: string, after: string)
    requires Word(word) && Numeral(ds)
    ensures Scan("_" + word + ds + after) == ScanConstraint(word, ds + after)
  {
    assert "_" + word + ds + after == "_" + word + (ds + after);
    assert IsDigit((ds + after)[0]);
    ScanUnderscore(word, ds + after);
  }

  lemma PieceOfConstraint(word: string, after: string) returns (p: Piece)
    requires ScanConstraint(word, after).Ok?
    requires after == [] || !IsAlphabetic(after[0])
    ensures GoodPiece(p) && "_" + word + after == Spell(p) + ScanConstraint(word, after).value.rest
    ensures PieceTokens(p) == ScanConstraint(word, after).value.tokens
    ensures MayFollow(p, ScanConstraint(word, after).value.rest)
  {
    hide Value;
    var d := DigitRun(after);
    if word == "NVL" {
      p := NvlPiece(after[..d]);
      Rejoin("_NVL", after, d);
    } else if word == "IB" {
      p := IbPiece(after[..d]);
      Rejoin("_IB", after, d);
    } else {
      p := NumaPiece;
    }
  }

  lemma Rejoin(word: string, after: string, d: nat)
    requires d <= |after|
    ensures word + after == word + after[..d] + after[d..]
  {
  }

  lemma PieceOfDim(word: string, after: string) returns (p: Piece)
    requires ScanDim(word, after).Ok?
    ensures GoodPiece(p) && word + after == Spell(p) + ScanDim(word, after).value.rest
    ensures PieceTokens(p) == ScanDim(word, after).value.tokens
    ensures MayFollow(p, ScanDim(word, after).value.rest)
  {
    var d := DigitRun(after);
    p := DimPiece(Keyword(word).value, after[..d]);
    assert KeywordText(Keyword(word).value) == word;
  }

  // ---- All lexemes ----

  lemma {:induction false} SpellingStart(ps: seq<Piece>)
    requires GoodPieces(ps) && ps != []
    ensures SpellAll(ps) != [] && !IsDigit(SpellAll(ps)[0])
    ensures IsAlphabetic(SpellAll(ps)[0]) <==> ps[0].DimPiece?
  {
    assert GoodPiece(ps[0]);
  }

  lemma {:induction false} TokeniseSpelling(ps: seq<Piece>)
    requires GoodPieces(ps) && Separable(ps)
    ensures Tokenise(SpellAll(ps)) == Ok(TokensOf(ps))
  {
    if ps != [] {
      var rest := ps[1..];
      assert forall i :: 0 <= i < |rest| ==> rest[i] == ps[i + 1];
      if rest != [] { SpellingStart(rest); }
      ScanPiece(ps[0], SpellAll(rest));
      TokeniseSpelling(rest);
    }
  }

  lemma PieceOfScan(s: string) returns (p: Piece)
    requires s != [] && Scan(s).Ok?
    ensures GoodPiece(p) && s == Spell(p) + Scan(s).value.rest && PieceTokens(p) == Scan(s).value.tokens
  {
    hide AlphaRun, ScanConstraint, ScanDim, KeywordText, Value;
    if s[0] == '+' {
      p := PlusPiece;
    } else if s[0] == '|' {
      p := PipePiece;
    } else if s[0] == '_' {
      var k := AlphaRun(s[1..]);
      p := PieceOfConstraint(s[1..][..k], s[1..][k..]);
      UnderscoreSplit(s, k);
    } else {
      var k := AlphaRun(s);
      p := PieceOfDim(s[..k], s[k..]);
      Rejoin("", s, k);
    }
  }

  lemma UnderscoreSplit(s: string, k: nat)
    requires s != "" && s[0] == '_' && k <= |s| - 1
    ensures s == "_" + s[1..][..k] + s[1..][k..]
  {
  }

  lemma {:induction false} SpellingOf(s: string) returns (ps: seq<Piece>)
    requires Tokenise(s).Ok?
    ensures GoodPieces(ps) && SpellAll(ps) == s && TokensOf(ps) == Tokenise(s).value
    decreases |s|
  {
    hide Scan;
    if s == [] {
      ps := [];
    } else {
      var p := PieceOfScan(s);
      var more := SpellingOf(Scan(s).value.rest);
      ps := [p] + more;
      assert ps[1..] == more;
    }
  }

  // ---- Keywords never follow `_NUMA` in a spec's tokens ----

  ghost predicate NoNumaKeyword(ts: seq<Token>) {
    forall i :: 0 < i < |ts| && IsKeyword(ts[i]) ==> ts[i - 1] != NumaWord
  }

  lemma {:induction false} TokensSeparate(ps: seq<Piece>)
    requires GoodPieces(ps) && NoNumaKeyword(TokensOf(ps))
    ensures Separable(ps)
  {
    if ps != [] {
      var ts, more := TokensOf(ps), TokensOf(ps[1..]);
      var n := |PieceTokens(ps[0])|;
      forall i | 0 < i < |more| && IsKeyword(more[i]) ensures more[i - 1] != NumaWord {
        assert ts[n + i] == more[i] && ts[n + i - 1] == more[i - 1];
      }
      TokensSeparate(ps[1..]);
      if |ps| > 1 && ps[1].DimPiece? {
        assert GoodPiece(ps[1]) && ps[1..][0] == ps[1];
        assert ts[n] == more[0] == ps[1].keyword && IsKeyword(ts[n]) && ts[0] == PieceTokens(ps[0])[0];
      }
      forall i | 0 < i < |ps| - 1 && ps[i].NumaPiece? ensures !ps[i + 1].DimPiece? {
        assert ps[i] == ps[1..][i - 1] && ps[i + 1] == ps[1..][i];
      }
    }
  }

  ghost predicate KeywordsLed(ts: seq<Token>, from: nat, to: nat)
    requires to <= |ts|
  {
    forall i :: from <= i < to && i > 0 && IsKeyword(ts[i]) ==> ts[i - 1] == Plus || ts[i - 1] == Pipe
  }

  lemma AlternativeKeywords(ts: seq<Token>, at: nat, spec: TopologySpec)
    requires AlternativeShape(spec) && AlternativeAt(ts, at, spec)
    requires at > 0 ==> ts[at - 1] == Pipe
    ensures at + AlternativeLength(spec) <= |ts| && KeywordsLed(ts, at, at + AlternativeLength(spec))
  {
    if spec.Atom? {
      AtomKeywords(ts, at, spec);
    } else {
      AtomKeywords(ts, at, spec.left);
      AtomKeywords(ts, at + AtomLength(spec.left) + 1, spec.right);
    }
  }

  lemma AtomKeywords(ts: seq<Token>, at: nat, spec: TopologySpec)
    requires AtomAt(ts, at, spec)
    ensures forall i :: at < i < at + AtomLength(spec) ==> !IsKeyword(ts[i])
  {
    forall i | at + 2 <= i < at + AtomLength(spec) ensures !IsKeyword(ts[i]) {
      assert ts[at + 2 + (i - at - 2)] == ConstraintToken(spec.constraints[i - at - 2]);
    }
  }

  lemma {:induction false} MoreKeywords(ts: seq<Token>, at: nat, alts: seq<TopologySpec>)
    requires AllAlternatives(alts) && MoreAt(ts, at, alts)
    ensures at <= |ts| && KeywordsLed(ts, at, |ts|)
    decreases |alts|
  {
    hide AlternativeAt;
    if alts != [] {
      AlternativeKeywords(ts, at + 1, alts[0]);
      MoreKeywords(ts, at + 1 + AlternativeLength(alts[0]), alts[1..]);
    }
  }

  lemma SpecTokensSeparate(spec: TopologySpec)
    requires ParserShape(spec)
    ensures NoNumaKeyword(SpecTokens(spec))
  {
    var ts, alts := SpecTokens(spec), Alternatives(spec);
    TokensFill(alts);
    AlternativeKeywords(ts, 0, alts[0]);
    MoreKeywords(ts, AlternativeLength(alts[0]), alts[1..]);
  }

  // ---- The theorem ----

  ghost predicate Spells(ps: seq<Piece>, s: string, spec: TopologySpec)
    requires ParserShape(spec)
  {
    GoodPieces(ps) && SpellAll(ps) == s && TokensOf(ps) == SpecTokens(spec)
  }

  /** A string parses into a spec exactly when it spells that spec's tokens, lexeme by lexeme. */
  lemma StringLanguage(s: string, spec: TopologySpec)
    ensures Accepted(s) == Some(spec) <==> ParserShape(spec) && exists ps :: Spells(ps, s, spec)
  {
    if Accepted(s) == Some(spec) {
      var ps := SpellingOf(s);
      TokenLanguage(TokensOf(ps), spec);
      assert Spells(ps, s, spec);
    }
    if ParserShape(spec) {
      if ps :| Spells(ps, s, spec) {
        SpecTokensSeparate(spec);
        TokensSeparate(ps);
        TokeniseSpelling(ps);
        TokenLanguage(TokensOf(ps), spec);
      }
    }
  }

  // ---- Printing ----

  function ConstraintPiece(c: Constraint): Piece {
    match c
    case NvlMin(bw) => NvlPiece(Show(bw))
    case IbMax(h) => IbPiece(Show(h))
    case Numa => NumaPiece
  }

  function ConstraintPieces(cs: seq<Constraint>): seq<Piece> {
    if cs == [] then [] else [ConstraintPiece(cs[0])] + ConstraintPieces(cs[1..])
  }

  function AtomPieces(spec: TopologySpec): seq<Piece>
    requires spec.Atom?
  {
    [DimPiece(KeywordOf(spec.dim), Show(spec.dim.degree))] + ConstraintPieces(spec.constraints)
  }

  function AlternativePieces(spec: TopologySpec): seq<Piece>
    requires AlternativeShape(spec)
  {
    if spec.Atom? then AtomPieces(spec) else AtomPieces(spec.left) + [PlusPiece] + AtomPieces(spec.right)
  }

  function MorePieces(alts: seq<TopologySpec>): seq<Piece>
    requires forall i :: 0 <= i < |alts| ==> AlternativeShape(alts[i])
  {
    if alts == [] then [] else [PipePiece] + AlternativePieces(alts[0]) + MorePieces(alts[1..])
  }

  /** The canonical text of a spec, such as `TP8_NVL12+PP4_IB2|TP8_NVL6`. */
  function Print(spec: TopologySpec): string
    requires ParserShape(spec)
  {
    var alts := Alternatives(spec);
    SpellAll(AlternativePieces(alts[0]) + MorePieces(alts[1..]))
  }

  ghost predicate Writes(ps: seq<Piece>, ts: seq<Token>) {
    GoodPieces(ps) && TokensOf(ps) == ts
  }

  lemma {:induction false} WritesConcat(a: seq<Piece>, at: seq<Token>, b: seq<Piece>, bt: seq<Token>)
    requires Writes(a, at) && Writes(b, bt)
    ensures Writes(a + b, at + bt)
  {
    hide PieceTokens, GoodPiece;
    if a == [] {
      assert a + b == b;
      assert at + bt == bt;
    } else {
      WritesConcat(a[1..], TokensOf(a[1..]), b, bt);
      assert (a + b)[1..] == a[1..] + b;
      assert PieceTokens(a[0]) + (TokensOf(a[1..]) + bt) == at + bt;
    }
  }

  lemma WritesOne(p: Piece)
    requires GoodPiece(p)
    ensures Writes([p], PieceTokens(p))
  {
    assert [p][1..] == [];
  }

  lemma WritesConstraint(c: Constraint)
    ensures Writes([ConstraintPiece(c)], [ConstraintToken(c)])
  {
    if c.NvlMin? { ShowRoundTrip(c.gbps); }
    if c.IbMax? { ShowRoundTrip(c.hops); }
    WritesOne(ConstraintPiece(c));
  }

  lemma {:induction false} WritesConstraints(cs: seq<Constraint>)
    ensures Writes(ConstraintPieces(cs), ConstraintTokens(cs))
  {
    hide Writes, ConstraintPiece, ConstraintToken;
    if cs != [] {
      var c, rest := cs[0], cs[1..];
      WritesConstraint(c);
      WritesConstraints(rest);
      WritesConcat([ConstraintPiece(c)], [ConstraintToken(c)], ConstraintPieces(rest), ConstraintTokens(rest));
      assert ConstraintTokens(cs) == [ConstraintToken(c)] + ConstraintTokens(rest);
    } else {
      WritesNothing();
      assert ConstraintTokens(cs) == [];
    }
  }

  lemma WritesNothing()
    ensures Writes([], [])
  {
  }

  lemma WritesAtom(spec: TopologySpec)
    requires spec.Atom?
    ensures Writes(AtomPieces(spec), AtomTokens(spec))
  {
    var p := DimPiece(KeywordOf(spec.dim), Show(spec.dim.degree));
    ShowRoundTrip(spec.dim.degree);
    WritesOne(p);
    WritesConstraints(spec.constraints);
    WritesConcat([p], PieceTokens(p), ConstraintPieces(spec.constraints), ConstraintTokens(spec.constraints));
  }

  lemma WritesAlternative(spec: TopologySpec)
    requires AlternativeShape(spec)
    ensures Writes(AlternativePieces(spec), AlternativeTokens(spec))
  {
    if spec.Atom? {
      WritesAtom(spec);
    } else {
      WritesAtom(spec.left);
      WritesAtom(spec.right);
      WritesOne(PlusPiece);
      WritesConcat(AtomPieces(spec.left), AtomTokens(spec.left), [PlusPiece], [Plus]);
      WritesConcat(
        AtomPieces(spec.left) + [PlusPiece], AtomTokens(spec.left) + [Plus],
        AtomPieces(spec.right), AtomTokens(spec.right));
    }
  }

  lemma {:induction false} WritesMore(alts: seq<TopologySpec>)
    requires AllAlternatives(alts)
    ensures Writes(MorePieces(alts), MoreTokens(alts))
  {
    if alts != [] {
      var head, tokens := AlternativePieces(alts[0]), AlternativeTokens(alts[0]);
      WritesAlternative(alts[0]);
      WritesMore(alts[1..]);
      WritesOne(PipePiece);
      WritesConcat([PipePiece], [Pipe], head, tokens);
      WritesConcat([PipePiece] + head, [Pipe] + tokens, MorePieces(alts[1..]), MoreTokens(alts[1..]));
    }
  }

  /** Parsing inverts printing. */
  lemma ParsePrint(spec: TopologySpec)
    requires ParserShape(spec)
    ensures Accepted(Print(spec)) == Some(spec)
  {
    var alts := Alternatives(spec);
    WritesAlternative(alts[0]);
    WritesMore(alts[1..]);
    WritesConcat(AlternativePieces(alts[0]), AlternativeTokens(alts[0]), MorePieces(alts[1..]), MoreTokens(alts[1..]));
    assert Spells(AlternativePieces(alts[0]) + MorePieces(alts[1..]), Print(spec), spec);
    StringLanguage(Print(spec), spec);
  }

  /** Whatever parses can be printed in canonical form without changing its meaning. */
  lemma ParsePrintParse(s: string)
    requires Accepted(s).Some?
    ensures ParserShape(Accepted(s).value) && Accepted(Print(Accepted(s).value)) == Accepted(s)
  {
    StringLanguage(s, Accepted(s).value);
    ParsePrint(Accepted(s).value);
  }

  // ---- An example with every kind of lexeme ----

  /** The pieces write this text and mean these tokens. */
  ghost predicate Means(ps: seq<Piece>, text: string, ts: seq<Token>) {
    GoodPieces(ps) && SpellAll(ps) == text && TokensOf(ps) == ts
  }

  lemma MeansCons(p: Piece, ps: seq<Piece>, text: string, ts: seq<Token>)
    requires GoodPiece(p) && Means(ps, text, ts)
    ensures Means([p] + ps, Spell(p) + text, PieceTokens(p) + ts)
  {
    assert ([p] + ps)[1..] == ps;
  }

  lemma ExampleRight() returns (ps: seq<Piece>)
    ensures Means(ps, "|DP32_NUMA", [Pipe, KwDp, Number(32), NumaWord])
  {
    hide Spell, PieceTokens, Means, GoodPiece;
    ExampleLexemes();
    Nothing();
    MeansCons(NumaPiece, [], "", []);
    assert "_NUMA" + "" == "_NUMA" && [NumaWord] + [] == [NumaWord];
    var g := [NumaPiece] + [];
    MeansCons(DimPiece(KwDp, "32"), g, "_NUMA", [NumaWord]);
    assert "DP32" + "_NUMA" == "DP32_NUMA" && [KwDp, Number(32)] + [NumaWord] == [KwDp, Number(32), NumaWord];
    var f := [DimPiece(KwDp, "32")] + g;
    MeansCons(PipePiece, f, "DP32_NUMA", [KwDp, Number(32), NumaWord]);
    assert "|" + "DP32_NUMA" == "|DP32_NUMA";
    assert [Pipe] + [KwDp, Number(32), NumaWord] == [Pipe, KwDp, Number(32), NumaWord];
    ps := [PipePiece] + f;
  }

  lemma ExampleMiddle(more: seq<Piece>, text: string, ts: seq<Token>) returns (ps: seq<Piece>)
    requires Means(more, text, ts)
    ensures Means(ps, "+PP4_IB2" + text, [Plus, KwPp, Number(4), IbWord(2)] + ts)
  {
    hide Spell, PieceTokens, Means, GoodPiece;
    ExampleLexemes();
    MeansCons(IbPiece("2"), more, text, ts);
    var d := [IbPiece("2")] + more;
    MeansCons(DimPiece(KwPp, "4"), d, "_IB2" + text, [IbWord(2)] + ts);
    assert "PP4" + ("_IB2" + text) == "PP4_IB2" + text;
    assert [KwPp, Number(4)] + ([IbWord(2)] + ts) == [KwPp, Number(4), IbWord(2)] + ts;
    var c := [DimPiece(KwPp, "4")] + d;
    MeansCons(PlusPiece, c, "PP4_IB2" + text, [KwPp, Number(4), IbWord(2)] + ts);
    assert "+" + ("PP4_IB2" + text) == "+PP4_IB2" + text;
    assert [Plus] + ([KwPp, Number(4), IbWord(2)] + ts) == [Plus, KwPp, Number(4), IbWord(2)] + ts;
    ps := [PlusPiece] + c;
  }

  lemma ExampleSpelled() returns (ps: seq<Piece>)
    ensures Means(ps, "TP8_NVL12+PP4_IB2|DP32_NUMA", [
      KwTp, Number(8), NvlWord(12), Plus, KwPp, Number(4), IbWord(2), Pipe, KwDp, Number(32), NumaWord])
  {
    hide Spell, PieceTokens, Means, GoodPiece;
    ExampleLexemes();
    var right := ExampleRight();
    var text, ts := "|DP32_NUMA", [Pipe, KwDp, Number(32), NumaWord];
    var b := ExampleMiddle(right, text, ts);
    var text', ts' := "+PP4_IB2" + text, [Plus, KwPp, Number(4), IbWord(2)] + ts;
    MeansCons(NvlPiece("12"), b, text', ts');
    var a := [NvlPiece("12")] + b;
    MeansCons(DimPiece(KwTp, "8"), a, "_NVL12" + text', [NvlWord(12)] + ts');
    assert "TP8" + ("_NVL12" + text') == "TP8_NVL12+PP4_IB2|DP32_NUMA";
    assert [KwTp, Number(8)] + ([NvlWord(12)] + ts') == [
      KwTp, Number(8), NvlWord(12), Plus, KwPp, Number(4), IbWord(2), Pipe, KwDp, Number(32), NumaWord];
    ps := [DimPiece(KwTp, "8")] + a;
  }

  lemma Nothing()
    ensures Means([], "", [])
  {
  }

  lemma ExampleLexemes()
    ensures Spell(NumaPiece) == "_NUMA" && Spell(PipePiece) == "|" && Spell(PlusPiece) == "+"
    ensures Spell(DimPiece(KwTp, "8")) == "TP8" && Spell(DimPiece(KwPp, "4")) == "PP4"
    ensures Spell(DimPiece(KwDp, "32")) == "DP32" && Spell(IbPiece("2")) == "_IB2" && Spell(NvlPiece("12")) == "_NVL12"
    ensures GoodPiece(NumaPiece) && GoodPiece(PipePiece) && GoodPiece(PlusPiece)
    ensures GoodPiece(DimPiece(KwTp, "8")) && PieceTokens(DimPiece(KwTp, "8")) == [KwTp, Number(8)]
    ensures GoodPiece(DimPiece(KwPp, "4")) && PieceTokens(DimPiece(KwPp, "4")) == [KwPp, Number(4)]
    ensures GoodPiece(DimPiece(KwDp, "32")) && PieceTokens(DimPiece(KwDp, "32")) == [KwDp, Number(32)]
    ensures GoodPiece(IbPiece("2")) && PieceTokens(IbPiece("2")) == [IbWord(2)]
    ensures GoodPiece(NvlPiece("12")) && PieceTokens(NvlPiece("12")) == [NvlWord(12)]
    ensures PieceTokens(NumaPiece) == [NumaWord] && PieceTokens(PipePiece) == [Pipe] && PieceTokens(PlusPiece) == [Plus]
  {
    hide Value;
    assert Value("") == 0 by { NoDigits(); }
    DigitAdded("", '8');
    DigitAdded("", '4');
    DigitAdded("", '3');
    DigitAdded("", '2');
    DigitAdded("", '1');
    DigitAdded("3", '2');
    DigitAdded("1", '2');
    assert "" + ['8'] == "8" && "" + ['4'] == "4" && "" + ['3'] == "3" && "" + ['2'] == "2" && "" + ['1'] == "1";
    assert "3" + ['2'] == "32" && "1" + ['2'] == "12";
  }

  /** The text of a spec with every keyword, constraint and operator, and what it means. */
  lemma ExampleParsed()
    ensures Accepted("TP8_NVL12+PP4_IB2|DP32_NUMA")
         == Some(Disjunction([
              Conjunction(Atom(Tp(8), [NvlMin(12)]), Atom(Pp(4), [IbMax(2)])),
              Atom(Dp(32), [Numa])]))
  {
    var l, r, d := Atom(Tp(8), [NvlMin(12)]), Atom(Pp(4), [IbMax(2)]), Atom(Dp(32), [Numa]);
    var spec := Disjunction([Conjunction(l, r), d]);
    var ps := ExampleSpelled();
    assert [Conjunction(l, r), d][1..] == [d] && [d][1..] == [];
    assert AtomTokens(l) == [KwTp, Number(8), NvlWord(12)];
    assert AtomTokens(r) == [KwPp, Number(4), IbWord(2)];
    assert AtomTokens(d) == [KwDp, Number(32), NumaWord];
    assert MoreTokens([d]) == [Pipe] + AtomTokens(d) + MoreTokens([]);
    assert SpecTokens(spec) == AtomTokens(l) + [Plus] + AtomTokens(r) + MoreTokens([d]);
    assert Spells(ps, "TP8_NVL12+PP4_IB2|DP32_NUMA", spec);
    StringLanguage("TP8_NVL12+PP4_IB2|DP32_NUMA", spec);
  }
}
