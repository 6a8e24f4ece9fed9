/** The lexer of the topology DSL, and the strings it accepts. */
module Lexer {
  import opened Wrappers
  import opened MachineInts
  import opened Decimal

  datatype Token =
    | KwTp | KwPp | KwDp
    | Number(degree: u32)
    | NvlWord(gbps: nat)
    | IbWord(hops: u32)
    | NumaWord
    | Plus
    | Pipe

  predicate IsKeyword(t: Token) {
    t.KwTp? || t.KwPp? || t.KwDp?
  }

  /** Which letters there are beyond ASCII is left open: `letters` holds them. */
  predicate IsAlphabetic(c: char, letters: set<char> := {}) {
    'A' <= c <= 'Z' || 'a' <= c <= 'z' || c in letters
  }

  /** The ASCII letters are those with codes 65 to 90 and 97 to 122. */
  lemma AsciiLetters(c: char, letters: set<char>)
    requires BeyondAscii(letters) && c as int < 128
    ensures IsAlphabetic(c, letters) <==> 65 <= c as int <= 90 || 97 <= c as int <= 122
  {
  }

  predicate BeyondAscii(letters: set<char>) {
    forall c :: c in letters ==> c as int >= 128
  }

  /** Length of the longest alphabetic prefix. */
  function AlphaRun(s: string, letters: set<char> := {}): (n: nat)
    ensures n <= |s| && (forall i :: 0 <= i < n ==> IsAlphabetic(s[i], letters))
    ensures n < |s| ==> !IsAlphabetic(s[n], letters)
  {
    if s == [] || !IsAlphabetic(s[0], letters) then 0 else 1 + AlphaRun(s[1..], letters)
  }

  /** Length of the longest prefix of digits. */
  function DigitRun(s: string): (n: nat)
    ensures n <= |s| && (forall i :: 0 <= i < n ==> IsDigit(s[i])) && (n < |s| ==> !IsDigit(s[n]))
  {
    if s == [] || !IsDigit(s[0]) then 0 else 1 + DigitRun(s[1..])
  }

  function Keyword(word: string): Option<Token> {
    if word == "TP" then Some(KwTp)
    else if word == "PP" then Some(KwPp)
    else if word == "DP" then Some(KwDp)
    else None
  }

  /** One scanning step: the tokens of a lexeme and the characters after it. */
  datatype Lexeme = Lexeme(tokens: seq<Token>, rest: string)

  /** A constraint word, given its letters and what follows them. */
  function ScanConstraint(word: string, after: string): (r: Result<Lexeme>)
    ensures r.Ok? ==> |r.value.rest| <= |after|
  {
    var d := DigitRun(after);
    if word == "NVL" then
      if d == 0 then Err("_NVL must be followed by a number")
      else Ok(Lexeme([NvlWord(Value(after[..d]))], after[d..]))
    else if word == "IB" then
      if d == 0 then Err("_IB must be followed by a number")
      else if Value(after[..d]) >= TWO_32 then Err("bad IB number")
      else Ok(Lexeme([IbWord(Value(after[..d]))], after[d..]))
    else if word == "NUMA" then Ok(Lexeme([NumaWord], after))
    else Err("unknown constraint")
  }

  /** A dimension keyword, given its letters and what follows them. */
  function ScanDim(word: string, after: string): (r: Result<Lexeme>)
    ensures r.Ok? ==> |r.value.rest| <= |after|
  {
    var d := DigitRun(after);
    if d == 0 || Value(after[..d]) >= TWO_32 then Err("expected number")
    else if Keyword(word).None? then Err("unknown parallel dim")
    else Ok(Lexeme([Keyword(word).value, Number(Value(after[..d]))], after[d..]))
  }

  function Scan(s: string, letters: set<char> := {}): (r: Result<Lexeme>)
    requires s != []
    ensures r.Ok? ==> |r.value.rest| < |s|
  {
    if s[0] == '+' then Ok(Lexeme([Plus], s[1..]))
    else if s[0] == '|' then Ok(Lexeme([Pipe], s[1..]))
    else if s[0] == '_' then
      var k := AlphaRun(s[1..], letters);
      ScanConstraint(s[1..][..k], s[1..][k..])
    else if IsAlphabetic(s[0], letters) then
      var k := AlphaRun(s, letters);
      ScanDim(s[..k], s[k..])
    else Err("unexpected character")
  }

  function Tokenise(s: string, letters: set<char> := {}): Result<seq<Token>>
    decreases |s|
  {
    if s == [] then Ok([])
    else match Scan(s, letters)
      case Err(e) => Err(e)
      case Ok(Lexeme(tokens, rest)) => Prepend(tokens, Tokenise(rest, letters))
  }

  function Prepend(tokens: seq<Token>, r: Result<seq<Token>>): Result<seq<Token>> {
    match r
    case Ok(more) => Ok(tokens + more)
    case Err(e) => Err(e)
  }

  // ---- Letters beyond ASCII ----

  /** The same tokens, or an error both times. */
  ghost predicate Agree(a: Result<seq<Token>>, b: Result<seq<Token>>) {
    (a.Ok? <==> b.Ok?) && (a.Ok? ==> a == b)
  }

  /** A longer run holds a letter beyond ASCII right after the shorter one. */
  lemma {:induction false} RunsCompared(s: string, letters: set<char>)
    ensures AlphaRun(s) <= AlphaRun(s, letters)
    ensures AlphaRun(s) < AlphaRun(s, letters) ==> s[AlphaRun(s)] in letters
  {
    if s != [] && IsAlphabetic(s[0]) {
      RunsCompared(s[1..], letters);
    }
  }

  lemma StrangeStart(s: string)
    requires s != [] && s[0] as int >= 128
    ensures DigitRun(s) == 0 && Tokenise(s).Err?
  {
  }

  lemma StrangeWord(word: string, after: string, i: nat)
    requires i < |word| && word[i] as int >= 128
    ensures ScanConstraint(word, after).Err? && ScanDim(word, after).Err?
  {
    assert word != "NVL" && word != "IB" && word != "NUMA" && word != "TP" && word != "PP" && word != "DP";
  }

  /** Whatever letters there are beyond ASCII, they make no string acceptable and none mean anything
      else: a word that holds one is no keyword, and one after a word is no digit. */
  lemma {:induction false} OtherLettersRejected(s: string, letters: set<char>)
    requires BeyondAscii(letters)
    ensures Agree(Tokenise(s, letters), Tokenise(s))
    decreases |s|
  {
    hide AlphaRun, ScanConstraint, ScanDim;
    if s != [] {
      var word := if s[0] == '_' then s[1..] else s;
      RunsCompared(word, letters);
      var k, n := AlphaRun(word), AlphaRun(word, letters);
      if k < n && (s[0] == '_' || IsAlphabetic(s[0], letters)) {
        StrangeLexeme(s, word, k, n, letters);
      } else if Scan(s).Ok? {
        OtherLettersRejected(Scan(s).value.rest, letters);
      }
    }
  }

  lemma StrangeRest(s: string)
    requires s != [] && (Scan(s).Ok? ==> Tokenise(Scan(s).value.rest).Err?)
    ensures Tokenise(s).Err?
  {
    hide Scan;
  }

  /** Only a word that takes no number can stop before a character that is no digit. */
  lemma NoNumber(word: string, after: string)
    requires DigitRun(after) == 0
    ensures ScanDim(word, after).Err?
    ensures ScanConstraint(word, after).Ok? ==> ScanConstraint(word, after).value.rest == after
  {
  }

  lemma StrangeLexeme(s: string, word: string, k: nat, n: nat, letters: set<char>)
    requires BeyondAscii(letters) && s != [] && word == (if s[0] == '_' then s[1..] else s)
    requires k == AlphaRun(word) < n == AlphaRun(word, letters) && word[k] in letters
    ensures Scan(s, letters).Err? && Tokenise(s).Err?
  {
    hide AlphaRun, Tokenise, ScanDim, ScanConstraint;
    StrangeWord(word[..n], word[n..], k);
    StrangeStart(word[k..]);
    NoNumber(word[..k], word[k..]);
    StrangeRest(s);
  }

  // ---- The lexer over a character stream ----

  /** A peekable character stream. */
  class CharStream {
    const input: string
    const letters: set<char>
    var pos: nat

    ghost predicate Valid()
      reads this
    {
      pos <= |input|
    }

    function Remaining(): string
      requires Valid()
      reads this
    {
      input[pos..]
    }

    constructor (input: string, letters: set<char>)
      ensures Valid() && Remaining() == input && this.letters == letters
    {
      this.input, this.letters := input, letters;
      pos := 0;
    }

    method Next()
      requires Valid() && Remaining() != []
      modifies this
      ensures Valid() && Remaining() == old(Remaining())[1..]
    {
      pos := pos + 1;
    }

    method CollectAlpha() returns (word: string)
      requires Valid()
      modifies this
      ensures Valid()
      ensures var k := AlphaRun(old(Remaining()), letters);
        word == old(Remaining())[..k] && Remaining() == old(Remaining())[k..]
    {
      hide AlphaRun;
      word := [];
      ghost var start := pos;
      while pos < |input| && IsAlphabetic(input[pos], letters)
        invariant start <= pos <= |input|
        invariant word == input[start..pos]
        invariant AlphaRun(input[start..], letters) == pos - start + AlphaRun(input[pos..], letters)
        decreases |input| - pos
      {
        AlphaStep(input, pos, letters);
        word := word + [input[pos]];
        Next();
      }
      AlphaStop(input, pos, letters);
    }

    method CollectDigits() returns (digits: string)
      requires Valid()
      modifies this
      ensures Valid()
      ensures var d := DigitRun(old(Remaining()));
        digits == old(Remaining())[..d] && Remaining() == old(Remaining())[d..]
    {
      hide DigitRun;
      digits := [];
      ghost var start := pos;
      while pos < |input| && IsDigit(input[pos])
        invariant start <= pos <= |input|
        invariant digits == input[start..pos]
        invariant DigitRun(input[start..]) == pos - start + DigitRun(input[pos..])
        decreases |input| - pos
      {
        DigitStep(input, pos);
        digits := digits + [input[pos]];
        Next();
      }
      DigitStop(input, pos);
    }
  }

  lemma AlphaStep(s: string, i: nat, letters: set<char>)
    requires i < |s| && IsAlphabetic(s[i], letters)
    ensures AlphaRun(s[i..], letters) == 1 + AlphaRun(s[i + 1..], letters)
  {
    assert s[i..][1..] == s[i + 1..];
  }

  lemma AlphaStop(s: string, i: nat, letters: set<char>)
    requires i <= |s| && (i < |s| ==> !IsAlphabetic(s[i], letters))
    ensures AlphaRun(s[i..], letters) == 0
  {
  }

  lemma DigitStep(s: string, i: nat)
    requires i < |s| && IsDigit(s[i])
    ensures DigitRun(s[i..]) == 1 + DigitRun(s[i + 1..])
  {
    assert s[i..][1..] == s[i + 1..];
  }

  lemma DigitStop(s: string, i: nat)
    requires i <= |s| && (i < |s| ==> !IsDigit(s[i]))
    ensures DigitRun(s[i..]) == 0
  {
  }

  /** What a scanning method leaves behind, against a step of the specification. */
  ghost predicate Scanned(r: Result<seq<Token>>, remaining: string, step: Result<Lexeme>) {
    match step
    case Ok(lexeme) => r == Ok(lexeme.tokens) && remaining == lexeme.rest
    case Err(e) => r == Err(e)
  }

  method LexConstraint(chars: CharStream, word: string) returns (r: Result<seq<Token>>)
    requires chars.Valid()
    modifies chars
    ensures chars.Valid() && Scanned(r, chars.Remaining(), ScanConstraint(word, old(chars.Remaining())))
  {
    if word == "NVL" {
      var n := chars.CollectDigits();
      if n == [] {
        return Err("_NVL must be followed by a number");
      }
      return Ok([NvlWord(Value(n))]);
    } else if word == "IB" {
      var n := chars.CollectDigits();
      if n == [] {
        return Err("_IB must be followed by a number");
      }
      if Value(n) >= TWO_32 {
        return Err("bad IB number");
      }
      return Ok([IbWord(Value(n))]);
    } else if word == "NUMA" {
      return Ok([NumaWord]);
    }
    return Err("unknown constraint");
  }

  method LexDim(chars: CharStream, word: string) returns (r: Result<seq<Token>>)
    requires chars.Valid()
    modifies chars
    ensures chars.Valid() && Scanned(r, chars.Remaining(), ScanDim(word, old(chars.Remaining())))
  {
    var n := chars.CollectDigits();
    if n == [] || Value(n) >= TWO_32 {
      return Err("expected number");
    }
    if Keyword(word).None? {
      return Err("unknown parallel dim");
    }
    return Ok([Keyword(word).value, Number(Value(n))]);
  }

  method Lex(input: string, letters: set<char>) returns (r: Result<seq<Token>>)
    ensures r == Tokenise(input, letters)
  {
    var tokens: seq<Token> := [];
    var chars := new CharStream(input, letters);
    assert Tokenise(input, letters).Ok? ==> [] + Tokenise(input, letters).value == Tokenise(input, letters).value;
    while chars.Remaining() != []
      invariant chars.Valid()
      invariant Tokenise(input, letters) == Prepend(tokens, Tokenise(chars.Remaining(), letters))
      decreases |chars.Remaining()|
    {
      ghost var s := chars.Remaining();
      var c := chars.Remaining()[0];
      var step: Result<seq<Token>>;
      if c == '+' {
        chars.Next();
        step := Ok([Plus]);
      } else if c == '|' {
        chars.Next();
        step := Ok([Pipe]);
      } else if c == '_' {
        chars.Next();
        var word := chars.CollectAlpha();
        step := LexConstraint(chars, word);
      } else if IsAlphabetic(c, letters) {
        var word := chars.CollectAlpha();
        step := LexDim(chars, word);
      } else {
        step := Err("unexpected character");
      }
      assert Scanned(step, chars.Remaining(), Scan(s, letters));
      if step.Err? {
        return Err(step.error);
      }
      PrependTwice(tokens, step.value, Tokenise(chars.Remaining(), letters));
      tokens := tokens + step.value;
    }
    assert tokens + [] == tokens;
    return Ok(tokens);
  }

  lemma PrependTwice(a: seq<Token>, b: seq<Token>, r: Result<seq<Token>>)
    ensures Prepend(a, Prepend(b, r)) == Prepend(a + b, r)
  {
    if r.Ok? {
      assert a + (b + r.value) == a + b + r.value;
    }
  }
}
