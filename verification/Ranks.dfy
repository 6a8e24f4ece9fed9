/** Comma-separated rank lists, as playbooks pass them in a parameter. */
module Ranks {
  import opened Wrappers
  import opened MachineInts
  import opened Decimal

  /** Unicode white space, which trimming removes. */
  predicate IsWhitespace(c: char) {
    '\U{0009}' <= c <= '\U{000D}' || c == ' ' || c == '\U{0085}' || c == '\U{00A0}' || c == '\U{1680}'
    || '\U{2000}' <= c <= '\U{200A}' || c == '\U{2028}' || c == '\U{2029}' || c == '\U{202F}' || c == '\U{205F}'
      || c == '\U{3000}'
  }

  function TrimStart(s: string): string {
    if s != "" && IsWhitespace(s[0]) then TrimStart(s[1..]) else s
  }

  function TrimEnd(s: string): string {
    if s != "" && IsWhitespace(s[|s| - 1]) then TrimEnd(s[..|s| - 1]) else s
  }

  function Trim(s: string): string {
    TrimEnd(TrimStart(s))
  }

  /** A 32-bit number: an optional plus sign and at least one digit, within range. */
  function ParseU32(s: string): Option<u32> {
    var digits := if s != "" && s[0] == '+' then s[1..] else s;
    if digits != "" && AllDigits(digits) && Value(digits) < TWO_32 then Some(Value(digits)) else None
  }

  /** Length of the longest prefix without a comma. */
  function CommaFree(s: string): (n: nat)
    ensures n <= |s| && (forall i :: 0 <= i < n ==> s[i] != ',') && (n < |s| ==> s[n] == ',')
  {
    if s == "" || s[0] == ',' then 0 else 1 + CommaFree(s[1..])
  }

  function Split(s: string): seq<string>
    decreases |s|
  {
    var n := CommaFree(s);
    if n == |s| then [s] else [s[..n]] + Split(s[n + 1..])
  }

  /** The parts that are numbers; anything else is dropped. */
  function Numbers(parts: seq<string>): seq<u32> {
    if parts == [] then []
    else
      var rest := Numbers(parts[1..]);
      match ParseU32(Trim(parts[0]))
      case Some(n) => [n] + rest
      case None => rest
  }

  function ParseRanks(s: string): seq<u32> {
    Numbers(Split(s))
  }

  function JoinRanks(ranks: seq<u32>): string {
    if ranks == [] then ""
    else if |ranks| == 1 then Show(ranks[0])
    else Show(ranks[0]) + "," + JoinRanks(ranks[1..])
  }

  lemma DigitsSurvive(n: u32)
    ensures ParseU32(Trim(Show(n))) == Some(n)
  {
    var s := Show(n);
    assert IsDigit(s[0]) && IsDigit(s[|s| - 1]);
    assert TrimStart(s) == s && TrimEnd(s) == s;
    ShowRoundTrip(n);
  }

  lemma {:induction false} CommaFreeOf(part: string, after: string)
    requires forall i :: 0 <= i < |part| ==> part[i] != ','
    requires after == "" || after[0] == ','
    ensures CommaFree(part + after) == |part|
  {
    if part == "" {
      assert part + after == after;
    } else {
      assert (part + after)[1..] == part[1..] + after;
      CommaFreeOf(part[1..], after);
    }
  }

  /** A part before a comma is split off whole. */
  lemma SplitPart(part: string, more: string)
    requires forall i :: 0 <= i < |part| ==> part[i] != ','
    ensures Split(part) == [part]
    ensures Split(part + "," + more) == [part] + Split(more)
  {
    var text := part + "," + more;
    CommaFreeOf(part, "");
    assert part + "" == part;
    assert text == part + ("," + more);
    CommaFreeOf(part, "," + more);
    assert text[..|part|] == part && text[|part| + 1..] == more;
  }

  lemma NumbersCons(part: string, parts: seq<string>)
    ensures Numbers([part] + parts) == (match ParseU32(Trim(part)) case Some(n) => [n] case None => []) + Numbers(parts)
  {
    assert ([part] + parts)[1..] == parts;
  }

  // ---- Rank lists in general ----

  /** White space has exactly these characters. */
  lemma WhitespaceListed(c: char)
    ensures IsWhitespace(c) <==> c in {
      '\t', '\n', '\U{000B}', '\U{000C}', '\r', ' ', '\U{0085}', '\U{00A0}', '\U{1680}', '\U{2000}', '\U{2001}',
      '\U{2002}', '\U{2003}', '\U{2004}', '\U{2005}', '\U{2006}', '\U{2007}', '\U{2008}', '\U{2009}', '\U{200A}',
      '\U{2028}', '\U{2029}', '\U{202F}', '\U{205F}', '\U{3000}'}
  {
  }

  predicate Blank(s: string) {
    forall i :: 0 <= i < |s| ==> IsWhitespace(s[i])
  }

  /** A part of a list: a numeral, perhaps with a plus sign, between white space; or any other text. */
  datatype Part = Numeral(before: string, plus: bool, digits: string, after: string) | Other(text: string)

  function Written(p: Part): string {
    match p
    case Numeral(before, plus, digits, after) => before + (if plus then "+" else "") + digits + after
    case Other(text) => text
  }

  predicate IsNumeral(p: Part) {
    && p.Numeral? && Blank(p.before) && Blank(p.after)
    && p.digits != "" && AllDigits(p.digits) && Value(p.digits) < 4_294_967_296
  }

  /** Text without a comma that cannot be read as a numeral between white space. */
  ghost predicate IsOther(p: Part) {
    && p.Other? && ',' !in p.text
    && (forall q :: IsNumeral(q) ==> Written(q) != p.text)
  }

  ghost predicate IsList(parts: seq<Part>) {
    parts != [] && forall i :: 0 <= i < |parts| ==> IsNumeral(parts[i]) || IsOther(parts[i])
  }

  function CommaSeparated(parts: seq<Part>): string
    requires parts != []
  {
    if |parts| == 1 then Written(parts[0]) else Written(parts[0]) + "," + CommaSeparated(parts[1..])
  }

  /** The numerals' values, in order. */
  function Values(parts: seq<Part>): seq<nat>
    requires forall i :: 0 <= i < |parts| && parts[i].Numeral? ==> AllDigits(parts[i].digits)
  {
    if parts == [] then []
    else
      var n := |parts| - 1;
      Values(parts[..n]) + (if parts[n].Numeral? then [Value(parts[n].digits)] else [])
  }

  lemma {:induction false} StartSkips(before: string, core: string)
    requires Blank(before)
    ensures TrimStart(before + core) == TrimStart(core)
  {
    if before == "" {
      assert before + core == core;
    } else {
      assert (before + core)[1..] == before[1..] + core;
      StartSkips(before[1..], core);
    }
  }

  lemma {:induction false} EndSkips(core: string, after: string)
    requires Blank(after)
    ensures TrimEnd(core + after) == TrimEnd(core)
  {
    if after == "" {
      assert core + after == core;
    } else {
      var n := |after| - 1;
      assert (core + after)[..|core| + n] == core + after[..n];
      EndSkips(core, after[..n]);
    }
  }

  lemma TrimsTo(before: string, core: string, after: string)
    requires Blank(before) && Blank(after)
    requires core != "" && !IsWhitespace(core[0]) && !IsWhitespace(core[|core| - 1])
    ensures Trim(before + core + after) == core
  {
    assert before + core + after == before + (core + after);
    StartSkips(before, core + after);
    assert TrimStart(core + after) == core + after;
    EndSkips(core, after);
  }

  lemma {:induction false} StartCut(s: string) returns (before: string)
    ensures s == before + TrimStart(s) && Blank(before)
  {
    if s != "" && IsWhitespace(s[0]) {
      var rest := StartCut(s[1..]);
      before := [s[0]] + rest;
    } else {
      before := "";
    }
  }

  lemma {:induction false} EndCut(s: string) returns (after: string)
    ensures s == TrimEnd(s) + after && Blank(after)
  {
    if s != "" && IsWhitespace(s[|s| - 1]) {
      var n := |s| - 1;
      var rest := EndCut(s[..n]);
      after := rest + [s[n]];
      assert s == s[..n] + [s[n]];
    } else {
      after := "";
    }
  }

  lemma NumeralRead(p: Part)
    requires IsNumeral(p)
    ensures ParseU32(Trim(Written(p))) == Some(Value(p.digits))
    ensures forall i :: 0 <= i < |Written(p)| ==> Written(p)[i] != ','
  {
    hide Value, TrimStart, TrimEnd;
    var core := (if p.plus then "+" else "") + p.digits;
    assert IsDigit(p.digits[0]) && core[|core| - 1] == p.digits[|p.digits| - 1];
    TrimsTo(p.before, core, p.after);
    assert Written(p) == p.before + core + p.after;
    assert if p.plus then core[1..] == p.digits else core == p.digits && core[0] != '+';
  }

  lemma TrimCuts(text: string) returns (before: string, after: string)
    ensures Blank(before) && Blank(after) && text == before + Trim(text) + after
  {
    hide TrimStart, TrimEnd, Blank;
    before := StartCut(text);
    after := EndCut(TrimStart(text));
    assert before + (Trim(text) + after) == before + Trim(text) + after;
  }

  lemma CoreCuts(core: string) returns (plus: bool, digits: string)
    requires ParseU32(core).Some?
    ensures digits != "" && AllDigits(digits) && Value(digits) < 4_294_967_296
    ensures core == (if plus then "+" else "") + digits
  {
    hide Value;
    plus := core != "" && core[0] == '+';
    digits := if plus then core[1..] else core;
  }

  lemma NumeralInside(text: string) returns (p: Part)
    requires ParseU32(Trim(text)).Some?
    ensures IsNumeral(p) && Written(p) == text
  {
    hide Value, Trim, ParseU32, Blank, AllDigits;
    var before, after := TrimCuts(text);
    var plus, digits := CoreCuts(Trim(text));
    p := Numeral(before, plus, digits, after);
    assert before + ((if plus then "+" else "") + digits) + after == Written(p);
  }

  lemma OtherDropped(p: Part)
    requires IsOther(p)
    ensures ParseU32(Trim(p.text)) == None
  {
    if ParseU32(Trim(p.text)).Some? {
      var q := NumeralInside(p.text);
    }
  }

  lemma {:induction false} ValuesCons(p: Part, parts: seq<Part>)
    requires forall i :: 0 <= i < |parts| && parts[i].Numeral? ==> AllDigits(parts[i].digits)
    requires p.Numeral? ==> AllDigits(p.digits)
    ensures Values([p] + parts) == (if p.Numeral? then [Value(p.digits)] else []) + Values(parts)
  {
    hide Value;
    var all := [p] + parts;
    if parts == [] {
      assert all[..0] == [] && Values([]) == [];
    } else {
      var n := |parts| - 1;
      assert all[..n + 1] == [p] + parts[..n];
      ValuesCons(p, parts[..n]);
    }
  }

  /** A rank list is read as the values of the numerals in it, in order. White space around them, leading
      zeros and a plus sign make no difference; a part that is no 32-bit numeral contributes nothing. */
  lemma {:induction false} RankListRead(parts: seq<Part>)
    requires IsList(parts)
    ensures ParseRanks(CommaSeparated(parts)) == Values(parts)
  {
    hide Value, Trim, ParseU32, IsNumeral, IsOther, Written, Split;
    var p, rest := parts[0], parts[1..];
    PartRead(p);
    assert forall i :: 0 <= i < |rest| ==> rest[i] == parts[i + 1];
    assert parts == [p] + rest;
    DigitsOnly(parts);
    ValuesCons(p, rest);
    if rest == [] {
      SplitPart(Written(p), "");
      NumbersCons(Written(p), []);
      assert [Written(p)] + [] == [Written(p)];
    } else {
      SplitPart(Written(p), CommaSeparated(rest));
      RankListRead(rest);
      NumbersCons(Written(p), Split(CommaSeparated(rest)));
    }
  }

  lemma PartRead(p: Part)
    requires IsNumeral(p) || IsOther(p)
    ensures p.Numeral? ==> AllDigits(p.digits) && ParseU32(Trim(Written(p))) == Some(Value(p.digits))
    ensures p.Other? ==> ParseU32(Trim(Written(p))) == None
    ensures forall i :: 0 <= i < |Written(p)| ==> Written(p)[i] != ','
  {
    if IsNumeral(p) {
      NumeralRead(p);
    } else {
      OtherDropped(p);
    }
  }

  lemma DigitsOnly(parts: seq<Part>)
    requires IsList(parts)
    ensures forall i :: 0 <= i < |parts| && parts[i].Numeral? ==> AllDigits(parts[i].digits)
  {
    forall i | 0 <= i < |parts| && parts[i].Numeral? ensures AllDigits(parts[i].digits) {
      PartRead(parts[i]);
    }
  }

  /** Joined ranks are a list of bare numerals. */
  lemma {:induction false} JoinedIsList(ranks: seq<u32>)
    requires ranks != []
    ensures var parts := seq(|ranks|, i requires 0 <= i < |ranks| => Numeral("", false, Show(ranks[i]), ""));
      IsList(parts) && JoinRanks(ranks) == CommaSeparated(parts)
  {
    var parts := seq(|ranks|, i requires 0 <= i < |ranks| => Numeral("", false, Show(ranks[i]), ""));
    forall i | 0 <= i < |ranks| ensures IsNumeral(parts[i]) { ShowRoundTrip(ranks[i]); }
    assert "" + "" + Show(ranks[0]) + "" == Show(ranks[0]);
    if |ranks| > 1 {
      JoinedIsList(ranks[1..]);
      var rest := ranks[1..];
      assert parts[1..] == seq(|rest|, i requires 0 <= i < |rest| => Numeral("", false, Show(rest[i]), ""));
    }
  }

  /** A list of numerals is made of white space, digits, plus signs and commas. */
  lemma {:induction false} NumeralCharacters(parts: seq<Part>)
    requires IsList(parts) && forall i :: 0 <= i < |parts| ==> IsNumeral(parts[i])
    ensures '{' !in CommaSeparated(parts)
  {
    hide Value;
    assert '{' !in Written(parts[0]);
    if |parts| > 1 {
      assert forall i :: 0 <= i < |parts| - 1 ==> parts[1..][i] == parts[i + 1];
      NumeralCharacters(parts[1..]);
    }
  }

  lemma NothingJoined()
    ensures ParseRanks("") == []
  {
    assert Split("") == [""];
    assert Trim("") == "";
  }

  /** Parsing a joined rank list gives the ranks back. */
  lemma {:induction false} RanksRoundTrip(ranks: seq<u32>)
    ensures ParseRanks(JoinRanks(ranks)) == ranks
  {
    hide Show, Trim, ParseU32;
    if ranks == [] {
      NothingJoined();
    } else {
      var s, rest := Show(ranks[0]), ranks[1..];
      assert forall i :: 0 <= i < |s| ==> IsDigit(s[i]);
      DigitsSurvive(ranks[0]);
      SplitPart(s, JoinRanks(rest));
      RanksRoundTrip(rest);
      NumbersCons(s, if rest == [] then [] else Split(JoinRanks(rest)));
      assert [s] + [] == [s];
      assert ranks == [ranks[0]] + rest;
    }
  }

  lemma {:induction false} JoinedCharacters(ranks: seq<u32>)
    ensures forall i :: 0 <= i < |JoinRanks(ranks)| ==> IsDigit(JoinRanks(ranks)[i]) || JoinRanks(ranks)[i] == ','
  {
    if |ranks| > 1 {
      JoinedCharacters(ranks[1..]);
      var s := Show(ranks[0]);
      assert forall i :: 0 <= i < |s| ==> IsDigit(s[i]);
    }
  }
}
