/** What counts as a name and as a keyword, spelled out in characters: dotted names of identifier
    runs and quoted components, and the places where `theorem` starts a declaration. */
module RenameNames {
  import opened Prelude
  import opened RenameScan
  import opened RenameApply
  import opened RenameRescan

  const LOWER := "abcdefghijklmnopqrstuvwxyz"
  const UPPER := "ABCDEFGHIJKLMNOPQRSTUVWXYZ"
  const DIGITS := "0123456789"
  const IDENT := LOWER + UPPER + DIGITS + "_'!?"
  const NAME_START := LOWER + UPPER + "_\U{00AB}"
  const BLANKS := " \t\n"
  const NOT_BEFORE := ".`"

  /** The character classes of the scanner are these characters and no others. */
  lemma CharacterSets(c: char)
    ensures IsIdent(c) <==> c in IDENT
    ensures IsNameStart(c) <==> c in NAME_START
    ensures IsBlank(c) <==> c in BLANKS
    ensures IsNameDot(c) <==> c in NOT_BEFORE
  {
    hide LOWER, UPPER, DIGITS;
    Lower(c);
    Upper(c);
    Digit(c);
  }

  lemma Lower(c: char)
    ensures 'a' <= c <= 'z' <==> c in LOWER
  {
    if 'a' <= c <= 'z' { assert LOWER[c as int - 'a' as int] == c; }
  }

  lemma Upper(c: char)
    ensures 'A' <= c <= 'Z' <==> c in UPPER
  {
    if 'A' <= c <= 'Z' { assert UPPER[c as int - 'A' as int] == c; }
  }

  lemma Digit(c: char)
    ensures '0' <= c <= '9' <==> c in DIGITS
  {
    if '0' <= c <= '9' { assert DIGITS[c as int - '0' as int] == c; }
  }

  // ----- names -----

  /** One component: a run of identifier characters, or any text between guillemets. */
  datatype Component = Plain(text: string) | Quoted(text: string)

  function InFile(c: Component): string {
    match c
    case Plain(text) => text
    case Quoted(text) => "\U{00AB}" + text + "\U{00BB}"
  }

  predicate ComponentOk(c: Component) {
    match c
    case Plain(text) => text != "" && forall x :: x in text ==> x in IDENT
    case Quoted(text) => '\U{00BB}' !in text
  }

  /** Components after a dot open with a letter, an underscore or a guillemet. */
  predicate NameOk(cs: seq<Component>): (ok: bool)
    ensures ok ==> cs != []
  {
    && cs != [] && ComponentOk(cs[0])
    && (|cs| > 1 ==> NameOk(cs[1..]) && InFile(cs[1])[0] in NAME_START)
  }

  /** The name as it stands in a file, and as the whitelist gives it. */
  function NameText(cs: seq<Component>): string
    requires cs != []
  {
    if |cs| == 1 then InFile(cs[0]) else InFile(cs[0]) + "." + NameText(cs[1..])
  }

  function Dotted(cs: seq<Component>): string
    requires cs != []
  {
    if |cs| == 1 then cs[0].text else cs[0].text + "." + Dotted(cs[1..])
  }

  /** What may stand behind a component without being part of it. */
  predicate ComponentEnds(c: Component, rest: string) {
    c.Plain? ==> rest == "" || rest[0] !in IDENT
  }

  /** What may stand behind a name without continuing it. */
  predicate NameEnds(cs: seq<Component>, rest: string)
    requires cs != []
  {
    && ComponentEnds(cs[|cs| - 1], rest)
    && !(|rest| > 1 && rest[0] == '.' && rest[1] in NAME_START)
  }

  lemma PartOfComponent(c: Component, rest: string)
    requires ComponentOk(c) && ComponentEnds(c, rest)
    ensures Part(InFile(c) + rest) == Some((c.text, |InFile(c)|)) && InFile(c) != ""
  {
    hide IDENT;
    if c.Plain? { PartOfPlain(c.text, rest); } else { PartOfQuoted(c.text, rest); }
  }

  lemma PartOfPlain(text: string, rest: string)
    requires text != "" && (forall x :: x in text ==> x in IDENT) && (rest == "" || rest[0] !in IDENT)
    ensures Part(text + rest) == Some((text, |text|))
  {
    hide IDENT, IdentRun;
    var r := text + rest;
    PlainRun(text, rest);
    assert r[0] in text && r[..|text|] == text;
    CharacterSets(r[0]);
    assert IsIdent(r[0]);
  }

  lemma PartOfQuoted(text: string, rest: string)
    requires '\U{00BB}' !in text
    ensures Part("\U{00AB}" + text + "\U{00BB}" + rest) == Some((text, |text| + 2))
  {
    hide Part, Find;
    var q := text + ("\U{00BB}" + rest);
    var r := "\U{00AB}" + text + "\U{00BB}" + rest;
    SkipWord(text, "\U{00BB}" + rest, CLOSE_GUILLEMET);
    CloseFound(rest);
    assert r == [OPEN_GUILLEMET] + q;
    QuotedPart(r, q, text, "\U{00BB}" + rest);
    var front := [OPEN_GUILLEMET] + text + [CLOSE_GUILLEMET];
    assert front[1..|front| - 1] == text;
  }

  lemma CloseFound(rest: string)
    ensures Find("\U{00BB}" + rest, CLOSE_GUILLEMET) == 0
  {
  }

  lemma PlainRun(text: string, rest: string)
    requires (forall x :: x in text ==> x in IDENT) && (rest == "" || rest[0] !in IDENT)
    ensures IdentRun(text + rest) == |text|
  {
    forall i | 0 <= i < |text| ensures IsIdent(text[i]) { CharacterSets(text[i]); }
    IdentWord(text, rest);
    if rest != "" { CharacterSets(rest[0]); }
    NoRun(rest);
  }

  lemma ContinuesMeans(r: string)
    ensures Continues(r) <==> |r| > 1 && r[0] == '.' && r[1] in NAME_START
  {
    if |r| > 1 { CharacterSets(r[1]); }
  }

  /** Every dotted name, followed by anything that does not continue it, is read as that name. */
  lemma {:induction false} NameIsRead(cs: seq<Component>, rest: string)
    requires NameOk(cs) && NameEnds(cs, rest)
    ensures NameAt(NameText(cs) + rest) == Some((Dotted(cs), |NameText(cs)|))
  {
    hide NameAt, Part, InFile, Continues, ComponentOk, NameText, Dotted, IDENT, NAME_START;
    var c := cs[0];
    var front := InFile(c);
    if |cs| == 1 {
      assert cs == [c];
      NameOne(c);
      PartOfComponent(c, rest);
      ContinuesMeans(rest);
      NameAfterPart(front + rest, front, rest, c.text);
    } else {
      var later := cs[1..];
      var more := NameText(later) + rest;
      assert cs == [c] + later && later[|later| - 1] == cs[|cs| - 1];
      NameIsRead(later, rest);
      NameMore(c, later);
      DotAfter(c, more);
      PartOfComponent(c, "." + more);
      FirstOfName(later, rest);
      ContinuesMeans("." + more);
      assert ("." + more)[1] == more[0] && ("." + more)[1..] == more;
      NameAfterPart(front + ("." + more), front, "." + more, c.text);
      SeqAssociates(front, ".", more);
      SeqAssociates(front + ".", NameText(later), rest);
    }
  }

  lemma DotAfter(c: Component, more: string)
    ensures ComponentEnds(c, "." + more)
  {
    CharacterSets('.');
  }

  lemma FirstOfName(cs: seq<Component>, rest: string)
    requires NameOk(cs)
    ensures NameText(cs) != "" && (NameText(cs) + rest)[0] == InFile(cs[0])[0]
  {
  }

  /** And nothing else is read as a name. */
  lemma {:induction false} NameParses(r: string) returns (cs: seq<Component>, rest: string)
    requires NameAt(r).Some?
    ensures NameOk(cs) && NameEnds(cs, rest) && r == NameText(cs) + rest
    ensures NameAt(r) == Some((Dotted(cs), |NameText(cs)|))
    decreases |r|
  {
    hide NameAt, Part, Continues, NameText, Dotted, InFile, NAME_START, IDENT, ComponentOk;
    if Part(r).None? { NoPartNoName([], r); }
    var c, after := ComponentParses(r);
    NameAfterPart(r, InFile(c), after, c.text);
    ContinuesMeans(after);
    if Continues(after) {
      var cs', rest' := NameParses(after[1..]);
      cs, rest := [c] + cs', rest';
      NameMore(c, cs');
      FirstOfName(cs', rest');
      assert after == "." + after[1..] && after[1] == after[1..][0];
      SeqAssociates(InFile(c), ".", NameText(cs') + rest');
      SeqAssociates(InFile(c) + ".", NameText(cs'), rest');
    } else {
      cs, rest := [c], after;
      NameOne(c);
    }
  }

  lemma NameOne(c: Component)
    ensures NameText([c]) == InFile(c) && Dotted([c]) == c.text
  {
  }

  lemma NameMore(c: Component, cs: seq<Component>)
    requires cs != []
    ensures NameText([c] + cs) == InFile(c) + "." + NameText(cs) && Dotted([c] + cs) == c.text + "." + Dotted(cs)
    ensures ([c] + cs)[1..] == cs && ([c] + cs)[|cs|] == cs[|cs| - 1]
  {
    assert ([c] + cs)[1..] == cs;
  }

  lemma ComponentParses(r: string) returns (c: Component, after: string)
    requires Part(r).Some?
    ensures ComponentOk(c) && ComponentEnds(c, after) && r == InFile(c) + after
    ensures InFile(c) != "" && Part(r) == Some((c.text, |InFile(c)|))
  {
    var (p, k) := Part(r).value;
    after := r[k..];
    assert r == r[..k] + r[k..];
    if r[0] == OPEN_GUILLEMET {
      c := Quoted(p);
      FirstFound(r[1..], CLOSE_GUILLEMET);
      assert r[1..][..k - 2] == p && r[1..][k - 2] == CLOSE_GUILLEMET;
      assert r[..k] == "\U{00AB}" + p + "\U{00BB}";
    } else {
      c := Plain(p);
      RunIsIdent(r);
      forall x | x in p ensures x in IDENT {
        var i :| 0 <= i < |p| && p[i] == x;
        CharacterSets(r[i]);
      }
      if after != "" { CharacterSets(after[0]); }
    }
  }

  lemma {:induction false} FirstFound(r: string, c: char)
    ensures c !in r[..Find(r, c)]
  {
    if r != "" && r[0] != c {
      FirstFound(r[1..], c);
      assert r[..Find(r, c)] == [r[0]] + r[1..][..Find(r[1..], c)];
    }
  }

  lemma {:induction false} RunIsIdent(r: string)
    ensures forall i :: 0 <= i < IdentRun(r) ==> IsIdent(r[i])
    ensures IdentRun(r) < |r| ==> !IsIdent(r[IdentRun(r)])
  {
    if r != "" && IsIdent(r[0]) {
      RunIsIdent(r[1..]);
      forall i | 0 <= i < IdentRun(r) ensures IsIdent(r[i]) {
        if i > 0 { assert r[i] == r[1..][i - 1]; }
      }
    }
  }

  // ----- declarations -----

  predicate AllBlank(s: string) {
    forall c :: c in s ==> c in BLANKS
  }

  predicate MayPrecede(c: char) {
    c !in IDENT && c !in NOT_BEFORE
  }

  lemma {:induction false} BlanksThen(blanks: string, r: string)
    requires AllBlank(blanks) && (r == "" || r[0] !in BLANKS)
    ensures BlankRun(blanks + r) == |blanks|
  {
    if blanks == "" {
      assert blanks + r == r;
      if r != "" { CharacterSets(r[0]); }
    } else {
      assert blanks[0] in blanks && forall c :: c in blanks[1..] ==> c in blanks;
      CharacterSets(blanks[0]);
      BlanksThen(blanks[1..], r);
      assert (blanks + r)[1..] == blanks[1..] + r;
    }
  }

  lemma NameNotBlank(cs: seq<Component>, rest: string)
    requires NameOk(cs)
    ensures NameText(cs) != "" && (NameText(cs) + rest)[0] !in BLANKS
  {
    FirstOfName(cs, rest);
    var c := InFile(cs[0])[0];
    if cs[0].Plain? {
      assert c in cs[0].text;
      CharacterSets(c);
    }
  }

  lemma DeclaredIs(blanks: string, cs: seq<Component>, rest: string)
    requires AllBlank(blanks) && NameOk(cs) && NameEnds(cs, rest)
    ensures DeclaredName(blanks + (NameText(cs) + rest)) == Some(Dotted(cs))
  {
    hide NameAt, BlankRun, NameText;
    var r := NameText(cs) + rest;
    NameNotBlank(cs, rest);
    BlanksThen(blanks, r);
    assert (blanks + r)[|blanks|..] == r;
    NameIsRead(cs, rest);
  }

  /** `theorem`, blanks and a name, in code: a site under that name exactly when the character before
      is neither part of an identifier nor a dot or backtick. */
  lemma SiteIff(prev: char, blanks: string, cs: seq<Component>, rest: string, off: nat)
    requires blanks != "" && AllBlank(blanks) && NameOk(cs) && NameEnds(cs, rest)
    ensures var tail := blanks + (NameText(cs) + rest);
      && (Site(off, Dotted(cs)) in Scan(prev, "theorem" + tail, Code, off) <==> MayPrecede(prev))
      && (MayPrecede(prev) ==>
            Scan(prev, "theorem" + tail, Code, off) == [Site(off, Dotted(cs))] + Scan('m', tail, Code, off + 7))
      && (!MayPrecede(prev) ==>
            Scan(prev, "theorem" + tail, Code, off) == Scan('t', "heorem" + tail, Code, off + 1))
  {
    hide Scan, DeclaredName, NameText, Dotted, NameOk, NameEnds, MayPrecede, Step;
    var tail := blanks + (NameText(cs) + rest);
    var r := "theorem" + tail;
    DeclaredIs(blanks, cs, rest);
    assert blanks[0] in blanks && tail[0] == blanks[0];
    KeywordStep(prev, tail);
    if MayPrecede(prev) {
      ScanOnce(prev, r, Code, off, "theorem", tail);
    } else {
      assert r == "t" + ("heorem" + tail);
      ScanOnce(prev, r, Code, off, "t", "heorem" + tail);
      ScanRange('t', "heorem" + tail, Code, off + 1);
    }
  }

  lemma KeywordStep(prev: char, tail: string)
    requires tail != "" && tail[0] in BLANKS
    ensures Step(prev, "theorem" + tail, Code)
      == if MayPrecede(prev) then StepResult(7, Code, DeclaredName(tail)) else StepResult(1, Code, None)
  {
    hide DeclaredName, IsKeyword, CharLiteralEnd, IsIdent, IDENT;
    CharacterSets(prev);
    CharacterSets(tail[0]);
    KeywordIff(prev, tail);
    var r := "theorem" + tail;
    assert r[0] == 't' && r[7..] == tail;
  }

  lemma NameStep(prev: char, r: string)
    requires r != "" && Step(prev, r, Code).name.Some?
    ensures IsKeyword(prev, r) && |r| >= 7 && r[..7] == "theorem"
    ensures Step(prev, r, Code).name == DeclaredName(r[7..])
  {
    hide DeclaredName, CharLiteralEnd, IsIdent;
  }

  lemma BlanksAre(r: string)
    ensures AllBlank(r[..BlankRun(r)])
  {
    forall c | c in r[..BlankRun(r)] ensures c in BLANKS {
      var i :| 0 <= i < BlankRun(r) && r[i] == c;
      RunIsBlank(r);
      CharacterSets(c);
    }
  }

  lemma {:induction false} RunIsBlank(r: string)
    ensures forall i :: 0 <= i < BlankRun(r) ==> IsBlank(r[i])
  {
    if r != "" && IsBlank(r[0]) {
      RunIsBlank(r[1..]);
      forall i | 0 <= i < BlankRun(r) ensures IsBlank(r[i]) {
        if i > 0 { assert r[i] == r[1..][i - 1]; }
      }
    }
  }

  lemma DeclarationParses(tail: string) returns (blanks: string, cs: seq<Component>, rest: string)
    requires DeclaredName(tail).Some?
    ensures AllBlank(blanks) && NameOk(cs) && NameEnds(cs, rest)
    ensures tail == blanks + (NameText(cs) + rest) && DeclaredName(tail) == Some(Dotted(cs))
  {
    hide NameAt, BlankRun, NameText, Dotted, NameOk, NameEnds;
    var k := BlankRun(tail);
    blanks := tail[..k];
    BlanksAre(tail);
    cs, rest := NameParses(tail[k..]);
    assert tail == tail[..k] + tail[k..];
  }

  /** Every site found where code is read is such a declaration. */
  lemma SiteNeeds(prev: char, r: string, off: nat, name: string)
      returns (blanks: string, cs: seq<Component>, rest: string)
    requires Site(off, name) in Scan(prev, r, Code, off)
    ensures MayPrecede(prev) && blanks != "" && AllBlank(blanks) && NameOk(cs) && NameEnds(cs, rest)
    ensures r == "theorem" + (blanks + (NameText(cs) + rest)) && name == Dotted(cs)
  {
    hide Scan, DeclaredName, NameText, Dotted, NameOk, NameEnds, Step, MayPrecede, IsKeyword;
    if r == "" { NothingScanned(prev, off); }
    var s := Step(prev, r, Code);
    var k := Min(s.advance, |r|);
    assert r == r[..k] + r[k..];
    ScanOnce(prev, r, Code, off, r[..k], r[k..]);
    ScanRange(r[k - 1], r[k..], s.mode, off + k);
    assert s.name == Some(name);
    NameStep(prev, r);
    blanks, cs, rest := DeclarationParses(r[7..]);
    assert r == r[..7] + r[7..];
    KeywordNeeds(prev, r, blanks, cs, rest);
  }

  lemma KeywordNeeds(prev: char, r: string, blanks: string, cs: seq<Component>, rest: string)
    requires IsKeyword(prev, r) && NameOk(cs) && r == "theorem" + (blanks + (NameText(cs) + rest))
    ensures MayPrecede(prev) && blanks != ""
  {
    hide NameText, NameOk, IDENT, IsIdent;
    var tail := blanks + (NameText(cs) + rest);
    CharacterSets(prev);
    NameNotBlank(cs, rest);
    KeywordIff(prev, tail);
    if blanks == "" {
      assert tail == NameText(cs) + rest;
      CharacterSets(tail[0]);
    }
  }

  lemma NothingScanned(prev: char, off: nat)
    ensures Scan(prev, "", Code, off) == []
  {
  }

  // ----- everything else in code -----

  /** The keyword where it may stand, before a blank or the end of the file. */
  predicate KeywordHere(prev: char, r: string) {
    "theorem" <= r && MayPrecede(prev) && (|r| == 7 || r[7] in BLANKS)
  }

  lemma KeywordHereIs(prev: char, r: string)
    ensures IsKeyword(prev, r) <==> KeywordHere(prev, r)
  {
    hide IDENT, IsIdent;
    CharacterSets(prev);
    if |r| > 7 { CharacterSets(r[7]); }
  }

  /** A keyword without a name behind it is passed over without a site. */
  lemma KeywordWithoutName(prev: char, tail: string, off: nat)
    requires KeywordHere(prev, "theorem" + tail) && DeclaredName(tail).None?
    ensures Scan(prev, "theorem" + tail, Code, off) == Scan('m', tail, Code, off + 7)
  {
    hide Scan, DeclaredName, IsKeyword, KeywordHere, CharLiteralEnd;
    var r := "theorem" + tail;
    KeywordHereIs(prev, r);
    assert r[0] == 't' && r[7..] == tail;
    ScanOnce(prev, r, Code, off, "theorem", tail);
  }

  predicate OpensSomething(prev: char, r: string) {
    "/-" <= r || "--" <= r || (r != "" && (r[0] == '"' || r[0] == '\'')) || KeywordHere(prev, r)
  }

  /** Any other character of code is passed over by itself. */
  lemma OrdinaryCharacter(prev: char, c: char, rest: string, off: nat)
    requires !OpensSomething(prev, [c] + rest)
    ensures Scan(prev, [c] + rest, Code, off) == Scan(c, rest, Code, off + 1)
  {
    hide Scan, DeclaredName, IsKeyword, KeywordHere, CharLiteralEnd;
    var r := [c] + rest;
    KeywordHereIs(prev, r);
    ScanOnce(prev, r, Code, off, [c], rest);
  }

  /** So is a quote that is not closed after one character or one escaped character. */
  lemma LoneQuote(prev: char, rest: string, off: nat)
    requires !(|rest| > 1 && rest[0] != '\\' && rest[1] == '\'')
    requires !(|rest| > 2 && rest[0] == '\\' && rest[2] == '\'')
    ensures Scan(prev, "'" + rest, Code, off) == Scan('\'', rest, Code, off + 1)
  {
    hide Scan, DeclaredName;
    var r := "'" + rest;
    assert r[1..] == rest && r[0] == '\'';
    assert forall i :: 0 <= i < |rest| ==> r[i + 1] == rest[i];
    ScanOnce(prev, r, Code, off, "'", rest);
  }
}
