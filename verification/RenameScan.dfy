/** The keyword scanner of `rename_lemma.py`: comments, strings and character literals
    are skipped, and each `theorem` keyword in code is a site. `prev` is the character
    before the unread text, a newline at the start of the file. */
module RenameScan {
  import opened Prelude

  datatype Site = Site(off: nat, name: string)

  datatype Mode = Code | LineComment | BlockComment(depth: nat) | StringLiteral

  predicate IsIdent(c: char) {
    'a' <= c <= 'z' || 'A' <= c <= 'Z' || '0' <= c <= '9' || c == '_' || c == '\'' || c == '!' || c == '?'
  }

  const OPEN_GUILLEMET: char := '\U{00AB}'
  const CLOSE_GUILLEMET: char := '\U{00BB}'

  predicate IsNameStart(c: char) {
    'a' <= c <= 'z' || 'A' <= c <= 'Z' || c == '_' || c == OPEN_GUILLEMET
  }

  predicate IsBlank(c: char) {
    c == ' ' || c == '\t' || c == '\n'
  }

  predicate IsNameDot(c: char) {
    c == '.' || c == '`'
  }

  // ----- declared names -----

  /** Index of the first `c`, or the length. */
  function Find(r: string, c: char): (k: nat)
    ensures k <= |r| && (k < |r| ==> r[k] == c)
  {
    if r == [] || r[0] == c then 0 else 1 + Find(r[1..], c)
  }

  function IdentRun(r: string): (k: nat)
    ensures k <= |r|
  {
    if r == [] || !IsIdent(r[0]) then 0 else 1 + IdentRun(r[1..])
  }

  function BlankRun(r: string): (k: nat)
    ensures k <= |r|
  {
    if r == [] || !IsBlank(r[0]) then 0 else 1 + BlankRun(r[1..])
  }

  /** One component: its text and how many characters it takes, guillemets included. */
  function Part(r: string): (p: Option<(string, nat)>)
    ensures p.Some? ==> 0 < p.value.1 <= |r|
  {
    if r != [] && r[0] == OPEN_GUILLEMET then
      var k := Find(r[1..], CLOSE_GUILLEMET);
      if k == |r| - 1 then None else Some((r[1..k + 1], k + 2))
    else
      var k := IdentRun(r);
      if k == 0 then None else Some((r[..k], k))
  }

  predicate Continues(r: string) {
    |r| >= 2 && r[0] == '.' && IsNameStart(r[1])
  }

  /** The dotted name at the start of `r` and its length in `r`, if there is one. */
  function NameAt(r: string): (n: Option<(string, nat)>)
    ensures n.Some? ==> 0 < n.value.1 <= |r|
    decreases |r|
  {
    var p := Part(r);
    if p.None? then None
    else if Continues(r[p.value.1..]) then
      var n := NameAt(r[p.value.1 + 1..]);
      if n.None? then None else Some((p.value.0 + "." + n.value.0, p.value.1 + 1 + n.value.1))
    else p
  }

  // ----- one step -----

  datatype StepResult = StepResult(advance: nat, mode: Mode, name: Option<string>)

  /** Quoted by `'` on both sides, one character or a backslash and one character between. */
  function CharLiteralEnd(r: string): (k: nat)
    requires r != []
    ensures 1 <= k <= |r|
  {
    var j := if |r| > 1 && r[1] == '\\' then 3 else 2;
    if j < |r| && r[j] == '\'' then j + 1 else 1
  }

  predicate IsKeyword(prev: char, r: string) {
    && "theorem" <= r && !IsIdent(prev) && !IsNameDot(prev)
    && (|r| > 7 ==> IsBlank(r[7]))
  }

  /** The name declared after a keyword: blanks, then a dotted name. */
  function DeclaredName(r: string): Option<string> {
    var n := NameAt(r[BlankRun(r)..]);
    if n.None? then None else Some(n.value.0)
  }

  function Step(prev: char, r: string, mode: Mode): (s: StepResult)
    requires r != []
    ensures 1 <= s.advance <= |r| + 1 && (s.name.Some? ==> s.advance == 7 && mode.Code? && IsKeyword(prev, r))
  {
    match mode
    case LineComment => StepResult(1, if r[0] == '\n' then Code else LineComment, None)
    case BlockComment(d) =>
      if "/-" <= r then StepResult(2, BlockComment(d + 1), None)
      else if "-/" <= r then StepResult(2, if d <= 1 then Code else BlockComment(d - 1), None)
      else StepResult(1, mode, None)
    case StringLiteral =>
      if r[0] == '\\' then StepResult(2, StringLiteral, None)
      else StepResult(1, if r[0] == '"' then Code else StringLiteral, None)
    case Code =>
      if "/-" <= r then StepResult(2, BlockComment(1), None)
      else if "--" <= r then StepResult(2, LineComment, None)
      else if r[0] == '"' then StepResult(1, StringLiteral, None)
      else if r[0] == '\'' && !IsIdent(prev) then StepResult(CharLiteralEnd(r), Code, None)
      else if IsKeyword(prev, r) then StepResult(7, Code, DeclaredName(r[7..]))
      else StepResult(1, Code, None)
  }

  function Min(a: nat, b: nat): nat {
    if a < b then a else b
  }

  /** The sites in `r`, which starts at offset `off` of the file. */
  function Scan(prev: char, r: string, mode: Mode, off: nat): seq<Site>
    decreases |r|
  {
    if r == [] then []
    else
      var s := Step(prev, r, mode);
      var k := Min(s.advance, |r|);
      (if s.name.Some? then [Site(off, s.name.value)] else []) + Scan(r[k - 1], r[k..], s.mode, off + k)
  }

  // ----- the loops of the script -----

  lemma {:induction false} FindFrom(text: string, i: nat, j: nat, c: char)
    requires i <= j <= |text| && (forall k :: i <= k < j ==> text[k] != c)
    requires j < |text| ==> text[j] == c
    ensures Find(text[i..], c) == j - i
    decreases j - i
  {
    if i < j { FindFrom(text, i + 1, j, c); }
  }

  method FindChar(text: string, i: nat, c: char) returns (j: nat)
    requires i <= |text|
    ensures i <= j <= |text| && j - i == Find(text[i..], c)
  {
    j := i;
    while j < |text| && text[j] != c
      invariant i <= j <= |text| && forall k :: i <= k < j ==> text[k] != c
    {
      j := j + 1;
    }
    FindFrom(text, i, j, c);
  }

  lemma {:induction false} IdentRunFrom(text: string, i: nat, j: nat)
    requires i <= j <= |text| && (forall k :: i <= k < j ==> IsIdent(text[k]))
    requires j < |text| ==> !IsIdent(text[j])
    ensures IdentRun(text[i..]) == j - i
    decreases j - i
  {
    if i < j { IdentRunFrom(text, i + 1, j); }
  }

  lemma {:induction false} BlankRunFrom(text: string, i: nat, j: nat)
    requires i <= j <= |text| && (forall k :: i <= k < j ==> IsBlank(text[k]))
    requires j < |text| ==> !IsBlank(text[j])
    ensures BlankRun(text[i..]) == j - i
    decreases j - i
  {
    if i < j { BlankRunFrom(text, i + 1, j); }
  }

  function Join(parts: seq<string>): string {
    if parts == [] then "" else if |parts| == 1 then parts[0] else parts[0] + "." + Join(parts[1..])
  }

  lemma {:induction false} JoinSnoc(parts: seq<string>, p: string)
    requires parts != []
    ensures Join(parts + [p]) == Join(parts) + "." + p
  {
    if |parts| == 1 {
      assert (parts + [p])[1..] == [p];
    } else {
      JoinSnoc(parts[1..], p);
      assert (parts + [p])[1..] == parts[1..] + [p];
    }
  }

  /** What `decl_name_after` still has to produce when `parts` are read and `r` is left. */
  function Finish(parts: seq<string>, r: string): Option<string> {
    var n := NameAt(r);
    if n.None? then None
    else Some(if parts == [] then n.value.0 else Join(parts) + "." + n.value.0)
  }

  method ReadPart(text: string, i: nat) returns (part: Option<string>, j: nat)
    requires i <= |text|
    ensures i <= j <= |text|
    ensures Part(text[i..]) == if part.None? then None else Some((part.value, j - i))
  {
    j := i;
    if i < |text| && text[i] == OPEN_GUILLEMET {
      j := FindChar(text, i + 1, CLOSE_GUILLEMET);
      assert text[i..][1..] == text[i + 1..];
      if j == |text| {
        return None, i;
      }
      assert text[i + 1..j] == text[i..][1..j - i];
      return Some(text[i + 1..j]), j + 1;
    }
    while j < |text| && IsIdent(text[j])
      invariant i <= j <= |text| && forall k :: i <= k < j ==> IsIdent(text[k])
    {
      j := j + 1;
    }
    IdentRunFrom(text, i, j);
    if j == i {
      return None, i;
    }
    assert text[i..j] == text[i..][..j - i];
    return Some(text[i..j]), j;
  }

  lemma FinishPart(parts: seq<string>, r: string)
    requires Part(r).Some?
    ensures var (p, k) := Part(r).value;
      Finish(parts, r) ==
        if Continues(r[k..]) then Finish(parts + [p], r[k + 1..]) else Some(Join(parts + [p]))
  {
    hide Part, Join, NameAt;
    var (p, k) := Part(r).value;
    NameOfPart(r);
    if parts != [] {
      JoinSnoc(parts, p);
      if Continues(r[k..]) && NameAt(r[k + 1..]).Some? {
        var n := NameAt(r[k + 1..]).value.0;
        SeqAssociates(Join(parts) + ".", p + ".", n);
        SeqAssociates(Join(parts) + ".", p, ".");
      }
    } else {
      assert parts + [p] == [p];
      JoinOne(p);
    }
  }

  lemma NameOfPart(r: string)
    requires Part(r).Some?
    ensures var (p, k) := Part(r).value;
      NameAt(r) ==
        if Continues(r[k..]) then
          var n := NameAt(r[k + 1..]);
          if n.None? then None else Some((p + "." + n.value.0, k + 1 + n.value.1))
        else Some((p, k))
  {
    hide Part;
  }

  lemma JoinOne(p: string)
    ensures Join([p]) == p
  {
  }

  method DeclNameAfter(text: string, start: nat) returns (name: Option<string>)
    requires start <= |text|
    ensures name == Finish([], text[start..])
  {
    hide Part, Join, NameAt, Finish;
    var i: nat, parts: seq<string> := start, [];
    while true
      invariant start <= i <= |text|
      invariant Finish(parts, text[i..]) == Finish([], text[start..])
      decreases |text| - i
    {
      var part, j := ReadPart(text, i);
      if part.None? {
        NoPartNoName(parts, text[i..]);
        return None;
      }
      FinishPart(parts, text[i..]);
      assert text[i..][j - i..] == text[j..];
      parts := parts + [part.value];
      if j + 1 < |text| && text[j] == '.' && IsNameStart(text[j + 1]) {
        assert text[i..][j - i + 1..] == text[j + 1..];
        i := j + 1;
      } else {
        return Some(Join(parts));
      }
    }
  }

  lemma NoPartNoName(parts: seq<string>, r: string)
    requires Part(r).None?
    ensures Finish(parts, r) == None && NameAt(r) == None
  {
  }

  function ModeOf(inLine: bool, depth: nat, inStr: bool): Mode {
    if inLine then LineComment else if depth > 0 then BlockComment(depth) else if inStr then StringLiteral else Code
  }

  function PrevAt(text: string, i: nat): char {
    if 0 < i <= |text| then text[i - 1] else '\n'
  }

  ghost predicate ScanRest(text: string, i: nat, mode: Mode, sites: seq<Site>) {
    i <= |text| + 1 &&
    Scan('\n', text, Code, 0)
      == sites + (if i <= |text| then Scan(PrevAt(text, i), text[i..], mode, i) else [])
  }

  function Found(i: nat, s: StepResult): seq<Site> {
    if s.name.Some? then [Site(i, s.name.value)] else []
  }

  /** One turn of the loop is one step of the scan. */
  lemma Turn(text: string, i: nat, mode: Mode, sites: seq<Site>)
    requires i < |text| && ScanRest(text, i, mode, sites)
    ensures var s := Step(PrevAt(text, i), text[i..], mode);
      ScanRest(text, i + s.advance, s.mode, sites + Found(i, s))
  {
    hide Step, Found, Scan;
    var r := text[i..];
    var s := Step(PrevAt(text, i), r, mode);
    var k := Min(s.advance, |r|);
    var later := Scan(r[k - 1], r[k..], s.mode, i + k);
    ScanStep(PrevAt(text, i), r, mode, i);
    assert r[k..] == text[i + k..];
    assert r[k - 1] == PrevAt(text, i + k);
    SeqAssociates(sites, Found(i, s), later);
    if i + s.advance > |text| {
      assert r[k..] == "";
      ScanNothing(r[k - 1], s.mode, i + k);
      assert sites + Found(i, s) + [] == sites + Found(i, s);
    }
  }

  lemma ScanStep(prev: char, r: string, mode: Mode, off: nat)
    requires r != []
    ensures var s := Step(prev, r, mode);
      var k := Min(s.advance, |r|);
      Scan(prev, r, mode, off) == Found(off, s) + Scan(r[k - 1], r[k..], s.mode, off + k)
  {
    hide Step;
  }

  lemma ScanNothing(prev: char, mode: Mode, off: nat)
    ensures Scan(prev, "", mode, off) == []
  {
  }

  method StartsWith(text: string, w: string, i: nat) returns (b: bool)
    requires i <= |text|
    ensures b == (w <= text[i..])
  {
    b := i + |w| <= |text| && text[i..i + |w|] == w;
    assert i + |w| <= |text| ==> text[i..][..|w|] == text[i..i + |w|];
  }

  method ScanFile(text: string) returns (sites: seq<Site>)
    ensures sites == Scan('\n', text, Code, 0)
  {
    hide Scan, ScanRest, IsKeyword, DeclaredName, CharLiteralEnd;
    sites := [];
    var i, n := 0, |text|;
    var depth := 0;
    var inLine, inStr := false, false;
    assert ScanRest(text, 0, Code, []) by { ScanStart(text); }
    while i < n
      invariant 0 <= i <= n + 1 && 0 <= depth
      invariant ScanRest(text, i, ModeOf(inLine, depth, inStr), sites)
      invariant inLine ==> depth == 0 && !inStr
      invariant depth > 0 ==> !inStr
      decreases n + 1 - i
    {
      Turn(text, i, ModeOf(inLine, depth, inStr), sites);
      assert sites + [] == sites;
      var c := text[i];
      if inLine {
        if c == '\n' { inLine := false; }
        i := i + 1;
      } else if depth > 0 {
        var opens := StartsWith(text, "/-", i);
        var closes := StartsWith(text, "-/", i);
        if opens {
          depth := depth + 1;
          i := i + 2;
        } else if closes {
          depth := depth - 1;
          i := i + 2;
        } else {
          i := i + 1;
        }
      } else if inStr {
        if c == '\\' {
          i := i + 2;
        } else if c == '"' {
          inStr := false;
          i := i + 1;
        } else {
          i := i + 1;
        }
      } else {
        var advance, found;
        advance, depth, inLine, inStr, found := CodeTurn(text, i);
        sites := sites + found;
        i := i + advance;
      }
    }
    assert sites == Scan('\n', text, Code, 0) by { ScanEnd(text, i, ModeOf(inLine, depth, inStr), sites); }
  }

  lemma ScanStart(text: string)
    ensures ScanRest(text, 0, Code, [])
  {
    assert text[0..] == text;
  }

  lemma ScanEnd(text: string, i: nat, mode: Mode, sites: seq<Site>)
    requires |text| <= i && ScanRest(text, i, mode, sites)
    ensures sites == Scan('\n', text, Code, 0)
  {
  }

  /** The turn in code: what opens here, a character literal, a keyword site, or one character. */
  method CodeTurn(text: string, i: nat)
      returns (advance: nat, depth: nat, inLine: bool, inStr: bool, found: seq<Site>)
    requires i < |text|
    ensures var s := Step(PrevAt(text, i), text[i..], Code);
      advance == s.advance && ModeOf(inLine, depth, inStr) == s.mode && found == Found(i, s)
    ensures inLine ==> depth == 0 && !inStr
    ensures depth > 0 ==> !inStr
  {
    depth, inLine, inStr, found := 0, false, false, [];
    var c, n := text[i], |text|;
    var opens := StartsWith(text, "/-", i);
    var dashes := StartsWith(text, "--", i);
    if opens {
      return 2, 1, false, false, [];
    } else if dashes {
      return 2, 0, true, false, [];
    } else if c == '"' {
      return 1, 0, false, true, [];
    } else if c == '\'' && (i == 0 || !IsIdent(text[i - 1])) {
      var j := i + 1;
      if j < n && text[j] == '\\' { j := j + 2; } else { j := j + 1; }
      if j < n && text[j] == '\'' {
        advance := j + 1 - i;
      } else {
        advance := 1;
      }
    } else {
      advance, found := KeywordTurn(text, i);
      assert IsKeyword(PrevAt(text, i), text[i..]) ==> text[i..][7..] == text[i + 7..];
    }
  }

  /** The last branch of the loop body: a keyword site, or one character of code. */
  method KeywordTurn(text: string, i: nat) returns (advance: nat, found: seq<Site>)
    requires i < |text|
    ensures IsKeyword(PrevAt(text, i), text[i..]) ==>
              advance == 7 && found == Found(i, StepResult(7, Code, DeclaredName(text[i + 7..])))
    ensures !IsKeyword(PrevAt(text, i), text[i..]) ==> advance == 1 && found == []
  {
    hide DeclaredName;
    var keyword := KeywordHere(text, i);
    if keyword {
      var name := NameAfter(text, i + 7);
      return 7, if name.Some? then [Site(i, name.value)] else [];
    }
    return 1, [];
  }

  method KeywordHere(text: string, i: nat) returns (keyword: bool)
    requires i < |text|
    ensures keyword == IsKeyword(PrevAt(text, i), text[i..])
    ensures keyword ==> i + 7 <= |text|
  {
    keyword := StartsWith(text, "theorem", i);
    if keyword {
      var prev := if i > 0 then text[i - 1] else '\n';
      var next := if i + 7 < |text| then text[i + 7] else '\n';
      keyword := !IsIdent(prev) && !IsNameDot(prev) && IsBlank(next);
    }
  }

  method NameAfter(text: string, start: nat) returns (name: Option<string>)
    requires start <= |text|
    ensures name == DeclaredName(text[start..])
  {
    hide NameAt, BlankRun;
    var j := start;
    while j < |text| && IsBlank(text[j])
      invariant start <= j <= |text| && forall k :: start <= k < j ==> IsBlank(text[k])
    {
      j := j + 1;
    }
    BlankRunFrom(text, start, j);
    assert text[start..][j - start..] == text[j..];
    name := DeclNameAfter(text, j);
  }
}
