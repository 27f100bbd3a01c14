/** Writing test cases as a suite file and parsing it again. */
module SuiteRoundTrip {
  import opened Prelude
  import opened SuiteParser

  /** A text given line by line, written as a block, or a text written behind its key. */
  datatype Content = Lines(lines: seq<string>) | Inline(text: string)

  /** A block of no interest to the parser, such as the expected JSON. */
  datatype Skipped = Skipped(key: string, lines: seq<string>)

  /** A case as the suite writes it, with the skipped blocks between its fields. */
  datatype Case = Case(
    name: string, tags: seq<string>, fail: bool, before: seq<Skipped>, yaml: Content, between: seq<Skipped>,
    tree: Content, after: seq<Skipped>)

  // ----- writing -----

  function JoinWords(words: seq<string>): string {
    if words == [] then "" else if |words| == 1 then words[0] else words[0] + " " + JoinWords(words[1..])
  }

  /** Block lines are indented by four; empty ones stay empty. */
  function Indented(lines: seq<string>): (out: seq<string>)
    ensures |out| == |lines|
  {
    if lines == [] then [] else [if lines[0] == "" then "" else "    " + lines[0]] + Indented(lines[1..])
  }

  function HeaderLines(c: Case): seq<string> {
    ["- name: " + c.name, "  tags: " + JoinWords(c.tags), "  fail: " + (if c.fail then "true" else "false")]
  }

  function BlockLines(key: string, lines: seq<string>): seq<string> {
    ["  " + key + ": |"] + Indented(lines)
  }

  function ContentLines(key: string, x: Content): seq<string> {
    if x.Lines? then BlockLines(key, x.lines) else ["  " + key + ": " + x.text]
  }

  function SkippedLines(xs: seq<Skipped>): seq<string> {
    if xs == [] then [] else BlockLines(xs[0].key, xs[0].lines) + SkippedLines(xs[1..])
  }

  function CaseLines(c: Case): seq<string> {
    HeaderLines(c) + (SkippedLines(c.before) + ContentLines("yaml", c.yaml))
      + (SkippedLines(c.between) + ContentLines("tree", c.tree)) + SkippedLines(c.after)
  }

  function FileLines(cs: seq<Case>): seq<string> {
    if cs == [] then [] else CaseLines(cs[0]) + FileLines(cs[1..])
  }

  // ----- what should come back -----

  /** Every line of a block ends with a line feed. */
  function BlockText(lines: seq<string>): string {
    if lines == [] then "" else lines[0] + "\n" + BlockText(lines[1..])
  }

  function ContentText(x: Content): string {
    if x.Lines? then BlockText(x.lines) else x.text
  }

  function Expected(id: string, c: Case, variant: nat): TestCase {
    TestCase(id, c.name, c.tags, c.fail, ContentText(c.yaml), ContentText(c.tree), variant)
  }

  /** A text behind its key loses its surrounding white space; one that starts with `|` is taken
      for the start of a block. */
  function GotText(x: Content): string {
    if x.Lines? then BlockText(x.lines) else if "|" <= Strip(x.text) then "" else Strip(x.text)
  }

  /** What the parser makes of a case whose blocks are in order. */
  function Got(id: string, c: Case, variant: nat): TestCase {
    TestCase(id, Strip(c.name), Words(Strip(JoinWords(c.tags))), c.fail, GotText(c.yaml), GotText(c.tree), variant)
  }

  function GotAll(id: string, cs: seq<Case>, variant: nat): seq<TestCase> {
    if cs == [] then [] else [Got(id, cs[0], variant)] + GotAll(id, cs[1..], variant + 1)
  }

  function ExpectedAll(id: string, cs: seq<Case>, variant: nat): seq<TestCase> {
    if cs == [] then [] else [Expected(id, cs[0], variant)] + ExpectedAll(id, cs[1..], variant + 1)
  }

  // ----- which cases -----

  /** No surrounding white space. */
  predicate Tight(s: string) {
    s == "" || (!IsSpace(s[0]) && !IsSpace(s[|s| - 1]))
  }

  predicate Word(s: string) {
    s != "" && forall c :: c in s ==> !IsSpace(c)
  }

  /** Tags hold no space, and the tag line has no white space at its ends. */
  predicate TagsOk(tags: seq<string>) {
    (forall t :: t in tags ==> t != "" && ' ' !in t) && Tight(JoinWords(tags))
  }

  predicate BlockLineOk(l: string) {
    l == "" || Lstrip(l) != ""
  }

  /** No line of white space only, and the first that is not empty starts at the margin. */
  predicate BlockOk(lines: seq<string>) {
    (forall l :: l in lines ==> BlockLineOk(l)) && MarginFirst(lines)
  }

  predicate MarginFirst(lines: seq<string>) {
    lines == [] || (if lines[0] == "" then MarginFirst(lines[1..]) else LeadingSpaces(lines[0]) == 0)
  }

  predicate SkippedOk(x: Skipped) {
    x.key in ["json", "dump", "from", "tidy", "emit"] && BlockOk(x.lines)
  }

  predicate AllSkippedOk(c: Case) {
    forall x :: x in c.before + c.between + c.after ==> SkippedOk(x)
  }

  predicate BlocksOk(c: Case) {
    (c.yaml.Lines? ==> BlockOk(c.yaml.lines)) && (c.tree.Lines? ==> BlockOk(c.tree.lines))
  }

  predicate InlineOk(x: Content) {
    x.Inline? ==> Tight(x.text) && !("|" <= x.text)
  }

  /** Name and tags hold no line feed. */
  predicate FieldsOnOneLine(c: Case) {
    '\n' !in c.name && forall t :: t in c.tags ==> '\n' !in t
  }

  predicate FieldsOk(c: Case) {
    Tight(c.name) && TagsOk(c.tags) && InlineOk(c.yaml) && InlineOk(c.tree)
  }

  predicate CaseOk(c: Case) {
    FieldsOnOneLine(c) && FieldsOk(c) && BlocksOk(c)
  }

  predicate ContentIsLines(x: Content) {
    if x.Lines? then forall l :: l in x.lines ==> '\n' !in l else '\n' !in x.text
  }

  predicate SkippedIsLines(x: Skipped) {
    forall l :: l in x.lines ==> '\n' !in l
  }

  /** Blocks are given line by line, a text behind its key is one line, and the skipped blocks
      are in order. */
  predicate WellWritten(c: Case) {
    && ContentIsLines(c.yaml) && ContentIsLines(c.tree) && AllSkippedOk(c)
    && forall x :: x in c.before + c.between + c.after ==> SkippedIsLines(x)
  }

  predicate OneLineEach(c: Case) {
    FieldsOnOneLine(c) && WellWritten(c)
  }

  // ----- strings -----

  lemma {:induction false} RstripPrefix(s: string)
    ensures Rstrip(s) <= s
  {
    if s != "" && IsSpace(s[|s| - 1]) {
      RstripPrefix(s[..|s| - 1]);
    }
  }

  lemma TightStrip(s: string)
    requires Tight(s)
    ensures Strip(s) == s && Lstrip(s) == s
  {
  }

  lemma {:induction false} LstripShorter(s: string)
    ensures |Lstrip(s)| <= |s| && (s != "" && IsSpace(s[0]) ==> |Lstrip(s)| < |s|)
  {
    if s != "" && IsSpace(s[0]) { LstripShorter(s[1..]); }
  }

  lemma {:induction false} RstripShorter(s: string)
    ensures |Rstrip(s)| <= |s| && (s != "" && IsSpace(s[|s| - 1]) ==> |Rstrip(s)| < |s|)
  {
    if s != "" && IsSpace(s[|s| - 1]) { RstripShorter(s[..|s| - 1]); }
  }

  /** Stripping keeps the length only of tight strings. */
  lemma StripShorter(s: string)
    ensures |Strip(s)| <= |s| && (|Strip(s)| == |s| <==> Tight(s)) && (Tight(s) ==> Strip(s) == s)
  {
    LstripShorter(s);
    RstripShorter(Lstrip(s));
  }

  lemma WordStrip(s: string)
    requires Word(s)
    ensures Strip(s) == s
  {
    assert s[0] in s && s[|s| - 1] in s;
    TightStrip(s);
  }

  lemma {:induction false} SplitAtFirst(key: string, value: string)
    requires ':' !in key
    ensures SplitOnce(key + ": " + value, ": ") == Some((key, value))
  {
    var s := key + ": " + value;
    if key == "" {
      assert s == ": " + value && s[2..] == value;
    } else {
      assert s[0] == key[0] && key[0] in key && s[1..] == key[1..] + ": " + value;
      assert !(": " <= s);
      assert forall c :: c in key[1..] ==> c in key;
      SplitAtFirst(key[1..], value);
      assert [key[0]] + key[1..] == key;
    }
  }

  lemma {:induction false} WordsOfOne(word: string, t: string, rest: string)
    requires ' ' !in t
    ensures WordsFrom(word, t + rest) == WordsFrom(word + t, rest)
    decreases |t|
  {
    if t == "" {
      assert t + rest == rest && word + t == word;
    } else {
      assert t[0] in t && (t + rest)[0] == t[0] && (t + rest)[1..] == t[1..] + rest;
      assert forall c :: c in t[1..] ==> c in t;
      WordsOfOne(word + [t[0]], t[1..], rest);
      assert word + [t[0]] + t[1..] == word + t;
    }
  }

  lemma {:induction false} WordsOfJoin(words: seq<string>)
    requires forall t :: t in words ==> t != "" && ' ' !in t
    ensures Words(JoinWords(words)) == words
  {
    if words != [] {
      var t := words[0];
      assert t in words && "" + t == t;
      if |words| == 1 {
        WordsOfOne("", t, "");
        assert t + "" == t;
      } else {
        assert forall x :: x in words[1..] ==> x in words;
        WordsOfJoin(words[1..]);
        var later := JoinWords(words[1..]);
        assert JoinWords(words) == t + ([' '] + later);
        WordsOfOne("", t, [' '] + later);
        assert ([' '] + later)[1..] == later;
        assert [t] + words[1..] == words;
      }
    }
  }

  /** Splitting gives words without spaces that take no more room than the text. */
  lemma {:induction false} WordsFit(word: string, s: string)
    requires ' ' !in word
    ensures var ws := WordsFrom(word, s);
      && (forall t :: t in ws ==> t != "" && ' ' !in t)
      && |JoinWords(ws)| <= |word| + |s|
    decreases |s|
  {
    if s != "" {
      if s[0] == ' ' {
        WordsFit("", s[1..]);
        var later := WordsFrom("", s[1..]);
        if word != "" {
          assert ([word] + later)[1..] == later;
        } else {
          assert [] + later == later;
        }
      } else {
        WordsFit(word + [s[0]], s[1..]);
      }
    }
  }

  /** Exactly the tag lists that come back from their line. */
  lemma TagsComeBack(tags: seq<string>)
    ensures Words(Strip(JoinWords(tags))) == tags <==> TagsOk(tags)
  {
    var j := JoinWords(tags);
    StripShorter(j);
    WordsFit("", Strip(j));
    if TagsOk(tags) {
      WordsOfJoin(tags);
    }
  }

  // ----- one line at a time -----

  /** Nothing is being read, or a block whose indentation is still open or at least four. */
  predicate Ready(s: State) {
    s.blockIndent == 0 || (s.blockIndent >= 4 && s.field.Some?)
  }

  function Left(s: State): State {
    s.(field := None, blockIndent := 0)
  }

  /** A key line ends the block before it. */
  lemma KeyLine(s: State, id: string, key: string, value: string)
    requires Ready(s) && Word(key) && ':' !in key && key[0] != '-'
    ensures Line(s, id, "  " + key + ": " + value) == KeyValue(Left(s), key, value)
  {
    hide KeyValue, SplitOnce;
    var line := "  " + key + ": " + value;
    var trimmed := key + ": " + value;
    assert key[0] in key && !IsSpace(key[0]);
    assert line[1..] == [' '] + trimmed && line[2..] == trimmed && trimmed[0] == key[0];
    LstripTwo(line, trimmed);
    NotSeparator(line);
    SplitAtFirst(key, value);
    WordStrip(key);
  }

  lemma LstripTwo(line: string, trimmed: string)
    requires line == "  " + trimmed && trimmed != "" && !IsSpace(trimmed[0])
    ensures Lstrip(line) == trimmed && LeadingSpaces(line) == 2
  {
    assert line[1..] == " " + trimmed && line[1..][1..] == trimmed;
    assert Lstrip(line[1..]) == trimmed && LeadingSpaces(line[1..]) == 1;
  }

  lemma NotSeparator(line: string)
    requires Lstrip(line) != "" && (Lstrip(line)[0] != '-' || (|Lstrip(line)| > 1 && Lstrip(line)[1] != '-'))
    ensures Strip(line) != "---"
  {
    RstripPrefix(Lstrip(line));
    assert "---"[0] == '-' && "---"[1] == '-';
  }

  /** A new item files the one before. */
  lemma ItemLine(s: State, id: string, name: string)
    requires Ready(s)
    ensures var t := Finalized(s);
      Line(s, id, "- name: " + name)
        == Begun(t, id).(current := Begun(t, id).current.(name := Strip(name)))
  {
    hide SplitOnce;
    var line := "- name: " + name;
    assert line[0] == '-' && line[1] == ' ';
    assert Lstrip(line) == line && LeadingSpaces(line) == 0;
    NotSeparator(line);
    assert line[..2] == "- " && line[2..] == "name" + ": " + name;
    assert forall c :: c in "name" ==> c != ':' && !IsSpace(c);
    SplitAtFirst("name", name);
    WordStrip("name");
  }

  /** A line of the block adds itself and a line feed, whatever the indentation still is. */
  lemma BlockLineReads(s: State, id: string, l: string)
    requires s.field.Some? && BlockLineOk(l) && (s.blockIndent == 4 || (s.blockIndent == 0 && LeadingSpaces(l) == 0))
    ensures var out := if l == "" then "" else "    " + l;
      Line(s, id, out) == Appended(s.(blockIndent := if l == "" then s.blockIndent else 4), l + "\n")
  {
    if l == "" {
      assert "" + "\n" == "\n";
    } else {
      var out := "    " + l;
      FourSpaces(l);
      assert out[4..] == l;
    }
  }

  function Appended(s: State, text: string): State {
    if s.field == Some(YamlField) then s.(current := s.current.(yaml := s.current.yaml + text))
    else if s.field == Some(TreeField) then s.(current := s.current.(tree := s.current.tree + text))
    else s
  }

  lemma FourSpaces(l: string)
    ensures LeadingSpaces("    " + l) == 4 + LeadingSpaces(l) && Lstrip("    " + l) == Lstrip(l)
  {
    var a, b, c, d := "    " + l, "   " + l, "  " + l, " " + l;
    assert d[1..] == l && c[1..] == d && b[1..] == c && a[1..] == b;
    assert LeadingSpaces(d) == 1 + LeadingSpaces(l) && Lstrip(d) == Lstrip(l);
    assert LeadingSpaces(c) == 2 + LeadingSpaces(l) && Lstrip(c) == Lstrip(l);
    assert LeadingSpaces(b) == 3 + LeadingSpaces(l) && Lstrip(b) == Lstrip(l);
  }

  lemma {:induction false} RunAppend(s: State, id: string, a: seq<string>, b: seq<string>)
    ensures Run(s, id, a + b) == Run(Run(s, id, a), id, b)
    decreases |a|
  {
    hide Line;
    if a == [] {
      assert a + b == b;
    } else {
      assert (a + b)[0] == a[0] && (a + b)[1..] == a[1..] + b;
      RunAppend(Line(s, id, a[0]), id, a[1..], b);
    }
  }

  lemma AppendedTwice(s: State, a: string, b: string)
    ensures Appended(Appended(s, a), b) == Appended(s, a + b)
  {
    SeqAssociates(s.current.yaml, a, b);
    SeqAssociates(s.current.tree, a, b);
  }

  /** A whole block. */
  lemma {:induction false} BlockReads(s: State, id: string, lines: seq<string>)
    requires s.field.Some? && forall l :: l in lines ==> BlockLineOk(l)
    requires s.blockIndent == 4 || (s.blockIndent == 0 && MarginFirst(lines))
    ensures var t := Run(s, id, Indented(lines));
      Ready(t) && t.(blockIndent := 0) == Appended(s, BlockText(lines)).(blockIndent := 0)
    decreases |lines|
  {
    hide Line, BlockLineOk, Appended;
    if lines == [] {
      NothingAppended(s);
    } else {
      var l, more := lines[0], lines[1..];
      assert l in lines && forall x :: x in more ==> x in lines;
      var out := if l == "" then "" else "    " + l;
      if l == "" { assert LeadingSpaces(l) == 0; }
      BlockLineReads(s, id, l);
      var s0 := s.(blockIndent := if l == "" then s.blockIndent else 4);
      var s1 := Appended(s0, l + "\n");
      AppendedShape(s0, l + "\n");
      assert Indented(lines)[0] == out && Indented(lines)[1..] == Indented(more);
      BlockReads(s1, id, more);
      AppendedTwice(s0, l + "\n", BlockText(more));
      AppendedIgnoresIndent(s, s0, BlockText(lines));
    }
  }

  lemma NothingAppended(s: State)
    ensures Appended(s, "") == s
  {
    assert s.current.yaml + "" == s.current.yaml && s.current.tree + "" == s.current.tree;
  }

  lemma AppendedShape(s: State, text: string)
    ensures var t := Appended(s, text); t.field == s.field && t.blockIndent == s.blockIndent
  {
  }

  lemma AppendedIgnoresIndent(s: State, s0: State, text: string)
    requires s.(blockIndent := 0) == s0.(blockIndent := 0)
    ensures Appended(s, text).(blockIndent := 0) == Appended(s0, text).(blockIndent := 0)
  {
  }

  // ----- one case -----

  predicate BlockKey(key: string) {
    key in ["yaml", "tree", "json", "dump", "from", "tidy", "emit"]
  }

  function FieldOf(key: string): Field {
    if key == "yaml" then YamlField else if key == "tree" then TreeField else OtherField
  }

  function WithText(t: TestCase, key: string, text: string): TestCase {
    if key == "yaml" then t.(yaml := text) else if key == "tree" then t.(tree := text) else t
  }

  lemma KeyIsWord(key: string)
    requires BlockKey(key)
    ensures Word(key) && ':' !in key && key[0] != '-'
  {
  }

  /** The line that opens a block. */
  lemma BlockOpens(s: State, id: string, key: string)
    requires Ready(s) && BlockKey(key)
    ensures Line(s, id, "  " + key + ": |")
      == Left(s).(current := WithText(s.current, key, ""), field := Some(FieldOf(key)))
  {
    hide Line;
    KeyIsWord(key);
    assert "  " + key + ": " + "|" == "  " + key + ": |";
    KeyLine(s, id, key, "|");
    WordStrip("|");
  }

  lemma BlockKeyReads(s: State, id: string, key: string, lines: seq<string>)
    requires Ready(s) && BlockOk(lines) && BlockKey(key)
    ensures var t := Run(s, id, BlockLines(key, lines));
      && Ready(t)
      && t.(blockIndent := 0) ==
           Left(s).(current := WithText(s.current, key, BlockText(lines)), field := Some(FieldOf(key)))
  {
    hide Line;
    BlockOpens(s, id, key);
    BlockReads(Line(s, id, "  " + key + ": |"), id, lines);
    assert BlockLines(key, lines)[1..] == Indented(lines);
    assert "" + BlockText(lines) == BlockText(lines);
  }

  lemma OneLine(s: State, id: string, line: string)
    ensures Run(s, id, [line]) == Line(s, id, line)
  {
    assert [line][1..] == [];
  }

  /** The block of a text, or the line that holds it. */
  lemma ContentReads(s: State, id: string, key: string, x: Content)
    requires Ready(s) && (key == "yaml" || key == "tree") && (x.Lines? ==> BlockOk(x.lines))
    ensures var t := Run(s, id, ContentLines(key, x));
      && Ready(t) && Left(t) == Left(s).(current := WithText(s.current, key, GotText(x)))
      && t.field == if x.Lines? || "|" <= Strip(x.text) then Some(FieldOf(key)) else None
  {
    hide Line, Strip, BlockOk;
    if x.Lines? {
      BlockKeyReads(s, id, key, x.lines);
    } else {
      KeyIsWord(key);
      KeyLine(s, id, key, x.text);
      OneLine(s, id, "  " + key + ": " + x.text);
    }
  }

  /** Skipped blocks change no field, whatever their lines say. */
  lemma {:induction false} SkippedReads(s: State, id: string, xs: seq<Skipped>)
    requires Ready(s) && forall x :: x in xs ==> SkippedOk(x)
    ensures var t := Run(s, id, SkippedLines(xs));
      Ready(t) && Left(t) == Left(s) && t.field == if xs == [] then s.field else Some(OtherField)
    decreases |xs|
  {
    hide Line, BlockOk, BlockLines;
    if xs != [] {
      var x := xs[0];
      assert x in xs && forall y :: y in xs[1..] ==> y in xs;
      BlockKeyReads(s, id, x.key, x.lines);
      RunAppend(s, id, BlockLines(x.key, x.lines), SkippedLines(xs[1..]));
      SkippedReads(Run(s, id, BlockLines(x.key, x.lines)), id, xs[1..]);
    }
  }

  /** The three header lines. */
  lemma HeaderReads(s: State, id: string, c: Case)
    requires Ready(s)
    ensures var t := Finalized(s);
      Run(s, id, HeaderLines(c))
        == t.(current := Got(id, c, t.variants).(yaml := "", tree := ""), variants := t.variants + 1, inItem := true)
  {
    hide Line, Words;
    var l1, l2 := "- name: " + c.name, "  tags: " + JoinWords(c.tags);
    var flag := if c.fail then "true" else "false";
    var l3 := "  fail: " + flag;
    ItemLine(s, id, c.name);
    var s1 := Line(s, id, l1);
    assert forall x :: x in "tags" || x in "fail" ==> x != ':' && !IsSpace(x);
    assert "  " + "tags" + ": " + JoinWords(c.tags) == l2;
    KeyLine(s1, id, "tags", JoinWords(c.tags));
    var s2 := Line(s1, id, l2);
    assert "  " + "fail" + ": " + flag == l3;
    KeyLine(s2, id, "fail", flag);
    WordStrip(flag);
    var lines := [l1, l2, l3];
    assert lines[1..] == [l2, l3] && [l2, l3][1..] == [l3] && [l3][1..] == [];
    assert Run(s2, id, [l3]) == Line(s2, id, l3);
    assert Run(s1, id, [l2, l3]) == Run(s2, id, [l3]);
  }

  /** After the lines of a case it is the current item, with its variant, and the one before is filed. */
  lemma CaseReads(s: State, id: string, c: Case)
    requires Ready(s) && BlocksOk(c) && AllSkippedOk(c)
    ensures var t := Run(s, id, CaseLines(c));
      && Ready(t) && t.inItem && (t.field == Some(TreeField) <==> TreeIsLast(c)) && t.field != Some(YamlField)
      && t.variants == s.variants + 1
      && Finalized(t).cases == Finalized(s).cases + [Got(id, c, s.variants)]
  {
    hide Run, Line, BlockOk, Words, Strip, ContentLines, SkippedLines, SkippedOk, HeaderLines, GotText;
    HeaderReads(s, id, c);
    var s1 := Run(s, id, HeaderLines(c));
    CaseParts(s, id, c);
    assert c.before + c.between + c.after == c.before + (c.between + c.after);
    SkippedReads(s1, id, c.before);
    var s2 := Run(s1, id, SkippedLines(c.before));
    ContentReads(s2, id, "yaml", c.yaml);
    var s3 := Run(s2, id, ContentLines("yaml", c.yaml));
    SkippedReads(s3, id, c.between);
    var s4 := Run(s3, id, SkippedLines(c.between));
    ContentReads(s4, id, "tree", c.tree);
    var s5 := Run(s4, id, ContentLines("tree", c.tree));
    SkippedReads(s5, id, c.after);
    assert s.cases + [] == s.cases;
  }

  /** The last line read belongs to the tree. */
  predicate TreeIsLast(c: Case) {
    c.after == [] && (c.tree.Lines? || "|" <= Strip(c.tree.text))
  }

  lemma CaseParts(s: State, id: string, c: Case)
    ensures var s1 := Run(s, id, HeaderLines(c));
      var s2 := Run(s1, id, SkippedLines(c.before));
      var s3 := Run(s2, id, ContentLines("yaml", c.yaml));
      var s4 := Run(s3, id, SkippedLines(c.between));
      var s5 := Run(s4, id, ContentLines("tree", c.tree));
      Run(s, id, CaseLines(c)) == Run(s5, id, SkippedLines(c.after))
  {
    hide Run, HeaderLines, SkippedLines, ContentLines;
    var h, k1, y := HeaderLines(c), SkippedLines(c.before), ContentLines("yaml", c.yaml);
    var k2, t, k3 := SkippedLines(c.between), ContentLines("tree", c.tree), SkippedLines(c.after);
    RunAppend(s, id, h + (k1 + y) + (k2 + t), k3);
    RunAppend(s, id, h + (k1 + y), k2 + t);
    RunAppend(s, id, h, k1 + y);
    var s1 := Run(s, id, h);
    RunAppend(s1, id, k1, y);
    RunAppend(Run(Run(s1, id, k1), id, y), id, k2, t);
  }

  lemma RunNothing(s: State, id: string)
    ensures Run(s, id, FileLines([])) == s && GotAll(id, [], s.variants) == []
  {
  }

  lemma {:induction false} FileReads(s: State, id: string, cs: seq<Case>)
    requires Ready(s) && forall c :: c in cs ==> BlocksOk(c) && AllSkippedOk(c)
    ensures var t := Run(s, id, FileLines(cs));
      && Finalized(t).cases == Finalized(s).cases + GotAll(id, cs, s.variants)
      && (cs != [] ==> Ready(t) && t.inItem && t.field != Some(YamlField)
                       && (t.field == Some(TreeField) <==> TreeIsLast(cs[|cs| - 1])))
    decreases |cs|
  {
    hide Line, FileLines, BlocksOk, AllSkippedOk, CaseLines, Run, Got, Finalized, Ready, TreeIsLast;
    if cs == [] {
      RunNothing(s, id);
      assert Finalized(s).cases + [] == Finalized(s).cases;
    } else {
      var c := cs[0];
      assert c in cs && forall x :: x in cs[1..] ==> x in cs;
      FirstCase(s, id, cs);
      CaseReads(s, id, c);
      var s1 := Run(s, id, CaseLines(c));
      FileReads(s1, id, cs[1..]);
      SeqAssociates(Finalized(s).cases, [Got(id, c, s.variants)], GotAll(id, cs[1..], s.variants + 1));
      if cs[1..] == [] { RunNothing(s1, id); } else { assert cs[1..][|cs| - 2] == cs[|cs| - 1]; }
    }
  }

  lemma FirstCase(s: State, id: string, cs: seq<Case>)
    requires cs != []
    ensures Run(s, id, FileLines(cs)) == Run(Run(s, id, CaseLines(cs[0])), id, FileLines(cs[1..]))
  {
    hide Run, CaseLines;
    RunAppend(s, id, CaseLines(cs[0]), FileLines(cs[1..]));
  }

  // ----- what a bad block costs -----

  /** The text a case holds, and all text held by the state. */
  function Weight(t: TestCase): nat {
    |t.name| + |JoinWords(t.tags)| + |t.yaml| + |t.tree|
  }

  function Sum(cases: seq<TestCase>): nat {
    if cases == [] then 0 else Weight(cases[0]) + Sum(cases[1..])
  }

  function Total(s: State): nat {
    Sum(s.cases) + Weight(s.current)
  }

  lemma {:induction false} SumSnoc(cases: seq<TestCase>, t: TestCase)
    ensures Sum(cases + [t]) == Sum(cases) + Weight(t)
  {
    if cases == [] {
      assert cases + [t] == [t] && [t][1..] == [];
    } else {
      SumSnoc(cases[1..], t);
      assert (cases + [t])[1..] == cases[1..] + [t];
    }
  }

  lemma FinalizedTotal(s: State)
    ensures Total(Finalized(s)) <= Total(s) && Sum(Finalized(s).cases) <= Total(s)
  {
    SumSnoc(s.cases, s.current);
  }

  lemma KeyValueTotal(s: State, key: string, value: string)
    ensures Total(KeyValue(s, key, value)) <= Total(s) + |value| && Ready(KeyValue(s, key, value))
  {
    hide Words, Strip, JoinWords, Sum;
    StripShorter(value);
    WordsLine(Strip(value));
  }

  lemma WordsLine(s: string)
    ensures |JoinWords(Words(s))| <= |s|
  {
    WordsFit("", s);
  }

  lemma {:induction false} SplitOnceShorter(s: string, sep: string)
    ensures var x := SplitOnce(s, sep); x.Some? ==> |x.value.1| <= |s|
  {
    if !(sep <= s) && s != "" { SplitOnceShorter(s[1..], sep); }
  }

  lemma PlainLineTotal(s: State, id: string, line: string)
    requires Ready(s)
    ensures Total(PlainLine(s, id, line)) <= Total(s) + |Lstrip(line)| && Ready(PlainLine(s, id, line))
  {
    hide KeyValue, SplitOnce, Lstrip, Strip, Sum;
    FinalizedTotal(s);
    var trimmed := Lstrip(line);
    SplitOnceShorter(trimmed, ": ");
    if Strip(line) != "---" {
      if "- " <= trimmed {
        var t := Finalized(s);
        var begun := Begun(t, id);
        assert Total(begun) <= Total(s);
        ItemStartTotal(begun, trimmed[2..]);
      } else {
        var kv := SplitOnce(trimmed, ": ");
        if kv.Some? { KeyValueTotal(s, Strip(kv.value.0), kv.value.1); }
      }
    }
  }

  lemma ItemStartTotal(s: State, rest: string)
    requires Ready(s)
    ensures Total(ItemStart(s, rest)) <= Total(s) + |rest| && Ready(ItemStart(s, rest))
  {
    hide KeyValue, SplitOnce, Sum;
    SplitOnceShorter(rest, ": ");
    SplitOnceShorter(rest, ":");
    var kv := SplitOnce(rest, ": ");
    if kv.Some? {
      KeyValueTotal(s, Strip(kv.value.0), kv.value.1);
    } else {
      var bare := SplitOnce(rest, ":");
      if bare.Some? { KeyValueTotal(s, Strip(bare.value.0), bare.value.1); }
    }
  }

  function Out(l: string): string {
    if l == "" then "" else "    " + l
  }

  /** In whatever state, a block line adds at most itself and a line feed. */
  lemma BlockLineTotal(s: State, id: string, l: string)
    requires Ready(s)
    ensures Total(Line(s, id, Out(l))) <= Total(s) + |l| + 1 && Ready(Line(s, id, Out(l)))
  {
    hide PlainLine, Sum, Lstrip, JoinWords;
    FourSpaces(l);
    LstripShorter(l);
    if InBlock(s, Out(l)) {
      BlockTotal(s, l);
    } else {
      var t := if s.field.Some? then Left(s) else s;
      assert Lstrip(Out(l)) == Lstrip(l);
      PlainLineTotal(t, id, Out(l));
    }
  }

  lemma BlockTotal(s: State, l: string)
    requires Ready(s) && InBlock(s, Out(l))
    ensures Total(BlockLine(s, Out(l))) <= Total(s) + |l| + 1 && Ready(BlockLine(s, Out(l)))
  {
    hide Sum, Lstrip, JoinWords, LeadingSpaces;
    FourSpaces(l);
  }

  /** A line of white space only loses its text; a first line off the margin loses its spaces. */
  lemma BadLineTotal(s: State, id: string, l: string)
    requires s.field == Some(YamlField) || s.field == Some(TreeField)
    requires s.blockIndent == 4 || s.blockIndent == 0
    requires !BlockLineOk(l) || (s.blockIndent == 0 && l != "" && LeadingSpaces(l) > 0)
    ensures Total(Line(s, id, Out(l))) < Total(s) + |l| + 1 && Ready(Line(s, id, Out(l)))
  {
    hide Sum, Lstrip, JoinWords, PlainLine;
    FourSpaces(l);
    assert InBlock(s, Out(l));
  }

  lemma {:induction false} AnyBlock(s: State, id: string, lines: seq<string>)
    requires Ready(s)
    ensures var t := Run(s, id, Indented(lines)); Ready(t) && Total(t) <= Total(s) + |BlockText(lines)|
    decreases |lines|
  {
    hide Line, Total, Ready;
    if lines != [] {
      BlockLineTotal(s, id, lines[0]);
      assert Indented(lines)[0] == Out(lines[0]) && Indented(lines)[1..] == Indented(lines[1..]);
      AnyBlock(Line(s, id, Out(lines[0])), id, lines[1..]);
    }
  }

  /** A block that is not in order is read with less text than it has. */
  lemma {:induction false} BadBlock(s: State, id: string, lines: seq<string>)
    requires s.field == Some(YamlField) || s.field == Some(TreeField)
    requires s.blockIndent == 4 || s.blockIndent == 0
    requires !((forall l :: l in lines ==> BlockLineOk(l)) && (s.blockIndent == 0 ==> MarginFirst(lines)))
    ensures var t := Run(s, id, Indented(lines)); Ready(t) && Total(t) < Total(s) + |BlockText(lines)|
    decreases |lines|
  {
    hide Line, BlockLineOk, Total;
    var l, more := lines[0], lines[1..];
    assert Indented(lines)[0] == Out(l) && Indented(lines)[1..] == Indented(more);
    if !BlockLineOk(l) || (s.blockIndent == 0 && l != "" && LeadingSpaces(l) > 0) {
      BadLineTotal(s, id, l);
      AnyBlock(Line(s, id, Out(l)), id, more);
    } else {
      if l == "" { assert LeadingSpaces(l) == 0; }
      BlockLineReads(s, id, l);
      BlockLineTotal(s, id, l);
      var s0 := s.(blockIndent := if l == "" then s.blockIndent else 4);
      AppendedShape(s0, l + "\n");
      assert forall x :: x in lines <==> x == l || x in more;
      BadBlock(Line(s, id, Out(l)), id, more);
    }
  }

  lemma BlockKeyTotal(s: State, id: string, key: string, lines: seq<string>)
    requires Ready(s) && (key == "yaml" || key == "tree")
    ensures var t := Run(s, id, BlockLines(key, lines));
      && Ready(t) && Total(t) <= Total(s) + |BlockText(lines)|
      && (!BlockOk(lines) ==> Total(t) < Total(s) + |BlockText(lines)|)
  {
    hide Line, BlockLineOk, Sum, JoinWords, MarginFirst;
    BlockOpens(s, id, key);
    var s1 := Line(s, id, "  " + key + ": |");
    assert Total(s1) <= Total(s);
    AnyBlock(s1, id, lines);
    if !BlockOk(lines) { BadBlock(s1, id, lines); }
    assert BlockLines(key, lines)[1..] == Indented(lines);
  }

  lemma ContentTotal(s: State, id: string, key: string, x: Content)
    requires Ready(s) && (key == "yaml" || key == "tree")
    ensures var t := Run(s, id, ContentLines(key, x));
      && Ready(t) && Total(t) <= Total(s) + |ContentText(x)|
      && (x.Lines? && !BlockOk(x.lines) ==> Total(t) < Total(s) + |ContentText(x)|)
  {
    hide Line, BlockOk, Sum, JoinWords, KeyValue;
    if x.Lines? {
      BlockKeyTotal(s, id, key, x.lines);
    } else {
      KeyIsWord(key);
      KeyLine(s, id, key, x.text);
      OneLine(s, id, "  " + key + ": " + x.text);
      KeyValueTotal(Left(s), key, x.text);
    }
  }

  function CaseWeight(c: Case): nat {
    |c.name| + |JoinWords(c.tags)| + |ContentText(c.yaml)| + |ContentText(c.tree)|
  }

  lemma CaseTotal(s: State, id: string, c: Case)
    requires Ready(s) && AllSkippedOk(c)
    ensures var t := Run(s, id, CaseLines(c));
      && Ready(t) && Total(t) <= Total(s) + CaseWeight(c)
      && (!BlocksOk(c) ==> Total(t) < Total(s) + CaseWeight(c))
  {
    hide Run, Line, BlockOk, Sum, JoinWords, Words, Strip, HeaderLines, SkippedLines, ContentLines, SkippedOk;
    HeaderTotal(s, id, c);
    CaseParts(s, id, c);
    assert c.before + c.between + c.after == c.before + (c.between + c.after);
    var s1 := Run(s, id, HeaderLines(c));
    SkippedReads(s1, id, c.before);
    var s2 := Run(s1, id, SkippedLines(c.before));
    ContentTotal(s2, id, "yaml", c.yaml);
    var s3 := Run(s2, id, ContentLines("yaml", c.yaml));
    SkippedReads(s3, id, c.between);
    var s4 := Run(s3, id, SkippedLines(c.between));
    ContentTotal(s4, id, "tree", c.tree);
    SkippedReads(Run(s4, id, ContentLines("tree", c.tree)), id, c.after);
  }

  lemma HeaderTotal(s: State, id: string, c: Case)
    requires Ready(s)
    ensures var t := Run(s, id, HeaderLines(c));
      Ready(t) && Total(t) <= Total(s) + |c.name| + |JoinWords(c.tags)|
  {
    hide Run, Line, Sum, JoinWords, Words, Strip, HeaderLines;
    HeaderReads(s, id, c);
    FinalizedTotal(s);
    StripShorter(c.name);
    StripShorter(JoinWords(c.tags));
    WordsLine(Strip(JoinWords(c.tags)));
  }

  function FileWeight(cs: seq<Case>): nat {
    if cs == [] then 0 else CaseWeight(cs[0]) + FileWeight(cs[1..])
  }

  lemma {:induction false} FileTotal(s: State, id: string, cs: seq<Case>)
    requires Ready(s) && forall c :: c in cs ==> AllSkippedOk(c)
    ensures var t := Run(s, id, FileLines(cs));
      && Ready(t) && Total(t) <= Total(s) + FileWeight(cs)
      && ((exists c :: c in cs && !BlocksOk(c)) ==> Total(t) < Total(s) + FileWeight(cs))
    decreases |cs|
  {
    hide Line, BlocksOk, AllSkippedOk, CaseLines, Run, Total, CaseWeight, Ready;
    if cs == [] {
      RunNothing(s, id);
    } else {
      assert forall c :: c in cs <==> c == cs[0] || c in cs[1..];
      RunAppend(s, id, CaseLines(cs[0]), FileLines(cs[1..]));
      CaseTotal(s, id, cs[0]);
      FileTotal(Run(s, id, CaseLines(cs[0])), id, cs[1..]);
    }
  }

  lemma {:induction false} ExpectedWeight(id: string, cs: seq<Case>, variant: nat)
    ensures Sum(ExpectedAll(id, cs, variant)) == FileWeight(cs)
  {
    if cs != [] {
      ExpectedWeight(id, cs[1..], variant + 1);
      assert ExpectedAll(id, cs, variant)[1..] == ExpectedAll(id, cs[1..], variant + 1);
    }
  }

  // ----- files -----

  lemma {:induction false} GotIds(id: string, cs: seq<Case>, variant: nat)
    ensures WithId(id, GotAll(id, cs, variant)) == GotAll(id, cs, variant)
  {
    if cs != [] {
      GotIds(id, cs[1..], variant + 1);
      var all := GotAll(id, cs, variant);
      forall i | 0 <= i < |all| ensures all[i].(id := id) == all[i] {
        if i > 0 {
          assert all[i] == GotAll(id, cs[1..], variant + 1)[i - 1];
          assert WithId(id, GotAll(id, cs[1..], variant + 1))[i - 1] == all[i].(id := id);
        }
      }
    }
  }

  lemma {:induction false} WithIdSum(id: string, cases: seq<TestCase>)
    ensures Sum(WithId(id, cases)) == Sum(cases)
  {
    if cases != [] {
      WithIdSum(id, cases[1..]);
      assert WithId(id, cases)[1..] == WithId(id, cases[1..]);
    }
  }

  lemma {:induction false} GotIsExpected(id: string, cs: seq<Case>, variant: nat)
    ensures GotAll(id, cs, variant) == ExpectedAll(id, cs, variant)
      <==> forall c :: c in cs ==> FieldsOk(c)
  {
    hide Got, Expected, FieldsOk;
    if cs != [] {
      GotIsExpected(id, cs[1..], variant + 1);
      var c := cs[0];
      CaseComesBack(id, c, variant);
      var got, exp := GotAll(id, cs, variant), ExpectedAll(id, cs, variant);
      assert got[1..] == GotAll(id, cs[1..], variant + 1) && exp[1..] == ExpectedAll(id, cs[1..], variant + 1);
      assert got == [got[0]] + got[1..] && exp == [exp[0]] + exp[1..];
      assert forall x :: x in cs <==> x == c || x in cs[1..];
    }
  }

  lemma CaseComesBack(id: string, c: Case, variant: nat)
    ensures Got(id, c, variant) == Expected(id, c, variant) <==> FieldsOk(c)
  {
    hide TagsOk, Words, Strip, Tight, InlineOk, GotText, ContentText, JoinWords;
    NameComesBack(c.name);
    TagsComeBack(c.tags);
    TextComesBack(c.yaml);
    TextComesBack(c.tree);
  }

  lemma NameComesBack(name: string)
    ensures Strip(name) == name <==> Tight(name)
  {
    StripShorter(name);
  }

  lemma TextComesBack(x: Content)
    ensures GotText(x) == ContentText(x) <==> InlineOk(x)
  {
    if x.Inline? { StripShorter(x.text); }
  }

  lemma {:induction false} SingleLines(cs: seq<Case>)
    requires forall c :: c in cs ==> OneLineEach(c)
    ensures forall l :: l in FileLines(cs) ==> '\n' !in l
  {
    if cs != [] {
      assert cs[0] in cs && forall c :: c in cs[1..] ==> c in cs;
      CaseSingleLines(cs[0]);
      SingleLines(cs[1..]);
    }
  }

  lemma CaseSingleLines(c: Case)
    requires OneLineEach(c)
    ensures forall l :: l in CaseLines(c) ==> '\n' !in l
  {
    hide Indented, JoinWords;
    TagsSingleLine(c.tags);
    ContentSingleLines("yaml", c.yaml);
    ContentSingleLines("tree", c.tree);
    SkippedSingleLines(c.before);
    SkippedSingleLines(c.between);
    SkippedSingleLines(c.after);
  }

  lemma BlockSingleLines(key: string, lines: seq<string>)
    requires BlockKey(key) && forall l :: l in lines ==> '\n' !in l
    ensures forall l :: l in BlockLines(key, lines) ==> '\n' !in l
  {
    KeyIsWord(key);
    assert IsSpace('\n');
    IndentedSingleLines(lines);
  }

  lemma ContentSingleLines(key: string, x: Content)
    requires ContentIsLines(x) && '\n' !in key
    ensures forall l :: l in ContentLines(key, x) ==> '\n' !in l
  {
    if x.Lines? { IndentedSingleLines(x.lines); }
  }

  lemma {:induction false} SkippedSingleLines(xs: seq<Skipped>)
    requires forall x :: x in xs ==> SkippedIsLines(x) && SkippedOk(x)
    ensures forall l :: l in SkippedLines(xs) ==> '\n' !in l
  {
    hide BlockLines, BlockOk;
    if xs != [] {
      assert xs[0] in xs && forall x :: x in xs[1..] ==> x in xs;
      BlockSingleLines(xs[0].key, xs[0].lines);
      SkippedSingleLines(xs[1..]);
    }
  }

  lemma {:induction false} TagsSingleLine(words: seq<string>)
    requires forall t :: t in words ==> '\n' !in t
    ensures '\n' !in JoinWords(words)
  {
    if words != [] {
      assert words[0] in words && forall t :: t in words[1..] ==> t in words;
      TagsSingleLine(words[1..]);
    }
  }

  lemma {:induction false} IndentedSingleLines(lines: seq<string>)
    requires forall l :: l in lines ==> '\n' !in l
    ensures forall l :: l in Indented(lines) ==> '\n' !in l
  {
    if lines != [] {
      assert lines[0] in lines && forall l :: l in lines[1..] ==> l in lines;
      IndentedSingleLines(lines[1..]);
    }
  }

  /** The written file, read back line by line. */
  lemma WrittenRun(id: string, cs: seq<Case>)
    requires forall c :: c in cs ==> OneLineEach(c)
    ensures Run(START, id, SplitLines(JoinLines(FileLines(cs)))) == Run(START, id, FileLines(cs))
  {
    hide CaseLines;
    SingleLines(cs);
    if cs == [] {
      assert FileLines(cs) == [] && SplitLines("") == [""];
      assert [""][1..] == [];
    } else {
      CaseNotEmpty(cs[0]);
      SplitJoin(FileLines(cs));
    }
  }

  lemma CaseNotEmpty(c: Case)
    ensures CaseLines(c) != []
  {
  }

  lemma GoodBlocksParse(id: string, cs: seq<Case>)
    requires forall c :: c in cs ==> OneLineEach(c) && BlocksOk(c)
    ensures Parse(id, JoinLines(FileLines(cs))) == GotAll(id, cs, 0)
  {
    hide Run, BlocksOk, SplitLines, JoinLines, FileLines, GotAll, WithId;
    WrittenRun(id, cs);
    FileReads(START, id, cs);
    assert [] + GotAll(id, cs, 0) == GotAll(id, cs, 0);
    GotIds(id, cs, 0);
  }

  lemma BadBlocksParse(id: string, cs: seq<Case>)
    requires (forall c :: c in cs ==> OneLineEach(c)) && exists c :: c in cs && !BlocksOk(c)
    ensures Parse(id, JoinLines(FileLines(cs))) != ExpectedAll(id, cs, 0)
  {
    hide Run, BlocksOk, SplitLines, JoinLines, FileLines, WithId, Sum, Weight, Finalized, Total, AllSkippedOk;
    WrittenRun(id, cs);
    FileTotal(START, id, cs);
    var t := Run(START, id, FileLines(cs));
    FinalizedTotal(t);
    WithIdSum(id, Finalized(t).cases);
    ExpectedWeight(id, cs, 0);
    StartTotal();
  }

  lemma OneLineRoundTrip(id: string, cs: seq<Case>)
    requires forall c :: c in cs ==> OneLineEach(c)
    ensures Parse(id, JoinLines(FileLines(cs))) == ExpectedAll(id, cs, 0) <==> forall c :: c in cs ==> CaseOk(c)
  {
    hide Parse, BlocksOk, WellWritten, FieldsOnOneLine, Tight, TagsOk, JoinLines, FileLines, GotAll, ExpectedAll;
    if forall c :: c in cs ==> BlocksOk(c) {
      GoodBlocksParse(id, cs);
      GotIsExpected(id, cs, 0);
    } else {
      BadBlocksParse(id, cs);
    }
  }

  // ----- names and tags over several lines -----

  predicate Flat(t: TestCase) {
    '\n' !in t.name && forall x :: x in t.tags ==> '\n' !in x
  }

  predicate FlatState(s: State) {
    Flat(s.current) && forall t :: t in s.cases ==> Flat(t)
  }

  predicate Within(a: string, b: string) {
    forall c :: c in a ==> c in b
  }

  lemma {:induction false} LstripWithin(s: string)
    ensures Within(Lstrip(s), s)
  {
    if s != "" && IsSpace(s[0]) { LstripWithin(s[1..]); }
  }

  lemma StripWithin(s: string)
    ensures Within(Strip(s), s)
  {
    LstripWithin(s);
    RstripPrefix(Lstrip(s));
  }

  lemma {:induction false} SplitOnceWithin(s: string, sep: string)
    ensures SplitOnce(s, sep).Some? ==> Within(SplitOnce(s, sep).value.1, s)
  {
    if !(sep <= s) && s != "" { SplitOnceWithin(s[1..], sep); }
  }

  lemma {:induction false} WordsWithin(word: string, s: string)
    requires '\n' !in word && '\n' !in s
    ensures forall x :: x in WordsFrom(word, s) ==> '\n' !in x
    decreases |s|
  {
    if s != "" {
      assert s[0] in s && forall c :: c in s[1..] ==> c in s;
      if s[0] == ' ' { WordsWithin("", s[1..]); } else { WordsWithin(word + [s[0]], s[1..]); }
    }
  }

  lemma KeyValueFlat(s: State, key: string, value: string)
    requires FlatState(s) && '\n' !in value
    ensures FlatState(KeyValue(s, key, value))
  {
    StripWithin(value);
    WordsWithin("", Strip(value));
  }

  lemma ItemStartFlat(s: State, rest: string)
    requires FlatState(s) && '\n' !in rest
    ensures FlatState(ItemStart(s, rest))
  {
    hide KeyValue, Strip;
    var kv, bare := SplitOnce(rest, ": "), SplitOnce(rest, ":");
    SplitOnceWithin(rest, ": ");
    SplitOnceWithin(rest, ":");
    if kv.Some? {
      KeyValueFlat(s, Strip(kv.value.0), kv.value.1);
    } else if bare.Some? {
      KeyValueFlat(s, Strip(bare.value.0), bare.value.1);
    }
  }

  /** A line without a line feed puts none into a name or a tag. */
  lemma LineFlat(s: State, id: string, line: string)
    requires FlatState(s) && '\n' !in line
    ensures FlatState(Line(s, id, line))
  {
    hide KeyValue, ItemStart, Strip, Lstrip, SplitOnce;
    if !InBlock(s, line) {
      var trimmed := Lstrip(line);
      LstripWithin(line);
      var s0 := if s.field.Some? then s.(field := None, blockIndent := 0) else s;
      if "- " <= trimmed {
        var t := Finalized(s0);
        ItemStartFlat(Begun(t, id), trimmed[2..]);
      } else {
        var kv := SplitOnce(trimmed, ": ");
        SplitOnceWithin(trimmed, ": ");
        if kv.Some? { KeyValueFlat(s0, Strip(kv.value.0), kv.value.1); }
      }
    }
  }

  lemma {:induction false} RunFlat(s: State, id: string, lines: seq<string>)
    requires FlatState(s) && forall l :: l in lines ==> '\n' !in l
    ensures FlatState(Run(s, id, lines))
    decreases |lines|
  {
    hide Line, FlatState;
    if lines != [] {
      assert lines[0] in lines && forall l :: l in lines[1..] ==> l in lines;
      LineFlat(s, id, lines[0]);
      RunFlat(Line(s, id, lines[0]), id, lines[1..]);
    }
  }

  lemma {:induction false} LinesAreSingle(text: string)
    ensures forall l :: l in SplitLines(text) ==> '\n' !in l
  {
    if text != "" {
      LinesAreSingle(text[1..]);
      var rest := SplitLines(text[1..]);
      assert rest[0] in rest && forall l :: l in rest[1..] ==> l in rest;
    }
  }

  /** No parsed name or tag holds a line feed, whatever the file. */
  lemma ParsedIsFlat(id: string, content: string)
    ensures forall t :: t in Parse(id, content) ==> Flat(t)
  {
    hide Run, SplitLines;
    LinesAreSingle(content);
    RunFlat(START, id, SplitLines(content));
    var cases := Finalized(Run(START, id, SplitLines(content))).cases;
    assert forall t :: t in cases ==> Flat(t);
    forall t | t in WithId(id, cases) ensures Flat(t) {
      var i :| 0 <= i < |cases| && t == cases[i].(id := id);
      assert cases[i] in cases;
    }
  }

  lemma {:induction false} ExpectedFlat(id: string, cs: seq<Case>, variant: nat)
    requires forall t :: t in ExpectedAll(id, cs, variant) ==> Flat(t)
    ensures forall c :: c in cs ==> FieldsOnOneLine(c)
  {
    if cs != [] {
      var first, more := Expected(id, cs[0], variant), ExpectedAll(id, cs[1..], variant + 1);
      assert ExpectedAll(id, cs, variant) == [first] + more;
      assert first in [first] + more && forall t :: t in more ==> t in [first] + more;
      ExpectedFlat(id, cs[1..], variant + 1);
    }
  }

  /** Parsing a written suite file gives the cases back, case `k` as variant `k`, exactly when every
      name is tight, every tag list survives its line, neither holds a line feed, and every block is
      in order. */
  lemma RoundTrip(id: string, cs: seq<Case>)
    requires forall c :: c in cs ==> WellWritten(c)
    ensures Parse(id, JoinLines(FileLines(cs))) == ExpectedAll(id, cs, 0) <==> forall c :: c in cs ==> CaseOk(c)
  {
    hide Parse, BlocksOk, WellWritten, FieldsOnOneLine, Tight, TagsOk, JoinLines, FileLines, ExpectedAll;
    if forall c :: c in cs ==> FieldsOnOneLine(c) {
      OneLineRoundTrip(id, cs);
    } else {
      ParsedIsFlat(id, JoinLines(FileLines(cs)));
      if Parse(id, JoinLines(FileLines(cs))) == ExpectedAll(id, cs, 0) { ExpectedFlat(id, cs, 0); }
    }
  }

  lemma StartTotal()
    ensures Total(START) == 0
  {
  }

  /** The last case with one more line feed in its tree. */
  function LastTreeLonger(cases: seq<TestCase>): seq<TestCase>
    requires cases != []
  {
    var last := cases[|cases| - 1];
    cases[..|cases| - 1] + [last.(tree := last.tree + "\n")]
  }

  /** A file that ends with a line feed gives the same cases; if its last block is a tree, that
      tree has an empty line more. */
  lemma FinalLineFeed(id: string, cs: seq<Case>)
    requires cs != [] && forall c :: c in cs ==> OneLineEach(c) && BlocksOk(c)
    ensures var cases := Parse(id, JoinLines(FileLines(cs)));
      cases != [] &&
      Parse(id, JoinLines(FileLines(cs)) + "\n")
        == if TreeIsLast(cs[|cs| - 1]) then LastTreeLonger(cases) else cases
  {
    hide Run, BlocksOk, AllSkippedOk, SplitLines, FileLines, WithId, Finalized, LastTreeLonger, TreeIsLast;
    WrittenRun(id, cs);
    FileReads(START, id, cs);
    var text := JoinLines(FileLines(cs));
    var t := Run(START, id, FileLines(cs));
    SplitTwo(text, "");
    EmptySplit();
    assert text + "\n" + "" == text + "\n";
    RunAppend(START, id, SplitLines(text), [""]);
    OneLine(t, id, "");
    FiledLast(t);
    if TreeIsLast(cs[|cs| - 1]) {
      LastEmpty(t, id);
      FiledLast(Line(t, id, ""));
      LastWithId(id, t.cases, t.current);
    } else {
      EmptyElsewhere(t, id);
      LastWithId(id, t.cases, t.current);
    }
  }

  lemma FiledLast(t: State)
    requires t.inItem
    ensures Finalized(t).cases == t.cases + [t.current]
  {
  }

  lemma LastWithId(id: string, cases: seq<TestCase>, last: TestCase)
    ensures var longer := last.(tree := last.tree + "\n");
      WithId(id, cases + [last]) != [] && WithId(id, cases + [longer]) == LastTreeLonger(WithId(id, cases + [last]))
  {
  }

  lemma EmptySplit()
    ensures SplitLines("") == [""]
  {
  }

  lemma LastEmpty(t: State, id: string)
    requires t.field == Some(TreeField)
    ensures Line(t, id, "") == t.(current := t.current.(tree := t.current.tree + "\n"))
  {
  }

  /** Outside the text blocks of a case an empty line changes nothing. */
  lemma EmptyElsewhere(t: State, id: string)
    requires Ready(t) && t.field != Some(TreeField) && t.field != Some(YamlField)
    ensures Finalized(Line(t, id, "")).cases == Finalized(t).cases
  {
  }
}
