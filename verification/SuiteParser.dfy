/** The line-driven parser of test-suite files, `parse_test_file`, with its nested helpers as the
    methods of the object whose fields they share. */
module SuiteParser {
  import opened Prelude

  datatype TestCase = TestCase(
    id: string, name: string, tags: seq<string>, expectFail: bool, yaml: string, tree: string, variant: nat)

  datatype Field = YamlField | TreeField | OtherField

  /** The parser's variables between two lines. */
  datatype State = State(
    cases: seq<TestCase>, current: TestCase, inItem: bool, field: Option<Field>, blockIndent: nat, variants: nat)

  const BLANK := TestCase("", "", [], false, "", "", 0)

  const START := State([], BLANK, false, None, 0, 0)

  // ----- strings -----

  /** What `str.isspace` accepts. */
  predicate IsSpace(c: char) {
    || c == ' ' || '\t' <= c <= '\r' || '\U{001C}' <= c <= '\U{001F}' || c == '\U{0085}' || c == '\U{00A0}'
    || c == '\U{1680}' || '\U{2000}' <= c <= '\U{200A}' || c == '\U{2028}' || c == '\U{2029}'
    || c == '\U{202F}' || c == '\U{205F}' || c == '\U{3000}'
  }

  function Lstrip(s: string): string {
    if s == "" || !IsSpace(s[0]) then s else Lstrip(s[1..])
  }

  function Rstrip(s: string): string {
    if s == "" || !IsSpace(s[|s| - 1]) then s else Rstrip(s[..|s| - 1])
  }

  function Strip(s: string): string {
    Rstrip(Lstrip(s))
  }

  function StripIndent(n: nat, s: string): string {
    if |s| >= n then s[n..] else s
  }

  /** `s.split(sep, 1)`: the two sides of the first separator, if there is one. */
  function SplitOnce(s: string, sep: string): Option<(string, string)> {
    if sep <= s then Some(("", s[|sep|..]))
    else if s == "" then None
    else
      var x := SplitOnce(s[1..], sep);
      if x.None? then None else Some(([s[0]] + x.value.0, x.value.1))
  }

  /** `[t for t in s.split(' ') if t]`. */
  function Words(s: string): seq<string> {
    WordsFrom("", s)
  }

  function WordsFrom(word: string, s: string): seq<string>
    decreases |s|
  {
    if s == "" then (if word == "" then [] else [word])
    else if s[0] == ' ' then (if word == "" then [] else [word]) + WordsFrom("", s[1..])
    else WordsFrom(word + [s[0]], s[1..])
  }

  // ----- the helpers -----

  function Finalized(s: State): State {
    (if s.inItem then s.(cases := s.cases + [s.current], current := BLANK, inItem := false) else s)
      .(field := None, blockIndent := 0)
  }

  function BlockLine(s: State, line: string): State {
    var indent := LeadingSpaces(line);
    var block := if s.blockIndent == 0 && indent > 0 then indent else s.blockIndent;
    var trimmed := Lstrip(line);
    var s1 := s.(blockIndent := block);
    if indent < block && trimmed != "" then s1
    else
      var content := if trimmed == "" then "\n" else StripIndent(block, line) + "\n";
      if s1.field == Some(YamlField) then s1.(current := s1.current.(yaml := s1.current.yaml + content))
      else if s1.field == Some(TreeField) then s1.(current := s1.current.(tree := s1.current.tree + content))
      else s1
  }

  predicate OpensBlock(val: string) {
    "|" <= val
  }

  function KeyValue(s0: State, key: string, value: string): State {
    var s := s0.(field := None, blockIndent := 0);
    var val := Strip(value);
    if key == "name" then s.(current := s.current.(name := val))
    else if key == "tags" then s.(current := s.current.(tags := Words(val)))
    else if key == "fail" then s.(current := s.current.(expectFail := val == "true"))
    else if key == "yaml" then
      if OpensBlock(val) then s.(current := s.current.(yaml := ""), field := Some(YamlField))
      else s.(current := s.current.(yaml := val))
    else if key == "tree" then
      if OpensBlock(val) then s.(current := s.current.(tree := ""), field := Some(TreeField))
      else s.(current := s.current.(tree := val))
    else if key == "json" || key == "dump" || key == "from" || key == "tidy" || key == "emit" then
      if OpensBlock(val) then s.(field := Some(OtherField)) else s
    else s
  }

  /** A new item, with the next variant number. */
  function Begun(s: State, testId: string): State {
    s.(current := BLANK.(id := testId, variant := s.variants), variants := s.variants + 1, inItem := true)
  }

  /** A line outside a block: a separator, the start of an item, or a key with a value. */
  function PlainLine(s: State, testId: string, line: string): State {
    if Strip(line) == "---" then Finalized(s)
    else
      var trimmed := Lstrip(line);
      if "- " <= trimmed then
        var t := Finalized(s);
        ItemStart(Begun(t, testId), trimmed[2..])
      else
        var kv := SplitOnce(trimmed, ": ");
        if kv.Some? then KeyValue(s, Strip(kv.value.0), kv.value.1) else s
  }

  function ItemStart(s: State, rest: string): State {
    var kv := SplitOnce(rest, ": ");
    if kv.Some? then KeyValue(s, Strip(kv.value.0), kv.value.1)
    else
      var bare := SplitOnce(rest, ":");
      if bare.Some? then KeyValue(s, Strip(bare.value.0), bare.value.1) else s
  }

  /** Does the line still belong to the block being read? */
  predicate InBlock(s: State, line: string) {
    s.field.Some? &&
    (Lstrip(line) == "" ||
     (if s.blockIndent > 0 then LeadingSpaces(line) >= s.blockIndent else LeadingSpaces(line) >= 4))
  }

  function Line(s: State, testId: string, line: string): State {
    if InBlock(s, line) then BlockLine(s, line)
    else PlainLine(if s.field.Some? then s.(field := None, blockIndent := 0) else s, testId, line)
  }

  function Run(s: State, testId: string, lines: seq<string>): State
    decreases |lines|
  {
    if lines == [] then s else Run(Line(s, testId, lines[0]), testId, lines[1..])
  }

  /** The cases of a file. */
  function Parse(testId: string, content: string): seq<TestCase> {
    WithId(testId, Finalized(Run(START, testId, SplitLines(content))).cases)
  }

  function WithId(testId: string, cases: seq<TestCase>): seq<TestCase> {
    seq(|cases|, i requires 0 <= i < |cases| => cases[i].(id := testId))
  }

  // ----- the code -----

  class Parser {
    const testId: string
    var cases: seq<TestCase>
    var current: TestCase
    var inItem: bool
    var currentField: Option<Field>
    var blockIndent: nat
    var variantCounter: nat

    function Current(): State
      reads this
    {
      State(cases, current, inItem, currentField, blockIndent, variantCounter)
    }

    constructor (id: string)
      ensures Current() == START && testId == id
    {
      testId := id;
      cases, current, inItem, currentField, blockIndent, variantCounter := [], BLANK, false, None, 0, 0;
    }

    method FinalizeItem()
      modifies this
      ensures Current() == Finalized(old(Current()))
    {
      if inItem {
        cases := cases + [current];
        current := BLANK;
        inItem := false;
      }
      currentField := None;
      blockIndent := 0;
    }

    method ProcessBlockLine(line: string)
      modifies this
      ensures Current() == BlockLine(old(Current()), line)
    {
      var indent := LeadingSpaces(line);
      if blockIndent == 0 && indent > 0 {
        blockIndent := indent;
      }
      var trimmed := Lstrip(line);
      if indent < blockIndent && trimmed != "" {
        return;
      }
      var content := if trimmed == "" then "\n" else StripIndent(blockIndent, line) + "\n";
      if currentField == Some(YamlField) {
        current := current.(yaml := current.yaml + content);
      } else if currentField == Some(TreeField) {
        current := current.(tree := current.tree + content);
      }
    }

    method ProcessKeyValue(key: string, value: string)
      modifies this
      ensures Current() == KeyValue(old(Current()), key, value)
    {
      currentField, blockIndent := None, 0;
      var val := Strip(value);
      if key == "name" {
        current := current.(name := val);
      } else if key == "tags" {
        current := current.(tags := Words(val));
      } else if key == "fail" {
        current := current.(expectFail := val == "true");
      } else if key == "yaml" {
        if OpensBlock(val) {
          current := current.(yaml := "");
          currentField := Some(YamlField);
        } else {
          current := current.(yaml := val);
        }
      } else if key == "tree" {
        if OpensBlock(val) {
          current := current.(tree := "");
          currentField := Some(TreeField);
        } else {
          current := current.(tree := val);
        }
      } else if key == "json" || key == "dump" || key == "from" || key == "tidy" || key == "emit" {
        if OpensBlock(val) {
          currentField := Some(OtherField);
        }
      }
    }

    method ProcessPlainLine(line: string)
      modifies this
      ensures Current() == PlainLine(old(Current()), testId, line)
    {
      hide KeyValue, SplitOnce, Strip, Lstrip;
      if Strip(line) == "---" {
        FinalizeItem();
        return;
      }
      var trimmed := Lstrip(line);
      if "- " <= trimmed {
        FinalizeItem();
        current := BLANK.(id := testId, variant := variantCounter);
        variantCounter := variantCounter + 1;
        inItem := true;
        var rest := trimmed[2..];
        var parts := SplitOnce(rest, ": ");
        if parts.Some? {
          ProcessKeyValue(Strip(parts.value.0), parts.value.1);
        } else {
          var kv := SplitOnce(rest, ":");
          if kv.Some? {
            ProcessKeyValue(Strip(kv.value.0), kv.value.1);
          }
        }
      } else {
        var parts := SplitOnce(trimmed, ": ");
        if parts.Some? {
          ProcessKeyValue(Strip(parts.value.0), parts.value.1);
        }
      }
    }

    method ProcessLine(line: string)
      modifies this
      ensures Current() == Line(old(Current()), testId, line)
    {
      if currentField.Some? {
        var indent := LeadingSpaces(line);
        if Lstrip(line) == "" {
          ProcessBlockLine(line);
          return;
        }
        if blockIndent > 0 && indent < blockIndent {
          currentField, blockIndent := None, 0;
        } else if blockIndent == 0 && indent >= 4 {
          ProcessBlockLine(line);
          return;
        } else if blockIndent > 0 {
          ProcessBlockLine(line);
          return;
        } else {
          currentField, blockIndent := None, 0;
        }
      }
      ProcessPlainLine(line);
    }
  }

  method ParseTestFile(testId: string, content: string) returns (cases: seq<TestCase>)
    ensures cases == Parse(testId, content)
  {
    var p := new Parser(testId);
    var lines := SplitLines(content);
    for i := 0 to |lines|
      invariant p.testId == testId
      invariant Run(p.Current(), testId, lines[i..]) == Run(START, testId, lines)
    {
      assert lines[i..][1..] == lines[i + 1..];
      p.ProcessLine(lines[i]);
    }
    p.FinalizeItem();
    cases := [];
    for i := 0 to |p.cases|
      invariant cases == WithId(testId, p.cases[..i])
    {
      assert p.cases[..i + 1] == p.cases[..i] + [p.cases[i]];
      cases := cases + [p.cases[i].(id := testId)];
    }
    assert p.cases[..|p.cases|] == p.cases;
  }
}
