/** `_python_to_yaml`, `_dump_sequence` and `_dump_mapping`: Python values as block YAML. */
module YamlPrinter {
  import opened Prelude
  import opened YamlScalar

  /** What `safe_load` returns. A dictionary is its items in insertion order; only scalars can be keys. */
  datatype Value = Sc(x: Scalar) | List(items: seq<Value>) | Dict(entries: seq<Entry>)

  datatype Entry = Entry(key: Scalar, val: Value)

  /** Containers that are not empty go on lines of their own. */
  predicate IsBlock(v: Value) {
    (v.List? && v.items != []) || (v.Dict? && v.entries != [])
  }

  function Spaces(n: nat): (s: string)
    ensures |s| == n && forall i :: 0 <= i < n ==> s[i] == ' '
  {
    if n == 0 then "" else " " + Spaces(n - 1)
  }

  function Yaml(py: Python, v: Value, indent: nat): string
    decreases v, 1
  {
    match v
    case Sc(x) => ScalarText(py, x)
    case List(items) => if items == [] then "[]" else JoinLines(ItemTexts(py, items, indent))
    case Dict(entries) => if entries == [] then "{}" else JoinLines(EntryTexts(py, entries, indent))
  }

  function ItemText(py: Python, v: Value, indent: nat): string
    decreases v, 2
  {
    Spaces(2 * indent) + (if IsBlock(v) then "-\n" else "- ") + Yaml(py, v, indent + 1)
  }

  function ItemTexts(py: Python, items: seq<Value>, indent: nat): seq<string>
    decreases items, 0
  {
    if items == [] then [] else [ItemText(py, items[0], indent)] + ItemTexts(py, items[1..], indent)
  }

  function EntryText(py: Python, e: Entry, indent: nat): string
    decreases e, 2
  {
    Spaces(2 * indent) + ScalarText(py, e.key) + (if IsBlock(e.val) then ":\n" else ": ") + Yaml(py, e.val, indent + 1)
  }

  function EntryTexts(py: Python, entries: seq<Entry>, indent: nat): seq<string>
    decreases entries, 0
  {
    if entries == [] then [] else [EntryText(py, entries[0], indent)] + EntryTexts(py, entries[1..], indent)
  }

  // ----- the code -----

  method PythonToYaml(py: Python, v: Value, indent: nat) returns (text: string)
    ensures text == Yaml(py, v, indent)
    decreases v, 1
  {
    match v {
      case Sc(x) => text := ScalarText(py, x);
      case List(items) => text := DumpSequence(py, items, indent);
      case Dict(entries) => text := DumpMapping(py, entries, indent);
    }
  }

  method DumpSequence(py: Python, items: seq<Value>, indent: nat) returns (text: string)
    ensures text == Yaml(py, List(items), indent)
    decreases items, 0
  {
    if items == [] {
      return "[]";
    }
    var prefix := Spaces(2 * indent);
    var lines: seq<string> := [];
    for i := 0 to |items|
      invariant lines + ItemTexts(py, items[i..], indent) == ItemTexts(py, items, indent)
    {
      var item := items[i];
      var child := PythonToYaml(py, item, indent + 1);
      assert items[i..][1..] == items[i + 1..];
      var line := if IsBlock(item) then prefix + "-\n" + child else prefix + "- " + child;
      assert line == ItemText(py, item, indent);
      lines := lines + [line];
    }
    assert items[|items|..] == [] && lines + [] == lines;
    text := JoinLines(lines);
  }

  method DumpEntry(py: Python, e: Entry, prefix: string, indent: nat) returns (line: string)
    requires prefix == Spaces(2 * indent)
    ensures line == EntryText(py, e, indent)
    decreases e, 2
  {
    var key := ScalarText(py, e.key);
    var child := PythonToYaml(py, e.val, indent + 1);
    line := if IsBlock(e.val) then prefix + key + ":\n" + child else prefix + key + ": " + child;
  }

  method DumpMapping(py: Python, entries: seq<Entry>, indent: nat) returns (text: string)
    ensures text == Yaml(py, Dict(entries), indent)
    decreases entries, 0
  {
    if entries == [] {
      return "{}";
    }
    var prefix := Spaces(2 * indent);
    var lines: seq<string> := [];
    for i := 0 to |entries|
      invariant lines + EntryTexts(py, entries[i..], indent) == EntryTexts(py, entries, indent)
    {
      var line := DumpEntry(py, entries[i], prefix, indent);
      assert entries[i..][1..] == entries[i + 1..];
      lines := lines + [line];
    }
    assert entries[|entries|..] == [] && lines + [] == lines;
    text := JoinLines(lines);
  }
}
