/** A reader for single-line flow scalars, empty flow collections and block collections of
    YAML 1.2.2 (sections 7.4.1, 7.4.2, 8.2.1, 8.2.2), written from the grammar, and the
    conversion of what it reads to Python. Anything outside this subset (comments, blank
    lines, document markers, compact nested collections, multi-line scalars) is rejected. */
module YamlReader {
  import opened Prelude
  import opened YamlScalar
  import opened YamlPrinter

  datatype Node = Leaf(tok: Token) | Seq(nodes: seq<Node>) | Map(pairs: seq<Pair>)

  datatype Pair = Pair(key: Token, val: Node)

  /** A line as its indentation and the rest, which does not start with a space. */
  datatype Line = Line(indent: nat, body: string)

  // ----- lines -----

  function ToLine(s: string): Line {
    Line(LeadingSpaces(s), s[LeadingSpaces(s)..])
  }

  function ToLines(lines: seq<string>): seq<Line> {
    if lines == [] then [] else [ToLine(lines[0])] + ToLines(lines[1..])
  }

  /** `---` or `...` at the start of a line, followed by white space or the end. */
  predicate IsMarker(s: string) {
    ("---" <= s || "..." <= s) && (|s| > 3 ==> IsWhite(s[3]))
  }

  // ----- nodes -----

  predicate IsEntry(body: string) {
    body != "" && body[0] == '-' && (|body| == 1 || body[1] == ' ')
  }

  function ReadInline(t: string): Option<Node> {
    if t == "[]" then Some(Seq([]))
    else if t == "{}" then Some(Map([]))
    else
      var k := ReadToken(t);
      if k.None? then None else Some(Leaf(k.value))
  }

  const EMPTY_NODE := Leaf(Token("", Plain))

  /** The node that starts on the first line, and the lines after it. */
  function ReadBlock(ls: seq<Line>): (r: Option<(Node, seq<Line>)>)
    requires ls != []
    ensures r.Some? ==> |r.value.1| < |ls|
    decreases |ls|, 1
  {
    var line := ls[0];
    if IsEntry(line.body) then
      var x := ReadSeq(ls, line.indent);
      if x.None? then None else Some((Seq(x.value.0), x.value.1))
    else if ReadKey(line.body).Some? then
      var x := ReadMap(ls, line.indent);
      if x.None? then None else Some((Map(x.value.0), x.value.1))
    else
      var x := ReadInline(line.body);
      if x.None? then None else Some((x.value, ls[1..]))
  }

  /** The node below an indicator that ends its line: deeper lines, or nothing. */
  function ReadBelow(ls: seq<Line>, m: nat): (r: Option<(Node, seq<Line>)>)
    ensures r.Some? ==> |r.value.1| <= |ls|
    decreases |ls|, 2
  {
    if ls == [] || ls[0].indent < m then Some((EMPTY_NODE, ls))
    else if ls[0].indent == m then if IsEntry(ls[0].body) then None else Some((EMPTY_NODE, ls))
    else ReadBlock(ls)
  }

  /** Block sequence entries at indentation `m`. */
  function ReadSeq(ls: seq<Line>, m: nat): (r: Option<(seq<Node>, seq<Line>)>)
    ensures r.Some? ==> |r.value.1| <= |ls|
    ensures r.Some? && ls != [] && ls[0].indent == m ==> |r.value.1| < |ls|
    decreases |ls|, 0
  {
    if ls == [] || ls[0].indent < m then Some(([], ls))
    else if ls[0].indent > m || !IsEntry(ls[0].body) then None
    else
      var first := if |ls[0].body| == 1 then ReadBelowEntry(ls[1..], m) else ReadHere(ls[0].body[2..], ls[1..]);
      if first.None? then None
      else
        var more := ReadSeq(first.value.1, m);
        if more.None? then None else Some(([first.value.0] + more.value.0, more.value.1))
  }

  function ReadHere(t: string, rest: seq<Line>): (r: Option<(Node, seq<Line>)>)
    ensures r.Some? ==> r.value.1 == rest
  {
    var x := ReadInline(t);
    if x.None? then None else Some((x.value, rest))
  }

  function ReadBelowEntry(ls: seq<Line>, m: nat): (r: Option<(Node, seq<Line>)>)
    ensures r.Some? ==> |r.value.1| <= |ls|
    decreases |ls|, 2
  {
    if ls == [] || ls[0].indent <= m then Some((EMPTY_NODE, ls)) else ReadBlock(ls)
  }

  /** Block mapping entries at indentation `m`. */
  function ReadMap(ls: seq<Line>, m: nat): (r: Option<(seq<Pair>, seq<Line>)>)
    ensures r.Some? ==> |r.value.1| <= |ls|
    ensures r.Some? && ls != [] && ls[0].indent == m ==> |r.value.1| < |ls|
    decreases |ls|, 0
  {
    if ls == [] || ls[0].indent < m then Some(([], ls))
    else if ls[0].indent > m || IsEntry(ls[0].body) || ReadKey(ls[0].body).None? then None
    else
      var (key, after) := ReadKey(ls[0].body).value;
      var first := if after == "" then ReadBelow(ls[1..], m) else ReadHere(after[1..], ls[1..]);
      if first.None? then None
      else
        var more := ReadMap(first.value.1, m);
        if more.None? then None else Some(([Pair(key, first.value.0)] + more.value.0, more.value.1))
  }

  /** One document, the whole text. */
  function Read(text: string): Option<Node> {
    var lines := SplitLines(text);
    if exists s :: s in lines && IsMarker(s) then None
    else
      var r := ReadBlock(ToLines(lines));
      if r.Some? && r.value.1 == [] then Some(r.value.0) else None
  }

  // ----- to Python -----

  /** Assigning `d[e.key] = e.val`: a key that counts as present keeps its place. */
  function Insert(py: Python, d: seq<Entry>, e: Entry): seq<Entry> {
    if d == [] then [e]
    else if py.sameKey(d[0].key, e.key) then [Entry(d[0].key, e.val)] + d[1..]
    else [d[0]] + Insert(py, d[1..], e)
  }

  /** The dictionary built from items in order. */
  function DictOf(py: Python, entries: seq<Entry>): seq<Entry> {
    if entries == [] then []
    else Insert(py, DictOf(py, entries[..|entries| - 1]), entries[|entries| - 1])
  }

  /** `to_python`. */
  function ToPython(py: Python, n: Node): Value
    decreases n, 1
  {
    match n
    case Leaf(tok) => Sc(Resolve(py, tok))
    case Seq(nodes) => List(AllToPython(py, nodes))
    case Map(pairs) => Dict(DictOf(py, PairsToPython(py, pairs)))
  }

  function AllToPython(py: Python, nodes: seq<Node>): seq<Value>
    decreases nodes, 0
  {
    if nodes == [] then [] else [ToPython(py, nodes[0])] + AllToPython(py, nodes[1..])
  }

  function PairsToPython(py: Python, pairs: seq<Pair>): seq<Entry>
    decreases pairs, 0
  {
    if pairs == [] then []
    else [PairToPython(py, pairs[0])] + PairsToPython(py, pairs[1..])
  }

  function PairToPython(py: Python, p: Pair): Entry
    decreases p, 2
  {
    Entry(Resolve(py, p.key), ToPython(py, p.val))
  }

  /** `safe_load` on the subset. */
  function Load(py: Python, text: string): Option<Value> {
    var n := Read(text);
    if n.None? then None else Some(ToPython(py, n.value))
  }
}
