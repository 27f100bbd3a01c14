/** Reading suite files of any layout: fields in any order, any number of times and at any
    indentation below four, text blocks of any depth from four, unknown fields, stray lines and
    separators. Each field has the effect its key says, and the last one of a key counts. */
module SuiteFields {
  import opened Prelude
  import opened SuiteParser
  import opened SuiteRoundTrip

  // ----- written files -----

  /** `key: value`, a text block, `key:value`, or a line of another kind. */
  datatype Entry =
    | Pair(key: string, value: string)
    | Block(key: string, mark: string, depth: nat, lines: seq<string>)
    | Squeezed(key: string, value: string)
    | Stray(line: string)

  datatype Placed = Placed(indent: nat, entry: Entry)

  /** An item after its dash, or a separator with what stands between it and the next item. */
  datatype Chunk =
    | Item(indent: nat, head: Entry, entries: seq<Placed>)
    | Separator(indent: nat, entries: seq<Placed>)

  function Spaces(k: nat): string {
    if k == 0 then "" else " " + Spaces(k - 1)
  }

  function Text(e: Entry): string {
    match e
    case Pair(key, value) => key + ": " + value
    case Block(key, mark, _, _) => key + ": " + ("|" + mark)
    case Squeezed(key, value) => key + ":" + value
    case Stray(line) => line
  }

  function More(e: Entry): seq<string> {
    if e.Block? then e.lines else []
  }

  function PlacedLines(p: Placed): seq<string> {
    [Spaces(p.indent) + Text(p.entry)] + More(p.entry)
  }

  function EntriesLines(ps: seq<Placed>): seq<string> {
    if ps == [] then [] else PlacedLines(ps[0]) + EntriesLines(ps[1..])
  }

  function ChunkHead(c: Chunk): seq<string> {
    if c.Item? then [Spaces(c.indent) + ("- " + Text(c.head))] + More(c.head) else [Spaces(c.indent) + "---"]
  }

  function ChunkLines(c: Chunk): seq<string> {
    ChunkHead(c) + EntriesLines(c.entries)
  }

  function ChunksLines(cs: seq<Chunk>): seq<string> {
    if cs == [] then [] else ChunkLines(cs[0]) + ChunksLines(cs[1..])
  }

  // ----- which files -----

  predicate KeyOk(key: string) {
    key != "" && Tight(key) && ':' !in key && !("- " <= key)
  }

  /** Lines of white space only, or indented at least as deep as the first that starts with a space;
      a depth under four is set by a line of white space. */
  predicate InOrder(depth: nat, lines: seq<string>) {
    && depth >= 1
    && (forall l :: l in lines ==> Lstrip(l) == "" || LeadingSpaces(l) >= depth)
    && FirstIndent(lines) in {0, depth}
    && (depth < 4 ==> SpacesFirst(lines))
  }

  predicate SpacesFirst(lines: seq<string>) {
    lines == [] || (if LeadingSpaces(lines[0]) > 0 then Lstrip(lines[0]) == "" else SpacesFirst(lines[1..]))
  }

  function FirstIndent(lines: seq<string>): nat {
    if lines == [] then 0
    else if LeadingSpaces(lines[0]) > 0 then LeadingSpaces(lines[0])
    else FirstIndent(lines[1..])
  }

  predicate PairOk(key: string, value: string) {
    KeyOk(key) && (BlockKey(key) ==> !("|" <= Strip(value)))
  }

  /** `key:value` without a space is a field only directly after the dash of an item. */
  predicate EntryOk(e: Entry, head: bool) {
    match e
    case Pair(key, value) => PairOk(key, value)
    case Block(key, mark, depth, lines) => BlockKey(key) && depth >= 4 && InOrder(depth, lines)
    case Squeezed(key, value) => PairOk(key, value) && !Contains(": ", key + ":" + value)
    case Stray(line) =>
      if head then ':' !in line
      else line != "" && !IsSpace(line[0]) && !("- " <= line) && Strip(line) != "---" && !Contains(": ", line)
  }

  predicate PlacedOk(p: Placed) {
    p.indent <= 3 && EntryOk(p.entry, false)
  }

  predicate ChunkOk(c: Chunk) {
    && c.indent <= 3
    && (c.Item? ==> EntryOk(c.head, true))
    && forall p :: p in c.entries ==> PlacedOk(p)
  }

  // ----- what they mean -----

  /** A line without its first `depth` characters; nothing of a line of white space. */
  function Inside(depth: nat, line: string): string {
    if Lstrip(line) == "" || |line| < depth then "" else line[depth..]
  }

  function BlockContent(depth: nat, lines: seq<string>): string {
    if lines == [] then "" else Inside(depth, lines[0]) + "\n" + BlockContent(depth, lines[1..])
  }

  function WithValue(t: TestCase, key: string, val: string): TestCase {
    if key == "name" then t.(name := val)
    else if key == "tags" then t.(tags := Words(val))
    else if key == "fail" then t.(expectFail := val == "true")
    else WithText(t, key, val)
  }

  function Effect(t: TestCase, e: Entry, head: bool): TestCase {
    match e
    case Pair(key, value) => WithValue(t, key, Strip(value))
    case Block(key, _, depth, lines) => WithText(t, key, BlockContent(depth, lines))
    case Squeezed(key, value) => if head then WithValue(t, key, Strip(value)) else t
    case Stray(_) => t
  }

  function Effects(t: TestCase, ps: seq<Placed>): TestCase
    decreases |ps|
  {
    if ps == [] then t else Effects(Effect(t, ps[0].entry, false), ps[1..])
  }

  /** One case per item; what follows a separator belongs to none. */
  function CasesOf(id: string, cs: seq<Chunk>, variant: nat): seq<TestCase> {
    if cs == [] then []
    else if cs[0].Separator? then CasesOf(id, cs[1..], variant)
    else
      var blank := TestCase(id, "", [], false, "", "", variant);
      [Effects(Effect(blank, cs[0].head, true), cs[0].entries)] + CasesOf(id, cs[1..], variant + 1)
  }

  // ----- strings -----

  lemma {:induction false} IndentedText(k: nat, t: string)
    requires t != "" && !IsSpace(t[0])
    ensures Lstrip(Spaces(k) + t) == t && LeadingSpaces(Spaces(k) + t) == k
  {
    if k == 0 {
      assert "" + t == t;
    } else {
      IndentedText(k - 1, t);
      assert (Spaces(k) + t)[1..] == Spaces(k - 1) + t;
    }
  }

  lemma {:induction false} LeadingIs(k: nat, rest: string)
    requires rest == "" || rest[0] != ' '
    ensures LeadingSpaces(Spaces(k) + rest) == k
  {
    if k == 0 {
      assert "" + rest == rest;
    } else {
      LeadingIs(k - 1, rest);
      assert (Spaces(k) + rest)[1..] == Spaces(k - 1) + rest;
    }
  }

  lemma {:induction false} RstripDropsSpace(s: string)
    ensures |Rstrip(s)| <= |s| && forall i :: |Rstrip(s)| <= i < |s| ==> IsSpace(s[i])
  {
    if s != "" && IsSpace(s[|s| - 1]) { RstripDropsSpace(s[..|s| - 1]); }
  }

  /** A line with a colon is no separator. */
  lemma ColonIsNoSeparator(line: string, t: string)
    requires Lstrip(line) == t && ':' in t
    ensures Strip(line) != "---"
  {
    RstripPrefix(t);
    RstripDropsSpace(t);
    var i :| 0 <= i < |t| && t[i] == ':';
    assert i < |Rstrip(t)| && Rstrip(t)[i] == ':';
    assert forall j :: 0 <= j < 3 ==> "---"[j] == '-';
  }

  lemma {:induction false} NothingToSplit(s: string, sep: string)
    requires !Contains(sep, s)
    ensures SplitOnce(s, sep).None?
  {
    assert s[0..] == s;
    if s != "" {
      forall i | 0 <= i <= |s[1..]| ensures !(sep <= s[1..][i..]) {
        assert s[1..][i..] == s[i + 1..];
      }
      NothingToSplit(s[1..], sep);
    }
  }

  lemma {:induction false} SplitAtColon(key: string, value: string)
    requires ':' !in key
    ensures SplitOnce(key + ":" + value, ":") == Some((key, value))
  {
    var s := key + ":" + value;
    if key == "" {
      assert s == ":" + value && s[1..] == value;
    } else {
      assert s[0] == key[0] && key[0] in key && s[1..] == key[1..] + ":" + value;
      assert forall c :: c in key[1..] ==> c in key;
      SplitAtColon(key[1..], value);
      assert [key[0]] + key[1..] == key;
    }
  }

  lemma NoColonNoSplit(s: string)
    requires ':' !in s
    ensures !Contains(":", s) && !Contains(": ", s)
  {
    forall i | 0 <= i <= |s| ensures !(":" <= s[i..]) && !(": " <= s[i..]) {
      if i < |s| { assert s[i] in s; }
    }
  }

  // ----- white space and words -----

  lemma SpaceTable(c: char)
    ensures IsSpace(c) <==>
      c in " \t\n\U{000B}\U{000C}\r\U{001C}\U{001D}\U{001E}\U{001F}\U{0085}\U{00A0}\U{1680}" ||
      c in "\U{2000}\U{2001}\U{2002}\U{2003}\U{2004}\U{2005}\U{2006}\U{2007}\U{2008}\U{2009}\U{200A}" ||
      c in "\U{2028}\U{2029}\U{202F}\U{205F}\U{3000}"
  {
  }

  predicate AllSpace(s: string) {
    forall c :: c in s ==> IsSpace(c)
  }

  /** Every text is white space around a tight middle, which is what stripping leaves. */
  lemma StripIs(a: string, m: string, b: string)
    requires AllSpace(a) && AllSpace(b) && Tight(m)
    ensures Strip(a + m + b) == m && Lstrip(a + m) == m
  {
    LstripIs(a, m);
    if m == "" {
      assert a + m + b == a + b + "";
      LstripIs(a + b, "");
    } else {
      assert a + m + b == a + (m + b);
      LstripIs(a, m + b);
      RstripIs(m, b);
    }
  }

  lemma {:induction false} LstripIs(a: string, m: string)
    requires AllSpace(a) && (m == "" || !IsSpace(m[0]))
    ensures Lstrip(a + m) == m
  {
    if a == "" {
      assert a + m == m;
    } else {
      assert a[0] in a && (a + m)[1..] == a[1..] + m;
      LstripIs(a[1..], m);
    }
  }

  lemma {:induction false} RstripIs(m: string, b: string)
    requires AllSpace(b) && (m == "" || !IsSpace(m[|m| - 1]))
    ensures Rstrip(m + b) == m
  {
    if b == "" {
      assert m + b == m;
    } else {
      assert b[|b| - 1] in b && (m + b)[..|m + b| - 1] == m + b[..|b| - 1];
      RstripIs(m, b[..|b| - 1]);
    }
  }

  /** Words with gaps of any width before them. */
  function Spread(words: seq<string>, gaps: seq<nat>): string
    requires |words| == |gaps|
  {
    if words == [] then "" else Spaces(gaps[0]) + (words[0] + Spread(words[1..], gaps[1..]))
  }

  lemma {:induction false} SkipGap(k: nat, rest: string)
    ensures WordsFrom("", Spaces(k) + rest) == WordsFrom("", rest)
  {
    if k == 0 {
      assert "" + rest == rest;
    } else {
      SkipGap(k - 1, rest);
      assert (Spaces(k) + rest)[1..] == Spaces(k - 1) + rest;
    }
  }

  /** Splitting finds the words, whatever the gaps, and whatever spaces end the text. */
  lemma {:induction false} WordsAre(words: seq<string>, gaps: seq<nat>, last: nat)
    requires |words| == |gaps| && forall w :: w in words ==> w != "" && ' ' !in w
    requires forall i :: 0 < i < |gaps| ==> gaps[i] > 0
    ensures Words(Spread(words, gaps) + Spaces(last)) == words
  {
    hide WordsFrom, Spaces, Spread;
    if words == [] {
      NoWords(last);
    } else {
      var w, more := words[0], Spread(words[1..], gaps[1..]) + Spaces(last);
      assert w in words && forall x :: x in words[1..] ==> x in words;
      WordsAre(words[1..], gaps[1..], last);
      SpreadFirst(words, gaps, last);
      SkipGap(gaps[0], w + more);
      WordsOfOne("", w, more);
      assert "" + w == w && [w] + words[1..] == words;
      EndsWord(w, words[1..], gaps[1..], last);
    }
  }

  lemma NoWords(last: nat)
    ensures Words(Spread([], []) + Spaces(last)) == []
  {
    SkipGap(last, "");
    assert "" + Spaces(last) == Spaces(last) == Spaces(last) + "";
  }

  lemma SpreadFirst(words: seq<string>, gaps: seq<nat>, last: nat)
    requires |words| == |gaps| > 0
    ensures Spread(words, gaps) + Spaces(last)
      == Spaces(gaps[0]) + (words[0] + (Spread(words[1..], gaps[1..]) + Spaces(last)))
  {
    hide Spaces;
    SeqAssociates(Spaces(gaps[0]), words[0] + Spread(words[1..], gaps[1..]), Spaces(last));
    SeqAssociates(words[0], Spread(words[1..], gaps[1..]), Spaces(last));
  }

  /** What follows a word is nothing or starts with a space. */
  lemma EndsWord(w: string, words: seq<string>, gaps: seq<nat>, last: nat)
    requires |words| == |gaps| && w != "" && (words != [] ==> gaps[0] > 0)
    ensures var more := Spread(words, gaps) + Spaces(last); WordsFrom(w, more) == [w] + WordsFrom("", more)
  {
    var more := Spread(words, gaps) + Spaces(last);
    if more == "" {
      assert [w] + [] == [w];
    } else {
      assert more[0] == ' ';
      assert [] + WordsFrom("", more[1..]) == WordsFrom("", more[1..]);
    }
  }

  // ----- one field -----

  /** The value of a key line, with no block opened. */
  lemma PairReads(s: State, key: string, value: string)
    requires PairOk(key, value)
    ensures KeyValue(s, key, value) == Left(s).(current := WithValue(s.current, key, Strip(value)))
  {
  }

  lemma MarkOpens(s: State, key: string, mark: string)
    requires BlockKey(key)
    ensures var t := KeyValue(s, key, "|" + mark);
      && t.blockIndent == 0
      && t.field == Some(FieldOf(key))
      && Left(t) == Left(s).(current := WithText(s.current, key, ""))
  {
    var v := "|" + mark;
    assert v[0] == '|';
    assert Lstrip(v) == v;
    RstripDropsSpace(v);
    RstripPrefix(v);
    assert Strip(v)[0] == '|';
  }

  /** A line of the block: one line feed for white space, otherwise what follows the indentation. */
  lemma BlockLineOf(s: State, id: string, depth: nat, l: string)
    requires s.field.Some? && depth >= 1 && (Lstrip(l) == "" || LeadingSpaces(l) >= depth)
    requires s.blockIndent == depth || (s.blockIndent == 0 && LeadingSpaces(l) in {0, depth})
    requires s.blockIndent == 0 && depth < 4 ==> Lstrip(l) == ""
    ensures Line(s, id, l) ==
      Appended(s.(blockIndent := if LeadingSpaces(l) > 0 then depth else s.blockIndent),
               Inside(depth, l) + "\n")
  {
    assert "" + "\n" == "\n";
  }

  /** The lines of a block in order add what is inside its depth, which is the indentation afterwards
      unless no line starts with a space. */
  lemma {:induction false} BlockOf(s: State, id: string, depth: nat, lines: seq<string>)
    requires s.field.Some? && depth >= 1
    requires forall l :: l in lines ==> Lstrip(l) == "" || LeadingSpaces(l) >= depth
    requires s.blockIndent == depth || (s.blockIndent == 0 && InOrder(depth, lines))
    ensures var t := Run(s, id, lines);
      && t.blockIndent == (if s.blockIndent == 0 then FirstIndent(lines) else depth)
      && t.(blockIndent := 0) == Appended(s, BlockContent(depth, lines)).(blockIndent := 0)
    decreases |lines|
  {
    hide Line, Appended, Lstrip, Inside;
    if lines == [] {
      NothingAppended(s);
    } else {
      var l, more := lines[0], lines[1..];
      assert l in lines && forall x :: x in more ==> x in lines;
      BlockLineOf(s, id, depth, l);
      var s0 := s.(blockIndent := if LeadingSpaces(l) > 0 then depth else s.blockIndent);
      var s1 := Appended(s0, Inside(depth, l) + "\n");
      AppendedShape(s0, Inside(depth, l) + "\n");
      BlockOf(s1, id, depth, more);
      AppendedTwice(s0, Inside(depth, l) + "\n", BlockContent(depth, more));
      AppendedIgnoresIndent(s, s0, BlockContent(depth, lines));
    }
  }

  /** The state after the line of a field, before the lines of its block. */
  function Started(s: State, e: Entry, head: bool): State {
    if e.Block? then
      Left(s).(current := WithText(s.current, e.key, ""),
               field := Some(FieldOf(e.key)))
    else Left(s).(current := Effect(s.current, e, head))
  }

  lemma PairStarts(s: State, key: string, value: string)
    requires KeyOk(key)
    ensures SplitOnce(key + ": " + value, ": ") == Some((key, value)) && Strip(key) == key
  {
    SplitAtFirst(key, value);
    TightStrip(key);
  }

  /** After the dash of an item. */
  lemma HeadStarts(s: State, e: Entry)
    requires EntryOk(e, true) && Left(s) == s
    ensures ItemStart(s, Text(e)) == Started(s, e, true)
  {
    hide KeyValue, SplitOnce, Strip, WithValue, WithText;
    match e
    case Pair(key, value) =>
      PairStarts(s, key, value);
      PairReads(s, key, value);
    case Block(key, mark, depth, lines) =>
      PairStarts(s, key, "|" + mark);
      MarkOpens(s, key, mark);
    case Squeezed(key, value) =>
      NothingToSplit(key + ":" + value, ": ");
      SplitAtColon(key, value);
      TightStrip(key);
      PairReads(s, key, value);
    case Stray(line) =>
      NoColonNoSplit(line);
      NothingToSplit(line, ": ");
      NothingToSplit(line, ":");
  }

  /** A text that starts at its first character and names no item, on a line of its own. */
  lemma LooseLine(s: State, id: string, k: nat, t: string)
    requires Ready(s) && k <= 3 && t != "" && !IsSpace(t[0]) && !("- " <= t) && Strip(t) != "---"
    ensures Line(s, id, Spaces(k) + t) ==
      var kv := SplitOnce(t, ": ");
      if kv.Some? then KeyValue(Left(s), Strip(kv.value.0), kv.value.1) else Left(s)
  {
    hide KeyValue, SplitOnce;
    IndentedText(k, t);
    assert Lstrip(t) == t;
  }

  lemma KeyStartsText(key: string, rest: string)
    requires KeyOk(key) && rest != "" && rest[0] == ':'
    ensures var t := key + rest; t != "" && !IsSpace(t[0]) && !("- " <= t) && Strip(t) != "---"
  {
    var t := key + rest;
    assert t[0] == key[0] && t[|key|] == ':';
    assert Lstrip(t) == t;
    ColonIsNoSeparator(t, t);
    if |key| > 1 { assert key[..2] == t[..2]; }
  }

  /** On a line of its own. */
  lemma EntryStarts(s: State, id: string, k: nat, e: Entry)
    requires Ready(s) && k <= 3 && EntryOk(e, false)
    ensures Line(s, id, Spaces(k) + Text(e)) == Started(s, e, false)
  {
    hide KeyValue, SplitOnce, Strip, Line, WithValue, WithText;
    var t := Text(e);
    match e
    case Pair(key, value) =>
      assert t == key + (": " + value);
      KeyStartsText(key, ": " + value);
      LooseLine(s, id, k, t);
      PairStarts(s, key, value);
      PairReads(Left(s), key, value);
    case Block(key, mark, depth, lines) =>
      assert t == key + (": " + ("|" + mark));
      BlockKeyOk(key);
      KeyStartsText(key, ": " + ("|" + mark));
      LooseLine(s, id, k, t);
      PairStarts(s, key, "|" + mark);
      MarkOpens(Left(s), key, mark);
    case Squeezed(key, value) =>
      assert t == key + (":" + value);
      KeyStartsText(key, ":" + value);
      LooseLine(s, id, k, t);
      NothingToSplit(t, ": ");
    case Stray(line) =>
      LooseLine(s, id, k, t);
      NothingToSplit(line, ": ");
  }

  lemma BlockKeyOk(key: string)
    requires BlockKey(key)
    ensures KeyOk(key)
  {
  }

  /** The rest of the field. */
  lemma MoreReads(s: State, id: string, e: Entry, head: bool)
    requires EntryOk(e, head)
    ensures var t := Run(Started(s, e, head), id, More(e));
      Ready(t) && Left(t) == Left(s).(current := Effect(s.current, e, head))
  {
    hide Line, Lstrip, LeadingSpaces, FirstIndent;
    if e.Block? {
      BlockOf(Started(s, e, head), id, e.depth, e.lines);
      var text := BlockContent(e.depth, e.lines);
      assert "" + text == text;
    }
  }

  lemma PlacedReads(s: State, id: string, p: Placed)
    requires Ready(s) && PlacedOk(p)
    ensures var t := Run(s, id, PlacedLines(p));
      Ready(t) && Left(t) == Left(s).(current := Effect(s.current, p.entry, false))
  {
    hide Line, Effect, EntryOk;
    EntryStarts(s, id, p.indent, p.entry);
    MoreReads(s, id, p.entry, false);
    assert PlacedLines(p)[1..] == More(p.entry);
  }

  lemma {:induction false} EntriesRead(s: State, id: string, ps: seq<Placed>)
    requires Ready(s) && forall p :: p in ps ==> PlacedOk(p)
    ensures var t := Run(s, id, EntriesLines(ps)); Ready(t) && Left(t) == Left(s).(current := Effects(s.current, ps))
    decreases |ps|
  {
    hide Line, Effect, PlacedLines, PlacedOk;
    if ps != [] {
      assert ps[0] in ps && forall p :: p in ps[1..] ==> p in ps;
      PlacedReads(s, id, ps[0]);
      RunAppend(s, id, PlacedLines(ps[0]), EntriesLines(ps[1..]));
      EntriesRead(Run(s, id, PlacedLines(ps[0])), id, ps[1..]);
    }
  }

  // ----- one item -----

  lemma DashLine(s: State, id: string, k: nat, rest: string)
    requires Ready(s) && k <= 3
    ensures Line(s, id, Spaces(k) + ("- " + rest)) == ItemStart(Begun(Finalized(s), id), rest)
  {
    hide ItemStart;
    var t := "- " + rest;
    assert t[0] == '-' && t[1] == ' ' && t[2..] == rest;
    IndentedText(k, t);
    NotSeparator(Spaces(k) + t);
  }

  lemma SeparatorLine(s: State, id: string, k: nat)
    requires Ready(s) && k <= 3
    ensures Line(s, id, Spaces(k) + "---") == Finalized(s)
  {
    IndentedText(k, "---");
    TightStrip("---");
  }

  /** An item files the one before and becomes the current one; a separator only files. */
  lemma ChunkReads(s: State, id: string, c: Chunk)
    requires Ready(s) && ChunkOk(c)
    ensures var t := Run(s, id, ChunkLines(c));
      var f := Finalized(s);
      && Ready(t) && t.cases == f.cases && t.inItem == c.Item?
      && t.variants == s.variants + (if c.Item? then 1 else 0)
      && (c.Item? ==>
            t.current == Effects(Effect(TestCase(id, "", [], false, "", "", s.variants), c.head, true), c.entries))
  {
    hide Line, Run, Effect, Effects, EntryOk, PlacedOk, ItemStart, Started;
    var h := ChunkHead(c);
    RunAppend(s, id, h, EntriesLines(c.entries));
    var f := Finalized(s);
    if c.Item? {
      DashLine(s, id, c.indent, Text(c.head));
      var b := Begun(f, id);
      assert b.current == TestCase(id, "", [], false, "", "", s.variants);
      HeadStarts(b, c.head);
      FirstOf(s, id, h[0], More(c.head));
      MoreReads(b, id, c.head, true);
    } else {
      SeparatorLine(s, id, c.indent);
      FirstOf(s, id, h[0], []);
      assert [h[0]] + [] == h;
      NoLines(f, id);
    }
    EntriesRead(Run(s, id, h), id, c.entries);
  }

  lemma FirstOf(s: State, id: string, line: string, more: seq<string>)
    ensures Run(s, id, [line] + more) == Run(Line(s, id, line), id, more)
  {
    assert ([line] + more)[1..] == more;
  }

  lemma NoLines(s: State, id: string)
    ensures Run(s, id, []) == s
  {
  }

  // ----- files -----

  lemma {:induction false} ChunksRead(s: State, id: string, cs: seq<Chunk>)
    requires Ready(s) && forall c :: c in cs ==> ChunkOk(c)
    ensures Finalized(Run(s, id, ChunksLines(cs))).cases == Finalized(s).cases + CasesOf(id, cs, s.variants)
    decreases |cs|
  {
    hide Line, Run, Effect, Effects, ChunkOk, ChunkLines, Ready;
    if cs == [] {
      NoLines(s, id);
      assert Finalized(s).cases + [] == Finalized(s).cases;
    } else {
      var c := cs[0];
      assert c in cs && forall x :: x in cs[1..] ==> x in cs;
      RunAppend(s, id, ChunkLines(c), ChunksLines(cs[1..]));
      ChunkReads(s, id, c);
      var t := Run(s, id, ChunkLines(c));
      ChunksRead(t, id, cs[1..]);
      if c.Item? { SeqAssociates(Finalized(s).cases, [t.current], CasesOf(id, cs[1..], t.variants)); }
    }
  }

  lemma {:induction false} CasesOfIds(id: string, cs: seq<Chunk>, variant: nat)
    ensures WithId(id, CasesOf(id, cs, variant)) == CasesOf(id, cs, variant)
  {
    forall t | t in CasesOf(id, cs, variant) ensures t.id == id { CaseId(id, cs, variant, t); }
  }

  lemma {:induction false} CaseId(id: string, cs: seq<Chunk>, variant: nat, t: TestCase)
    requires t in CasesOf(id, cs, variant)
    ensures t.id == id
  {
    hide Effect, Effects;
    if cs[0].Separator? {
      CaseId(id, cs[1..], variant, t);
    } else {
      var blank := TestCase(id, "", [], false, "", "", variant);
      var first := Effects(Effect(blank, cs[0].head, true), cs[0].entries);
      if t in CasesOf(id, cs[1..], variant + 1) { CaseId(id, cs[1..], variant + 1, t); } else { assert t == first; }
      EffectId(blank, cs[0].head, true);
      EffectsId(Effect(blank, cs[0].head, true), cs[0].entries);
    }
  }

  lemma EffectId(t: TestCase, e: Entry, head: bool)
    ensures Effect(t, e, head).id == t.id
  {
  }

  lemma {:induction false} EffectsId(t: TestCase, ps: seq<Placed>)
    ensures Effects(t, ps).id == t.id
    decreases |ps|
  {
    if ps != [] {
      EffectId(t, ps[0].entry, false);
      EffectsId(Effect(t, ps[0].entry, false), ps[1..]);
    }
  }

  /** A file of items and separators, its fields in any order, gives one case per item in the order
      of the items, with the values its fields gave it last. */
  lemma AnyLayout(id: string, cs: seq<Chunk>)
    requires forall c :: c in cs ==> ChunkOk(c)
    requires forall l :: l in ChunksLines(cs) ==> '\n' !in l
    ensures Parse(id, JoinLines(ChunksLines(cs))) == CasesOf(id, cs, 0)
  {
    hide Run, CasesOf, WithId, ChunkOk, SplitLines, JoinLines;
    ChunksRead(START, id, cs);
    assert [] + CasesOf(id, cs, 0) == CasesOf(id, cs, 0);
    CasesOfIds(id, cs, 0);
    if cs == [] { EmptyFile(id); } else { SplitJoin(ChunksLines(cs)); }
  }

  lemma EmptyFile(id: string)
    ensures Run(START, id, SplitLines(JoinLines([]))) == Run(START, id, [])
  {
    EmptySplit();
    assert [""][1..] == [];
  }
}
