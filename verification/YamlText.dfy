/** From lines to text: splitting the printed text gives the printed lines, and with that the
    round trip of values whose scalars are printed on one line each. */
module YamlText {
  import opened Prelude
  import opened YamlScalar
  import opened YamlScalarReads
  import opened YamlPrinter
  import opened YamlReader
  import opened YamlRoundTrip

  // ----- splitting -----

  lemma {:induction false} ToLinesAppend(a: seq<string>, b: seq<string>)
    ensures ToLines(a + b) == ToLines(a) + ToLines(b)
  {
    if a == [] {
      assert a + b == b;
    } else {
      ToLinesAppend(a[1..], b);
      assert (a + b)[1..] == a[1..] + b;
      SeqAssociates([ToLine(a[0])], ToLines(a[1..]), ToLines(b));
    }
  }

  lemma {:induction false} IndentedLine(k: nat, body: string)
    requires body != "" && body[0] != ' '
    ensures ToLine(Spaces(k) + body) == Line(k, body)
  {
    var s := Spaces(k) + body;
    if k == 0 {
      assert s == body;
    } else {
      IndentedLine(k - 1, body);
      assert s[1..] == Spaces(k - 1) + body;
      assert LeadingSpaces(s) == k && s[k..] == body;
    }
  }

  function Cut(text: string): seq<Line> {
    ToLines(SplitLines(text))
  }

  lemma CutTwo(a: string, b: string)
    ensures Cut(a + "\n" + b) == Cut(a) + Cut(b)
  {
    SplitTwo(a, b);
    ToLinesAppend(SplitLines(a), SplitLines(b));
  }

  lemma CutLine(k: nat, body: string)
    requires body != "" && body[0] != ' ' && '\n' !in body
    ensures Cut(Spaces(k) + body) == [Line(k, body)]
  {
    var s := Spaces(k) + body;
    assert '\n' !in s;
    SplitLine(s);
    IndentedLine(k, body);
    ToLinesOne(s);
  }

  lemma ToLinesOne(s: string)
    ensures ToLines([s]) == [ToLine(s)]
  {
    assert [s][1..] == [] && [ToLine(s)] + [] == [ToLine(s)];
  }

  // ----- the printed text -----

  /** Every scalar is printed on one line. */
  predicate OneLineEach(py: Python, v: Value)
    decreases v, 1
  {
    match v
    case Sc(x) => OnOneLine(py, x)
    case List(items) => forall w :: w in items ==> OneLineEach(py, w)
    case Dict(entries) => forall e :: e in entries ==> OnOneLine(py, e.key) && OneLineEntry(py, e)
  }

  predicate OneLineEntry(py: Python, e: Entry)
    decreases e, 2
  {
    OneLineEach(py, e.val)
  }

  lemma InlineOneLine(py: Python, v: Value, n: nat)
    requires Inverts(py) && !IsBlock(v) && OneLineEach(py, v)
    ensures '\n' !in Yaml(py, v, n)
  {
    if v.Sc? { TextShape(py, v.x); }
  }

  lemma {:induction false} CutBlock(py: Python, v: Value, n: nat)
    requires Inverts(py) && IsBlock(v) && OneLineEach(py, v)
    ensures Cut(Yaml(py, v, n)) == Lines(py, v, n)
    decreases v, 1
  {
    match v {
      case List(items) => CutItems(py, items, n);
      case Dict(entries) => CutEntries(py, entries, n);
    }
  }

  lemma {:induction false} CutItem(py: Python, v: Value, n: nat)
    requires Inverts(py) && OneLineEach(py, v)
    ensures Cut(ItemText(py, v, n)) == ItemLine(py, v, n)
    decreases v, 2
  {
    hide Cut, Yaml, Lines, Spaces, OneLineEach;
    var prefix := Spaces(2 * n);
    var child := Yaml(py, v, n + 1);
    if IsBlock(v) {
      CutBlock(py, v, n + 1);
      assert "-\n" == "-" + "\n";
      SeqAssociates(prefix, "-", "\n");
      CutTwo(prefix + "-", child);
      CutLine(2 * n, "-");
    } else {
      InlineOneLine(py, v, n + 1);
      SeqAssociates(prefix, "- ", child);
      CutLine(2 * n, "- " + child);
    }
  }

  lemma {:induction false} CutItems(py: Python, items: seq<Value>, n: nat)
    requires Inverts(py) && items != [] && forall w :: w in items ==> OneLineEach(py, w)
    ensures Cut(JoinLines(ItemTexts(py, items, n))) == ItemLines(py, items, n)
    decreases items, 0
  {
    hide Cut, ItemText, ItemLine;
    var texts := ItemTexts(py, items, n);
    assert items[0] in items && forall w :: w in items[1..] ==> w in items;
    CutItem(py, items[0], n);
    assert texts == [ItemText(py, items[0], n)] + ItemTexts(py, items[1..], n);
    if |items| == 1 {
      assert items[1..] == [];
    } else {
      CutItems(py, items[1..], n);
      assert texts[1..] == ItemTexts(py, items[1..], n) && |texts| > 1;
      CutTwo(texts[0], JoinLines(texts[1..]));
    }
  }

  lemma {:induction false} CutEntry(py: Python, e: Entry, n: nat)
    requires Inverts(py) && OnOneLine(py, e.key) && OneLineEntry(py, e)
    ensures Cut(EntryText(py, e, n)) == EntryLine(py, e, n)
    decreases e, 2
  {
    hide Cut, Yaml, ScalarText, Lines, Spaces;
    var prefix, key := Spaces(2 * n), ScalarText(py, e.key);
    var child := Yaml(py, e.val, n + 1);
    TextShape(py, e.key);
    if IsBlock(e.val) {
      CutBlock(py, e.val, n + 1);
      KeyThenBreak(prefix, key, child);
      CutTwo(prefix + (key + ":" + ""), child);
      CutLine(2 * n, key + ":" + "");
    } else {
      InlineOneLine(py, e.val, n + 1);
      KeyThenValue(prefix, key, child);
      CutLine(2 * n, key + ":" + (" " + child));
    }
  }

  lemma KeyThenBreak(prefix: string, key: string, child: string)
    ensures prefix + key + ":\n" + child == prefix + (key + ":" + "") + "\n" + child
  {
    assert ":\n" == ":" + "\n" && key + ":" + "" == key + ":";
    SeqAssociates(prefix, key, ":");
    SeqAssociates(prefix + key, ":", "\n");
  }

  lemma KeyThenValue(prefix: string, key: string, child: string)
    ensures prefix + key + ": " + child == prefix + (key + ":" + (" " + child))
  {
    assert ": " == ":" + " ";
    SeqAssociates(prefix + key, ":", " ");
    SeqAssociates(prefix + key + ":", " ", child);
    SeqAssociates(prefix, key, ":");
    SeqAssociates(prefix, key + ":", " " + child);
  }

  lemma {:induction false} CutEntries(py: Python, entries: seq<Entry>, n: nat)
    requires Inverts(py) && entries != []
    requires forall e :: e in entries ==> OnOneLine(py, e.key) && OneLineEntry(py, e)
    ensures Cut(JoinLines(EntryTexts(py, entries, n))) == EntryLines(py, entries, n)
    decreases entries, 0
  {
    hide Cut, EntryText, EntryLine;
    var texts := EntryTexts(py, entries, n);
    assert entries[0] in entries && forall e :: e in entries[1..] ==> e in entries;
    CutEntry(py, entries[0], n);
    assert texts == [EntryText(py, entries[0], n)] + EntryTexts(py, entries[1..], n);
    if |entries| == 1 {
      assert entries[1..] == [];
    } else {
      CutEntries(py, entries[1..], n);
      assert texts[1..] == EntryTexts(py, entries[1..], n) && |texts| > 1;
      CutTwo(texts[0], JoinLines(texts[1..]));
    }
  }

  // ----- document markers -----

  /** At the left margin a plain scalar `...`, or one that starts with `...` and a space, would end
      the document. */
  predicate MarginOk(py: Python, v: Value) {
    match v
    case Sc(x) => !IsMarker(ScalarText(py, x))
    case List(_) => true
    case Dict(entries) => forall e :: e in entries ==> !KeyMarker(py, e)
  }

  predicate KeyMarker(py: Python, e: Entry) {
    IsMarker(ScalarText(py, e.key)) && |ScalarText(py, e.key)| > 3
  }

  predicate MarkerLine(l: Line) {
    l.indent == 0 && IsMarker(l.body)
  }

  lemma MarkerToLine(s: string)
    ensures IsMarker(s) <==> MarkerLine(ToLine(s))
  {
    if s != "" && s[0] == ' ' {
      assert !("---" <= s) && !("..." <= s);
    }
  }

  lemma {:induction false} MarkersInLines(ss: seq<string>)
    ensures (exists s :: s in ss && IsMarker(s)) <==> (exists l :: l in ToLines(ss) && MarkerLine(l))
  {
    if ss != [] {
      MarkersInLines(ss[1..]);
      MarkerToLine(ss[0]);
      assert forall s :: s in ss <==> s == ss[0] || s in ss[1..];
      assert forall l :: l in ToLines(ss) <==> l == ToLine(ss[0]) || l in ToLines(ss[1..]);
      if exists s :: s in ss && IsMarker(s) {
        var s :| s in ss && IsMarker(s);
        if s in ss[1..] {
          var l :| l in ToLines(ss[1..]) && MarkerLine(l);
          assert l in ToLines(ss);
        } else {
          assert ToLine(ss[0]) in ToLines(ss);
        }
      }
    }
  }

  lemma EntryMarker(py: Python, e: Entry)
    ensures (exists l :: l in EntryLine(py, e, 0) && MarkerLine(l)) <==> KeyMarker(py, e)
  {
    var line := EntryLine(py, e, 0);
    EntryLineShape(py, e, 0);
    var t := ScalarText(py, e.key);
    var after := if IsBlock(e.val) then "" else " " + Yaml(py, e.val, 1);
    assert line[0] == Line(0, t + ":" + after);
    KeyLineMarker(t, after);
    assert forall l :: l in line <==> l == line[0] || l in line[1..];
    if KeyMarker(py, e) { assert line[0] in line; }
  }

  lemma KeyLineMarker(t: string, after: string)
    ensures IsMarker(t + ":" + after) <==> IsMarker(t) && |t| > 3
  {
    var s := t + ":" + after;
    if |t| > 3 {
      assert s[..3] == t[..3] && s[3] == t[3];
    } else if |t| == 3 {
      assert s[3] == ':';
    } else {
      assert s[|t|] == ':' && "---"[|t|] == '-' && "..."[|t|] == '.';
    }
  }

  lemma {:induction false} EntriesMarker(py: Python, entries: seq<Entry>)
    ensures (exists l :: l in EntryLines(py, entries, 0) && MarkerLine(l))
      <==> (exists e :: e in entries && KeyMarker(py, e))
  {
    hide EntryLine;
    if entries != [] {
      EntryMarker(py, entries[0]);
      EntriesMarker(py, entries[1..]);
      var line, more := EntryLine(py, entries[0], 0), EntryLines(py, entries[1..], 0);
      assert forall l :: l in line + more <==> l in line || l in more;
      assert forall e :: e in entries <==> e == entries[0] || e in entries[1..];
      if e :| e in entries && KeyMarker(py, e) {
        if e in entries[1..] {
          var l :| l in more && MarkerLine(l);
          assert l in line + more;
        } else {
          var l :| l in line && MarkerLine(l);
          assert l in line + more;
        }
      }
    }
  }

  lemma {:induction false} ItemsMarker(py: Python, items: seq<Value>)
    ensures forall l :: l in ItemLines(py, items, 0) ==> !MarkerLine(l)
  {
    if items != [] {
      ItemsMarker(py, items[1..]);
      Deep(py, items[0], 1);
      assert forall l :: l in ItemLine(py, items[0], 0) ==> l.indent > 0 || IsEntry(l.body);
      forall l | l in ItemLine(py, items[0], 0) ensures !MarkerLine(l) {
        if IsEntry(l.body) && |l.body| > 1 { assert l.body[1] == ' '; }
      }
    }
  }

  // ----- the round trip -----

  /** When every scalar is on one line, loading the printed text of a value gives that value exactly
      when its scalars are in the domain, its keys distinct, and no plain text at the left margin is
      a document marker. */
  lemma OneLineRoundTrip(py: Python, v: Value)
    requires Inverts(py) && OneLineEach(py, v)
    ensures Load(py, Yaml(py, v, 0)) == Some(v) <==> InDomain(py, v) && MarginOk(py, v)
  {
    var text := Yaml(py, v, 0);
    MarkersInLines(SplitLines(text));
    if IsBlock(v) {
      CutBlock(py, v, 0);
      var ls := Lines(py, v, 0);
      assert ls + [] == ls;
      BlockReads(py, v, 0, []);
      match v {
        case List(items) => ItemsMarker(py, items);
        case Dict(entries) => EntriesMarker(py, entries);
      }
    } else {
      InlineRoundTrip(py, v);
    }
  }

  lemma InlineRoundTrip(py: Python, v: Value)
    requires Inverts(py) && OneLineEach(py, v) && !IsBlock(v)
    ensures Load(py, Yaml(py, v, 0)) == Some(v) <==> InDomain(py, v) && MarginOk(py, v)
  {
    hide SplitLines, ToLines, InDomain, ReadBlock, ToPython, Yaml, OneLineEach, IsMarker;
    var text := Yaml(py, v, 0);
    InlineOneLine(py, v, 0);
    SplitLine(text);
    InlineStart(py, v);
    assert Spaces(0) + text == text;
    CutLine(0, text);
    InlineBlock(py, v, text);
    InlineMargin(py, v, text);
    assert text in [text];
  }

  lemma InlineStart(py: Python, v: Value)
    requires Inverts(py) && !IsBlock(v)
    ensures Yaml(py, v, 0) != "" && Yaml(py, v, 0)[0] != ' '
  {
    if v.Sc? { TextShape(py, v.x); }
  }

  lemma InlineMargin(py: Python, v: Value, text: string)
    requires !IsBlock(v) && text == Yaml(py, v, 0)
    ensures IsMarker(text) <==> !MarginOk(py, v)
  {
  }

  /** Text that is one line reads as a scalar or an empty collection, unless a bad string shows a key. */
  lemma InlineBlock(py: Python, v: Value, text: string)
    requires Inverts(py) && !IsBlock(v) && text == Yaml(py, v, 0)
    ensures var r := ReadBlock([Line(0, text)]);
      (r.Some? && r.value.1 == [] && ToPython(py, r.value.0) == v) <==> InDomain(py, v)
  {
    hide ReadInline, ReadSeq, ReadMap, ReadKey, ScalarText;
    InlineReads(py, v, 0, []);
    var ls := [Line(0, text)];
    assert ls[1..] == [];
    if v.Sc? {
      TextShape(py, v.x);
      if ScalarOk(py, v.x) { NotAKey(py, v.x); }
    } else {
      PlainKey(text, "");
    }
  }

  /** In the domain every scalar is on one line. */
  lemma {:induction false} DomainIsOneLine(py: Python, v: Value)
    requires InDomain(py, v)
    ensures OneLineEach(py, v)
    decreases v, 1
  {
    match v {
      case Sc(x) => OkIsOnOneLine(py, x);
      case List(items) => ItemsOneLine(py, items);
      case Dict(entries) => EntriesOneLine(py, entries);
    }
  }

  lemma {:induction false} ItemsOneLine(py: Python, items: seq<Value>)
    requires ItemsOk(py, items)
    ensures forall w :: w in items ==> OneLineEach(py, w)
    decreases items, 0
  {
    if items != [] {
      DomainIsOneLine(py, items[0]);
      ItemsOneLine(py, items[1..]);
    }
  }

  lemma {:induction false} EntryOneLine(py: Python, e: Entry)
    requires EntryOk(py, e)
    ensures OnOneLine(py, e.key) && OneLineEntry(py, e)
    decreases e, 2
  {
    OkIsOnOneLine(py, e.key);
    DomainIsOneLine(py, e.val);
  }

  lemma {:induction false} EntriesOneLine(py: Python, entries: seq<Entry>)
    requires EntriesOk(py, entries)
    ensures forall e :: e in entries ==> OnOneLine(py, e.key) && OneLineEntry(py, e)
    decreases entries, 0
  {
    if entries != [] {
      EntryOneLine(py, entries[0]);
      EntriesOneLine(py, entries[1..]);
    }
  }
}
