/** The round trip of `_python_to_yaml` and `safe_load` for every value. What remains beside
    `YamlText` are scalars printed over several lines: a text that holds one is not read at all. */
module YamlFidelity {
  import opened Prelude
  import opened YamlScalar
  import opened YamlScalarReads
  import opened YamlPrinter
  import opened YamlReader
  import opened YamlRoundTrip
  import opened YamlText

  // ----- lines the reader can take -----

  /** A line whose node is on the lines below it. */
  predicate Header(l: Line) {
    l.body == "-" || (!IsEntry(l.body) && ReadKey(l.body).Some? && ReadKey(l.body).value.1 == "")
  }

  predicate StartsNothing(l: Line) {
    !IsEntry(l.body) && ReadKey(l.body).None?
  }

  /** A line that starts neither an item nor an entry is a scalar below a header. */
  predicate Flows(below: bool, ls: seq<Line>)
    decreases ls
  {
    ls == []
    || ((StartsNothing(ls[0]) ==> below && ReadInline(ls[0].body).Some?) && Flows(Header(ls[0]), ls[1..]))
  }

  lemma {:induction false} FlowsJoin(below: bool, a: seq<Line>, b: seq<Line>)
    requires Flows(below, a) && Flows(false, b)
    ensures Flows(below, a + b)
    decreases a
  {
    if a == [] {
      assert a + b == b;
    } else {
      FlowsJoin(Header(a[0]), a[1..], b);
      assert (a + b)[1..] == a[1..] + b;
    }
  }

  /** What was read before `rest` flows. */
  ghost predicate Taken(below: bool, ls: seq<Line>, rest: seq<Line>) {
    && |rest| <= |ls|
    && ls[|ls| - |rest|..] == rest
    && Flows(below, ls[..|ls| - |rest|])
  }

  lemma TakenNothing(below: bool, ls: seq<Line>)
    ensures Taken(below, ls, ls)
  {
  }

  lemma TakenOne(below: bool, ls: seq<Line>)
    requires ls != [] && (StartsNothing(ls[0]) ==> below && ReadInline(ls[0].body).Some?)
    ensures Taken(below, ls, ls[1..])
  {
    assert ls[..1][1..] == [];
  }

  lemma TakenThen(below: bool, ls: seq<Line>, mid: seq<Line>, rest: seq<Line>)
    requires ls != [] && !StartsNothing(ls[0])
    requires Taken(Header(ls[0]), ls[1..], mid) && Taken(false, mid, rest)
    ensures Taken(below, ls, rest)
  {
    hide StartsNothing, Header, Flows;
    var a, b := ls[1..][..|ls| - 1 - |mid|], mid[..|mid| - |rest|];
    FlowsJoin(Header(ls[0]), a, b);
    assert mid == b + rest && ls[1..] == a + mid;
    SeqAssociates(a, b, rest);
    FlowsFrom(below, ls[0], a + b);
    FlowsBefore(below, ls, [ls[0]] + (a + b), rest);
  }

  lemma FlowsFrom(below: bool, l: Line, more: seq<Line>)
    requires !StartsNothing(l) && Flows(Header(l), more)
    ensures Flows(below, [l] + more)
  {
    assert ([l] + more)[1..] == more;
  }

  lemma FlowsBefore(below: bool, ls: seq<Line>, used: seq<Line>, rest: seq<Line>)
    requires ls == used + rest && Flows(below, used)
    ensures Taken(below, ls, rest)
  {
    assert ls[..|used|] == used && ls[|used|..] == rest;
  }

  lemma {:induction false} BlockTakes(ls: seq<Line>)
    requires ls != [] && ReadBlock(ls).Some?
    ensures Taken(true, ls, ReadBlock(ls).value.1)
    decreases |ls|, 1
  {
    hide Taken, ReadInline, ReadKey;
    if IsEntry(ls[0].body) {
      SeqTakes(true, ls, ls[0].indent);
    } else if ReadKey(ls[0].body).Some? {
      MapTakes(true, ls, ls[0].indent);
    } else {
      TakenOne(true, ls);
    }
  }

  lemma {:induction false} SeqTakes(below: bool, ls: seq<Line>, m: nat)
    requires ReadSeq(ls, m).Some?
    ensures Taken(below, ls, ReadSeq(ls, m).value.1)
    decreases |ls|, 0
  {
    hide Taken, ReadInline, ReadKey;
    if ls == [] || ls[0].indent < m {
      TakenNothing(below, ls);
    } else {
      var first := if |ls[0].body| == 1 then ReadBelowEntry(ls[1..], m) else ReadHere(ls[0].body[2..], ls[1..]);
      var mid := first.value.1;
      assert |ls[0].body| == 1 ==> ls[0].body == "-";
      if |ls[0].body| == 1 && ls[1..] != [] && ls[1].indent > m {
        BlockTakes(ls[1..]);
      } else {
        TakenNothing(Header(ls[0]), ls[1..]);
      }
      SeqTakes(false, mid, m);
      TakenThen(below, ls, mid, ReadSeq(ls, m).value.1);
    }
  }

  lemma {:induction false} MapTakes(below: bool, ls: seq<Line>, m: nat)
    requires ReadMap(ls, m).Some?
    ensures Taken(below, ls, ReadMap(ls, m).value.1)
    decreases |ls|, 0
  {
    hide Taken, ReadInline, ReadKey;
    if ls == [] || ls[0].indent < m {
      TakenNothing(below, ls);
    } else {
      var after := ReadKey(ls[0].body).value.1;
      var first := if after == "" then ReadBelow(ls[1..], m) else ReadHere(after[1..], ls[1..]);
      var mid := first.value.1;
      if after == "" && ls[1..] != [] && ls[1].indent > m {
        BlockTakes(ls[1..]);
      } else {
        TakenNothing(Header(ls[0]), ls[1..]);
      }
      MapTakes(false, mid, m);
      TakenThen(below, ls, mid, ReadMap(ls, m).value.1);
    }
  }

  // ----- lines it cannot take -----

  predicate BadLine(l: Line) {
    StartsNothing(l) && ReadInline(l.body).None?
  }

  /** A line that starts nothing after one that is complete. */
  predicate BadPair(l: Line, next: Line) {
    !Header(l) && StartsNothing(next)
  }

  predicate Broken(ls: seq<Line>) {
    ls != [] && (BadLine(ls[0]) || (|ls| > 1 && BadPair(ls[0], ls[1])) || Broken(ls[1..]))
  }

  lemma {:induction false} BrokenStays(a: seq<Line>, b: seq<Line>)
    requires Broken(a) || Broken(b)
    ensures Broken(a + b)
  {
    hide BadLine, BadPair;
    if a == [] {
      assert a + b == b;
    } else {
      assert (a + b)[1..] == a[1..] + b;
      if Broken(a[1..]) || Broken(b) { BrokenStays(a[1..], b); }
    }
  }

  lemma {:induction false} BrokenNotTaken(below: bool, ls: seq<Line>)
    requires Broken(ls)
    ensures !Flows(below, ls)
    decreases ls
  {
    hide StartsNothing, Header, ReadInline;
    if Broken(ls[1..]) {
      BrokenNotTaken(Header(ls[0]), ls[1..]);
    }
  }

  lemma BrokenNotRead(text: string)
    requires Broken(Cut(text))
    ensures Read(text) == None
  {
    hide Broken, Flows;
    var ls := Cut(text);
    if ReadBlock(ls).Some? && ReadBlock(ls).value.1 == [] {
      BlockTakes(ls);
      assert ls[..|ls|] == ls;
      BrokenNotTaken(true, ls);
    }
  }

  // ----- scalars over several lines -----

  /** The strings that `int` and `float` accept: no quote and no colon, and a minus sign stands
      before something, not before white space. */
  predicate NumberSyntax(s: string) {
    && '\'' !in s && ':' !in s
    && (forall i :: 0 <= i < |s| && s[i] == '-' ==> i + 1 < |s| && s[i + 1] != ' ' && s[i + 1] != '\n')
  }

  ghost predicate NumbersLookIt(py: Python) {
    forall s :: py.intOf(s).Some? || py.floatOf(s).Some? ==> NumberSyntax(s)
  }

  lemma RawIsNumber(py: Python, x: Scalar)
    requires NumbersLookIt(py) && !OnOneLine(py, x)
    ensures x.Str? && '\n' in x.s && NumberSyntax(x.s) && ScalarText(py, x) == "'" + x.s + "'"
  {
    hide NumberSyntax;
    var s := x.s;
    assert IsBreakOrTab('\n') && NeedsQuotes('\n') && '\n' in s;
    WordsAreOneLine(s);
  }

  lemma WordsAreOneLine(s: string)
    requires '\n' in s
    ensures !IsNull(s) && !IsTrue(s) && !IsFalse(s) && !IsPosInf(s) && !IsNegInf(s) && !IsNaN(s)
  {
  }

  lemma KeyHasColon(t: string)
    requires ReadKey(t).Some?
    ensures ':' in t
    ensures ReadKey(t).value.1 == "" ==> t[|t| - 1] == ':'
  {
  }

  lemma MinusBeforeText(s: string, k: nat, line: string)
    requires NumberSyntax(s) && k < |s|
    requires line <= s[k + 1..] + "'" && (|line| < |s| - k ==> (s[k + 1..] + "'")[|line|] == '\n')
    ensures forall j :: 0 <= j < |line| && line[j] == '-' ==> j + 1 < |line| && line[j + 1] != ' '
  {
    var q := s[k + 1..] + "'";
    forall j | 0 <= j < |line| && line[j] == '-' ensures j + 1 < |line| && line[j + 1] != ' ' {
      assert line[j] == q[j] && q[j] == s[k + 1 + j];
      assert j + 1 < |q| - 1 && q[j + 1] == s[k + 2 + j];
      assert j + 1 < |line| ==> line[j + 1] == q[j + 1];
    }
  }

  /** What follows the first break of a number starts neither an item nor an entry. */
  lemma ContinuationLine(s: string, k: nat)
    requires NumberSyntax(s) && k < |s| && s[k] == '\n'
    ensures Cut(s[k + 1..] + "'") != [] && StartsNothing(Cut(s[k + 1..] + "'")[0])
  {
    hide ReadKey, LeadingSpaces;
    var q := s[k + 1..] + "'";
    var line := SplitLines(q)[0];
    FirstLine(q);
    var j := LeadingSpaces(line);
    var body := line[j..];
    assert Cut(q)[0] == Line(j, body);
    assert ':' !in q && forall c :: c in body ==> c in q;
    if ReadKey(body).Some? { KeyHasColon(body); }
    MinusBeforeText(s, k, line);
  }

  /** The first line runs up to the first break. */
  lemma {:induction false} FirstLine(text: string)
    ensures SplitLines(text)[0] <= text && '\n' !in SplitLines(text)[0]
    ensures var k := |SplitLines(text)[0]|; k < |text| ==> text[k] == '\n'
  {
    if text != "" && text[0] != '\n' {
      FirstLine(text[1..]);
    }
  }

  /** A number over several lines after `head`, which stands on the first of them. */
  lemma RawText(head: string, s: string)
    requires NumberSyntax(s) && '\n' in s && '\n' !in head
    requires head == "" || LeadingSpaces(head) < |head|
    ensures Broken(Cut(head + ("'" + s + "'")))
  {
    hide Cut, NumberSyntax, StartsNothing, Header, LeadingSpaces;
    var k := FirstBreak(s);
    var p, q := s[..k], s[k + 1..];
    var first := head + "'" + p;
    RawSplits(head, s, k);
    CutTwo(first, q + "'");
    CutFirst(first);
    ContinuationLine(s, k);
    NotHeader(head, p);
    PairIsBroken(ToLine(first), Cut(q + "'"));
  }

  lemma RawSplits(head: string, s: string, k: nat)
    requires NumberSyntax(s) && k < |s| && s[k] == '\n'
    ensures head + ("'" + s + "'") == (head + "'" + s[..k]) + "\n" + (s[k + 1..] + "'")
    ensures ':' !in s[..k]
  {
    assert s == s[..k] + "\n" + s[k + 1..];
  }

  lemma CutFirst(s: string)
    requires '\n' !in s
    ensures Cut(s) == [ToLine(s)]
  {
    SplitLine(s);
    ToLinesOne(s);
  }

  lemma PairIsBroken(l: Line, more: seq<Line>)
    requires more != [] && BadPair(l, more[0])
    ensures Broken([l] + more)
  {
    assert ([l] + more)[1] == more[0];
  }

  lemma HeaderEnd(l: Line)
    requires Header(l) && l.body != "" && l.body != "-"
    ensures l.body[|l.body| - 1] == ':'
  {
    hide ReadKey;
    KeyHasColon(l.body);
  }

  lemma NotHeader(head: string, p: string)
    requires ':' !in p && (head == "" || LeadingSpaces(head) < |head|)
    ensures !Header(ToLine(head + "'" + p))
  {
    hide Header, LeadingSpaces;
    SeqAssociates(head, "'", p);
    if head == "" {
      assert head + ("'" + p) == "'" + p;
      QuoteIndent(p);
    } else {
      SameIndent(head, "'" + p);
    }
    var l := ToLine(head + "'" + p);
    LastCharacter(head, p, l.indent);
    if Header(l) { HeaderEnd(l); }
  }

  lemma QuoteIndent(p: string)
    ensures LeadingSpaces("'" + p) == 0
  {
  }

  lemma LastCharacter(head: string, p: string, n: nat)
    requires ':' !in p && n <= |head|
    ensures var body := (head + "'" + p)[n..]; body != "" && body[|body| - 1] != ':' && body != "-"
  {
    var s := head + "'" + p;
    var body := s[n..];
    assert body[|head| - n] == s[|head|] == '\'';
    assert body[|body| - 1] == s[|s| - 1];
    assert s[|s| - 1] == if p == "" then '\'' else p[|p| - 1];
    assert p != "" ==> p[|p| - 1] in p;
  }

  lemma {:induction false} SameIndent(a: string, b: string)
    requires LeadingSpaces(a) < |a|
    ensures LeadingSpaces(a + b) == LeadingSpaces(a)
  {
    if a[0] == ' ' {
      SameIndent(a[1..], b);
      assert (a + b)[1..] == a[1..] + b;
    }
  }

  lemma {:induction false} SpacesThen(k: nat, t: string)
    requires t != "" && t[0] != ' '
    ensures LeadingSpaces(Spaces(k) + t) == k
  {
    if k == 0 {
      assert Spaces(k) + t == t;
    } else {
      SpacesThen(k - 1, t);
      assert (Spaces(k) + t)[1..] == Spaces(k - 1) + t;
    }
  }

  /** An opening quote that is not closed on its line. */
  lemma UnclosedLine(prefix: nat, a: string, b: string)
    requires '\'' !in a && '\n' !in a
    ensures Broken(Cut(Spaces(prefix) + ("'" + a) + "\n" + b))
  {
    hide SplitLines;
    var body := "'" + a;
    CutTwo(Spaces(prefix) + body, b);
    CutLine(prefix, body);
    assert body[1..] == a;
    Unclosed(a);
    assert ReadQuoted(body).None?;
    assert ([Line(prefix, body)] + Cut(b))[0] == Line(prefix, body);
  }

  lemma {:induction false} Unclosed(r: string)
    requires '\'' !in r
    ensures ReadSingle(r).None?
  {
    if r != "" {
      assert r[0] in r && forall c :: c in r[1..] ==> c in r;
      Unclosed(r[1..]);
    }
  }

  // ----- values that hold such a scalar -----

  lemma RawInline(py: Python, x: Scalar, head: string)
    requires NumbersLookIt(py) && !OnOneLine(py, x)
    requires '\n' !in head && (head == "" || LeadingSpaces(head) < |head|)
    ensures Broken(Cut(head + ScalarText(py, x)))
  {
    RawIsNumber(py, x);
    RawText(head, x.s);
  }

  lemma KeyText(prefix: string, p: string, q: string, after: string)
    ensures prefix + ("'" + (p + "\n" + q) + "'") + after == prefix + ("'" + p) + "\n" + (q + "'" + after)
  {
    QuotedOverBreak(p, q);
    SeqAssociates(prefix, ("'" + p) + "\n", q + "'");
    SeqAssociates(prefix, "'" + p, "\n");
    SeqAssociates(prefix + ("'" + p) + "\n", q + "'", after);
  }

  lemma QuotedOverBreak(a: string, b: string)
    ensures "'" + (a + "\n" + b) + "'" == ("'" + a) + "\n" + (b + "'")
  {
    SeqAssociates("'", a + "\n", b);
    SeqAssociates("'", a, "\n");
    SeqAssociates("'" + a + "\n", b, "'");
  }

  lemma RawKey(py: Python, x: Scalar, indent: nat, after: string)
    requires NumbersLookIt(py) && !OnOneLine(py, x)
    ensures Broken(Cut(Spaces(indent) + ScalarText(py, x) + after))
  {
    hide Cut, Broken;
    RawIsNumber(py, x);
    var s := x.s;
    var k := FirstBreak(s);
    assert s == s[..k] + "\n" + s[k + 1..];
    KeyText(Spaces(indent), s[..k], s[k + 1..], after);
    UnclosedLine(indent, s[..k], s[k + 1..] + "'" + after);
  }

  /** A value with a scalar over several lines prints as lines the reader cannot take. */
  lemma {:induction false} BrokenBlock(py: Python, v: Value, n: nat)
    requires Inverts(py) && NumbersLookIt(py) && !OneLineEach(py, v)
    ensures Broken(Cut(Yaml(py, v, n)))
    decreases v, 1
  {
    match v {
      case Sc(x) =>
        RawInline(py, x, "");
        assert "" + ScalarText(py, x) == ScalarText(py, x);
      case List(items) => BrokenItems(py, items, n);
      case Dict(entries) => BrokenEntries(py, entries, n);
    }
  }

  lemma {:induction false} BrokenItem(py: Python, v: Value, n: nat)
    requires Inverts(py) && NumbersLookIt(py) && !OneLineEach(py, v)
    ensures Broken(Cut(ItemText(py, v, n)))
    decreases v, 2
  {
    hide Cut, Broken, Spaces, ScalarText;
    var prefix := Spaces(2 * n);
    if IsBlock(v) {
      BrokenBlock(py, v, n + 1);
      assert ItemText(py, v, n) == (prefix + "-") + "\n" + Yaml(py, v, n + 1);
      CutTwo(prefix + "-", Yaml(py, v, n + 1));
      BrokenStays(Cut(prefix + "-"), Cut(Yaml(py, v, n + 1)));
    } else {
      SpacesThen(2 * n, "- ");
      RawInline(py, v.x, prefix + "- ");
    }
  }

  lemma {:induction false} BrokenItems(py: Python, items: seq<Value>, n: nat)
    requires Inverts(py) && NumbersLookIt(py) && exists w :: w in items && !OneLineEach(py, w)
    ensures Broken(Cut(JoinLines(ItemTexts(py, items, n))))
    decreases items, 0
  {
    hide Cut, Broken, ItemText, OneLineEach;
    var w :| w in items && !OneLineEach(py, w);
    assert w == items[0] || w in items[1..];
    if !OneLineEach(py, items[0]) { BrokenItem(py, items[0], n); } else { BrokenItems(py, items[1..], n); }
    JoinBreaks(ItemTexts(py, items, n));
  }

  lemma JoinBreaks(texts: seq<string>)
    requires texts != [] && (Broken(Cut(texts[0])) || (|texts| > 1 && Broken(Cut(JoinLines(texts[1..])))))
    ensures Broken(Cut(JoinLines(texts)))
  {
    hide Cut, Broken;
    if |texts| > 1 {
      CutTwo(texts[0], JoinLines(texts[1..]));
      BrokenStays(Cut(texts[0]), Cut(JoinLines(texts[1..])));
    }
  }

  lemma {:induction false} BrokenEntry(py: Python, e: Entry, n: nat)
    requires Inverts(py) && NumbersLookIt(py) && !(OnOneLine(py, e.key) && OneLineEntry(py, e))
    ensures Broken(Cut(EntryText(py, e, n)))
    decreases e, 2
  {
    hide Cut, Broken, Spaces, ScalarText, OnOneLine;
    var prefix, key := Spaces(2 * n), ScalarText(py, e.key);
    var child := Yaml(py, e.val, n + 1);
    if !OnOneLine(py, e.key) {
      var after := (if IsBlock(e.val) then ":\n" else ": ") + child;
      assert EntryText(py, e, n) == prefix + key + after;
      RawKey(py, e.key, 2 * n, after);
    } else if IsBlock(e.val) {
      BrokenBlock(py, e.val, n + 1);
      KeyThenBreak(prefix, key, child);
      var first := prefix + (key + ":" + "");
      CutTwo(first, child);
      BrokenStays(Cut(first), Cut(child));
    } else {
      TextShape(py, e.key);
      SpacesThen(2 * n, key + ": ");
      assert EntryText(py, e, n) == prefix + (key + ": ") + child;
      RawInline(py, e.val.x, prefix + (key + ": "));
    }
  }

  lemma {:induction false} BrokenEntries(py: Python, entries: seq<Entry>, n: nat)
    requires Inverts(py) && NumbersLookIt(py)
    requires exists e :: e in entries && !(OnOneLine(py, e.key) && OneLineEntry(py, e))
    ensures Broken(Cut(JoinLines(EntryTexts(py, entries, n))))
    decreases entries, 0
  {
    hide Cut, Broken, EntryText, OnOneLine, OneLineEntry;
    var e :| e in entries && !(OnOneLine(py, e.key) && OneLineEntry(py, e));
    assert e == entries[0] || e in entries[1..];
    if !(OnOneLine(py, entries[0].key) && OneLineEntry(py, entries[0])) {
      BrokenEntry(py, entries[0], n);
    } else {
      BrokenEntries(py, entries[1..], n);
    }
    JoinBreaks(EntryTexts(py, entries, n));
  }

  // ----- every value -----

  /** A string with a line feed that Python takes for a number is printed raw between single quotes.
      Wherever it stands in a value, the value does not come back: this reader takes no scalar over
      several lines, and one that does folds the line feed by section 7.3.2. */
  lemma NumberWithLineFeed(py: Python, v: Value)
    requires Inverts(py) && NumbersLookIt(py) && !OneLineEach(py, v)
    ensures Load(py, Yaml(py, v, 0)) == None
  {
    BrokenBlock(py, v, 0);
    BrokenNotRead(Yaml(py, v, 0));
  }

  /** Loading the printed text of a value gives that value, scalar types and key order included,
      exactly when its scalars are in the domain, its keys distinct, and no plain text at the left
      margin is a document marker. */
  lemma RoundTrip(py: Python, v: Value)
    requires Inverts(py) && NumbersLookIt(py)
    ensures Load(py, Yaml(py, v, 0)) == Some(v) <==> InDomain(py, v) && MarginOk(py, v)
  {
    hide Yaml, Load, InDomain;
    if OneLineEach(py, v) {
      OneLineRoundTrip(py, v);
    } else {
      NumberWithLineFeed(py, v);
      if InDomain(py, v) { DomainIsOneLine(py, v); }
    }
  }

  /** Every value of the domain comes back, whatever else `int` and `float` accept. */
  lemma DomainComesBack(py: Python, v: Value)
    requires Inverts(py) && InDomain(py, v) && MarginOk(py, v)
    ensures Load(py, Yaml(py, v, 0)) == Some(v)
  {
    DomainIsOneLine(py, v);
    OneLineRoundTrip(py, v);
  }

  /** A key longer than the grammar allows is printed all the same, and its dictionary is lost. */
  lemma LongKeyLost(py: Python, e: Entry)
    requires Inverts(py) && NumbersLookIt(py) && |ScalarText(py, e.key)| > MAX_KEY
    ensures Load(py, Yaml(py, Dict([e]), 0)) != Some(Dict([e]))
  {
    hide Yaml, Load, ScalarText;
    assert !EntryOk(py, e) && !EntriesOk(py, [e]);
    RoundTrip(py, Dict([e]));
  }

  // ----- recognisers that meet the conditions -----

  function Parse(d: string): nat {
    if d == "" || !IsDigit(d[|d| - 1]) then 0
    else 10 * Parse(d[..|d| - 1]) + ((d[|d| - 1] as int) - ('0' as int))
  }

  lemma ParseSnoc(d: string, c: char)
    requires IsDigit(c)
    ensures Parse(d + [c]) == 10 * Parse(d) + ((c as int) - ('0' as int))
  {
    assert (d + [c])[..|d|] == d;
  }

  lemma DigitCharacter(k: nat)
    requires k < 10
    ensures var c := "0123456789"[k]; IsDigit(c) && (c as int) - ('0' as int) == k
  {
  }

  lemma {:induction false} ParseDigits(n: nat)
    ensures Parse(Digits(n)) == n
  {
    hide Parse;
    DigitCharacter(n % 10);
    var c := "0123456789"[n % 10];
    if n < 10 {
      ParseNothing();
      ParseSnoc("", c);
    } else {
      ParseDigits(n / 10);
      ParseSnoc(Digits(n / 10), c);
    }
  }

  lemma ParseNothing()
    ensures Parse("") == 0
  {
  }

  function ParseInt(s: string): int {
    if s != "" && s[0] == '-' then 0 - Parse(s[1..]) else Parse(s)
  }

  lemma ParseDecimal(n: int)
    ensures ParseInt(Decimal(n)) == n
  {
    hide Parse, Digits;
    if n < 0 {
      ParseDigits(-n);
      assert Decimal(n)[1..] == Digits(-n);
    } else {
      ParseDigits(n);
      assert Digits(n)[0] in Digits(n);
    }
  }

  function Pointed(x: nat): string {
    Digits(x) + "."
  }

  function Before(s: string): string {
    if s == "" then "" else s[..|s| - 1]
  }

  /** Decimal integers, and floats written as their number and a point. */
  const SIMPLE_PYTHON := Python(
    s => if s == Decimal(ParseInt(s)) then Some(ParseInt(s)) else None,
    s => if s == Pointed(Parse(Before(s))) then Some(Finite(Parse(Before(s)))) else None,
    (x: nat) => Pointed(x),
    (a, b) => a == b)

  lemma DecimalEnds(n: int)
    ensures var t := Decimal(n); IsDigit(t[|t| - 1]) && NumberSyntax(t)
  {
    var d := Digits(if n < 0 then -n else n);
    assert d[|d| - 1] in d && d[0] in d;
    var t := Decimal(n);
    forall i | 0 <= i < |t| ensures t[i] == '-' ==> i == 0 && n < 0 {
      if n >= 0 { assert t[i] in d; } else if i > 0 { assert t[i] == d[i - 1] && d[i - 1] in d; }
    }
  }

  lemma PointedShape(x: nat)
    ensures Pointed(x) != "" && Pointed(x)[|Pointed(x)| - 1] == '.'
    ensures NumberLike(Pointed(x)) && NumberSyntax(Pointed(x)) && Before(Pointed(x)) == Digits(x)
  {
    var d := Digits(x);
    assert d[0] in d;
    forall i | 0 <= i < |Pointed(x)| ensures Pointed(x)[i] != '-' {
      if i < |d| { assert d[i] in d; }
    }
  }

  lemma FloatInverts(x: nat)
    ensures var py := SIMPLE_PYTHON;
      NumberLike(py.repr(x)) && py.intOf(py.repr(x)) == None && py.floatOf(py.repr(x)) == Some(Finite(x))
  {
    hide Decimal, Pointed, ParseInt, Parse, Before, NumberLike, NumberSyntax;
    PointedShape(x);
    ParseDigits(x);
    LastDiffers(Pointed(x), '.', ParseInt(Pointed(x)));
  }

  lemma InfinityIsNoInt()
    ensures SIMPLE_PYTHON.intOf("-.inf") == None
  {
    hide Decimal, ParseInt;
    LastDiffers("-.inf", 'f', ParseInt("-.inf"));
  }

  lemma SimpleSyntax()
    ensures NumbersLookIt(SIMPLE_PYTHON)
  {
    hide Decimal, Pointed, ParseInt, Parse, NumberSyntax, Before;
    forall s | SIMPLE_PYTHON.intOf(s).Some? || SIMPLE_PYTHON.floatOf(s).Some? ensures NumberSyntax(s) {
      DecimalEnds(ParseInt(s));
      PointedShape(Parse(Before(s)));
    }
  }

  /** The conditions on the recognisers can be met. */
  lemma RecognisersExist()
    ensures Inverts(SIMPLE_PYTHON) && NumbersLookIt(SIMPLE_PYTHON)
  {
    hide Decimal, Pointed, ParseInt, Parse, NumberLike, Before, NumbersLookIt;
    var py := SIMPLE_PYTHON;
    forall n: int ensures py.intOf(Decimal(n)) == Some(n) { ParseDecimal(n); }
    forall x: nat
      ensures NumberLike(py.repr(x)) && py.intOf(py.repr(x)) == None && py.floatOf(py.repr(x)) == Some(Finite(x))
    {
      FloatInverts(x);
    }
    InfinityIsNoInt();
    SimpleSyntax();
  }

  lemma LastDiffers(t: string, c: char, n: int)
    requires t != "" && t[|t| - 1] == c && !IsDigit(c)
    ensures t != Decimal(n)
  {
    DecimalEnds(n);
  }
}
