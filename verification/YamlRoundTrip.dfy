/** The round trip of whole values: which Python values come back from their printed YAML. */
module YamlRoundTrip {
  import opened Prelude
  import opened YamlScalar
  import opened YamlScalarReads
  import opened YamlPrinter
  import opened YamlReader

  // ----- the domain -----

  /** No later key counts as an earlier one, as in every dictionary whose keys compare by `sameKey`. */
  predicate Distinct(py: Python, entries: seq<Entry>) {
    forall i, j :: 0 <= i < j < |entries| ==> !py.sameKey(entries[i].key, entries[j].key)
  }

  predicate InDomain(py: Python, v: Value)
    decreases v, 1
  {
    match v
    case Sc(x) => ScalarOk(py, x)
    case List(items) => ItemsOk(py, items)
    case Dict(entries) => EntriesOk(py, entries) && Distinct(py, entries)
  }

  predicate ItemsOk(py: Python, items: seq<Value>)
    decreases items, 0
  {
    items == [] || (InDomain(py, items[0]) && ItemsOk(py, items[1..]))
  }

  predicate EntryOk(py: Python, e: Entry)
    decreases e, 2
  {
    KeyOk(py, e.key) && InDomain(py, e.val)
  }

  predicate EntriesOk(py: Python, entries: seq<Entry>)
    decreases entries, 0
  {
    entries == [] || (EntryOk(py, entries[0]) && EntriesOk(py, entries[1..]))
  }

  // ----- the printed lines -----

  function Lines(py: Python, v: Value, n: nat): (ls: seq<Line>)
    ensures IsBlock(v) ==> ls != [] && ls[0].indent == 2 * n
    decreases v, 1
  {
    match v
    case Sc(_) => []
    case List(items) => ItemLines(py, items, n)
    case Dict(entries) => EntryLines(py, entries, n)
  }

  function ItemLine(py: Python, v: Value, n: nat): seq<Line>
    decreases v, 2
  {
    if IsBlock(v) then [Line(2 * n, "-")] + Lines(py, v, n + 1)
    else [Line(2 * n, "- " + Yaml(py, v, n + 1))]
  }

  function ItemLines(py: Python, items: seq<Value>, n: nat): (ls: seq<Line>)
    ensures items != [] ==> ls != [] && ls[0].indent == 2 * n
    decreases items, 0
  {
    if items == [] then [] else ItemLine(py, items[0], n) + ItemLines(py, items[1..], n)
  }

  function EntryLine(py: Python, e: Entry, n: nat): seq<Line>
    decreases e, 2
  {
    if IsBlock(e.val) then [Line(2 * n, ScalarText(py, e.key) + ":" + "")] + Lines(py, e.val, n + 1)
    else [Line(2 * n, ScalarText(py, e.key) + ":" + (" " + Yaml(py, e.val, n + 1)))]
  }

  function EntryLines(py: Python, entries: seq<Entry>, n: nat): (ls: seq<Line>)
    ensures entries != [] ==> ls != [] && ls[0].indent == 2 * n
    decreases entries, 0
  {
    if entries == [] then [] else EntryLine(py, entries[0], n) + EntryLines(py, entries[1..], n)
  }

  /** What follows a block at indentation `2 * n` is shallower. */
  predicate Ends(ls: seq<Line>, n: nat) {
    ls == [] || ls[0].indent < 2 * n
  }

  lemma LinesStart(py: Python, v: Value, n: nat)
    requires IsBlock(v)
    ensures Lines(py, v, n) != [] && Lines(py, v, n)[0].indent == 2 * n
    ensures v.List? ==> IsEntry(Lines(py, v, n)[0].body)
    ensures v.Dict? ==> ScalarText(py, v.entries[0].key) + ":" <= Lines(py, v, n)[0].body
  {
    match v {
      case Sc(_) =>
      case List(items) =>
        var line := ItemLine(py, items[0], n);
        assert Lines(py, v, n) == line + ItemLines(py, items[1..], n);
        assert Lines(py, v, n)[0] == line[0];
      case Dict(entries) =>
        var line := EntryLine(py, entries[0], n);
        assert Lines(py, v, n) == line + EntryLines(py, entries[1..], n);
        assert Lines(py, v, n)[0] == line[0];
    }
  }

  lemma MoreEnds(py: Python, items: seq<Value>, n: nat, rest: seq<Line>)
    requires Ends(rest, n)
    ensures Ends(ItemLines(py, items, n) + rest, n + 1)
  {
    if items == [] { assert ItemLines(py, items, n) + rest == rest; }
  }

  lemma MoreEntriesEnd(py: Python, entries: seq<Entry>, n: nat, rest: seq<Line>)
    requires Ends(rest, n)
    ensures Ends(EntryLines(py, entries, n) + rest, n + 1)
  {
    if entries == [] { assert EntryLines(py, entries, n) + rest == rest; }
  }

  // ----- inline nodes -----

  lemma NotBrackets(py: Python, x: Scalar)
    requires Inverts(py)
    ensures ScalarText(py, x) != "[]" && ScalarText(py, x) != "{}"
  {
    if !x.Str? {
      BareScalar(py, x);
    } else if FormOf(py, x.s) == PlainForm {
      PlainFormText(py, x.s);
      assert NeedsQuotes('[') && NeedsQuotes('{');
    } else {
      QuotedText(py, x.s);
    }
  }

  ghost predicate Reads(py: Python, r: Option<(Node, seq<Line>)>, v: Value) {
    r.Some? && ToPython(py, r.value.0) == v
  }

  lemma InlineReads(py: Python, v: Value, n: nat, rest: seq<Line>)
    requires Inverts(py) && !IsBlock(v)
    ensures Reads(py, ReadHere(Yaml(py, v, n), rest), v) <==> InDomain(py, v)
  {
    if v.Sc? {
      NotBrackets(py, v.x);
      TokenRoundTrip(py, v.x);
    }
  }

  // ----- dictionaries -----

  lemma {:induction false} InsertSize(py: Python, d: seq<Entry>, e: Entry)
    ensures |Insert(py, d, e)| <= |d| + 1
    ensures |Insert(py, d, e)| == |d| + 1 <==> (forall i :: 0 <= i < |d| ==> !py.sameKey(d[i].key, e.key))
    ensures |Insert(py, d, e)| == |d| + 1 ==> Insert(py, d, e) == d + [e]
  {
    if d != [] {
      InsertSize(py, d[1..], e);
      assert (forall i :: 0 <= i < |d| ==> !py.sameKey(d[i].key, e.key))
        <==> !py.sameKey(d[0].key, e.key) && (forall i :: 0 <= i < |d[1..]| ==> !py.sameKey(d[1..][i].key, e.key)) by {
        if forall i :: 0 <= i < |d| ==> !py.sameKey(d[i].key, e.key) {
          forall i | 0 <= i < |d[1..]| ensures !py.sameKey(d[1..][i].key, e.key) {
            assert d[1..][i] == d[i + 1];
          }
        }
        if !py.sameKey(d[0].key, e.key) && forall i :: 0 <= i < |d[1..]| ==> !py.sameKey(d[1..][i].key, e.key) {
          forall i | 0 <= i < |d| ensures !py.sameKey(d[i].key, e.key) {
            if i > 0 { assert d[1..][i - 1] == d[i]; }
          }
        }
      }
    }
  }

  lemma DistinctSnoc(py: Python, front: seq<Entry>, last: Entry)
    ensures Distinct(py, front + [last])
      <==> Distinct(py, front) && forall i :: 0 <= i < |front| ==> !py.sameKey(front[i].key, last.key)
  {
    var all := front + [last];
    assert forall i :: 0 <= i < |front| ==> all[i] == front[i];
    if Distinct(py, all) {
      forall i | 0 <= i < |front| ensures !py.sameKey(front[i].key, last.key) {
        assert all[i] == front[i] && all[|front|] == last;
      }
    }
  }

  /** Building a dictionary keeps every item exactly when no key is repeated. */
  lemma {:induction false} DictSize(py: Python, entries: seq<Entry>)
    ensures |DictOf(py, entries)| <= |entries|
    ensures |DictOf(py, entries)| == |entries| <==> Distinct(py, entries)
    ensures Distinct(py, entries) ==> DictOf(py, entries) == entries
  {
    hide Insert, Distinct;
    if entries == [] {
      NoneDistinct(py);
    } else {
      var k := |entries| - 1;
      var front, last := entries[..k], entries[k];
      assert entries == front + [last];
      DictSize(py, front);
      InsertSize(py, DictOf(py, front), last);
      DistinctSnoc(py, front, last);
    }
  }

  lemma NoneDistinct(py: Python)
    ensures Distinct(py, [])
  {
  }

  // ----- counting mapping entries -----

  /** Lines at indentation `m` before the first shallower one. */
  function CountAt(ls: seq<Line>, m: nat): nat {
    if ls == [] || ls[0].indent < m then 0
    else (if ls[0].indent == m then 1 else 0) + CountAt(ls[1..], m)
  }

  lemma {:induction false} SeqCount(ls: seq<Line>, m: nat, k: nat)
    requires m < k && ReadSeq(ls, k).Some?
    ensures CountAt(ls, m) == CountAt(ReadSeq(ls, k).value.1, m)
    decreases |ls|, 0
  {
    if ls != [] && ls[0].indent >= k {
      if |ls[0].body| == 1 {
        if ls[1..] != [] && ls[1..][0].indent > k { BlockCount(ls[1..], m); }
        SeqCount(ReadBelowEntry(ls[1..], k).value.1, m, k);
      } else {
        SeqCount(ls[1..], m, k);
      }
    }
  }

  lemma {:induction false} MapCountBelow(ls: seq<Line>, m: nat, k: nat)
    requires m < k && ReadMap(ls, k).Some?
    ensures CountAt(ls, m) == CountAt(ReadMap(ls, k).value.1, m)
    decreases |ls|, 0
  {
    if ls != [] && ls[0].indent >= k {
      if ReadKey(ls[0].body).value.1 == "" {
        if ls[1..] != [] && ls[1..][0].indent > k { BlockCount(ls[1..], m); }
        MapCountBelow(ReadBelow(ls[1..], k).value.1, m, k);
      } else {
        MapCountBelow(ls[1..], m, k);
      }
    }
  }

  /** Reading a block consumes no line at a shallower indentation. */
  lemma {:induction false} BlockCount(ls: seq<Line>, m: nat)
    requires ls != [] && m < ls[0].indent && ReadBlock(ls).Some?
    ensures CountAt(ls, m) == CountAt(ReadBlock(ls).value.1, m)
    decreases |ls|, 1
  {
    if IsEntry(ls[0].body) {
      SeqCount(ls, m, ls[0].indent);
    } else if ReadKey(ls[0].body).Some? {
      MapCountBelow(ls, m, ls[0].indent);
    }
  }

  /** A mapping has as many pairs as there are lines at its indentation. */
  lemma {:induction false} MapCount(ls: seq<Line>, m: nat)
    requires ReadMap(ls, m).Some?
    ensures |ReadMap(ls, m).value.0| == CountAt(ls, m)
    decreases |ls|
  {
    if ls != [] && ls[0].indent >= m {
      if ReadKey(ls[0].body).value.1 == "" {
        if ls[1..] != [] && ls[1..][0].indent > m { BlockCount(ls[1..], m); }
        MapCount(ReadBelow(ls[1..], m).value.1, m);
      } else {
        MapCount(ls[1..], m);
      }
    }
  }

  lemma {:induction false} CountSkip(a: seq<Line>, b: seq<Line>, m: nat)
    requires forall l :: l in a ==> l.indent > m
    ensures CountAt(a + b, m) == CountAt(b, m)
  {
    if a == [] {
      assert a + b == b;
    } else {
      assert a[0] in a && forall l :: l in a[1..] ==> l in a;
      CountSkip(a[1..], b, m);
      assert (a + b)[1..] == a[1..] + b;
    }
  }

  lemma {:induction false} Deep(py: Python, v: Value, n: nat)
    ensures forall l :: l in Lines(py, v, n) ==> l.indent >= 2 * n
    decreases v, 1
  {
    match v {
      case Sc(_) =>
      case List(items) => DeepItems(py, items, n);
      case Dict(entries) => DeepEntries(py, entries, n);
    }
  }

  lemma {:induction false} DeepItems(py: Python, items: seq<Value>, n: nat)
    ensures forall l :: l in ItemLines(py, items, n) ==> l.indent >= 2 * n
    decreases items, 0
  {
    if items != [] {
      Deep(py, items[0], n + 1);
      DeepItems(py, items[1..], n);
    }
  }

  lemma {:induction false} DeepEntry(py: Python, e: Entry, n: nat)
    ensures forall l :: l in EntryLine(py, e, n) ==> l.indent >= 2 * n
    decreases e, 2
  {
    Deep(py, e.val, n + 1);
  }

  lemma {:induction false} DeepEntries(py: Python, entries: seq<Entry>, n: nat)
    ensures forall l :: l in EntryLines(py, entries, n) ==> l.indent >= 2 * n
    decreases entries, 0
  {
    if entries != [] {
      DeepEntry(py, entries[0], n);
      DeepEntries(py, entries[1..], n);
    }
  }

  lemma {:induction false} EntriesCount(py: Python, entries: seq<Entry>, n: nat, rest: seq<Line>)
    requires Ends(rest, n)
    ensures CountAt(EntryLines(py, entries, n) + rest, 2 * n) == |entries|
    decreases entries
  {
    hide EntryLine;
    if entries == [] {
      assert EntryLines(py, entries, n) + rest == rest;
    } else {
      var more := EntryLines(py, entries[1..], n) + rest;
      var line := EntryLine(py, entries[0], n);
      EntryLineShape(py, entries[0], n);
      EntriesCount(py, entries[1..], n, rest);
      var ls := EntryLines(py, entries, n) + rest;
      assert ls == line + more && ls[1..] == line[1..] + more;
      CountSkip(line[1..], more, 2 * n);
    }
  }

  lemma EntryLineShape(py: Python, e: Entry, n: nat)
    ensures var line := EntryLine(py, e, n);
      line != [] && line[0].indent == 2 * n && forall l :: l in line[1..] ==> l.indent > 2 * n
  {
    if IsBlock(e.val) {
      Deep(py, e.val, n + 1);
      assert EntryLine(py, e, n)[1..] == Lines(py, e.val, n + 1);
    }
  }

  // ----- reading the printed lines -----

  ghost predicate ReadsItems(py: Python, r: Option<(seq<Node>, seq<Line>)>, items: seq<Value>) {
    r.Some? && AllToPython(py, r.value.0) == items
  }

  ghost predicate ReadsEntries(py: Python, r: Option<(seq<Pair>, seq<Line>)>, entries: seq<Entry>) {
    r.Some? && PairsToPython(py, r.value.0) == entries
  }

  /** The printed lines of a block value read back as that value exactly when it is in the domain,
      and then what follows is left untouched. */
  lemma {:induction false} BlockReads(py: Python, v: Value, n: nat, rest: seq<Line>)
    requires Inverts(py) && IsBlock(v) && Ends(rest, n)
    ensures var r := ReadBlock(Lines(py, v, n) + rest);
      (Reads(py, r, v) <==> InDomain(py, v)) && (InDomain(py, v) ==> r.value.1 == rest)
    decreases v, 1
  {
    var ls := Lines(py, v, n) + rest;
    LinesStart(py, v, n);
    assert ls[0] == Lines(py, v, n)[0];
    match v {
      case List(items) => ItemsRead(py, items, n, rest);
      case Dict(entries) =>
        EntriesRead(py, entries, n, rest);
        MappingReads(py, entries, n, rest);
    }
  }

  lemma MappingReads(py: Python, entries: seq<Entry>, n: nat, rest: seq<Line>)
    requires Inverts(py) && entries != [] && Ends(rest, n)
    requires var r := ReadMap(EntryLines(py, entries, n) + rest, 2 * n);
      (ReadsEntries(py, r, entries) <==> EntriesOk(py, entries)) && (EntriesOk(py, entries) ==> r.value.1 == rest)
    ensures var r := ReadBlock(EntryLines(py, entries, n) + rest);
      && (Reads(py, r, Dict(entries)) <==> InDomain(py, Dict(entries)))
      && (InDomain(py, Dict(entries)) ==> r.value.1 == rest)
  {
    var ls := EntryLines(py, entries, n) + rest;
    var v := Dict(entries);
    LinesStart(py, v, n);
    var body := ls[0].body;
    TextShape(py, entries[0].key);
    var t := ScalarText(py, entries[0].key);
    assert body[..|t| + 1] == t + ":";
    assert !IsEntry(body);
    if ReadKey(body).None? {
      NoKeyNoDict(py, entries, n, rest);
    } else {
      var r := ReadMap(ls, 2 * n);
      if r.Some? {
        MapCount(ls, 2 * n);
        EntriesCount(py, entries, n, rest);
        var got := PairsToPython(py, r.value.0);
        PairsSize(py, r.value.0);
        DictSize(py, got);
      }
    }
  }

  lemma {:induction false} PairsSize(py: Python, pairs: seq<Pair>)
    ensures |PairsToPython(py, pairs)| == |pairs|
  {
    if pairs != [] { PairsSize(py, pairs[1..]); }
  }

  /** A first line without a key reads as a scalar or an empty collection, and the first key is bad. */
  lemma NoKeyNoDict(py: Python, entries: seq<Entry>, n: nat, rest: seq<Line>)
    requires Inverts(py) && entries != []
    requires ReadKey((EntryLines(py, entries, n) + rest)[0].body).None?
    ensures !EntriesOk(py, entries)
    ensures var x := ReadInline((EntryLines(py, entries, n) + rest)[0].body);
      x.Some? ==> ToPython(py, x.value) != Dict(entries)
  {
    var line := EntryLine(py, entries[0], n);
    assert (EntryLines(py, entries, n) + rest)[0] == line[0];
    if IsBlock(entries[0].val) {
      KeyRoundTrip(py, entries[0].key, "");
    } else {
      KeyRoundTrip(py, entries[0].key, " " + Yaml(py, entries[0].val, n + 1));
    }
  }

  lemma {:induction false} ItemsRead(py: Python, items: seq<Value>, n: nat, rest: seq<Line>)
    requires Inverts(py) && Ends(rest, n)
    ensures var r := ReadSeq(ItemLines(py, items, n) + rest, 2 * n);
      (ReadsItems(py, r, items) <==> ItemsOk(py, items)) && (ItemsOk(py, items) ==> r.value.1 == rest)
    decreases items, 0
  {
    hide ItemLine, ReadSeq, InDomain, AllToPython, Reads, Entered, IsEntry;
    if items == [] {
      assert ItemLines(py, items, n) + rest == rest;
      NothingToRead(py, rest, n);
    } else {
      var v := items[0];
      var more := ItemLines(py, items[1..], n) + rest;
      var ls := ItemLine(py, v, n) + more;
      assert ItemLines(py, items, n) + rest == ls;
      MoreEnds(py, items[1..], n, rest);
      ItemsRead(py, items[1..], n, rest);
      ItemEntered(py, v, n, more);
      FirstItem(py, ls, n, items, more);
    }
  }

  /** One printed item reads as its value exactly when that is in the domain. */
  lemma {:induction false} ItemEntered(py: Python, v: Value, n: nat, more: seq<Line>)
    requires Inverts(py) && Ends(more, n + 1)
    ensures var ls := ItemLine(py, v, n) + more;
      && ls != [] && ls[0].indent == 2 * n && IsEntry(ls[0].body)
      && (Reads(py, Entered(ls, 2 * n), v) <==> InDomain(py, v))
      && (InDomain(py, v) ==> Entered(ls, 2 * n).value.1 == more)
    decreases v, 2
  {
    hide ReadInline, ScalarText, Resolve, ReadBlock, InDomain, ToPython;
    var ls := ItemLine(py, v, n) + more;
    if IsBlock(v) {
      assert ls[1..] == Lines(py, v, n + 1) + more;
      LinesStart(py, v, n + 1);
      BlockReads(py, v, n + 1, more);
      assert ReadBelowEntry(ls[1..], 2 * n) == ReadBlock(ls[1..]);
    } else {
      var t := Yaml(py, v, n + 1);
      InlineNotEmpty(py, v, n + 1);
      assert ls[0].body == "- " + t && ls[0].body[2..] == t && ls[1..] == more;
      InlineReads(py, v, n + 1, more);
    }
  }

  lemma NothingToRead(py: Python, rest: seq<Line>, n: nat)
    requires Ends(rest, n)
    ensures ReadSeq(rest, 2 * n) == Some(([], rest)) && AllToPython(py, []) == []
  {
  }

  lemma InlineNotEmpty(py: Python, v: Value, n: nat)
    requires Inverts(py) && !IsBlock(v)
    ensures Yaml(py, v, n) != ""
  {
    if v.Sc? { TextShape(py, v.x); }
  }

  /** What the first entry of a sequence reads as. */
  function Entered(ls: seq<Line>, m: nat): Option<(Node, seq<Line>)>
    requires ls != [] && IsEntry(ls[0].body)
  {
    if |ls[0].body| == 1 then ReadBelowEntry(ls[1..], m) else ReadHere(ls[0].body[2..], ls[1..])
  }

  lemma SeqFirst(ls: seq<Line>, m: nat)
    requires ls != [] && ls[0].indent == m && IsEntry(ls[0].body)
    ensures var first := Entered(ls, m);
      ReadSeq(ls, m) ==
        if first.None? then None
        else
          var more := ReadSeq(first.value.1, m);
          if more.None? then None else Some(([first.value.0] + more.value.0, more.value.1))
  {
    hide ReadBlock, ReadInline;
  }

  lemma FirstToPython(py: Python, n: Node, more: seq<Node>)
    ensures AllToPython(py, [n] + more) == [ToPython(py, n)] + AllToPython(py, more)
  {
    hide ToPython;
    assert ([n] + more)[1..] == more;
  }

  /** The first entry of a sequence decides, then the others. */
  lemma FirstItem(py: Python, ls: seq<Line>, n: nat, items: seq<Value>, more: seq<Line>)
    requires items != [] && ls != [] && ls[0].indent == 2 * n && IsEntry(ls[0].body)
    requires Reads(py, Entered(ls, 2 * n), items[0]) <==> InDomain(py, items[0])
    requires InDomain(py, items[0]) ==> Entered(ls, 2 * n).value.1 == more
    requires ReadsItems(py, ReadSeq(more, 2 * n), items[1..]) <==> ItemsOk(py, items[1..])
    ensures var r := ReadSeq(ls, 2 * n);
      && (ReadsItems(py, r, items) <==> ItemsOk(py, items))
      && (ItemsOk(py, items) ==> r.value.1 == ReadSeq(more, 2 * n).value.1)
  {
    hide ReadSeq, AllToPython, ToPython, InDomain, Entered, IsEntry;
    var first := Entered(ls, 2 * n);
    SeqFirst(ls, 2 * n);
    if ReadSeq(ls, 2 * n).Some? {
      FirstToPython(py, first.value.0, ReadSeq(first.value.1, 2 * n).value.0);
      assert items == [items[0]] + items[1..];
    }
  }

  lemma {:induction false} EntriesRead(py: Python, entries: seq<Entry>, n: nat, rest: seq<Line>)
    requires Inverts(py) && Ends(rest, n)
    ensures var r := ReadMap(EntryLines(py, entries, n) + rest, 2 * n);
      (ReadsEntries(py, r, entries) <==> EntriesOk(py, entries)) && (EntriesOk(py, entries) ==> r.value.1 == rest)
    decreases entries, 0
  {
    hide ReadInline, ScalarText, Resolve, ReadKey;
    if entries == [] {
      assert EntryLines(py, entries, n) + rest == rest;
    } else {
      var more := EntryLines(py, entries[1..], n) + rest;
      assert EntryLines(py, entries, n) + rest == EntryLine(py, entries[0], n) + more;
      MoreEntriesEnd(py, entries[1..], n, rest);
      EntriesRead(py, entries[1..], n, rest);
      EntryReads(py, entries[0], n, more);
      FirstEntry(py, EntryLine(py, entries[0], n) + more, n, entries, more);
    }
  }

  /** The node after the colon of the first line. */
  function AfterKey(ls: seq<Line>, m: nat, after: string): Option<(Node, seq<Line>)>
    requires ls != []
  {
    if after == "" then ReadBelow(ls[1..], m) else ReadHere(after[1..], ls[1..])
  }

  /** One printed entry: its key and its value are read as they were, or the reader fails or differs. */
  lemma {:induction false} EntryReads(py: Python, e: Entry, n: nat, more: seq<Line>)
    requires Inverts(py) && Ends(more, n + 1)
    ensures var ls := EntryLine(py, e, n) + more;
      && ls != [] && ls[0].indent == 2 * n && !IsEntry(ls[0].body)
      && var k := ReadKey(ls[0].body);
      && ((k.Some? && Resolve(py, k.value.0) == e.key) <==> KeyOk(py, e.key))
      && (KeyOk(py, e.key) ==>
            var first := AfterKey(ls, 2 * n, k.value.1);
            (Reads(py, first, e.val) <==> InDomain(py, e.val)) && (InDomain(py, e.val) ==> first.value.1 == more))
    decreases e, 2
  {
    hide ReadKey, ReadInline, ScalarText, Resolve, InDomain;
    var ls := EntryLine(py, e, n) + more;
    var t := ScalarText(py, e.key);
    TextShape(py, e.key);
    if IsBlock(e.val) {
      assert ls[1..] == Lines(py, e.val, n + 1) + more;
      assert ls[0].body == t + ":" + "";
      KeyRoundTrip(py, e.key, "");
      LinesStart(py, e.val, n + 1);
      BlockReads(py, e.val, n + 1, more);
      assert ReadBelow(ls[1..], 2 * n) == ReadBlock(ls[1..]);
    } else {
      var after := " " + Yaml(py, e.val, n + 1);
      assert ls[0].body == t + ":" + after && ls[1..] == more;
      KeyRoundTrip(py, e.key, after);
      assert after[1..] == Yaml(py, e.val, n + 1);
      InlineReads(py, e.val, n + 1, more);
    }
  }

  lemma FirstEntry(py: Python, ls: seq<Line>, n: nat, entries: seq<Entry>, more: seq<Line>)
    requires entries != [] && ls != [] && ls[0].indent == 2 * n && !IsEntry(ls[0].body)
    requires var k := ReadKey(ls[0].body);
      && ((k.Some? && Resolve(py, k.value.0) == entries[0].key) <==> KeyOk(py, entries[0].key))
      && (KeyOk(py, entries[0].key) ==>
            var first := AfterKey(ls, 2 * n, k.value.1);
            && (Reads(py, first, entries[0].val) <==> InDomain(py, entries[0].val))
            && (InDomain(py, entries[0].val) ==> first.value.1 == more))
    requires ReadsEntries(py, ReadMap(more, 2 * n), entries[1..]) <==> EntriesOk(py, entries[1..])
    ensures var r := ReadMap(ls, 2 * n);
      && (ReadsEntries(py, r, entries) <==> EntriesOk(py, entries))
      && (EntriesOk(py, entries) ==> r.value.1 == ReadMap(more, 2 * n).value.1)
  {
    hide ReadKey, Resolve, KeyOk;
    var r := ReadMap(ls, 2 * n);
    var k := ReadKey(ls[0].body);
    if r.Some? {
      var first := AfterKey(ls, 2 * n, k.value.1);
      assert r.value.0[1..] == ReadMap(first.value.1, 2 * n).value.0;
      assert PairsToPython(py, r.value.0)
          == [Entry(Resolve(py, k.value.0), ToPython(py, first.value.0))]
             + PairsToPython(py, ReadMap(first.value.1, 2 * n).value.0);
      assert entries == [entries[0]] + entries[1..];
    }
  }
}
