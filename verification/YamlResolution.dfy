/** Scalars by their spelling: what each plain scalar resolves to, how each string is quoted, and what
    is printed for each scalar, in the characters of the tables in the source. */
module YamlResolution {
  import opened Prelude
  import opened YamlScalar
  import opened YamlScalarReads
  import opened YamlPrinter
  import opened YamlReader
  import opened YamlText
  import opened YamlFidelity

  const NULLS := {"null", "Null", "NULL", "~", ""}
  const TRUES := {"true", "True", "TRUE"}
  const FALSES := {"false", "False", "FALSE"}
  const POS_INFS := {".inf", ".Inf", ".INF", "+.inf", "+.Inf", "+.INF"}
  const NEG_INFS := {"-.inf", "-.Inf", "-.INF"}
  const NANS := {".nan", ".NaN", ".NAN"}
  const INT_STARTS := "+-0123456789"
  const FLOAT_STARTS := "+-.0123456789"
  const SPECIAL := ":#{}[]|>&*!?,\\\"'\n\r\t"
  const BREAKS := "\n\r\t"

  // ----- resolution -----

  lemma StartSets(c: char)
    ensures IntStart(c) <==> c in INT_STARTS
    ensures IntStart(c) || c == '.' <==> c in FLOAT_STARTS
  {
  }

  predicate ReadsAsInt(py: Python, s: string) {
    s != "" && s[0] in INT_STARTS && py.intOf(s).Some?
  }

  predicate ReadsAsFloat(py: Python, s: string) {
    s != "" && s[0] in FLOAT_STARTS && py.floatOf(s).Some?
  }

  /** What a plain scalar means. Null and the booleans are given by their spellings alone; of the others
      integers come first, then the named floats, then `float`, and the rest are strings. */
  lemma ResolutionTable(py: Python, s: string)
    ensures CoerceScalar(py, s) == Null <==> s in NULLS
    ensures CoerceScalar(py, s) == Bool(true) <==> s in TRUES
    ensures CoerceScalar(py, s) == Bool(false) <==> s in FALSES
    ensures s !in NULLS + TRUES + FALSES ==> Resolved(py, s, CoerceScalar(py, s))
  {
    hide IsNull, IsTrue, IsFalse, IsPosInf, IsNegInf, IsNaN, INT_STARTS, FLOAT_STARTS;
    Words(s);
    Infinities(s);
    if s != "" { StartSets(s[0]); }
  }

  /** The meaning of a scalar that is neither null nor a boolean. */
  ghost predicate Resolved(py: Python, s: string, x: Scalar) {
    && (ReadsAsInt(py, s) ==> x == Int(py.intOf(s).value))
    && (!ReadsAsInt(py, s) ==>
      && (s in POS_INFS ==> x == Flt(PosInf))
      && (s in NEG_INFS ==> x == Flt(NegInf))
      && (s in NANS ==> x == Flt(NaN))
      && (s !in POS_INFS + NEG_INFS + NANS ==>
            x == if ReadsAsFloat(py, s) then Flt(py.floatOf(s).value) else Str(s)))
  }

  lemma Words(s: string)
    ensures IsNull(s) <==> s in NULLS
    ensures IsTrue(s) <==> s in TRUES
    ensures IsFalse(s) <==> s in FALSES
  {
  }

  lemma Infinities(s: string)
    ensures IsPosInf(s) <==> s in POS_INFS
    ensures IsNegInf(s) <==> s in NEG_INFS
    ensures IsNaN(s) <==> s in NANS
    ensures s in NEG_INFS ==> s !in POS_INFS
    ensures s in NANS ==> s !in POS_INFS && s !in NEG_INFS
  {
  }

  /** The characters the reader accepts, by their numbers. */
  lemma ReaderCharacters(c: char)
    ensures var n := c as int;
      IsNbChar(c) <==>
        || n == 9 || 0x20 <= n <= 0x7E || n == 0x85 || 0xA0 <= n <= 0xD7FF
        || (0xE000 <= n <= 0xFFFD && n != 0xFEFF) || 0x1_0000 <= n
    ensures IsNbJson(c) <==> c as int == 9 || 0x20 <= c as int
    ensures IsWhite(c) <==> c in " \t"
  {
  }

  const ESCAPED := "0abt\tnvfre \"/\\N_LP"
  const MEANT := "\0\U{0007}\U{0008}\t\t\n\U{000B}\U{000C}\r\U{001B} \"/\\\U{0085}\U{00A0}\U{2028}\U{2029}"

  /** The escapes of section 5.7, one by one, and no others. */
  lemma UnescapeTable(c: char, i: nat)
    requires i < |ESCAPED|
    ensures |MEANT| == |ESCAPED| && Unescape(ESCAPED[i]) == Some(MEANT[i])
    ensures Unescape(c).Some? <==> c in ESCAPED
  {
  }

  lemma TwoIn(a: char, b: char, t: string)
    ensures Contains([a, b], t) <==> exists i :: 0 <= i < |t| - 1 && t[i] == a && t[i + 1] == b
  {
    if Contains([a, b], t) {
      var i :| 0 <= i <= |t| && [a, b] <= t[i..];
      assert t[i] == t[i..][0] == a && t[i + 1] == t[i..][1] == b;
    }
    if i :| 0 <= i < |t| - 1 && t[i] == a && t[i + 1] == b {
      assert t[i..][0] == a && t[i..][1] == b;
    }
  }

  predicate PlainEnds(t: string)
    requires t != ""
  {
    && t[0] !in " \t" && t[|t| - 1] !in " \t:"
    && (t[0] in "-?:,[]{}#&*!|>'\"%@`" ==> t[0] in "-?:" && |t| > 1 && t[1] !in " \t")
  }

  /** A plain scalar: accepted characters, no white space around it, no indicator at its start unless
      text follows, no colon before white space or at the end, and no `#` behind white space. */
  lemma PlainIff(t: string)
    requires t != ""
    ensures IsPlain(t) <==>
      && (forall c :: c in t ==> IsNbChar(c)) && PlainEnds(t)
      && !Contains(": ", t) && !Contains(":\t", t) && !Contains(" #", t) && !Contains("\t#", t)
  {
    hide Contains, IsNbChar;
    ColonPart(t);
    HashPart(t);
  }

  lemma ColonPart(t: string)
    requires t != ""
    ensures (forall i :: 0 <= i < |t| && t[i] == ':' ==> i + 1 < |t| && !IsWhite(t[i + 1]))
      <==> t[|t| - 1] != ':' && !Contains(": ", t) && !Contains(":\t", t)
  {
    hide Contains;
    TwoIn(':', ' ', t);
    TwoIn(':', '\t', t);
    assert [':', ' '] == ": " && [':', '\t'] == ":\t";
  }

  lemma HashPart(t: string)
    ensures (forall i :: 0 < i < |t| && t[i] == '#' ==> !IsWhite(t[i - 1]))
      <==> !Contains(" #", t) && !Contains("\t#", t)
  {
    hide Contains;
    TwoIn(' ', '#', t);
    TwoIn('\t', '#', t);
    assert [' ', '#'] == " #" && ['\t', '#'] == "\t#";
    if i :| 0 < i < |t| && t[i] == '#' && IsWhite(t[i - 1]) {
      assert t[i - 1 + 1] == '#';
    }
  }

  lemma MarkerIff(s: string)
    ensures IsMarker(s) <==>
      s in {"---", "..."} || "--- " <= s || "---\t" <= s || "... " <= s || "...\t" <= s
  {
    MarkerOf("---", s);
    MarkerOf("...", s);
  }

  lemma MarkerOf(m: string, s: string)
    requires |m| == 3
    ensures m <= s && (|s| > 3 ==> IsWhite(s[3])) <==> s == m || m + " " <= s || m + "\t" <= s
  {
    if m <= s && |s| > 3 {
      assert s[..4] == m + [s[3]];
    }
  }

  /** A document of one plain line loads as what the line means. */
  lemma PlainLineLoads(py: Python, t: string)
    requires IsPlain(t) && ':' !in t && '\n' !in t && !IsMarker(t)
    ensures Load(py, t) == Some(Sc(CoerceScalar(py, t)))
  {
    hide IsPlain, IsMarker, CoerceScalar;
    PlainStart(t);
    SplitLine(t);
    assert Spaces(0) + t == t;
    CutLine(0, t);
    PlainKey(t, "");
    assert [Line(0, t)][1..] == [];
    assert t in [t];
  }

  lemma PlainStart(t: string)
    requires IsPlain(t)
    ensures t != "" && t[0] != ' ' && !StartsQuoted(t) && !IsEntry(t) && t != "[]" && t != "{}"
  {
  }

  /** The spellings of null, the booleans and the named floats, loaded from a line of their own. */
  lemma SpellingsLoad(py: Python, t: string)
    requires t != "" && Spelling(t)
    ensures t in NULLS ==> Load(py, t) == Some(Sc(Null))
    ensures t in TRUES ==> Load(py, t) == Some(Sc(Bool(true)))
    ensures t in FALSES ==> Load(py, t) == Some(Sc(Bool(false)))
    ensures py.intOf(t) == None ==>
      && (t in POS_INFS ==> Load(py, t) == Some(Sc(Flt(PosInf))))
      && (t in NEG_INFS ==> Load(py, t) == Some(Sc(Flt(NegInf))))
      && (t in NANS ==> Load(py, t) == Some(Sc(Flt(NaN))))
  {
    hide Load, CoerceScalar, IsPlain, IsMarker, INT_STARTS;
    SpellingIsPlain(t);
    PlainLineLoads(py, t);
    ResolutionTable(py, t);
    Infinities(t);
    Disjoint(t);
  }

  predicate Spelling(t: string) {
    t in NULLS || t in TRUES || t in FALSES || t in POS_INFS || t in NEG_INFS || t in NANS
  }

  lemma Disjoint(t: string)
    ensures t in POS_INFS || t in NEG_INFS || t in NANS ==> t !in NULLS + TRUES + FALSES
  {
  }

  lemma SpellingIsPlain(t: string)
    requires t != "" && Spelling(t)
    ensures IsPlain(t) && ':' !in t && '\n' !in t && !IsMarker(t)
  {
    hide IsPlain, IsIndicator;
    SpellingShape(t);
    assert t[0] in t && t[|t| - 1] in t && |t| > 1 ==> t[1] in t;
    if t[0] != '-' { LetterNoIndicator(t[0]); }
    PlainText(t);
  }

  predicate SpellingChar(c: char) {
    'a' <= c <= 'z' || 'A' <= c <= 'Z' || c == '~' || c == '.' || c == '+' || c == '-'
  }

  lemma LetterNoIndicator(c: char)
    requires SpellingChar(c) && c != '-'
    ensures !IsIndicator(c)
  {
  }

  lemma SpellingShape(t: string)
    requires t != "" && Spelling(t)
    ensures forall c :: c in t ==> SpellingChar(c)
    ensures t[0] == '-' ==> |t| > 1 && t[1] == '.'
    ensures !("---" <= t) && !("..." <= t)
  {
    if |t| > 1 && t[0] == '.' { assert t[1] != '.'; }
  }

  /** The same behind a key: the value of a one-line mapping. */
  lemma PlainEntryLoads(py: Python, key: string, t: string)
    requires IsPlain(key) && ':' !in key && '\n' !in key && |key| <= MAX_KEY
    requires IsPlain(t) && '\n' !in t && !(IsMarker(key) && |key| > 3)
    ensures Load(py, key + ": " + t) == Some(Dict([Entry(CoerceScalar(py, key), Sc(CoerceScalar(py, t)))]))
  {
    hide IsPlain, CoerceScalar, ReadKey, ReadInline, ReadBlock, ToPython, IsMarker, SplitLines, ToLines;
    var line := key + ":" + (" " + t);
    assert key + ": " + t == line;
    PlainStart(key);
    PlainStart(t);
    SplitLine(line);
    assert Spaces(0) + line == line;
    CutLine(0, line);
    PlainKey(key, " " + t);
    NotAMarker(key, " " + t);
    assert line in [line];
    var ls := [Line(0, line)];
    assert (" " + t)[1..] == t;
    PlainInline(t);
    EntryMap(Token(key, Plain), " " + t, Leaf(Token(t, Plain)), ls);
    OneEntry(py, key, t);
  }

  lemma NotAMarker(key: string, after: string)
    requires IsPlain(key) && ':' !in key
    ensures !IsMarker(key + ":" + after) || (IsMarker(key) && |key| > 3)
  {
    hide IsPlain;
    KeyLineMarker(key, after);
  }

  lemma PlainInline(t: string)
    requires IsPlain(t)
    ensures ReadInline(t) == Some(Leaf(Token(t, Plain)))
  {
    PlainStart(t);
  }

  lemma {:induction false} EntryMap(k: Token, after: string, x: Node, ls: seq<Line>)
    requires |ls| == 1 && ls[0].indent == 0 && !IsEntry(ls[0].body)
    requires ReadKey(ls[0].body) == Some((k, after)) && after != "" && ReadInline(after[1..]) == Some(x)
    ensures ReadBlock(ls) == Some((Map([Pair(k, x)]), []))
  {
    hide ReadKey, ReadInline, IsEntry;
    assert ls[1..] == [];
    var more := ReadMap(ls[1..], 0);
    assert more == Some(([], []));
    assert [Pair(k, x)] + [] == [Pair(k, x)];
  }

  lemma OneEntry(py: Python, key: string, t: string)
    ensures ToPython(py, Map([Pair(Token(key, Plain), Leaf(Token(t, Plain)))]))
      == Dict([Entry(CoerceScalar(py, key), Sc(CoerceScalar(py, t)))])
  {
    hide CoerceScalar;
    var p := Pair(Token(key, Plain), Leaf(Token(t, Plain)));
    var e := Entry(CoerceScalar(py, key), Sc(CoerceScalar(py, t)));
    assert ToPython(py, p.val) == Sc(CoerceScalar(py, t));
    assert PairToPython(py, p) == e;
    OnePair(py, p, e);
    DictOfOne(py, e);
  }

  lemma OnePair(py: Python, p: Pair, e: Entry)
    requires PairToPython(py, p) == e
    ensures ToPython(py, Map([p])) == Dict(DictOf(py, [e]))
  {
    hide PairToPython, DictOf;
    assert [p][1..] == [] && [e] + [] == [e];
    assert PairsToPython(py, []) == [];
    assert PairsToPython(py, [p]) == [e];
  }

  lemma DictOfOne(py: Python, e: Entry)
    ensures DictOf(py, [e]) == [e]
  {
    assert [e][..0] == [];
    assert DictOf(py, []) == [];
  }

  // ----- quoting -----

  predicate Reserved(py: Python, s: string) {
    Spelling(s) || py.intOf(s).Some? || py.floatOf(s).Some?
  }

  predicate Meets(s: string, set': string) {
    exists c :: c in s && c in set'
  }

  lemma FormTable(py: Python, s: string)
    ensures FormOf(py, s) ==
      if Reserved(py, s) then SingleForm
      else if Meets(s, BREAKS) then DoubleForm
      else if Meets(s, SPECIAL) || s[0] in "-? " || s[|s| - 1] == ' ' then SingleForm
      else PlainForm
  {
    hide IsNull, IsTrue, IsFalse, IsPosInf, IsNegInf, IsNaN, NeedsQuotes, IsBreakOrTab, Meets;
    Words(s);
    Infinities(s);
    SpecialSets(s);
    assert s != "" ==> (s[0] in "-? " <==> s[0] == '-' || s[0] == '?' || s[0] == ' ');
    if Spelling(s) { SpellingForm(py, s); } else { assert s != ""; }
  }

  lemma SpellingForm(py: Python, s: string)
    requires Spelling(s)
    ensures FormOf(py, s) == SingleForm
  {
    hide IsNull, IsTrue, IsFalse, IsPosInf, IsNegInf, IsNaN, NeedsQuotes, IsBreakOrTab;
    Words(s);
    Infinities(s);
  }

  /** How a string is printed, from the string alone: in double quotes if it is not reserved and holds a
      line break or tab, as it is if nothing speaks against it, and otherwise in single quotes. */
  lemma QuotingTable(py: Python, s: string)
    ensures var t := QuoteScalar(py, s);
      if Reserved(py, s) then t == "'" + s + "'"
      else if Meets(s, BREAKS) then t == "\"" + EscapeAtOnce(s) + "\""
      else if Meets(s, SPECIAL) || s[0] in "-? " || s[|s| - 1] == ' ' then t == "'" + s + "'"
      else t == s
  {
    hide FormOf, QuoteScalar, EscapeAtOnce, Meets, Reserved, SPECIAL, BREAKS;
    FormTable(py, s);
    QuotedBy(py, s);
    if !Reserved(py, s) { NotEmpty(py, s); }
  }

  lemma QuotedBy(py: Python, s: string)
    ensures FormOf(py, s) == SingleForm ==> QuoteScalar(py, s) == "'" + s + "'"
    ensures FormOf(py, s) == DoubleForm ==> QuoteScalar(py, s) == "\"" + EscapeAtOnce(s) + "\""
    ensures FormOf(py, s) == PlainForm ==> QuoteScalar(py, s) == s
  {
    hide FormOf, EscapeInTurn, EscapeAtOnce;
    EscapeIsOnePass(s);
  }

  lemma NotEmpty(py: Python, s: string)
    requires !Reserved(py, s)
    ensures s != ""
  {
  }

  lemma SpecialSets(s: string)
    ensures (exists c :: c in s && NeedsQuotes(c)) <==> Meets(s, SPECIAL)
    ensures (exists c :: c in s && IsBreakOrTab(c)) <==> Meets(s, BREAKS)
    ensures Meets(s, BREAKS) ==> Meets(s, SPECIAL)
  {
  }

  /** The escapes of the double-quoted form, character by character. */
  lemma EscapeTable(c: char)
    ensures EscapeInTurn([c]) ==
      if c == '\\' then "\\\\" else if c == '"' then "\\\"" else if c == '\n' then "\\n"
      else if c == '\r' then "\\r" else if c == '\t' then "\\t" else [c]
  {
    EscapeOne(c);
  }

  // ----- printing -----

  /** The texts of the scalars that are not strings. */
  lemma PrintTable(py: Python)
    ensures ScalarText(py, Null) == "null"
    ensures ScalarText(py, Bool(true)) == "true" && ScalarText(py, Bool(false)) == "false"
    ensures ScalarText(py, Flt(PosInf)) == ".inf" && ScalarText(py, Flt(NegInf)) == "-.inf"
    ensures ScalarText(py, Flt(NaN)) == ".nan"
    ensures forall x :: ScalarText(py, Flt(Finite(x))) == py.repr(x)
    ensures forall n: nat, d :: CanonicalDecimal(n, d) ==>
      ScalarText(py, Int(n)) == d && (n > 0 ==> ScalarText(py, Int(0 - n)) == "-" + d)
  {
    forall n: nat, d | CanonicalDecimal(n, d)
      ensures ScalarText(py, Int(n)) == d && (n > 0 ==> ScalarText(py, Int(0 - n)) == "-" + d)
    {
      CanonicalIsDigits(n, d);
    }
  }

  /** Decimal digits of value `n` without leading zeros. */
  predicate CanonicalDecimal(n: nat, d: string) {
    d != "" && (forall c :: c in d ==> IsDigit(c)) && Parse(d) == n && (|d| > 1 ==> d[0] != '0')
  }

  lemma {:induction false} CanonicalIsDigits(n: nat, d: string)
    requires CanonicalDecimal(n, d)
    ensures Digits(n) == d
    decreases |d|
  {
    var front, last := d[..|d| - 1], d[|d| - 1];
    var k := last as int - '0' as int;
    assert d == front + [last] && last in d;
    assert "0123456789"[k] == last;
    if front == "" {
      assert Parse("") == 0 && n == k;
    } else {
      assert forall c :: c in front ==> c in d;
      CanonicalPositive(front);
      CanonicalIsDigits(Parse(front), front);
      assert n == 10 * Parse(front) + k && n / 10 == Parse(front) && n % 10 == k;
    }
  }

  lemma {:induction false} CanonicalPositive(d: string)
    requires d != "" && (forall c :: c in d ==> IsDigit(c)) && d[0] != '0'
    ensures Parse(d) > 0
    decreases |d|
  {
    var front := d[..|d| - 1];
    assert d[|d| - 1] in d;
    if front != "" {
      assert forall c :: c in front ==> c in d;
      CanonicalPositive(front);
    }
  }

  lemma SpacesAre()
    ensures Spaces(0) == "" && Spaces(2) == "  " && Spaces(4) == "    "
  {
    assert Spaces(1) == " ";
    assert Spaces(3) == "   ";
  }

  lemma JoinTwo(a: string, b: string)
    ensures JoinLines([a, b]) == a + "\n" + b
  {
    assert [a, b][1..] == [b];
    assert JoinLines([b]) == b;
  }

  lemma TwoItems(py: Python, a: Value, b: Value, n: nat)
    ensures Yaml(py, List([a, b]), n) == ItemText(py, a, n) + "\n" + ItemText(py, b, n)
  {
    hide ItemText, JoinLines;
    assert [a, b][1..] == [b] && [b][1..] == [];
    assert ItemTexts(py, [], n) == [];
    assert ItemTexts(py, [b], n) == [ItemText(py, b, n)];
    assert ItemTexts(py, [a, b], n) == [ItemText(py, a, n), ItemText(py, b, n)];
    JoinTwo(ItemText(py, a, n), ItemText(py, b, n));
  }

  lemma TwoEntries(py: Python, a: Entry, b: Entry, n: nat)
    ensures Yaml(py, Dict([a, b]), n) == EntryText(py, a, n) + "\n" + EntryText(py, b, n)
  {
    hide EntryText, JoinLines;
    assert [a, b][1..] == [b] && [b][1..] == [];
    assert EntryTexts(py, [], n) == [];
    assert EntryTexts(py, [b], n) == [EntryText(py, b, n)];
    assert EntryTexts(py, [a, b], n) == [EntryText(py, a, n), EntryText(py, b, n)];
    JoinTwo(EntryText(py, a, n), EntryText(py, b, n));
  }

  const INNER := Dict([Entry(Str("b"), Sc(Bool(true))), Entry(Null, List([]))])
  const LIST := List([Sc(Null), INNER])
  const EXAMPLE := Dict([Entry(Str("a"), LIST), Entry(Str("b"), Dict([]))])

  /** A nested value and its text: two spaces a level, containers on the lines below, empty ones inline. */
  lemma LayoutExample(py: Python)
    requires FormOf(py, "a") == PlainForm && FormOf(py, "b") == PlainForm
    ensures Yaml(py, EXAMPLE, 0) == "a:\n  - null\n  -\n    b: true\n    null: []\nb: {}"
  {
    hide Yaml, EntryText, FormOf;
    ListText(py);
    TwoEntries(py, Entry(Str("a"), LIST), Entry(Str("b"), Dict([])), 0);
    OuterEntries(py);
    OuterPieces();
  }

  lemma OuterEntries(py: Python)
    requires FormOf(py, "a") == PlainForm && FormOf(py, "b") == PlainForm
    ensures EntryText(py, Entry(Str("a"), LIST), 0) == "a:\n" + Yaml(py, LIST, 1)
    ensures EntryText(py, Entry(Str("b"), Dict([])), 0) == "b: {}"
  {
    hide FormOf;
    SpacesAre();
    assert "" + "a" + ":\n" == "a:\n";
  }

  lemma OuterPieces()
    ensures "a:\n" + "  - null\n  -\n    b: true\n    null: []" + "\n" + "b: {}"
      == "a:\n  - null\n  -\n    b: true\n    null: []\nb: {}"
  {
  }

  lemma ListText(py: Python)
    requires FormOf(py, "b") == PlainForm
    ensures Yaml(py, LIST, 1) == "  - null\n  -\n    b: true\n    null: []"
  {
    hide Yaml, FormOf, ItemText;
    InnerText(py);
    TwoItems(py, Sc(Null), INNER, 1);
    ListItems(py);
    ListPieces();
  }

  lemma ListItems(py: Python)
    ensures ItemText(py, Sc(Null), 1) == "  - null" && ItemText(py, INNER, 1) == "  -\n" + Yaml(py, INNER, 2)
  {
    SpacesAre();
    assert "  " + "-\n" == "  -\n";
  }

  lemma ListPieces()
    ensures "  - null" + "\n" + ("  -\n" + "    b: true\n    null: []") == "  - null\n  -\n    b: true\n    null: []"
  {
    SecondItem();
    BothItems();
    assert "  - null" + "\n" == "  - null\n";
  }

  lemma SecondItem()
    ensures "  -\n" + "    b: true\n    null: []" == "  -\n    b: true\n    null: []"
  {
  }

  lemma BothItems()
    ensures "  - null\n" + "  -\n    b: true\n    null: []" == "  - null\n  -\n    b: true\n    null: []"
  {
  }

  lemma InnerText(py: Python)
    requires FormOf(py, "b") == PlainForm
    ensures Yaml(py, INNER, 2) == "    b: true\n    null: []"
  {
    hide Yaml, EntryText, FormOf;
    TwoEntries(py, Entry(Str("b"), Sc(Bool(true))), Entry(Null, List([])), 2);
    InnerEntries(py);
    assert "    b: true" + "\n" + "    null: []" == "    b: true\n    null: []";
  }

  lemma InnerEntries(py: Python)
    requires FormOf(py, "b") == PlainForm
    ensures EntryText(py, Entry(Str("b"), Sc(Bool(true))), 2) == "    b: true"
    ensures EntryText(py, Entry(Null, List([])), 2) == "    null: []"
  {
    hide FormOf;
    SpacesAre();
  }

  // ----- dictionaries -----

  /** Assigning to a key that is there replaces its value and keeps its place; another key goes last. */
  lemma {:induction false} InsertTable(py: Python, d: seq<Entry>, e: Entry, i: nat)
    requires i <= |d| && forall j :: 0 <= j < i ==> !py.sameKey(d[j].key, e.key)
    requires i < |d| ==> py.sameKey(d[i].key, e.key)
    ensures Insert(py, d, e) == if i < |d| then d[i := Entry(d[i].key, e.val)] else d + [e]
  {
    if i == 0 {
      InsertHere(py, d, e);
    } else {
      hide Insert;
      var rest := d[1..];
      assert forall j :: 0 <= j < |rest| ==> rest[j] == d[j + 1];
      InsertTable(py, rest, e, i - 1);
      InsertLater(py, d, e);
      if i < |d| {
        assert [d[0]] + rest[i - 1 := Entry(d[i].key, e.val)] == d[i := Entry(d[i].key, e.val)];
      } else {
        assert [d[0]] + (rest + [e]) == d + [e];
      }
    }
  }

  lemma InsertHere(py: Python, d: seq<Entry>, e: Entry)
    requires d != [] ==> py.sameKey(d[0].key, e.key)
    ensures Insert(py, d, e) == if d == [] then d + [e] else d[0 := Entry(d[0].key, e.val)]
  {
    if d != [] { assert [Entry(d[0].key, e.val)] + d[1..] == d[0 := Entry(d[0].key, e.val)]; }
  }

  lemma InsertLater(py: Python, d: seq<Entry>, e: Entry)
    requires d != [] && !py.sameKey(d[0].key, e.key)
    ensures Insert(py, d, e) == [d[0]] + Insert(py, d[1..], e)
  {
  }

  /** Items are assigned in order. */
  lemma DictInOrder(py: Python, entries: seq<Entry>, e: Entry)
    ensures DictOf(py, []) == [] && DictOf(py, entries + [e]) == Insert(py, DictOf(py, entries), e)
  {
    assert (entries + [e])[..|entries|] == entries;
  }
}
