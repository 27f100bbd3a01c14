/** Scalar fidelity: exactly which scalars a YAML reader takes back as they were. */
module YamlScalarReads {
  import opened Prelude
  import opened YamlScalar

  /** The strings whose printed form means that string. What is left out: a quote inside single
      quotes, which is not doubled; plain text opening with `%`, `@` or a backtick; and characters
      YAML does not accept in the style chosen. */
  predicate StrOk(py: Python, s: string) {
    match FormOf(py, s)
    case PlainForm => s != "" && (forall c :: c in s ==> IsNbChar(c)) && s[0] !in "%@`"
    case SingleForm => forall c :: c in s ==> IsNbJson(c) && c != '\''
    case DoubleForm => forall c :: c in s ==> IsNbJson(c) || IsBreakOrTab(c)
  }

  predicate ScalarOk(py: Python, x: Scalar) {
    x.Str? ==> StrOk(py, x.s)
  }

  /** A key must also be short enough. */
  predicate KeyOk(py: Python, x: Scalar) {
    ScalarOk(py, x) && |ScalarText(py, x)| <= MAX_KEY
  }

  // ----- single quotes -----

  function Quotes(s: string): (n: nat)
    ensures n <= |s| && (n > 0 <==> '\'' in s)
  {
    if s == "" then 0 else (if s[0] == '\'' then 1 else 0) + Quotes(s[1..])
  }

  function Others(s: string): nat {
    |s| - Quotes(s)
  }

  lemma {:induction false} QuotesAppend(a: string, b: string)
    ensures Quotes(a + b) == Quotes(a) + Quotes(b)
  {
    if a == "" {
      assert a + b == b;
    } else {
      QuotesAppend(a[1..], b);
      assert (a + b)[1..] == a[1..] + b;
    }
  }

  lemma {:induction false} SingleDecodes(s: string, rest: string)
    requires forall c :: c in s ==> IsNbJson(c) && c != '\''
    requires rest == "" || rest[0] != '\''
    ensures ReadSingle(s + "'" + rest) == Some((s, |s| + 1))
  {
    var r := s + "'" + rest;
    if s == "" {
      assert r == ['\''] + rest;
    } else {
      assert r[0] == s[0] && r[1..] == s[1..] + "'" + rest;
      assert s[0] in s;
      SingleDecodes(s[1..], rest);
      assert s == [s[0]] + s[1..];
    }
  }

  lemma OthersAppend(a: string, b: string)
    ensures Others(a + b) == Others(a) + Others(b)
  {
    QuotesAppend(a, b);
  }

  lemma OthersOfChar(c: char)
    ensures Others([c]) == if c == '\'' then 0 else 1
    ensures Quotes([c]) == if c == '\'' then 1 else 0
  {
    assert [c][1..] == "";
  }

  /** What single-quoted content costs: a character each, a quote twice, and the closing quote. */
  ghost predicate Costs(r: string, x: Option<(string, nat)>) {
    x.Some? ==>
      && x.value.1 <= |r|
      && (forall c :: c in x.value.0 ==> IsNbJson(c))
      && x.value.1 == |x.value.0| + 1 + Quotes(x.value.0)
      && Others(r[..x.value.1]) == Others(x.value.0)
  }

  lemma CostsOneMore(r: string, front: string, c: char, x: Option<(string, nat)>)
    requires front <= r && x.Some? && Costs(r[|front|..], x) && IsNbJson(c)
    requires front == if c == '\'' then "''" else [c]
    ensures Costs(r, Some(([c] + x.value.0, x.value.1 + |front|)))
  {
    hide Others;
    var (d, u) := x.value;
    assert r[..u + |front|] == front + r[|front|..][..u];
    OthersAppend(front, r[|front|..][..u]);
    OthersAppend([c], d);
    QuotesAppend([c], d);
    OthersOfChar(c);
    assert "''" == "'" + "'";
    OthersAppend("'", "'");
    OthersOfChar('\'');
  }

  lemma {:induction false} SingleCost(r: string)
    ensures Costs(r, ReadSingle(r))
    decreases |r|
  {
    hide Costs;
    if r == "" {
      NoCost(r);
    } else if r[0] == '\'' && |r| > 1 && r[1] == '\'' {
      SingleCost(r[2..]);
      assert r[..2] == "''";
      if ReadSingle(r[2..]).Some? { CostsOneMore(r, "''", '\'', ReadSingle(r[2..])); } else { NoCost(r); }
    } else if r[0] == '\'' {
      CostOfClosing(r);
    } else if IsNbJson(r[0]) {
      SingleCost(r[1..]);
      assert r[..1] == [r[0]];
      if ReadSingle(r[1..]).Some? { CostsOneMore(r, [r[0]], r[0], ReadSingle(r[1..])); } else { NoCost(r); }
    } else {
      NoCost(r);
    }
  }

  lemma NoCost(r: string)
    ensures Costs(r, None)
  {
  }

  lemma CostOfClosing(r: string)
    requires r != "" && r[0] == '\''
    ensures Costs(r, Some(("", 1)))
  {
    assert r[..1] == ['\''];
    OthersOfChar('\'');
  }

  /** A quote inside that is not doubled never reads back: after the content and its quotes the
      reader would have to take more than the text up to the colon holds. */
  lemma SingleWithQuote(s: string, rest: string, d: string, u: nat)
    requires '\'' in s && (rest == "" || rest[0] == ':')
    requires ReadSingle(s + "'" + rest) == Some((d, u))
    requires rest == "" ==> u == |s| + 1
    ensures d != s
  {
    var r := s + "'" + rest;
    SingleCost(r);
    assert u == |d| + 1 + Quotes(d) && Others(r[..u]) == Others(d);
    if rest != "" && u >= |s| + 2 {
      ManyOthers(s, rest, u);
    }
  }

  lemma ManyOthers(s: string, rest: string, u: nat)
    requires rest != "" && rest[0] == ':' && |s| + 2 <= u <= |s + "'" + rest|
    ensures Others((s + "'" + rest)[..u]) > Others(s)
  {
    hide Others;
    var r := s + "'" + rest;
    var more := rest[1..u - |s| - 1];
    assert r[..u] == (s + "'") + (":" + more);
    OthersAppend(s + "'", ":" + more);
    OthersAppend(s, "'");
    OthersAppend(":", more);
    OthersOfChar(':');
    OthersOfChar('\'');
    assert ":" == [':'] && "'" == ['\''];
    OthersNotNegative(more);
  }

  lemma OthersNotNegative(s: string)
    ensures Others(s) >= 0
  {
  }

  // ----- double quotes -----

  predicate DoubleOk(s: string) {
    forall c :: c in s ==> IsNbJson(c) || IsBreakOrTab(c)
  }

  /** One escaped character, in front of anything. */
  lemma DoubleStep(c: char, later: string)
    ensures var e := EscapeChar(c); var x := ReadDouble(later);
      ReadDouble(e + later)
        == if !DoubleOk([c]) || x.None? then None else Some(([c] + x.value.0, x.value.1 + |e|))
  {
    hide IsNbJson, ReadDouble, EscapeChar, DoubleOk;
    OneOk(c);
    EscapeForms(c);
    var e := EscapeChar(c);
    if |e| == 1 {
      ReadOne(c, later);
    } else {
      ReadPair(e[1], later);
      assert e == ['\\', e[1]];
    }
  }

  lemma OneOk(c: char)
    ensures DoubleOk([c]) <==> IsNbJson(c) || IsBreakOrTab(c)
  {
    assert c in [c];
  }

  /** An escape stands for its character, which is accepted; any other character stands for itself. */
  lemma EscapeForms(c: char)
    ensures var e := EscapeChar(c);
      || (e == [c] && c != '"' && c != '\\' && !IsBreakOrTab(c))
      || (|e| == 2 && e[0] == '\\' && Unescape(e[1]) == Some(c) && (IsNbJson(c) || IsBreakOrTab(c)))
  {
  }

  lemma ReadOne(c: char, later: string)
    requires c != '"' && c != '\\'
    ensures var x := ReadDouble(later);
      ReadDouble([c] + later)
        == if !IsNbJson(c) || x.None? then None else Some(([c] + x.value.0, x.value.1 + 1))
  {
    assert ([c] + later)[1..] == later;
  }

  lemma ReadPair(a: char, later: string)
    requires Unescape(a).Some?
    ensures var x := ReadDouble(later);
      ReadDouble(['\\', a] + later)
        == if x.None? then None else Some(([Unescape(a).value] + x.value.0, x.value.1 + 2))
  {
    hide Unescape;
    assert (['\\', a] + later)[2..] == later;
  }

  /** Decoding inverts escaping on every string the reader accepts, and rejects every other. */
  lemma {:induction false} DoubleDecodes(s: string, rest: string)
    ensures ReadDouble(EscapeAtOnce(s) + "\"" + rest)
      == if DoubleOk(s) then Some((s, |EscapeAtOnce(s)| + 1)) else None
  {
    hide ReadDouble, EscapeChar;
    if s == "" {
      assert "" + "\"" + rest == "\"" + rest;
      DoubleEnds(rest);
    } else {
      var c, more := s[0], s[1..];
      var later := EscapeAtOnce(more) + "\"" + rest;
      DoubleDecodes(more, rest);
      DoubleStep(c, later);
      SeqAssociates(EscapeChar(c), EscapeAtOnce(more), "\"");
      SeqAssociates(EscapeChar(c), EscapeAtOnce(more) + "\"", rest);
      assert s == [c] + more;
      assert DoubleOk(s) <==> DoubleOk([c]) && DoubleOk(more);
    }
  }

  lemma DoubleEnds(rest: string)
    ensures ReadDouble("\"" + rest) == Some(("", 1))
  {
  }

  // ----- plain text -----

  lemma PlainText(t: string)
    requires t != "" && (forall c :: c in t ==> IsNbChar(c) && c != ':' && c != '#')
    requires !IsWhite(t[0]) && !IsWhite(t[|t| - 1])
    requires IsIndicator(t[0]) ==> t[0] == '-' && |t| > 1 && !IsWhite(t[1])
    ensures IsPlain(t)
  {
    forall i | 0 <= i < |t| ensures t[i] != ':' && t[i] != '#' { assert t[i] in t; }
  }

  lemma {:induction false} NoColon(t: string, rest: string, i: nat)
    requires i <= |t| && ':' !in t
    ensures FindColon(t + rest, i) == FindColon(t + rest, |t|)
    decreases |t| - i
  {
    if i < |t| {
      assert (t + rest)[i] == t[i];
      NoColon(t, rest, i + 1);
    }
  }

  lemma PlainKey(t: string, rest: string)
    requires ':' !in t && !StartsQuoted(t) && t != ""
    requires rest == "" || rest[0] == ' '
    ensures ReadKey(t + ":" + rest) == if IsPlain(t) && |t| <= MAX_KEY then Some((Token(t, Plain), rest)) else None
    ensures ReadKey(t).None?
  {
    var r := t + ":" + rest;
    assert r == t + (":" + rest);
    NoColon(t, ":" + rest, 0);
    assert ColonAt(r, |t|);
    assert r[..|t|] == t && r[|t| + 1..] == rest;
    assert t + "" == t;
    NoColon(t, "", 0);
  }

  /** A string left plain resolves to itself, whatever the recognisers accept. */
  lemma PlainStaysString(py: Python, s: string)
    requires FormOf(py, s) == PlainForm
    ensures CoerceScalar(py, s) == Str(s)
  {
  }

  lemma PlainFormText(py: Python, s: string)
    requires FormOf(py, s) == PlainForm
    ensures s != "" && (forall c :: c in s ==> !NeedsQuotes(c)) && !StartsQuoted(s)
    ensures s[0] != '-' && s[0] != ' ' && s[|s| - 1] != ' '
    ensures IsPlain(s) <==> StrOk(py, s)
  {
    assert s[0] in s && s[|s| - 1] in s;
    assert forall c :: c in s ==> !NeedsQuotes(c);
    assert NeedsQuotes('\t') && NeedsQuotes(':') && NeedsQuotes('#');
    assert IsIndicator(s[0]) ==> s[0] in "%@`" by { PlainIndicators(s[0]); }
    if StrOk(py, s) {
      forall c | c in s ensures c != ':' && c != '#' && c != '\t' { }
      PlainText(s);
    }
  }

  lemma PlainIndicators(c: char)
    requires !NeedsQuotes(c) && c != '-'
    ensures IsIndicator(c) ==> c in "%@`"
  {
  }

  // ----- every scalar -----

  /** The texts that are not quoted strings. */
  predicate BareText(t: string) {
    && t != "" && !StartsQuoted(t) && ':' !in t && IsPlain(t)
    && (t[0] == '-' ==> |t| > 1 && t[1] != ' ')
  }

  lemma NotIndicator(c: char)
    requires 'a' <= c <= 'z' || IsDigit(c) || c == '.'
    ensures !IsIndicator(c)
  {
  }

  lemma NumberText(t: string)
    requires NumberLike(t)
    ensures BareText(t) && t[0] != ' ' && IntStart(t[0]) && !IsNull(t) && !IsTrue(t) && !IsFalse(t)
    ensures !IsPosInf(t) && !IsNaN(t)
    ensures forall c :: c in t ==> !IsBreakOrTab(c)
  {
    hide IsPlain, IsIndicator, IsNull, IsTrue, IsFalse, IsPosInf, IsNaN;
    assert t[|t| - 1] in t && t[0] in t;
    assert |t| > 1 ==> t[1] in t;
    if t[0] != '-' { NotIndicator(t[0]); }
    PlainText(t);
    NumberIsNoWord(t);
  }

  lemma NumberIsNoWord(t: string)
    requires t != "" && (IsDigit(t[0]) || (t[0] == '-' && |t| > 1 && IsDigit(t[1])))
    ensures !IsNull(t) && !IsTrue(t) && !IsFalse(t) && !IsPosInf(t) && !IsNaN(t)
  {
  }

  lemma NotNegInf(t: string)
    requires NumberLike(t)
    ensures !IsNegInf(t)
  {
    assert IsDigit(t[0]) || IsDigit(t[1]);
  }

  lemma WordText(t: string)
    requires t == "null" || t == "true" || t == "false" || t == ".inf" || t == "-.inf" || t == ".nan"
    ensures BareText(t) && forall c :: c in t ==> !IsBreakOrTab(c)
  {
    hide IsPlain, IsIndicator;
    assert forall c :: c in t ==> 'a' <= c <= 'z' || c == '.' || c == '-';
    assert t[|t| - 1] in t && t[0] in t;
    if t[0] != '-' { NotIndicator(t[0]); }
    PlainText(t);
  }

  lemma WordResolves(py: Python, x: Scalar)
    requires Inverts(py) && (x.Null? || x.Bool? || (x.Flt? && !x.f.Finite?))
    ensures CoerceScalar(py, ScalarText(py, x)) == x
  {
    var t := ScalarText(py, x);
    if x == Flt(NegInf) {
      assert t == "-.inf";
    } else if x.Flt? {
      assert t[0] == '.' && !IntStart('.');
    }
  }

  /** Every scalar that is not a string prints as bare text that resolves to it. */
  lemma BareScalar(py: Python, x: Scalar)
    requires Inverts(py) && !x.Str?
    ensures BareText(ScalarText(py, x)) && CoerceScalar(py, ScalarText(py, x)) == x
    ensures forall c :: c in ScalarText(py, x) ==> !IsBreakOrTab(c)
  {
    hide BareText, NumberLike;
    match x {
      case Int(n) =>
        DecimalIsNumber(n);
        NumberText(Decimal(n));
      case Flt(Finite(bits)) =>
        assert NumberLike(py.repr(bits));
        NumberText(py.repr(bits));
        NotNegInf(py.repr(bits));
      case _ =>
        WordText(ScalarText(py, x));
        WordResolves(py, x);
    }
  }

  /** The text stays on one line. It does not for a string such as `5` followed by a line feed,
      which `int` accepts and the code therefore puts in single quotes as it is. */
  predicate OnOneLine(py: Python, x: Scalar) {
    x.Str? && FormOf(py, x.s) == SingleForm ==> '\n' !in x.s
  }

  lemma OkIsOnOneLine(py: Python, x: Scalar)
    requires ScalarOk(py, x)
    ensures OnOneLine(py, x)
  {
  }

  lemma QuotedText(py: Python, s: string)
    requires FormOf(py, s) != PlainForm
    ensures StartsQuoted(QuoteScalar(py, s))
    ensures FormOf(py, s) == DoubleForm ==> QuoteScalar(py, s) == "\"" + EscapeAtOnce(s) + "\""
    ensures OnOneLine(py, Str(s)) ==> '\n' !in QuoteScalar(py, s)
  {
    EscapeIsOnePass(s);
    EscapedIsOneLine(s);
    assert IsBreakOrTab('\n');
  }

  /** Printed scalars cannot be taken for a sequence entry. */
  lemma TextShape(py: Python, x: Scalar)
    requires Inverts(py)
    ensures var t := ScalarText(py, x);
      && t != "" && t[0] != ' ' && (t[0] == '-' ==> |t| > 1 && t[1] != ' ')
      && (OnOneLine(py, x) ==> '\n' !in t)
  {
    assert IsBreakOrTab('\n') && NeedsQuotes('\n');
    if !x.Str? {
      BareScalar(py, x);
    } else if FormOf(py, x.s) == PlainForm {
      PlainFormText(py, x.s);
    } else {
      QuotedText(py, x.s);
    }
  }

  lemma SingleReads(s: string, rest: string)
    requires rest == "" || rest[0] == ':'
    ensures var x := ReadSingle(s + "'" + rest);
      && ((forall c :: c in s ==> IsNbJson(c) && c != '\'') ==> x == Some((s, |s| + 1)))
      && (x.Some? && (rest == "" ==> x.value.1 == |s| + 1) && x.value.0 == s ==>
            forall c :: c in s ==> IsNbJson(c) && c != '\'')
  {
    var x := ReadSingle(s + "'" + rest);
    if forall c :: c in s ==> IsNbJson(c) && c != '\'' {
      SingleDecodes(s, rest);
    }
    SingleCost(s + "'" + rest);
    if x.Some? && (rest == "" ==> x.value.1 == |s| + 1) && '\'' in s {
      SingleWithQuote(s, rest, x.value.0, x.value.1);
    }
  }

  /** The quoted scalar at the start of `t`, when it is the printed string and `rest` follows. */
  lemma QuotedReads(py: Python, s: string, rest: string)
    requires FormOf(py, s) != PlainForm && (rest == "" || rest[0] == ':')
    ensures var t := QuoteScalar(py, s); var x := ReadQuoted(t + rest);
      && StartsQuoted(t + rest)
      && (StrOk(py, s) ==> x.Some? && x.value.0.text == s && x.value.0.style != Plain && x.value.1 == |t|)
      && (!StrOk(py, s) && x.Some? && (rest == "" ==> x.value.1 == |t|) ==> x.value.0.text != s)
      && (x.Some? ==> x.value.0.style != Plain)
  {
    hide ReadSingle, ReadDouble, EscapeInTurn, EscapeAtOnce, FormOf, IsNbJson;
    var t := QuoteScalar(py, s);
    EscapeIsOnePass(s);
    if FormOf(py, s) == DoubleForm {
      assert (t + rest)[1..] == EscapeAtOnce(s) + "\"" + rest;
      DoubleDecodes(s, rest);
    } else {
      assert (t + rest)[1..] == s + "'" + rest;
      SingleReads(s, rest);
    }
  }

  /** A printed scalar, read as a whole and resolved, is the scalar again exactly when it is in
      the domain. */
  lemma TokenRoundTrip(py: Python, x: Scalar)
    requires Inverts(py)
    ensures var k := ReadToken(ScalarText(py, x));
      (k.Some? && Resolve(py, k.value) == x) <==> ScalarOk(py, x)
  {
    var t := ScalarText(py, x);
    if !x.Str? {
      BareScalar(py, x);
    } else if FormOf(py, x.s) == PlainForm {
      PlainFormText(py, x.s);
      PlainStaysString(py, x.s);
    } else {
      assert t + "" == t;
      QuotedReads(py, x.s, "");
    }
  }

  /** The same for a key that is short enough: the colon after it is found, and what follows is left. */
  lemma KeyRoundTrip(py: Python, x: Scalar, rest: string)
    requires Inverts(py) && (rest == "" || rest[0] == ' ')
    ensures var k := ReadKey(ScalarText(py, x) + ":" + rest);
      && ((k.Some? && Resolve(py, k.value.0) == x) <==> KeyOk(py, x))
      && (KeyOk(py, x) ==> k.value.1 == rest)
  {
    hide FormOf, FindColon, ReadQuoted, IsPlain, StrOk, Inverts, EscapeInTurn;
    var t := ScalarText(py, x);
    if !x.Str? {
      BareScalar(py, x);
      PlainKey(t, rest);
    } else if FormOf(py, x.s) == PlainForm {
      PlainFormText(py, x.s);
      PlainStaysString(py, x.s);
      assert ':' !in t by { assert NeedsQuotes(':'); }
      PlainKey(t, rest);
    } else {
      var r := t + (":" + rest);
      assert r == t + ":" + rest;
      QuotedReads(py, x.s, ":" + rest);
      assert ColonAt(r, |t|);
      assert r[|t| + 1..] == rest;
    }
  }

  /** A scalar on a line of its own is not taken for a mapping entry. */
  lemma NotAKey(py: Python, x: Scalar)
    requires Inverts(py) && ScalarOk(py, x)
    ensures ReadKey(ScalarText(py, x)).None?
  {
    var t := ScalarText(py, x);
    if !x.Str? {
      BareScalar(py, x);
      PlainKey(t, "");
    } else if FormOf(py, x.s) == PlainForm {
      PlainFormText(py, x.s);
      assert ':' !in t by { assert NeedsQuotes(':'); }
      PlainKey(t, "");
    } else {
      assert t + "" == t;
      QuotedReads(py, x.s, "");
    }
  }
}
