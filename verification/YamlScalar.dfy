/** Scalars on their way out and back: `_quote_scalar` and the printing of the other scalars,
    the flow scalars of YAML 1.2.2 (sections 7.3.1, 7.3.2, 7.3.3), and `_coerce_scalar`. */
module YamlScalar {
  import opened Prelude

  /** A Python float; a finite one is named by its bit pattern. */
  datatype Float = PosInf | NegInf | NaN | Finite(bits: nat)

  datatype Scalar = Null | Bool(b: bool) | Int(n: int) | Flt(f: Float) | Str(s: string)

  /** What Python itself supplies: `int(s, 0)`, `float(s)` (none for a ValueError), `repr` of a
      finite float, and whether two dictionary keys count as one. */
  datatype Python = Python(
    intOf: string -> Option<int>,
    floatOf: string -> Option<Float>,
    repr: nat -> string,
    sameKey: (Scalar, Scalar) -> bool)

  // ----- numbers -----

  function Digits(n: nat): (d: string)
    ensures d != "" && forall c :: c in d ==> '0' <= c <= '9'
  {
    (if n < 10 then "" else Digits(n / 10)) + ["0123456789"[n % 10]]
  }

  /** `str` of an int. */
  function Decimal(n: int): string {
    if n < 0 then "-" + Digits(-n) else Digits(n)
  }

  predicate IsDigit(c: char) {
    '0' <= c <= '9'
  }

  /** An optional minus, a digit, then digits, points, signs and exponents. */
  predicate NumberLike(t: string) {
    && t != ""
    && (forall c :: c in t ==> IsDigit(c) || c == '.' || c == '+' || c == '-' || c == 'e')
    && (IsDigit(t[0]) || (t[0] == '-' && |t| > 1 && IsDigit(t[1])))
  }

  /** Printing a number and recognising it again are inverse. */
  ghost predicate Inverts(py: Python) {
    && (forall n: int {:trigger Decimal(n)} :: py.intOf(Decimal(n)) == Some(n))
    && (forall x: nat {:trigger py.repr(x)} ::
          NumberLike(py.repr(x)) && py.intOf(py.repr(x)) == None && py.floatOf(py.repr(x)) == Some(Finite(x)))
    && py.intOf("-.inf") == None
  }

  lemma DecimalIsNumber(n: int)
    ensures NumberLike(Decimal(n))
  {
    var d := Digits(if n < 0 then -n else n);
    assert d[0] in d;
  }

  // ----- resolution of plain scalars -----

  predicate IsNull(s: string) {
    s == "null" || s == "Null" || s == "NULL" || s == "~" || s == ""
  }

  predicate IsTrue(s: string) {
    s == "true" || s == "True" || s == "TRUE"
  }

  predicate IsFalse(s: string) {
    s == "false" || s == "False" || s == "FALSE"
  }

  predicate IsPosInf(s: string) {
    s == ".inf" || s == ".Inf" || s == ".INF" || s == "+.inf" || s == "+.Inf" || s == "+.INF"
  }

  predicate IsNegInf(s: string) {
    s == "-.inf" || s == "-.Inf" || s == "-.INF"
  }

  predicate IsNaN(s: string) {
    s == ".nan" || s == ".NaN" || s == ".NAN"
  }

  predicate IntStart(c: char) {
    c == '+' || c == '-' || IsDigit(c)
  }

  function CoerceScalar(py: Python, s: string): Scalar {
    if IsNull(s) then Null
    else if IsTrue(s) then Bool(true)
    else if IsFalse(s) then Bool(false)
    else if IntStart(s[0]) && py.intOf(s).Some? then Int(py.intOf(s).value)
    else if IsPosInf(s) then Flt(PosInf)
    else if IsNegInf(s) then Flt(NegInf)
    else if IsNaN(s) then Flt(NaN)
    else if (IntStart(s[0]) || s[0] == '.') && py.floatOf(s).Some? then Flt(py.floatOf(s).value)
    else Str(s)
  }

  // ----- quoting -----

  /** `s.replace(c, by)`. */
  function Replace(s: string, c: char, with: string): string {
    if s == "" then "" else (if s[0] == c then with else [s[0]]) + Replace(s[1..], c, with)
  }

  /** The five replacements in the order the code makes them. */
  function EscapeInTurn(s: string): string {
    Replace(Replace(Replace(Replace(Replace(s, '\\', "\\\\"), '"', "\\\""), '\n', "\\n"), '\r', "\\r"), '\t', "\\t")
  }

  predicate NeedsQuotes(c: char) {
    c in ":#{}[]|>&*!?,\\\"'\n\r\t"
  }

  predicate IsBreakOrTab(c: char) {
    c == '\n' || c == '\r' || c == '\t'
  }

  datatype Form = PlainForm | SingleForm | DoubleForm

  function FormOf(py: Python, s: string): Form {
    if s == "" then SingleForm
    else if IsNull(s) || IsTrue(s) || IsFalse(s) then SingleForm
    else if IsPosInf(s) || IsNegInf(s) || IsNaN(s) then SingleForm
    else if py.intOf(s).Some? || py.floatOf(s).Some? then SingleForm
    else if exists c :: c in s && NeedsQuotes(c) then
      if exists c :: c in s && IsBreakOrTab(c) then DoubleForm else SingleForm
    else if s[0] == '-' || s[0] == '?' || s[0] == ' ' || s[|s| - 1] == ' ' then SingleForm
    else PlainForm
  }

  function QuoteScalar(py: Python, s: string): string {
    match FormOf(py, s)
    case PlainForm => s
    case SingleForm => "'" + s + "'"
    case DoubleForm => "\"" + EscapeInTurn(s) + "\""
  }

  function ScalarText(py: Python, x: Scalar): string {
    match x
    case Null => "null"
    case Bool(b) => if b then "true" else "false"
    case Int(n) => Decimal(n)
    case Flt(PosInf) => ".inf"
    case Flt(NegInf) => "-.inf"
    case Flt(NaN) => ".nan"
    case Flt(Finite(bits)) => py.repr(bits)
    case Str(s) => QuoteScalar(py, s)
  }

  // ----- the escapes -----

  function EscapeChar(c: char): string {
    if c == '\\' then "\\\\"
    else if c == '"' then "\\\""
    else if c == '\n' then "\\n"
    else if c == '\r' then "\\r"
    else if c == '\t' then "\\t"
    else [c]
  }

  function EscapeAtOnce(s: string): string {
    if s == "" then "" else EscapeChar(s[0]) + EscapeAtOnce(s[1..])
  }

  lemma {:induction false} ReplaceAppend(a: string, b: string, c: char, with: string)
    ensures Replace(a + b, c, with) == Replace(a, c, with) + Replace(b, c, with)
  {
    if a == "" {
      assert a + b == b;
    } else {
      ReplaceAppend(a[1..], b, c, with);
      assert (a + b)[1..] == a[1..] + b;
      SeqAssociates(if a[0] == c then with else [a[0]], Replace(a[1..], c, with), Replace(b, c, with));
    }
  }

  lemma EscapeAppend(a: string, b: string)
    ensures EscapeInTurn(a + b) == EscapeInTurn(a) + EscapeInTurn(b)
  {
    hide Replace;
    ReplaceAppend(a, b, '\\', "\\\\");
    var a1, b1 := Replace(a, '\\', "\\\\"), Replace(b, '\\', "\\\\");
    ReplaceAppend(a1, b1, '"', "\\\"");
    var a2, b2 := Replace(a1, '"', "\\\""), Replace(b1, '"', "\\\"");
    ReplaceAppend(a2, b2, '\n', "\\n");
    var a3, b3 := Replace(a2, '\n', "\\n"), Replace(b2, '\n', "\\n");
    ReplaceAppend(a3, b3, '\r', "\\r");
    ReplaceAppend(Replace(a3, '\r', "\\r"), Replace(b3, '\r', "\\r"), '\t', "\\t");
  }

  lemma ReplaceOne(x: char, c: char, with: string)
    ensures Replace([x], c, with) == if x == c then with else [x]
  {
    assert [x][1..] == "";
  }

  lemma ReplaceTwo(x: char, y: char, c: char, with: string)
    requires x != c && y != c
    ensures Replace([x, y], c, with) == [x, y]
  {
    assert [x, y][1..] == [y];
    ReplaceOne(y, c, with);
  }

  lemma EscapeOne(x: char)
    ensures EscapeInTurn([x]) == EscapeChar(x)
  {
    hide Replace;
    ReplaceOne(x, '\\', "\\\\");
    if x == '\\' {
      ReplaceTwo('\\', '\\', '"', "\\\"");
      ReplaceTwo('\\', '\\', '\n', "\\n");
      ReplaceTwo('\\', '\\', '\r', "\\r");
      ReplaceTwo('\\', '\\', '\t', "\\t");
    } else {
      ReplaceOne(x, '"', "\\\"");
      if x == '"' {
        ReplaceTwo('\\', '"', '\n', "\\n");
        ReplaceTwo('\\', '"', '\r', "\\r");
        ReplaceTwo('\\', '"', '\t', "\\t");
      } else {
        ReplaceOne(x, '\n', "\\n");
        if x == '\n' {
          ReplaceTwo('\\', 'n', '\r', "\\r");
          ReplaceTwo('\\', 'n', '\t', "\\t");
        } else {
          ReplaceOne(x, '\r', "\\r");
          if x == '\r' { ReplaceTwo('\\', 'r', '\t', "\\t"); } else { ReplaceOne(x, '\t', "\\t"); }
        }
      }
    }
  }

  /** Five replacements one after another escape each character once, as a single pass would:
      no replacement disturbs what an earlier one wrote. */
  lemma {:induction false} EscapeIsOnePass(s: string)
    ensures EscapeInTurn(s) == EscapeAtOnce(s)
  {
    if s != "" {
      assert s == [s[0]] + s[1..];
      EscapeAppend([s[0]], s[1..]);
      EscapeOne(s[0]);
      EscapeIsOnePass(s[1..]);
    }
  }

  /** No raw break or tab is left inside the double quotes. */
  lemma {:induction false} EscapedIsOneLine(s: string)
    ensures forall c :: c in EscapeAtOnce(s) ==> !IsBreakOrTab(c)
  {
    if s != "" { EscapedIsOneLine(s[1..]); }
  }

  // ----- characters of YAML 1.2.2, section 5.1 -----

  predicate IsWhite(c: char) {
    c == ' ' || c == '\t'
  }

  /** Printable, neither a break nor a byte order mark. */
  predicate IsNbChar(c: char) {
    || c == '\t' || ' ' <= c <= '~' || c == '\U{0085}'
    || '\U{00A0}' <= c <= '\U{D7FF}'
    || ('\U{E000}' <= c <= '\U{FFFD}' && c != '\U{FEFF}')
    || '\U{10000}' <= c
  }

  /** What quoted scalars accept. */
  predicate IsNbJson(c: char) {
    c == '\t' || ' ' <= c
  }

  predicate IsIndicator(c: char) {
    c in "-?:,[]{}#&*!|>'\"%@`"
  }

  // ----- reading flow scalars -----

  datatype Style = Plain | SingleQuoted | DoubleQuoted

  datatype Token = Token(text: string, style: Style)

  /** After the opening quote: the content and the characters taken, the closing quote included. */
  function ReadSingle(r: string): (x: Option<(string, nat)>)
    ensures x.Some? ==> 0 < x.value.1 <= |r|
    decreases |r|
  {
    if r == "" then None
    else if r[0] == '\'' then
      if |r| > 1 && r[1] == '\'' then
        var x := ReadSingle(r[2..]);
        if x.None? then None else Some(("'" + x.value.0, x.value.1 + 2))
      else Some(("", 1))
    else if IsNbJson(r[0]) then
      var x := ReadSingle(r[1..]);
      if x.None? then None else Some(([r[0]] + x.value.0, x.value.1 + 1))
    else None
  }

  /** The one-character escapes of section 5.7; the hexadecimal ones are not read. */
  function Unescape(c: char): Option<char> {
    match c
    case '0' => Some('\0')
    case 'a' => Some('\U{0007}')
    case 'b' => Some('\U{0008}')
    case 't' => Some('\t')
    case '\t' => Some('\t')
    case 'n' => Some('\n')
    case 'v' => Some('\U{000B}')
    case 'f' => Some('\U{000C}')
    case 'r' => Some('\r')
    case 'e' => Some('\U{001B}')
    case ' ' => Some(' ')
    case '"' => Some('"')
    case '/' => Some('/')
    case '\\' => Some('\\')
    case 'N' => Some('\U{0085}')
    case '_' => Some('\U{00A0}')
    case 'L' => Some('\U{2028}')
    case 'P' => Some('\U{2029}')
    case _ => None
  }

  function ReadDouble(r: string): (x: Option<(string, nat)>)
    ensures x.Some? ==> 0 < x.value.1 <= |r|
    decreases |r|
  {
    if r == "" then None
    else if r[0] == '"' then Some(("", 1))
    else if r[0] == '\\' then
      if |r| == 1 || Unescape(r[1]).None? then None
      else
        var x := ReadDouble(r[2..]);
        if x.None? then None else Some(([Unescape(r[1]).value] + x.value.0, x.value.1 + 2))
    else if IsNbJson(r[0]) then
      var x := ReadDouble(r[1..]);
      if x.None? then None else Some(([r[0]] + x.value.0, x.value.1 + 1))
    else None
  }

  /** A plain scalar on one line, outside flow collections. */
  predicate IsPlain(t: string) {
    && t != ""
    && (forall c :: c in t ==> IsNbChar(c))
    && !IsWhite(t[0]) && !IsWhite(t[|t| - 1])
    && (IsIndicator(t[0]) ==>
          (t[0] == '-' || t[0] == '?' || t[0] == ':') && |t| > 1 && !IsWhite(t[1]))
    && (forall i :: 0 <= i < |t| && t[i] == ':' ==> i + 1 < |t| && !IsWhite(t[i + 1]))
    && (forall i :: 0 < i < |t| && t[i] == '#' ==> !IsWhite(t[i - 1]))
  }

  /** The quoted scalar at the start of `t` and its length. */
  function ReadQuoted(t: string): Option<(Token, nat)> {
    if t != "" && t[0] == '"' then
      var x := ReadDouble(t[1..]);
      if x.None? then None else Some((Token(x.value.0, DoubleQuoted), x.value.1 + 1))
    else if t != "" && t[0] == '\'' then
      var x := ReadSingle(t[1..]);
      if x.None? then None else Some((Token(x.value.0, SingleQuoted), x.value.1 + 1))
    else None
  }

  predicate StartsQuoted(t: string) {
    t != "" && (t[0] == '"' || t[0] == '\'')
  }

  /** A scalar that fills the whole of `t`. */
  function ReadToken(t: string): Option<Token> {
    if StartsQuoted(t) then
      var x := ReadQuoted(t);
      if x.Some? && x.value.1 == |t| then Some(x.value.0) else None
    else if IsPlain(t) then Some(Token(t, Plain))
    else None
  }

  predicate ColonAt(t: string, i: nat) {
    i < |t| && t[i] == ':' && (i + 1 == |t| || t[i + 1] == ' ')
  }

  /** Where the first mapping colon stands, or the length. */
  function FindColon(t: string, i: nat): (k: nat)
    requires i <= |t|
    ensures i <= k <= |t| && (k < |t| ==> ColonAt(t, k)) && forall j :: i <= j < k ==> !ColonAt(t, j)
    decreases |t| - i
  {
    if i == |t| || ColonAt(t, i) then i else FindColon(t, i + 1)
  }

  /** Section 7.4.2: how long an implicit key may be. */
  const MAX_KEY := 1024

  /** An implicit key and what follows its colon. */
  function ReadKey(t: string): Option<(Token, string)> {
    if StartsQuoted(t) then
      var x := ReadQuoted(t);
      if x.Some? && ColonAt(t, x.value.1) && x.value.1 <= MAX_KEY then Some((x.value.0, t[x.value.1 + 1..])) else None
    else
      var k := FindColon(t, 0);
      if k < |t| && IsPlain(t[..k]) && k <= MAX_KEY then Some((Token(t[..k], Plain), t[k + 1..])) else None
  }

  /** `_scalar_to_python`: only plain scalars are resolved. */
  function Resolve(py: Python, k: Token): Scalar {
    if k.style == Plain then CoerceScalar(py, k.text) else Str(k.text)
  }
}
