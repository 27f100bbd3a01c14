/** String literals for generated Lean code: `lean_escape_string` and `lean_string_literal`,
    and a reader with the escapes the encoder writes. */
module LeanLiteral {
  import opened Prelude

  // ----- hexadecimal -----

  function HexDigit(d: nat): char
    requires d < 16
  {
    "0123456789ABCDEF"[d]
  }

  function HexValue(c: char): Option<nat> {
    if '0' <= c <= '9' then Some(c as int - 48)
    else if 'A' <= c <= 'F' then Some(c as int - 55)
    else if 'a' <= c <= 'f' then Some(c as int - 87)
    else None
  }

  predicate UpperHex(c: char) {
    c in "0123456789ABCDEF"
  }

  lemma HexDigitValue(d: nat)
    requires d < 16
    ensures HexValue(HexDigit(d)) == Some(d)
    ensures UpperHex(HexDigit(d))
  {
  }

  /** `{n:02X}`. */
  function Hex2(n: nat): (h: string)
    requires n < 256
    ensures |h| == 2
  {
    [HexDigit(n / 16), HexDigit(n % 16)]
  }

  /** `{n:04X}`. */
  function Hex4(n: nat): (h: string)
    requires n < 65536
    ensures |h| == 4
  {
    Hex2(n / 256) + Hex2(n % 256)
  }

  /** The number a run of digits denotes. */
  function HexNumber(h: string): Option<nat> {
    if h == "" then Some(0)
    else
      var front, last := HexNumber(h[..|h| - 1]), HexValue(h[|h| - 1]);
      if front.None? || last.None? then None else Some(16 * front.value + last.value)
  }

  lemma HexSnoc(h: string, d: nat)
    requires d < 16 && HexNumber(h).Some?
    ensures HexNumber(h + [HexDigit(d)]) == Some(16 * HexNumber(h).value + d)
  {
    hide HexValue, HexDigit;
    HexDigitValue(d);
    assert (h + [HexDigit(d)])[..|h|] == h;
  }

  lemma NoDigits()
    ensures HexNumber("") == Some(0)
  {
  }

  lemma Hex2Number(n: nat)
    requires n < 256
    ensures HexNumber(Hex2(n)) == Some(n)
    ensures forall c :: c in Hex2(n) ==> UpperHex(c)
  {
    hide HexDigit, UpperHex, HexNumber;
    assert HexNumber("") == Some(0) by { NoDigits(); }
    HexDigitValue(n / 16);
    HexDigitValue(n % 16);
    HexSnoc("", n / 16);
    assert "" + [HexDigit(n / 16)] == [HexDigit(n / 16)];
    HexSnoc([HexDigit(n / 16)], n % 16);
    assert [HexDigit(n / 16)] + [HexDigit(n % 16)] == Hex2(n);
  }

  lemma Hex4Number(n: nat)
    requires n < 65536
    ensures HexNumber(Hex4(n)) == Some(n)
    ensures forall c :: c in Hex4(n) ==> UpperHex(c)
  {
    hide HexDigit, HexNumber, UpperHex;
    var hi, lo := n / 256, n % 256;
    Hex2Number(hi);
    Hex2Number(lo);
    HexSnoc(Hex2(hi), lo / 16);
    HexSnoc(Hex2(hi) + [HexDigit(lo / 16)], lo % 16);
    assert Hex2(hi) + [HexDigit(lo / 16)] + [HexDigit(lo % 16)] == Hex4(n);
    assert 16 * (16 * hi + lo / 16) + lo % 16 == n;
  }

  // ----- the encoder -----

  function EscapeChar(c: char): (e: string)
    ensures e != ""
  {
    var cp := c as int;
    if c == '\\' then "\\\\"
    else if c == '"' then "\\\""
    else if c == '\n' then "\\n"
    else if c == '\t' then "\\t"
    else if c == '\r' then "\\r"
    else if c == '\0' then "\\0"
    else if cp == 0xFEFF then "\\uFEFF"
    else if 0x20 <= cp <= 0x7E then [c]
    else if cp > 0x7E then
      if cp <= 0xFFFF then "\\u" + Hex4(cp) else [c]
    else "\\x" + Hex2(cp)
  }

  function Escape(s: string): string {
    if s == "" then "" else EscapeChar(s[0]) + Escape(s[1..])
  }

  function Concat(parts: seq<string>): string {
    if parts == [] then "" else parts[0] + Concat(parts[1..])
  }

  lemma {:induction false} ConcatSnoc(parts: seq<string>, p: string)
    ensures Concat(parts + [p]) == Concat(parts) + p
  {
    if parts == [] {
      assert parts + [p] == [p] && [p][1..] == [];
    } else {
      ConcatSnoc(parts[1..], p);
      assert (parts + [p])[1..] == parts[1..] + [p];
      SeqAssociates(parts[0], Concat(parts[1..]), p);
    }
  }

  /** The pieces, one per character. */
  method LeanEscapeString(s: string) returns (result: seq<string>)
    ensures |result| == |s| && Concat(result) == Escape(s)
  {
    result := [];
    for i := 0 to |s|
      invariant |result| == i && Concat(result) + Escape(s[i..]) == Escape(s)
    {
      var piece := EscapeChar(s[i]);
      assert s[i..][1..] == s[i + 1..];
      ConcatSnoc(result, piece);
      SeqAssociates(Concat(result), piece, Escape(s[i + 1..]));
      result := result + [piece];
    }
    assert s[|s|..] == "" && Concat(result) + "" == Concat(result);
  }

  function Literal(s: string): string {
    "\"" + Escape(s) + "\""
  }

  method LeanStringLiteral(s: string) returns (lit: string)
    ensures lit == Literal(s)
  {
    var pieces := LeanEscapeString(s);
    lit := "\"" + Concat(pieces) + "\"";
  }

  // ----- the reader -----

  predicate IsScalarValue(n: nat) {
    n < 0xD800 || 0xE000 <= n < 0x11_0000
  }

  /** One escape after its backslash: the character and the characters taken. The encoder assumes an
      escape for the null character, `\0`; `nul` says whether the grammar has one. */
  function ReadEscape(r: string, nul: bool): (x: Option<(char, nat)>)
    ensures x.Some? ==> 0 < x.value.1 <= |r|
  {
    if r == "" then None
    else match r[0]
      case '\\' => Some(('\\', 1))
      case '"' => Some(('"', 1))
      case 'n' => Some(('\n', 1))
      case 't' => Some(('\t', 1))
      case 'r' => Some(('\r', 1))
      case '0' => if nul then Some(('\0', 1)) else None
      case 'x' => ReadHex(r, 2)
      case 'u' => ReadHex(r, 4)
      case _ => None
  }

  function ReadHex(r: string, digits: nat): (x: Option<(char, nat)>)
    ensures x.Some? ==> 0 < x.value.1 <= |r|
  {
    if |r| < digits + 1 then None
    else
      var n := HexNumber(r[1..digits + 1]);
      if n.Some? && IsScalarValue(n.value) then Some((n.value as char, digits + 1)) else None
  }

  /** After the opening quote: the string and the characters taken, the closing quote included. */
  function ReadLiteral(r: string, nul: bool): (x: Option<(string, nat)>)
    ensures x.Some? ==> 0 < x.value.1 <= |r|
    decreases |r|
  {
    if r == "" then None
    else if r[0] == '"' then Some(("", 1))
    else if r[0] == '\\' then
      var e := ReadEscape(r[1..], nul);
      if e.None? then None
      else
        var x := ReadLiteral(r[1 + e.value.1..], nul);
        if x.None? then None else Some(([e.value.0] + x.value.0, x.value.1 + 1 + e.value.1))
    else
      var x := ReadLiteral(r[1..], nul);
      if x.None? then None else Some(([r[0]] + x.value.0, x.value.1 + 1))
  }

  lemma HexReads(c: char, h: string, digits: nat, letter: char, rest: string)
    requires |h| == digits > 0 && HexNumber(h) == Some(c as int)
    ensures ReadHex([letter] + h + rest, digits) == Some((c, digits + 1))
  {
    var r := [letter] + h + rest;
    assert r[1..digits + 1] == h;
  }

  lemma MarkReads()
    ensures HexNumber("FEFF") == Some(0xFEFF)
  {
    hide HexNumber;
    Hex4Number(0xFEFF);
    assert Hex4(0xFEFF) == "FEFF";
  }

  /** A hexadecimal escape, read back in front of anything. */
  lemma HexEscapeReads(c: char, rest: string, nul: bool)
    requires |EscapeChar(c)| > 2
    ensures ReadEscape((EscapeChar(c) + rest)[1..], nul) == Some((c, |EscapeChar(c)| - 1)) && EscapeChar(c)[0] == '\\'
  {
    hide HexNumber, Hex2, Hex4;
    var e := EscapeChar(c);
    var cp := c as int;
    var h := e[2..];
    if cp == 0xFEFF {
      MarkReads();
      assert h == "FEFF";
    } else if cp > 0x7E {
      Hex4Number(cp);
      assert e == "\\u" + Hex4(cp) && h == Hex4(cp);
    } else {
      Hex2Number(cp);
      assert e == "\\x" + Hex2(cp) && h == Hex2(cp);
    }
    HexReads(c, h, |h|, e[1], rest);
    assert (e + rest)[1..] == [e[1]] + h + rest;
  }

  /** The escape of one character, read back in front of anything. */
  lemma EscapeReads(c: char, rest: string, nul: bool)
    ensures var e := EscapeChar(c);
      if e[0] == '\\' then
        ReadEscape((e + rest)[1..], nul) == if c == '\0' && !nul then None else Some((c, |e| - 1))
      else e == [c] && c != '"' && c != '\0'
  {
    hide HexNumber, Hex2, Hex4, ReadHex;
    if |EscapeChar(c)| > 2 {
      HexEscapeReads(c, rest, nul);
    }
  }

  lemma {:induction false} EscapedReads(s: string, rest: string, nul: bool)
    ensures ReadLiteral(Escape(s) + "\"" + rest, nul)
      == if nul || '\0' !in s then Some((s, |Escape(s)| + 1)) else None
  {
    hide EscapeChar, ReadEscape;
    var r := Escape(s) + "\"" + rest;
    if s == "" {
      assert r == ['"'] + rest;
    } else {
      var e := EscapeChar(s[0]);
      var later := Escape(s[1..]) + "\"" + rest;
      SeqAssociates(e, Escape(s[1..]), "\"");
      SeqAssociates(e, Escape(s[1..]) + "\"", rest);
      assert r == e + later && r[0] == e[0] && r[|e|..] == later;
      EscapeReads(s[0], later, nul);
      EscapedReads(s[1..], rest, nul);
      assert s == [s[0]] + s[1..];
    }
  }

  /** Reading a literal gives back the string it was made from, whatever follows: the literal ends
      at its own closing quote and nowhere before. Where the grammar has no escape for the null
      character, it does so exactly for the strings without one, and rejects the others. */
  lemma LiteralReads(s: string, rest: string, nul: bool)
    ensures var r := Literal(s) + rest;
      r[0] == '"' &&
      ReadLiteral(r[1..], nul) == if nul || '\0' !in s then Some((s, |Literal(s)| - 1)) else None
  {
    hide ReadLiteral, Escape;
    EscapedReads(s, rest, nul);
    assert (Literal(s) + rest)[1..] == Escape(s) + "\"" + rest;
  }

  // ----- the forms -----

  lemma HexTable(d: nat)
    requires d < 16
    ensures HexDigit(d) == "0123456789ABCDEF"[d]
    ensures HexValue("0123456789ABCDEF"[d]) == Some(d) && HexValue("0123456789abcdef"[d]) == Some(d)
  {
  }

  lemma HexCharacters(c: char)
    ensures HexValue(c).Some? <==> c in "0123456789ABCDEFabcdef"
  {
  }

  /** `h` is the number `n` in upper-case hexadecimal. */
  predicate Spells(h: string, n: nat) {
    HexNumber(h) == Some(n) && forall c :: c in h ==> UpperHex(c)
  }

  /** Six short escapes, `\xHH` for the other control characters, `\uHHHH` up to the end of the basic
      plane; every other character is written as it is. */
  lemma EscapeForms(c: char)
    ensures EscapeChar('\\') == "\\\\" && EscapeChar('"') == "\\\"" && EscapeChar('\n') == "\\n"
    ensures EscapeChar('\t') == "\\t" && EscapeChar('\r') == "\\r" && EscapeChar('\0') == "\\0"
    ensures c < ' ' && c !in "\n\t\r\0" ==>
      exists h :: EscapeChar(c) == "\\x" + h && |h| == 2 && Spells(h, c as int)
    ensures '~' < c <= '\U{FFFF}' ==> exists h :: EscapeChar(c) == "\\u" + h && |h| == 4 && Spells(h, c as int)
    ensures (' ' <= c <= '~' && c !in "\\\"") || c > '\U{FFFF}' ==> EscapeChar(c) == [c]
  {
    hide HexNumber, Hex2, Hex4;
    var cp := c as int;
    if c < ' ' && c !in "\n\t\r\0" {
      Hex2Number(cp);
      assert EscapeChar(c) == "\\x" + Hex2(cp) && Spells(Hex2(cp), cp);
    } else if cp == 0xFEFF {
      MarkReads();
      assert EscapeChar(c) == "\\u" + "FEFF" && Spells("FEFF", cp);
    } else if '~' < c <= '\U{FFFF}' {
      Hex4Number(cp);
      assert EscapeChar(c) == "\\u" + Hex4(cp) && Spells(Hex4(cp), cp);
    }
  }

  /** The literal is plain ASCII without control characters, apart from characters beyond the
      basic plane, which Lean takes as they are. */
  predicate SafeInSource(c: char) {
    ' ' <= c <= '~' || c > '\U{FFFF}'
  }

  lemma {:induction false} LiteralIsSafe(s: string)
    ensures forall c :: c in Escape(s) ==> SafeInSource(c)
  {
    hide EscapeChar, SafeInSource;
    if s != "" {
      LiteralIsSafe(s[1..]);
      EscapeIsSafe(s[0]);
    }
  }

  lemma EscapeIsSafe(x: char)
    ensures forall c :: c in EscapeChar(x) ==> SafeInSource(c)
  {
    hide HexNumber, Hex2, Hex4;
    var cp := x as int;
    if 0x7E < cp <= 0xFFFF && cp != 0xFEFF {
      Hex4Number(cp);
    } else if cp < 0x20 && |EscapeChar(x)| > 2 {
      Hex2Number(cp);
    }
  }
}
