/** What the scanner must not look into: line comments, nested block comments, string literals and
    character literals hold no site and leave the scan of what follows as it was. Each is given by
    its grammar, and every text that opens one either closes it or holds no further site. */
module RenameLexer {
  import opened Prelude
  import opened RenameScan
  import opened RenameRescan
  import LeanLiteral

  // ----- line comments -----

  lemma {:induction false} CommentLine(prev: char, body: string, rest: string, off: nat)
    requires '\n' !in body
    ensures Scan(prev, body + "\n" + rest, LineComment, off) == Scan('\n', rest, Code, off + |body| + 1)
    decreases |body|
  {
    hide Scan;
    var r := body + "\n" + rest;
    if body == "" {
      assert r == "\n" + rest;
      ScanOnce(prev, r, LineComment, off, "\n", rest);
    } else {
      assert body[0] in body && forall c :: c in body[1..] ==> c in body;
      assert r == [body[0]] + (body[1..] + "\n" + rest);
      ScanOnce(prev, r, LineComment, off, [body[0]], body[1..] + "\n" + rest);
      CommentLine(body[0], body[1..], rest, off + 1);
    }
  }

  lemma ScanOver(prev: char, mode: Mode, off: nat)
    ensures Scan(prev, "", mode, off) == []
  {
  }

  lemma {:induction false} OpenLine(prev: char, body: string, off: nat)
    requires '\n' !in body
    ensures Scan(prev, body, LineComment, off) == []
    decreases |body|
  {
    hide Scan;
    if body == "" {
      ScanOver(prev, LineComment, off);
    } else {
      assert body[0] in body && forall c :: c in body[1..] ==> c in body;
      assert body == [body[0]] + body[1..];
      ScanOnce(prev, body, LineComment, off, [body[0]], body[1..]);
      OpenLine(body[0], body[1..], off + 1);
    }
  }

  lemma LineOpens(prev: char, r: string, off: nat)
    ensures Scan(prev, "--" + r, Code, off) == Scan('-', r, LineComment, off + 2)
  {
    hide Scan;
    var text := "--" + r;
    assert text[..2] == "--" && text[0] != '/';
    ScanOnce(prev, text, Code, off, "--", r);
  }

  lemma AtBreak(r: string, k: nat)
    requires k < |r| && r[k] == '\n'
    ensures r == r[..k] + "\n" + r[k + 1..]
  {
  }

  /** A line comment is skipped up to its line end, or holds all that is left of the file. */
  lemma LineCommentSkipped(prev: char, r: string, off: nat)
    ensures Scan(prev, "--" + r, Code, off)
      == if '\n' in r then Scan('\n', r[FirstBreak(r) + 1..], Code, off + FirstBreak(r) + 3) else []
  {
    hide Scan, FirstBreak, Step;
    LineOpens(prev, r, off);
    if '\n' in r {
      var k := FirstBreak(r);
      AtBreak(r, k);
      CommentLine('-', r[..k], r[k + 1..], off + 2);
    } else {
      OpenLine('-', r, off + 2);
    }
  }

  // ----- block comments -----

  /** A block comment: runs of text and comments inside it. */
  datatype Comment = Comment(parts: seq<Part>)

  datatype Part = Words(text: string) | Nested(inner: Comment)

  function CommentText(c: Comment): string
    decreases c, 1
  {
    "/-" + PartsText(c.parts) + "-/"
  }

  function PartsText(ps: seq<Part>): string
    decreases ps, 0
  {
    if ps == [] then "" else PartText(ps[0]) + PartsText(ps[1..])
  }

  function PartText(p: Part): string
    decreases p, 2
  {
    match p
    case Words(text) => text
    case Nested(inner) => CommentText(inner)
  }

  predicate IsMark(a: char, b: char) {
    (a == '/' && b == '-') || (a == '-' && b == '/')
  }

  /** No marker starts inside the run, which `next` follows. */
  predicate QuietRun(text: string, next: char) {
    text == "" || (!IsMark(text[0], First(text[1..], next)) && QuietRun(text[1..], next))
  }

  function First(s: string, next: char): char {
    if s == "" then next else s[0]
  }

  /** Every run is quiet in front of what follows it; the last one stands before a closing marker. */
  predicate Quiet(ps: seq<Part>)
    decreases ps, 0
  {
    ps == [] || (QuietPart(ps[0], First(PartsText(ps[1..]), '-')) && Quiet(ps[1..]))
  }

  predicate QuietPart(p: Part, next: char)
    decreases p, 2
  {
    match p
    case Words(text) => QuietRun(text, next)
    case Nested(inner) => Quiet(inner.parts)
  }

  /** The last character of `s`, or the one before it. */
  function Last(prev: char, s: string): char {
    if s == "" then prev else s[|s| - 1]
  }

  lemma {:induction false} WordsSkipped(prev: char, text: string, rest: string, depth: nat, off: nat)
    requires rest != "" && QuietRun(text, rest[0]) && depth > 0
    ensures Scan(prev, text + rest, BlockComment(depth), off)
      == Scan(Last(prev, text), rest, BlockComment(depth), off + |text|)
    decreases |text|
  {
    hide Scan;
    if text == "" {
      assert text + rest == rest;
    } else {
      var c, later := text[0], text[1..] + rest;
      assert text + rest == [c] + later && later[0] == First(text[1..], rest[0]);
      OneInComment(prev, c, later, depth, off);
      WordsSkipped(c, text[1..], rest, depth, off + 1);
    }
  }

  lemma OneInComment(prev: char, c: char, later: string, depth: nat, off: nat)
    requires depth > 0 && (later == "" || !IsMark(c, later[0]))
    ensures Scan(prev, [c] + later, BlockComment(depth), off) == Scan(c, later, BlockComment(depth), off + 1)
  {
    hide Scan;
    var r := [c] + later;
    assert "/-"[0] == '/' && "/-"[1] == '-' && "-/"[0] == '-' && "-/"[1] == '/';
    if |r| > 1 { assert r[1] == later[0]; }
    ScanOnce(prev, r, BlockComment(depth), off, [c], later);
  }

  lemma Opening(prev: char, rest: string, depth: nat, off: nat)
    ensures Scan(prev, "/-" + rest, if depth == 0 then Code else BlockComment(depth), off)
      == Scan('-', rest, BlockComment(depth + 1), off + 2)
  {
    hide Scan;
    var r := "/-" + rest;
    assert r[..2] == "/-";
    ScanOnce(prev, r, if depth == 0 then Code else BlockComment(depth), off, "/-", rest);
  }

  lemma Closing(prev: char, rest: string, depth: nat, off: nat)
    ensures Scan(prev, "-/" + rest, BlockComment(depth + 1), off)
      == Scan('/', rest, if depth == 0 then Code else BlockComment(depth), off + 2)
  {
    hide Scan;
    var r := "-/" + rest;
    assert r[..2] == "-/" && r[0] == '-';
    ScanOnce(prev, r, BlockComment(depth + 1), off, "-/", rest);
  }

  lemma {:induction false} PartsSkipped(prev: char, ps: seq<Part>, rest: string, depth: nat, off: nat)
    requires Quiet(ps) && depth > 0
    ensures Scan(prev, PartsText(ps) + ("-/" + rest), BlockComment(depth), off)
      == Scan(Last(prev, PartsText(ps)), "-/" + rest, BlockComment(depth), off + |PartsText(ps)|)
    decreases ps, 0
  {
    hide Scan, QuietRun;
    var close := "-/" + rest;
    if ps == [] {
      assert PartsText(ps) + close == close;
    } else {
      var t, more := PartText(ps[0]), PartsText(ps[1..]);
      SeqAssociates(t, more, close);
      assert (more + close)[0] == First(more, '-');
      PartSkipped(prev, ps[0], more + close, depth, off);
      PartsSkipped(Last(prev, t), ps[1..], rest, depth, off + |t|);
    }
  }

  lemma {:induction false} PartSkipped(prev: char, p: Part, rest: string, depth: nat, off: nat)
    requires rest != "" && QuietPart(p, rest[0]) && depth > 0
    ensures Scan(prev, PartText(p) + rest, BlockComment(depth), off)
      == Scan(Last(prev, PartText(p)), rest, BlockComment(depth), off + |PartText(p)|)
    decreases p, 2
  {
    hide Scan;
    match p {
      case Words(text) => WordsSkipped(prev, text, rest, depth, off);
      case Nested(inner) => CommentRun(prev, inner, rest, depth, off);
    }
  }

  lemma {:induction false} CommentRun(prev: char, c: Comment, rest: string, depth: nat, off: nat)
    requires Quiet(c.parts)
    ensures var mode := if depth == 0 then Code else BlockComment(depth);
      Scan(prev, CommentText(c) + rest, mode, off) == Scan('/', rest, mode, off + |CommentText(c)|)
    decreases c, 1
  {
    hide Scan;
    var t := PartsText(c.parts);
    assert CommentText(c) + rest == "/-" + (t + ("-/" + rest));
    Opening(prev, t + ("-/" + rest), depth, off);
    PartsSkipped('-', c.parts, rest, depth + 1, off + 2);
    Closing(Last('-', t), rest, depth, off + 2 + |t|);
  }

  /** A block comment in code is skipped as a whole, however deep the comments inside it nest. */
  lemma BlockCommentSkipped(prev: char, c: Comment, rest: string, off: nat)
    requires Quiet(c.parts)
    ensures Scan(prev, CommentText(c) + rest, Code, off) == Scan('/', rest, Code, off + |CommentText(c)|)
  {
    CommentRun(prev, c, rest, 0, off);
  }

  /** The parts up to the closing marker and what follows it. */
  function ReadParts(r: string): (x: Option<(seq<Part>, string)>)
    ensures x.Some? ==> |x.value.1| < |r|
    decreases |r|
  {
    if r == "" then None
    else if "-/" <= r then Some(([], r[2..]))
    else if "/-" <= r then
      var inner := ReadParts(r[2..]);
      if inner.None? then None
      else
        var more := ReadParts(inner.value.1);
        if more.None? then None else Some(([Nested(Comment(inner.value.0))] + more.value.0, more.value.1))
    else
      var more := ReadParts(r[1..]);
      if more.None? then None else Some(([Words([r[0]])] + more.value.0, more.value.1))
  }

  /** What is read is a comment of the grammar, and it is what stands in the text. */
  lemma {:induction false} ReadPartsSound(r: string)
    requires ReadParts(r).Some?
    ensures var (ps, rest) := ReadParts(r).value; Quiet(ps) && r == PartsText(ps) + ("-/" + rest)
    decreases |r|
  {
    if "-/" <= r {
      assert r == r[..2] + r[2..];
      assert "" + ("-/" + r[2..]) == "-/" + r[2..];
    } else if "/-" <= r {
      var inner := ReadParts(r[2..]).value;
      ReadPartsSound(r[2..]);
      ReadPartsSound(inner.1);
      NestedSound(r, inner.0, inner.1);
    } else {
      ReadPartsSound(r[1..]);
      WordSound(r);
    }
  }

  lemma WordSound(r: string)
    requires r != "" && !("-/" <= r) && !("/-" <= r) && ReadParts(r[1..]).Some?
    requires var (ps, rest) := ReadParts(r[1..]).value; Quiet(ps) && r[1..] == PartsText(ps) + ("-/" + rest)
    ensures var (ps, rest) := ReadParts(r).value; Quiet(ps) && r == PartsText(ps) + ("-/" + rest)
  {
    hide Quiet, QuietRun, ReadParts, PartsText;
    var (more, rest) := ReadParts(r[1..]).value;
    WordReads(r);
    WordQuiet(r, more, rest);
    assert r == r[..1] + r[1..];
    SeqAssociates(r[..1], PartsText(more), "-/" + rest);
  }

  lemma WordReads(r: string)
    requires r != "" && !("-/" <= r) && !("/-" <= r) && ReadParts(r[1..]).Some?
    ensures var (more, rest) := ReadParts(r[1..]).value; ReadParts(r) == Some(([Words(r[..1])] + more, rest))
  {
    assert r[..1] == [r[0]];
  }

  lemma WordQuiet(r: string, more: seq<Part>, rest: string)
    requires r != "" && !("-/" <= r) && !("/-" <= r)
    requires Quiet(more) && r[1..] == PartsText(more) + ("-/" + rest)
    ensures Quiet([Words(r[..1])] + more) && PartsText([Words(r[..1])] + more) == r[..1] + PartsText(more)
  {
    hide QuietRun;
    var next := First(PartsText(more), '-');
    assert ([Words(r[..1])] + more)[1..] == more;
    assert r[1] == r[1..][0] == next && r[..1] == [r[0]];
    QuietOne(r[0], next);
  }

  lemma QuietOne(c: char, next: char)
    requires !IsMark(c, next)
    ensures QuietRun([c], next)
  {
    assert [c][1..] == "";
  }

  lemma NestedSound(r: string, inner: seq<Part>, after: string)
    requires "/-" <= r && ReadParts(r[2..]) == Some((inner, after)) && ReadParts(after).Some?
    requires Quiet(inner) && r[2..] == PartsText(inner) + ("-/" + after)
    requires var (ps, rest) := ReadParts(after).value; Quiet(ps) && after == PartsText(ps) + ("-/" + rest)
    ensures var (ps, rest) := ReadParts(r).value; Quiet(ps) && r == PartsText(ps) + ("-/" + rest)
  {
    hide Quiet, ReadParts, PartsText;
    var (more, rest) := ReadParts(after).value;
    var c := Comment(inner);
    var ps := [Nested(c)] + more;
    NestedReads(r, inner, after);
    NestedQuiet(c, more);
    NestedText(r, PartsText(inner), after, PartsText(more), "-/" + rest);
  }

  lemma NestedReads(r: string, inner: seq<Part>, after: string)
    requires "/-" <= r && ReadParts(r[2..]) == Some((inner, after)) && ReadParts(after).Some?
    ensures var (more, rest) := ReadParts(after).value; ReadParts(r) == Some(([Nested(Comment(inner))] + more, rest))
  {
    assert r[0] == "/-"[0] && "-/"[0] == '-';
  }

  lemma NestedQuiet(c: Comment, more: seq<Part>)
    requires Quiet(c.parts) && Quiet(more)
    ensures Quiet([Nested(c)] + more) && PartsText([Nested(c)] + more) == CommentText(c) + PartsText(more)
  {
    hide QuietRun, CommentText;
    assert ([Nested(c)] + more)[1..] == more;
  }

  lemma NestedText(r: string, t: string, after: string, u: string, close: string)
    requires "/-" <= r && r[2..] == t + ("-/" + after) && after == u + close
    ensures r == "/-" + t + "-/" + u + close
  {
    var open, shut := "/-", "-/";
    assert r == open + r[2..];
    SeqAssociates(open, t, shut + after);
    SeqAssociates(open + t, shut, after);
    SeqAssociates(open + t + shut, u, close);
    assert r == open + t + shut + u + close;
  }

  /** A comment that is never closed hides everything after it. */
  lemma {:induction false} UnclosedHides(prev: char, r: string, depth: nat, off: nat)
    requires ReadParts(r).None? && depth > 0
    ensures Scan(prev, r, BlockComment(depth), off) == []
    decreases |r|
  {
    hide Scan, Quiet, PartsText;
    if r == "" {
      ScanOver(prev, BlockComment(depth), off);
    } else if "/-" <= r {
      var later := r[2..];
      assert r == "/-" + later && r[0] == "/-"[0] && "-/"[0] == '-';
      if ReadParts(later).None? {
        Opening(prev, later, depth, off);
        UnclosedHides('-', later, depth + 1, off + 2);
      } else {
        var rest := ReadParts(later).value.1;
        ClosedSkipped(prev, later, depth, off);
        UnclosedHides('/', rest, depth, off + 2 + |later| - |rest|);
      }
    } else {
      var later := r[1..];
      assert r == [r[0]] + later;
      OneInComment(prev, r[0], later, depth, off);
      UnclosedHides(r[0], later, depth, off + 1);
    }
  }

  /** A comment that is closed, at any depth. */
  lemma ClosedSkipped(prev: char, r: string, depth: nat, off: nat)
    requires ReadParts(r).Some?
    ensures var rest := ReadParts(r).value.1; var mode := if depth == 0 then Code else BlockComment(depth);
      Scan(prev, "/-" + r, mode, off) == Scan('/', rest, mode, off + 2 + |r| - |rest|)
  {
    hide Scan, Quiet, PartsText, ReadParts;
    var (ps, rest) := ReadParts(r).value;
    ReadPartsSound(r);
    var c, t := Comment(ps), PartsText(ps);
    SeqAssociates("/-", t, "-/" + rest);
    SeqAssociates("/-" + t, "-/", rest);
    assert CommentText(c) == "/-" + t + "-/";
    CommentRun(prev, c, rest, depth, off);
  }

  /** Every text after an opening marker: its comment is skipped, or it has no end and no site. */
  lemma BlockCommentOrNothing(prev: char, r: string, off: nat)
    ensures var x := ReadParts(r);
      Scan(prev, "/-" + r, Code, off)
        == if x.None? then [] else Scan('/', x.value.1, Code, off + 2 + |r| - |x.value.1|)
  {
    hide Scan;
    if ReadParts(r).None? {
      Opening(prev, r, 0, off);
      UnclosedHides('-', r, 1, off + 2);
    } else {
      ClosedSkipped(prev, r, 0, off);
    }
  }

  // ----- string literals -----

  /** The body of a string literal: plain characters, line feeds included, and backslash pairs. */
  datatype Piece = Plain(c: char) | Escaped(c: char)

  predicate PieceOk(p: Piece) {
    p.Plain? ==> p.c != '"' && p.c != '\\'
  }

  function PieceText(p: Piece): string {
    match p
    case Plain(c) => [c]
    case Escaped(c) => ['\\', c]
  }

  function BodyText(ps: seq<Piece>): string {
    if ps == [] then "" else PieceText(ps[0]) + BodyText(ps[1..])
  }

  lemma {:induction false} BodySkipped(prev: char, ps: seq<Piece>, rest: string, off: nat)
    requires forall p :: p in ps ==> PieceOk(p)
    ensures var t := BodyText(ps);
      Scan(prev, t + rest, StringLiteral, off) == Scan(Last(prev, t), rest, StringLiteral, off + |t|)
    decreases |ps|
  {
    hide Scan;
    if ps == [] {
      assert BodyText(ps) + rest == rest;
    } else {
      var t, more := PieceText(ps[0]), BodyText(ps[1..]);
      assert ps[0] in ps && forall p :: p in ps[1..] ==> p in ps;
      SeqAssociates(t, more, rest);
      ScanOnce(prev, t + (more + rest), StringLiteral, off, t, more + rest);
      BodySkipped(t[|t| - 1], ps[1..], rest, off + |t|);
    }
  }

  /** A string literal of code is stepped over: no escape hides its closing quote. */
  lemma LiteralSkipped(prev: char, ps: seq<Piece>, rest: string, off: nat)
    requires forall p :: p in ps ==> PieceOk(p)
    ensures Scan(prev, "\"" + BodyText(ps) + "\"" + rest, Code, off) == Scan('"', rest, Code, off + |BodyText(ps)| + 2)
  {
    hide Scan, BodyText;
    var t := BodyText(ps);
    assert "\"" + t + "\"" + rest == "\"" + (t + ("\"" + rest));
    ScanOnce(prev, "\"" + (t + ("\"" + rest)), Code, off, "\"", t + ("\"" + rest));
    BodySkipped('"', ps, "\"" + rest, off + 1);
    ScanOnce(Last('"', t), "\"" + rest, StringLiteral, off + 1 + |t|, "\"", rest);
  }

  /** The body up to the closing quote and what follows it. */
  function ReadBody(r: string): (x: Option<(seq<Piece>, string)>)
    ensures x.Some? ==> |x.value.1| < |r|
    decreases |r|
  {
    if r == "" || r == "\\" then None
    else if r[0] == '"' then Some(([], r[1..]))
    else
      var p := if r[0] == '\\' then Escaped(r[1]) else Plain(r[0]);
      var more := ReadBody(r[|PieceText(p)|..]);
      if more.None? then None else Some(([p] + more.value.0, more.value.1))
  }

  lemma {:induction false} ReadBodySound(r: string)
    requires ReadBody(r).Some?
    ensures var (ps, rest) := ReadBody(r).value;
      (forall p :: p in ps ==> PieceOk(p)) && r == BodyText(ps) + ("\"" + rest)
    decreases |r|
  {
    if r[0] == '"' {
      assert r == "\"" + r[1..] && "" + r == r;
    } else {
      var p := if r[0] == '\\' then Escaped(r[1]) else Plain(r[0]);
      var t := PieceText(p);
      ReadBodySound(r[|t|..]);
      var (more, rest) := ReadBody(r[|t|..]).value;
      assert r == t + r[|t|..] && ([p] + more)[1..] == more;
      SeqAssociates(t, BodyText(more), "\"" + rest);
    }
  }

  lemma {:induction false} OpenLiteralHides(prev: char, r: string, off: nat)
    requires ReadBody(r).None?
    ensures Scan(prev, r, StringLiteral, off) == []
    decreases |r|
  {
    hide Scan;
    if r == "" {
      ScanOver(prev, StringLiteral, off);
    } else if r == "\\" {
      BackslashEnds(prev, off);
    } else {
      var k := if r[0] == '\\' then 2 else 1;
      assert r == r[..k] + r[k..];
      ScanOnce(prev, r, StringLiteral, off, r[..k], r[k..]);
      OpenLiteralHides(r[k - 1], r[k..], off + k);
    }
  }

  lemma BackslashEnds(prev: char, off: nat)
    ensures Scan(prev, "\\", StringLiteral, off) == []
  {
    assert "\\"[1..] == "";
  }

  /** Every text after an opening quote: its literal is stepped over, or it has no end and no site. */
  lemma LiteralOrNothing(prev: char, r: string, off: nat)
    ensures var x := ReadBody(r);
      Scan(prev, "\"" + r, Code, off)
        == if x.None? then [] else Scan('"', x.value.1, Code, off + 1 + |r| - |x.value.1|)
  {
    hide Scan, BodyText;
    var x := ReadBody(r);
    if x.None? {
      var text := "\"" + r;
      assert text[0] == '"';
      ScanOnce(prev, text, Code, off, "\"", r);
      OpenLiteralHides('"', r, off + 1);
    } else {
      var (ps, rest) := x.value;
      ReadBodySound(r);
      assert "\"" + r == "\"" + BodyText(ps) + "\"" + rest;
      LiteralSkipped(prev, ps, rest, off);
    }
  }

  // ----- generated literals -----

  function Plains(t: string): seq<Piece> {
    if t == "" then [] else [Plain(t[0])] + Plains(t[1..])
  }

  lemma BodyFirst(p: Piece, more: seq<Piece>)
    ensures BodyText([p] + more) == PieceText(p) + BodyText(more)
  {
    assert ([p] + more)[1..] == more;
  }

  lemma {:induction false} PlainsText(t: string)
    requires '"' !in t && '\\' !in t
    ensures BodyText(Plains(t)) == t && forall p :: p in Plains(t) ==> PieceOk(p)
  {
    hide BodyText;
    if t == "" {
      NoBody();
    } else {
      assert t[0] in t && forall c :: c in t[1..] ==> c in t;
      PlainsText(t[1..]);
      BodyFirst(Plain(t[0]), Plains(t[1..]));
      assert t == [t[0]] + t[1..];
    }
  }

  lemma NoBody()
    ensures BodyText([]) == ""
  {
  }

  /** An escape is a backslash, one character, and no further quote or backslash. */
  lemma EscapeShape(c: char)
    ensures var e := LeanLiteral.EscapeChar(c);
      (|e| == 1 && e[0] != '"' && e[0] != '\\') || (|e| >= 2 && e[0] == '\\' && '"' !in e[2..] && '\\' !in e[2..])
  {
    hide LeanLiteral.HexNumber, LeanLiteral.Hex2, LeanLiteral.Hex4;
    var cp := c as int;
    var e := LeanLiteral.EscapeChar(c);
    if |e| > 2 {
      if cp == 0xFEFF {
        assert e[2..] == "FEFF";
      } else if cp > 0x7E {
        LeanLiteral.Hex4Number(cp);
        assert e[2..] == LeanLiteral.Hex4(cp);
      } else {
        LeanLiteral.Hex2Number(cp);
        assert e[2..] == LeanLiteral.Hex2(cp);
      }
    }
  }

  /** The pieces of a generated body. */
  function Pieces(s: string): seq<Piece> {
    if s == "" then [] else PiecesOf(LeanLiteral.EscapeChar(s[0])) + Pieces(s[1..])
  }

  function PiecesOf(e: string): seq<Piece>
    requires e != ""
  {
    if |e| == 1 then Plains(e) else [Escaped(e[1])] + Plains(e[2..])
  }

  lemma {:induction false} BodyAppend(a: seq<Piece>, b: seq<Piece>)
    ensures BodyText(a + b) == BodyText(a) + BodyText(b)
  {
    if a == [] {
      assert a + b == b;
    } else {
      BodyAppend(a[1..], b);
      assert (a + b)[1..] == a[1..] + b;
      SeqAssociates(PieceText(a[0]), BodyText(a[1..]), BodyText(b));
    }
  }

  lemma EscapePieces(c: char)
    ensures var e := LeanLiteral.EscapeChar(c);
      BodyText(PiecesOf(e)) == e && forall p :: p in PiecesOf(e) ==> PieceOk(p)
  {
    hide LeanLiteral.EscapeChar;
    var e := LeanLiteral.EscapeChar(c);
    EscapeShape(c);
    if |e| == 1 {
      PlainsText(e);
    } else {
      PlainsText(e[2..]);
      assert ([Escaped(e[1])] + Plains(e[2..]))[1..] == Plains(e[2..]);
      assert e == ['\\', e[1]] + e[2..];
    }
  }

  lemma {:induction false} GeneratedBody(s: string)
    ensures BodyText(Pieces(s)) == LeanLiteral.Escape(s) && forall p :: p in Pieces(s) ==> PieceOk(p)
  {
    hide LeanLiteral.EscapeChar, PiecesOf;
    if s != "" {
      EscapePieces(s[0]);
      GeneratedBody(s[1..]);
      BodyAppend(PiecesOf(LeanLiteral.EscapeChar(s[0])), Pieces(s[1..]));
    }
  }

  /** Whatever a generated string literal says, the scanner steps over it. */
  lemma GeneratedSkipped(prev: char, s: string, rest: string, off: nat)
    ensures var lit := LeanLiteral.Literal(s);
      Scan(prev, lit + rest, Code, off) == Scan('"', rest, Code, off + |lit|)
  {
    hide Scan, Pieces, BodyText;
    GeneratedBody(s);
    LiteralSkipped(prev, Pieces(s), rest, off);
  }

  // ----- character literals -----

  /** A quote that does not follow an identifier opens a literal of one character, whatever it is:
      a double quote in it does not open a string. */
  lemma CharLiteralSkipped(prev: char, c: char, rest: string, off: nat)
    requires !IsIdent(prev) && c != '\\'
    ensures Scan(prev, ['\'', c, '\''] + rest, Code, off) == Scan('\'', rest, Code, off + 3)
  {
    hide Scan;
    var lit := ['\'', c, '\''];
    ScanOnce(prev, lit + rest, Code, off, lit, rest);
  }

  lemma EscapedCharSkipped(prev: char, c: char, rest: string, off: nat)
    requires !IsIdent(prev)
    ensures Scan(prev, ['\'', '\\', c, '\''] + rest, Code, off) == Scan('\'', rest, Code, off + 4)
  {
    hide Scan;
    var lit := ['\'', '\\', c, '\''];
    ScanOnce(prev, lit + rest, Code, off, lit, rest);
  }

  /** After an identifier a quote belongs to it. */
  lemma PrimeIsIdent(prev: char, rest: string, off: nat)
    requires IsIdent(prev)
    ensures Scan(prev, "'" + rest, Code, off) == Scan('\'', rest, Code, off + 1)
  {
    hide Scan;
    ScanOnce(prev, "'" + rest, Code, off, "'", rest);
  }
}
