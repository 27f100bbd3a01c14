/** The rescan theorem: the old and the new text keep the scanner in step, rewritten
    keyword by rewritten keyword, so a second scan finds the kept sites and nothing else. */
module RenameRescan {
  import opened Prelude
  import opened RenameScan
  import opened RenameApply

  predicate Rewritten(s: StepResult, rel: string, wl: seq<Entry>) {
    s.name.Some? && !Allowed(rel, s.name.value, wl)
  }

  /** The text cut along the scan: every site off the whitelist is a keyword piece. */
  function Mark(prev: char, r: string, mode: Mode, rel: string, wl: seq<Entry>): seq<Piece>
    decreases |r|
  {
    if r == [] then []
    else
      var s := Step(prev, r, mode);
      var k := Min(s.advance, |r|);
      (if Rewritten(s, rel, wl) then [Kw] else Chars(r[..k])) + Mark(r[k - 1], r[k..], s.mode, rel, wl)
  }

  lemma KeywordText(prev: char, r: string)
    requires IsKeyword(prev, r)
    ensures |r| >= 7 && r[..7] == "theorem"
  {
  }

  lemma PieceFirst(p: Piece, tail: seq<Piece>)
    ensures Old([p] + tail) == OldOf(p) + Old(tail) && New([p] + tail) == NewOf(p) + New(tail)
  {
    assert ([p] + tail)[1..] == tail;
  }

  lemma OffsetsFirst(p: Piece, tail: seq<Piece>, off: nat)
    ensures KwOffsets([p] + tail, off) == (if p.Kw? then [off] else []) + KwOffsets(tail, off + |OldOf(p)|)
  {
    hide Old, New, OldOf;
    assert ([p] + tail)[1..] == tail;
  }

  lemma KwFirst(tail: seq<Piece>, off: nat)
    ensures Old([Kw] + tail) == "theorem" + Old(tail) && New([Kw] + tail) == "lemma" + New(tail)
    ensures KwOffsets([Kw] + tail, off) == [off] + KwOffsets(tail, off + 7)
  {
    hide Old, New, KwOffsets;
    PieceFirst(Kw, tail);
    OffsetsFirst(Kw, tail, off);
  }

  lemma MarkOnce(prev: char, r: string, mode: Mode, rel: string, wl: seq<Entry>)
    requires r != ""
    ensures var s := Step(prev, r, mode);
      var k := Min(s.advance, |r|);
      Mark(prev, r, mode, rel, wl)
        == (if Rewritten(s, rel, wl) then [Kw] else Chars(r[..k])) + Mark(r[k - 1], r[k..], s.mode, rel, wl)
  {
    hide Step, Allowed, Chars;
  }

  lemma StepTakes(prev: char, r: string, mode: Mode)
    requires r != ""
    ensures var s := Step(prev, r, mode); var k := Min(s.advance, |r|);
      0 < k && (s.name.Some? ==> k == 7 && r[..7] == "theorem")
  {
    hide Step;
    if Step(prev, r, mode).name.Some? { KeywordText(prev, r); }
  }

  lemma {:induction false} MarkOld(prev: char, r: string, mode: Mode, rel: string, wl: seq<Entry>)
    ensures Old(Mark(prev, r, mode, rel, wl)) == r
    decreases |r|
  {
    hide Step, Old, New, Mark, Allowed, Chars;
    if r == [] {
      NothingMarked(prev, mode, rel, wl);
    } else {
      var s := Step(prev, r, mode);
      var k := Min(s.advance, |r|);
      var tail := Mark(r[k - 1], r[k..], s.mode, rel, wl);
      MarkOnce(prev, r, mode, rel, wl);
      StepTakes(prev, r, mode);
      MarkOld(r[k - 1], r[k..], s.mode, rel, wl);
      assert r == r[..k] + r[k..];
      if Rewritten(s, rel, wl) {
        KwFirst(tail, 0);
      } else {
        CharsText(r[..k], tail);
      }
    }
  }

  lemma NothingMarked(prev: char, mode: Mode, rel: string, wl: seq<Entry>)
    ensures Old(Mark(prev, "", mode, rel, wl)) == ""
  {
  }

  lemma NoPieces()
    ensures Old([]) == "" && New([]) == ""
  {
  }

  // ----- offsets -----

  function KwOffsets(ps: seq<Piece>, off: nat): seq<nat> {
    if ps == [] then []
    else (if ps[0].Kw? then [off] else []) + KwOffsets(ps[1..], off + |OldOf(ps[0])|)
  }

  lemma {:induction false} KwOffsetsRange(ps: seq<Piece>, off: nat)
    ensures |KwOffsets(ps, off)| == Keywords(ps)
    ensures forall e :: e in KwOffsets(ps, off) ==> off <= e < off + |Old(ps)|
  {
    if ps != [] { KwOffsetsRange(ps[1..], off + |OldOf(ps[0])|); }
  }

  lemma {:induction false} KwOffsetsSplit(ps: seq<Piece>, m: nat, off: nat)
    requires m <= |ps|
    ensures KwOffsets(ps, off) == KwOffsets(ps[..m], off) + KwOffsets(ps[m..], off + |Old(ps[..m])|)
  {
    hide KwOffsets, Old, OldOf;
    if m == 0 {
      assert ps[0..] == ps && ps[..0] == [];
      NoPieceOffsets(off);
    } else {
      var p, rest := ps[0], ps[1..];
      var off', front := off + |OldOf(p)|, rest[..m - 1];
      KwOffsetsSplit(rest, m - 1, off');
      assert ps == [p] + rest && ps[..m] == [p] + front && rest[m - 1..] == ps[m..];
      OffsetsFirst(p, rest, off);
      OffsetsFirst(p, front, off);
      PieceFirst(p, front);
      SeqAssociates(if p.Kw? then [off] else [], KwOffsets(front, off'), KwOffsets(ps[m..], off' + |Old(front)|));
    }
  }

  lemma NoPieceOffsets(off: nat)
    ensures KwOffsets([], off) == [] && Old([]) == ""
  {
  }

  lemma {:induction false} KwOffsetsChars(s: string, ps: seq<Piece>, off: nat)
    ensures KwOffsets(Chars(s) + ps, off) == KwOffsets(ps, off + |s|)
  {
    if s == "" {
      assert Chars(s) + ps == ps;
    } else {
      assert (Chars(s) + ps)[1..] == Chars(s[1..]) + ps;
      KwOffsetsChars(s[1..], ps, off + 1);
    }
  }

  lemma {:induction false} EditsAppend(a: seq<Site>, b: seq<Site>, rel: string, wl: seq<Entry>)
    ensures Edits(a + b, rel, wl) == Edits(a, rel, wl) + Edits(b, rel, wl)
  {
    hide Allowed;
    if a == [] {
      assert a + b == b;
    } else {
      EditsAppend(a[1..], b, rel, wl);
      assert (a + b)[0] == a[0] && (a + b)[1..] == a[1..] + b;
      SeqAssociates(if Allowed(rel, a[0].name, wl) then [] else [a[0].off], Edits(a[1..], rel, wl), Edits(b, rel, wl));
    }
  }

  /** The keyword pieces are the edits `--apply` makes. */
  lemma {:induction false} MarkEdits(prev: char, r: string, mode: Mode, rel: string, wl: seq<Entry>, off: nat)
    ensures KwOffsets(Mark(prev, r, mode, rel, wl), off) == Edits(Scan(prev, r, mode, off), rel, wl)
    decreases |r|
  {
    hide Step, IsKeyword, Allowed, Chars, KwOffsets, Edits, Mark, Scan;
    if r == [] {
      NoOffsets(prev, mode, off, rel, wl);
    } else {
      var s := Step(prev, r, mode);
      var k := Min(s.advance, |r|);
      MarkOnce(prev, r, mode, rel, wl);
      assert r == r[..k] + r[k..];
      ScanOnce(prev, r, mode, off, r[..k], r[k..]);
      var tail := Mark(r[k - 1], r[k..], s.mode, rel, wl);
      var rest := Scan(r[k - 1], r[k..], s.mode, off + k);
      MarkEdits(r[k - 1], r[k..], s.mode, rel, wl, off + k);
      EditsAppend(Found(off, s), rest, rel, wl);
      EditsOfFound(off, s, rel, wl);
      if Rewritten(s, rel, wl) {
        KeywordText(prev, r);
        KwFirst(tail, off);
      } else {
        KwOffsetsChars(r[..k], tail, off);
      }
    }
  }

  lemma NoOffsets(prev: char, mode: Mode, off: nat, rel: string, wl: seq<Entry>)
    ensures KwOffsets(Mark(prev, [], mode, rel, wl), off) == Edits(Scan(prev, [], mode, off), rel, wl)
  {
  }

  lemma EditsOfFound(off: nat, s: StepResult, rel: string, wl: seq<Entry>)
    ensures Edits(Found(off, s), rel, wl) == if Rewritten(s, rel, wl) then [off] else []
  {
    if s.name.Some? { assert Found(off, s)[1..] == []; }
  }

  /** Splicing at the keyword pieces gives the new text. */
  lemma {:induction false} SpliceIsNew(text: string, i: nat, ps: seq<Piece>)
    requires i <= |text| && Old(ps) == text[i..]
    ensures Spliceable(text, i, KwOffsets(ps, i)) && Splice(text, i, KwOffsets(ps, i)) == New(ps)
    decreases |ps|
  {
    hide Old, New, KwOffsets;
    if ps == [] {
      NoPieces();
      NoPieceOffsets(i);
    } else {
      var p, rest := ps[0], ps[1..];
      var k := |OldOf(p)|;
      assert ps == [p] + rest;
      PieceFirst(p, rest);
      OffsetsFirst(p, rest, i);
      assert text[i + k..] == text[i..][k..] == Old(rest);
      SpliceIsNew(text, i + k, rest);
      var es := KwOffsets(rest, i + k);
      if p.Kw? {
        SpliceKeyword(text, i, es);
      } else {
        assert KwOffsets(ps, i) == es;
        SpliceOneMore(text, i, es);
      }
    }
  }

  lemma SpliceKeyword(text: string, i: nat, es: seq<nat>)
    requires i + 7 <= |text| && Spliceable(text, i + 7, es)
    ensures Spliceable(text, i, [i] + es) && Splice(text, i, [i] + es) == "lemma" + Splice(text, i + 7, es)
  {
    hide Splice;
    assert ([i] + es)[1..] == es && text[i..i] == "";
    SpliceFirst(text, i, [i] + es);
    assert text[i..i] + "lemma" == "lemma";
  }

  lemma SpliceFirst(text: string, prev: nat, edits: seq<nat>)
    requires Spliceable(text, prev, edits) && edits != []
    ensures Splice(text, prev, edits) == text[prev..edits[0]] + "lemma" + Splice(text, edits[0] + 7, edits[1..])
  {
  }

  lemma SpliceOneMore(text: string, i: nat, es: seq<nat>)
    requires i < |text| && Spliceable(text, i + 1, es)
    ensures Spliceable(text, i, es) && Splice(text, i, es) == [text[i]] + Splice(text, i + 1, es)
  {
    if es == [] {
      assert text[i..] == [text[i]] + text[i + 1..];
    } else {
      assert text[i..es[0]] == [text[i]] + text[i + 1..es[0]];
      var rest := Splice(text, es[0] + 7, es[1..]);
      SeqAssociates([text[i]], text[i + 1..es[0]], "lemma");
      SeqAssociates([text[i]], text[i + 1..es[0]] + "lemma", rest);
    }
  }

  // ----- one step on both texts -----

  /** The scanner cannot tell the two preceding characters apart. */
  predicate SamePrev(p: char, q: char) {
    IsIdent(p) == IsIdent(q) && IsNameDot(p) == IsNameDot(q)
  }

  /** The texts continue alike, up to the first letter of a rewritten keyword. */
  predicate Heads(a: string, b: string) {
    && (a == "" <==> b == "")
    && (a != "" ==> a[0] == b[0] || (a[0] == 't' && b[0] == 'l'))
  }

  lemma HeadsOf(ps: seq<Piece>)
    ensures Heads(Old(ps), New(ps))
  {
    Fronts(ps);
  }

  lemma PairCorresponds(w: string, front: string, tail: seq<Piece>)
    requires |w| == 2 && Foreign(w[1]) && front != ""
    ensures w <= front + Old(tail) <==> w <= front + New(tail)
  {
    HeadsOf(tail);
    var a, b := front + Old(tail), front + New(tail);
    assert a[0] == b[0] == front[0];
    if |front| == 1 {
      assert |a| > 1 ==> a[1] == Old(tail)[0];
      assert |b| > 1 ==> b[1] == New(tail)[0];
    } else {
      assert a[1] == b[1] == front[1];
    }
    assert w <= a <==> |a| >= 2 && w[0] == a[0] && w[1] == a[1];
    assert w <= b <==> |b| >= 2 && w[0] == b[0] && w[1] == b[1];
  }

  /** Does a character literal end after the opening quote and `x`? */
  predicate Closes(x: string) {
    var j := if |x| > 0 && x[0] == '\\' then 2 else 1;
    j < |x| && x[j] == '\''
  }

  lemma ClosesCorresponds(ps: seq<Piece>)
    ensures Closes(Old(ps)) == Closes(New(ps))
  {
    Fronts(ps);
    if ps != [] && ps[0].Ch? {
      HeadsOf(ps[1..]);
      Fronts(ps[1..]);
      if |ps| > 1 && ps[1].Ch? { HeadsOf(ps[2..]); }
      assert |ps| > 1 ==> ps[1..][1..] == ps[2..];
    }
  }

  lemma CharLiteralCorresponds(front: string, tail: seq<Piece>)
    requires front != "" && front[0] == '\'' && |front| == CharLiteralEnd(front + Old(tail))
    ensures CharLiteralEnd(front + New(tail)) == |front|
  {
    var a, b := front + Old(tail), front + New(tail);
    if |front| == 1 {
      ClosesCorresponds(tail);
      assert a[1..] == Old(tail) && b[1..] == New(tail);
      assert CharLiteralEnd(a) > 1 <==> Closes(Old(tail));
      assert CharLiteralEnd(b) > 1 <==> Closes(New(tail));
    } else {
      assert a[..|front|] == front == b[..|front|];
      assert forall k :: 0 <= k < |front| ==> a[k] == b[k];
    }
  }

  /** A word no rewritten keyword starts with stands in both texts or in neither. */
  lemma {:induction false} WordCorresponds(w: string, ps: seq<Piece>)
    requires 't' !in w && 'l' !in w
    ensures w <= Old(ps) <==> w <= New(ps)
    ensures w <= Old(ps) ==> |w| <= |ps| && Old(ps) == w + Old(ps[|w|..]) && New(ps) == w + New(ps[|w|..])
  {
    hide Old, New;
    Fronts(ps);
    if w == "" {
      assert ps[0..] == ps;
    } else if ps != [] {
      var x, more := w[..1], w[1..];
      assert w == x + more;
      WordCorresponds(more, ps[1..]);
      WordFront(w, ps[0], Old(ps[1..]), "theorem");
      WordFront(w, ps[0], New(ps[1..]), "lemma");
      if w <= Old(ps) {
        var later := ps[|w|..];
        assert ps[1..][|w| - 1..] == later;
        SeqAssociates(x, more, Old(later));
        SeqAssociates(x, more, New(later));
      }
    }
  }

  lemma WordFront(w: string, p: Piece, rest: string, kw: string)
    requires w != "" && kw != "" && kw[0] != w[0]
    ensures w <= (if p.Kw? then kw else [p.c]) + rest <==> p == Ch(w[0]) && w[1..] <= rest
  {
    var head := if p.Kw? then kw else [p.c];
    if w <= head + rest {
      assert (head + rest)[0] == w[0];
      assert w == (head + rest)[..|w|];
      assert w[1..] == rest[..|w| - 1];
    }
    if p == Ch(w[0]) && w[1..] <= rest {
      assert w == [w[0]] + w[1..];
    }
  }

  /** Neither text gains or loses a keyword the scanner would stop at. */
  lemma KeywordCorresponds(prev: char, q: char, front: string, tail: seq<Piece>)
    requires SamePrev(prev, q) && front != ""
    requires |front| == if IsKeyword(prev, front + Old(tail)) then 7 else 1
    ensures IsKeyword(q, front + New(tail)) == IsKeyword(prev, front + Old(tail))
  {
    var a, b := front + Old(tail), front + New(tail);
    if |front| == 7 {
      assert front == a[..7] == "theorem";
      assert b[..7] == front;
      Fronts(tail);
      assert |b| > 7 ==> b[7] == New(tail)[0];
      assert |a| > 7 ==> a[7] == Old(tail)[0];
    } else if IsKeyword(q, b) {
      NoNewKeyword(prev, q, front, tail);
    }
  }

  lemma KeywordIff(prev: char, rest: string)
    ensures IsKeyword(prev, "theorem" + rest)
      <==> !IsIdent(prev) && !IsNameDot(prev) && (rest == "" || IsBlank(rest[0]))
  {
    var r := "theorem" + rest;
    assert r[..7] == "theorem";
    assert rest != "" ==> r[7] == rest[0];
  }

  lemma WordTail(front: string, t: string)
    requires |front| == 1 && "theorem" <= front + t
    ensures front == "t" && "heorem" <= t
  {
    var b := front + t;
    assert front[0] == b[0] == "theorem"[0] && t == b[1..];
    assert b[1..7] == "heorem" && t[..6] == b[1..7];
  }

  lemma NoNewKeyword(prev: char, q: char, front: string, tail: seq<Piece>)
    requires SamePrev(prev, q) && |front| == 1 && IsKeyword(q, front + New(tail))
    ensures IsKeyword(prev, front + Old(tail))
  {
    hide Old, New;
    WordTail(front, New(tail));
    WordCorresponds("heorem", tail);
    var a, b := Old(tail[6..]), New(tail[6..]);
    SeqAssociates("t", "heorem", a);
    SeqAssociates("t", "heorem", b);
    assert "t" + "heorem" == "theorem";
    Fronts(tail[6..]);
    hide IsKeyword;
    KeywordIff(q, b);
    KeywordIff(prev, a);
  }

  /** The pieces of the name a keyword before `tail` declares. */
  function DeclaredPieces(tail: seq<Piece>): Option<seq<Piece>> {
    var q := tail[BlanksOf(tail)..];
    var n := NamePieces(q);
    if n.None? then None else Some(q[..n.value])
  }

  lemma DeclaredCorresponds(tail: seq<Piece>)
    ensures var span := DeclaredPieces(tail);
      if span.None? then DeclaredName(Old(tail)).None? && DeclaredName(New(tail)).None?
      else && DeclaredName(Old(tail)).Some? && DeclaredName(New(tail)).Some?
           && (DeclaredName(Old(tail)) == DeclaredName(New(tail)) <==> Keywords(span.value) == 0)
           && NameAt(Old(tail)[BlankRun(Old(tail))..]).Some?
           && NameAt(Old(tail)[BlankRun(Old(tail))..]).value.1 == |Old(span.value)|
           && NameAt(New(span.value)) == Some((DeclaredName(New(tail)).value, |New(span.value)|))
  {
    var q := tail[BlanksOf(tail)..];
    BlanksCorrespond(tail);
    NameCorresponds(q);
    if DeclaredPieces(tail).Some? {
      NameOfSpan(q);
    }
  }

  /** The rewritten pieces of a name are, by themselves, the name the new text has there. */
  lemma NameOfSpan(q: seq<Piece>)
    requires NamePieces(q).Some?
    ensures var span := q[..NamePieces(q).value];
      NameAt(New(q)).Some? && NameAt(New(span)) == Some((NameAt(New(q)).value.0, |New(span)|))
  {
    hide NameAt, New, Old, NamePieces, Keywords;
    var k := NamePieces(q).value;
    NameCorresponds(q);
    TextSplit(q, k);
    assert New(q)[..|New(q[..k])|] == New(q[..k]);
    NameLocal(New(q));
  }

  ghost predicate InStep(s: StepResult, t: StepResult, front: string, n: nat) {
    t.mode == s.mode && Min(t.advance, n) == |front| && (s.name.Some? <==> t.name.Some?)
  }

  /** An unedited step of the old text is the same step of the new text. */
  lemma StepCorresponds(prev: char, q: char, front: string, tail: seq<Piece>, mode: Mode)
    requires SamePrev(prev, q) && front != ""
    requires |front| == Min(Step(prev, front + Old(tail), mode).advance, |front + Old(tail)|)
    ensures var s, t := Step(prev, front + Old(tail), mode), Step(q, front + New(tail), mode);
      && InStep(s, t, front, |front + New(tail)|)
      && (s.name.Some? ==> s.name == DeclaredName(Old(tail)) && t.name == DeclaredName(New(tail)))
  {
    hide Old, New, CharLiteralEnd, IsKeyword, DeclaredName;
    var a, b := front + Old(tail), front + New(tail);
    HeadsOf(tail);
    assert a[0] == b[0] == front[0];
    PairCorresponds("/-", front, tail);
    PairCorresponds("-/", front, tail);
    PairCorresponds("--", front, tail);
    if mode.Code? && !("/-" <= a) && !("--" <= a) && a[0] != '"' {
      if a[0] == '\'' && !IsIdent(prev) {
        CharLiteralCorresponds(front, tail);
      } else {
        if IsKeyword(prev, a) { KeywordText(prev, a); }
        KeywordCorresponds(prev, q, front, tail);
        if IsKeyword(prev, a) {
          assert a[7..] == Old(tail) && b[7..] == New(tail);
          DeclaredCorresponds(tail);
        }
      }
    }
  }

  /** The scanner reads `lemma` as five characters of code. */
  lemma WordScan(q: char, x: string, off: nat)
    ensures Scan(q, "lemma" + x, Code, off) == Scan('a', x, Code, off + 5)
  {
    hide Scan;
    assert "lemma" + x == ['l'] + ("emma" + x);
    LetterScan(q, 'l', "emma" + x, off);
    assert "emma" + x == ['e'] + ("mma" + x);
    LetterScan('l', 'e', "mma" + x, off + 1);
    assert "mma" + x == ['m'] + ("ma" + x);
    LetterScan('e', 'm', "ma" + x, off + 2);
    assert "ma" + x == ['m'] + ("a" + x);
    LetterScan('m', 'm', "a" + x, off + 3);
    assert "a" + x == ['a'] + x;
    LetterScan('m', 'a', x, off + 4);
  }

  lemma LetterScan(q: char, c: char, x: string, off: nat)
    requires c != '/' && c != '-' && c != '"' && c != '\'' && c != 't'
    ensures Scan(q, [c] + x, Code, off) == Scan(c, x, Code, off + 1)
  {
    var r := [c] + x;
    assert r[0] == c && r[1..] == x;
    assert Step(q, r, Code) == StepResult(1, Code, None);
  }

  // ----- the whole scan -----

  function KeptSites(sites: seq<Site>, rel: string, wl: seq<Entry>): seq<Site> {
    if sites == [] then []
    else (if Allowed(rel, sites[0].name, wl) then [sites[0]] else []) + KeptSites(sites[1..], rel, wl)
  }

  lemma {:induction false} KeptAppend(a: seq<Site>, b: seq<Site>, rel: string, wl: seq<Entry>)
    ensures KeptSites(a + b, rel, wl) == KeptSites(a, rel, wl) + KeptSites(b, rel, wl)
  {
    hide Allowed;
    if a == [] {
      assert a + b == b;
    } else {
      KeptAppend(a[1..], b, rel, wl);
      assert (a + b)[0] == a[0] && (a + b)[1..] == a[1..] + b;
      var front := if Allowed(rel, a[0].name, wl) then [a[0]] else [];
      SeqAssociates(front, KeptSites(a[1..], rel, wl), KeptSites(b, rel, wl));
    }
  }

  /** How many of the edits lie before `off`. */
  function Below(edits: seq<nat>, off: nat): nat {
    if edits == [] then 0 else (if edits[0] < off then 1 else 0) + Below(edits[1..], off)
  }

  lemma {:induction false} NoneBelow(edits: seq<nat>, off: nat)
    requires forall e :: e in edits ==> off <= e
    ensures Below(edits, off) == 0
  {
    if edits != [] {
      assert edits[0] in edits && forall e :: e in edits[1..] ==> e in edits;
      NoneBelow(edits[1..], off);
    }
  }

  /** Where the name declared by the keyword at `off` lies: from its first character to its end. */
  function NameStart(text: string, off: nat): nat
    requires off + 7 <= |text|
  {
    off + 7 + BlankRun(text[off + 7..])
  }

  function NameEnd(text: string, off: nat): nat
    requires off + 7 <= |text|
  {
    var n := NameAt(text[off + 7..][BlankRun(text[off + 7..])..]);
    NameStart(text, off) + if n.Some? then n.value.1 else 0
  }

  /** An edit falls inside the name declared at `off`. */
  predicate EditInName(text: string, edits: seq<nat>, off: nat)
    requires off + 7 <= |text|
  {
    exists e :: e in edits && NameStart(text, off) <= e < NameEnd(text, off)
  }

  /** The edits from `lo` up to `hi`. */
  function Within(edits: seq<nat>, lo: nat, hi: nat): seq<nat> {
    if edits == [] then []
    else (if lo <= edits[0] < hi then [edits[0]] else []) + Within(edits[1..], lo, hi)
  }

  /** What the rewrite makes of the name declared at `off`: its characters with the edits inside them
      made, read as a name. */
  function Renamed(text: string, edits: seq<nat>, off: nat): Option<string>
    requires off + 7 <= |text| && NameEnd(text, off) <= |text|
  {
    var lo, hi := NameStart(text, off), NameEnd(text, off);
    var inside := Within(edits, lo, hi);
    if Spliceable(text[..hi], lo, inside) then NameAlone(Splice(text[..hi], lo, inside)) else None
  }

  /** The name that takes up the whole of `r`. */
  function NameAlone(r: string): Option<string> {
    var n := NameAt(r);
    if n.Some? && n.value.1 == |r| then Some(n.value.0) else None
  }

  lemma NameEndFits(text: string, off: nat)
    requires off + 7 <= |text|
    ensures NameEnd(text, off) <= |text|
  {
  }

  lemma {:induction false} WithinAppend(a: seq<nat>, b: seq<nat>, lo: nat, hi: nat)
    ensures Within(a + b, lo, hi) == Within(a, lo, hi) + Within(b, lo, hi)
  {
    if a == [] {
      assert a + b == b;
    } else {
      WithinAppend(a[1..], b, lo, hi);
      assert (a + b)[1..] == a[1..] + b;
      SeqAssociates(if lo <= a[0] < hi then [a[0]] else [], Within(a[1..], lo, hi), Within(b, lo, hi));
    }
  }

  lemma {:induction false} WithinAll(edits: seq<nat>, lo: nat, hi: nat)
    requires forall e :: e in edits ==> lo <= e < hi
    ensures Within(edits, lo, hi) == edits
  {
    if edits != [] {
      assert edits[0] in edits && forall e :: e in edits[1..] ==> e in edits;
      WithinAll(edits[1..], lo, hi);
    }
  }

  lemma {:induction false} WithinNone(edits: seq<nat>, lo: nat, hi: nat)
    requires forall e :: e in edits ==> !(lo <= e < hi)
    ensures Within(edits, lo, hi) == []
  {
    if edits != [] {
      assert edits[0] in edits && forall e :: e in edits[1..] ==> e in edits;
      WithinNone(edits[1..], lo, hi);
    }
  }

  lemma {:induction false} ScanRange(prev: char, r: string, mode: Mode, off: nat)
    ensures forall x :: x in Scan(prev, r, mode, off) ==> off <= x.off && x.off + 7 <= off + |r|
    decreases |r|
  {
    hide Step;
    if r != [] {
      var s := Step(prev, r, mode);
      var k := Min(s.advance, |r|);
      ScanRange(r[k - 1], r[k..], s.mode, off + k);
    }
  }

  lemma {:induction false} KeptRange(sites: seq<Site>, rel: string, wl: seq<Entry>)
    ensures forall x :: x in KeptSites(sites, rel, wl) ==> x in sites && Allowed(rel, x.name, wl)
    ensures forall e :: e in Edits(sites, rel, wl) ==> exists x :: x in sites && x.off == e
  {
    if sites != [] {
      KeptRange(sites[1..], rel, wl);
      forall e | e in Edits(sites, rel, wl) ensures exists x :: x in sites && x.off == e {
        if e !in Edits(sites[1..], rel, wl) {
          assert sites[0].off == e;
        } else {
          var x :| x in sites[1..] && x.off == e;
          assert x in sites;
        }
      }
    }
  }

  /** What the second scan shows for one kept site, `removed` keywords having been rewritten before. */
  ghost predicate Shown(text: string, edits: seq<nat>, removed: nat, was: Site, now: Site) {
    && was.off + 7 <= |text| && NameEnd(text, was.off) <= |text|
    && now.off == was.off - 2 * removed - 2 * Below(edits, was.off)
    && Renamed(text, edits, was.off) == Some(now.name)
    && (now.name == was.name <==> !EditInName(text, edits, was.off))
  }

  ghost predicate AllShown(text: string, edits: seq<nat>, removed: nat, kept: seq<Site>, again: seq<Site>) {
    |again| == |kept| && forall i :: 0 <= i < |kept| ==> Shown(text, edits, removed, kept[i], again[i])
  }

  /** The edits inside a span of pieces are its keywords. */
  lemma SpanOffsets(tail: seq<Piece>, base: nat, m: nat, n: nat)
    requires m <= |tail| && n <= |tail| - m
    ensures var span, start := tail[m..][..n], base + |Old(tail[..m])|;
      && Within(KwOffsets(tail, base), start, start + |Old(span)|) == KwOffsets(span, start)
      && ((exists e :: e in KwOffsets(tail, base) && start <= e < start + |Old(span)|) <==> Keywords(span) > 0)
  {
    hide KwOffsets, Old, Keywords, Within;
    var q := tail[m..];
    var span, start := q[..n], base + |Old(tail[..m])|;
    KwOffsetsSplit(tail, m, base);
    KwOffsetsSplit(q, n, start);
    KwOffsetsRange(tail[..m], base);
    KwOffsetsRange(span, start);
    KwOffsetsRange(q[n..], start + |Old(span)|);
    InMiddle(KwOffsets(tail[..m], base), KwOffsets(span, start), KwOffsets(q[n..], start + |Old(span)|),
             start, start + |Old(span)|);
  }

  lemma InMiddle(before: seq<nat>, inside: seq<nat>, behind: seq<nat>, lo: nat, hi: nat)
    requires forall e :: e in before ==> e < lo
    requires forall e :: e in inside ==> lo <= e < hi
    requires forall e :: e in behind ==> hi <= e
    ensures (exists e :: e in before + (inside + behind) && lo <= e < hi) <==> |inside| > 0
    ensures Within(before + (inside + behind), lo, hi) == inside
  {
    hide Within;
    var all := before + (inside + behind);
    WithinAppend(before, inside + behind, lo, hi);
    WithinAppend(inside, behind, lo, hi);
    WithinNone(before, lo, hi);
    WithinAll(inside, lo, hi);
    WithinNone(behind, lo, hi);
    assert Within(all, lo, hi) == inside;
    WithinMembers(all, lo, hi);
    if inside != [] { assert inside[0] in Within(all, lo, hi); }
  }

  lemma {:induction false} WithinMembers(edits: seq<nat>, lo: nat, hi: nat)
    ensures forall e :: e in Within(edits, lo, hi) <==> e in edits && lo <= e < hi
  {
    if edits != [] {
      WithinMembers(edits[1..], lo, hi);
      assert forall e :: e in edits <==> e == edits[0] || e in edits[1..];
    }
  }

  /** An edit inside the declared name is a keyword among its pieces, and making the edits there gives
      the name the new text has. */
  lemma EditsInSpan(text: string, i: nat, tail: seq<Piece>)
    requires i + 7 <= |text| && Old(tail) == text[i + 7..] && DeclaredPieces(tail).Some?
    ensures EditInName(text, KwOffsets(tail, i + 7), i) <==> Keywords(DeclaredPieces(tail).value) > 0
    ensures NameEnd(text, i) <= |text| && Renamed(text, KwOffsets(tail, i + 7), i) == DeclaredName(New(tail))
  {
    hide KwOffsets, Old, New, Keywords, NameAt, BlankRun, BlanksOf, NamePieces;
    hide Splice, Spliceable, Within, DeclaredName;
    var m := BlanksOf(tail);
    var q := tail[m..];
    var span := q[..NamePieces(q).value];
    BlanksCorrespond(tail);
    BlankPieces(tail);
    DeclaredCorresponds(tail);
    SpanOffsets(tail, i + 7, m, |span|);
    NameEndFits(text, i);
    var lo, hi := NameStart(text, i), NameEnd(text, i);
    assert lo == i + 7 + m && hi == lo + |Old(span)|;
    TextSplit(q, |span|);
    assert text[..hi][lo..] == Old(span) by { SpanText(text, i, tail, q, span, lo, hi); }
    SpliceIsNew(text[..hi], lo, span);
  }

  lemma SpanText(text: string, i: nat, tail: seq<Piece>, q: seq<Piece>, span: seq<Piece>, lo: nat, hi: nat)
    requires i + 7 <= lo <= hi <= |text| && Old(tail) == text[i + 7..] && Old(tail)[lo - i - 7..] == Old(q)
    requires Old(span) <= Old(q) && hi == lo + |Old(span)|
    ensures text[..hi][lo..] == Old(span)
  {
    hide Old;
    assert text[lo..] == Old(q);
    assert text[..hi][lo..] == text[lo..][..hi - lo];
  }

  lemma {:induction false} BlankPieces(tail: seq<Piece>)
    ensures |Old(tail[..BlanksOf(tail)])| == BlanksOf(tail)
  {
    var m := BlanksOf(tail);
    if m > 0 {
      BlankPieces(tail[1..]);
      assert tail[..m][1..] == tail[1..][..m - 1];
    }
  }

  lemma ScanOnce(prev: char, r: string, mode: Mode, off: nat, front: string, rest: string)
    requires front != "" && r == front + rest && |front| == Min(Step(prev, r, mode).advance, |r|)
    ensures var s := Step(prev, r, mode);
      Scan(prev, r, mode, off) == Found(off, s) + Scan(front[|front| - 1], rest, s.mode, off + |front|)
  {
    hide Step;
    assert r[|front|..] == rest && r[|front| - 1] == front[|front| - 1];
  }

  lemma KeptOfFound(off: nat, s: StepResult, rel: string, wl: seq<Entry>)
    ensures KeptSites(Found(off, s), rel, wl) == if Rewritten(s, rel, wl) then [] else Found(off, s)
  {
    if s.name.Some? { assert Found(off, s)[1..] == []; }
  }

  /** The edits made from `i + 7` on, seen from the rewritten keyword at `i`. */
  lemma ShownAfterEdit(text: string, i: nat, edits: seq<nat>, removed: nat, kept: seq<Site>, again: seq<Site>)
    requires AllShown(text, edits, removed + 1, kept, again)
    requires forall x :: x in kept ==> i + 7 <= x.off
    ensures AllShown(text, [i] + edits, removed, kept, again)
  {
    forall j | 0 <= j < |kept| ensures Shown(text, [i] + edits, removed, kept[j], again[j]) {
      assert Shown(text, edits, removed + 1, kept[j], again[j]);
      assert kept[j] in kept;
      assert ([i] + edits)[1..] == edits;
      assert forall e :: e in [i] + edits <==> e == i || e in edits;
      assert Within([i] + edits, NameStart(text, kept[j].off), NameEnd(text, kept[j].off))
          == Within(edits, NameStart(text, kept[j].off), NameEnd(text, kept[j].off));
    }
  }

  lemma TailRange(prev: char, r: string, mode: Mode, off: nat, rel: string, wl: seq<Entry>)
    ensures forall x :: x in KeptSites(Scan(prev, r, mode, off), rel, wl) ==> off <= x.off
    ensures forall e :: e in Edits(Scan(prev, r, mode, off), rel, wl) ==> off <= e
  {
    ScanRange(prev, r, mode, off);
    KeptRange(Scan(prev, r, mode, off), rel, wl);
  }

  /** A kept keyword at `i`: nothing before it is edited in `edits`, and its name is read unchanged
      exactly when no edit lies inside. */
  lemma ShownHere(text: string, i: nat, tail: seq<Piece>, removed: nat, name: string, name': string)
    requires i + 7 <= |text| && 2 * removed <= i && Old(tail) == text[i + 7..]
    requires DeclaredName(Old(tail)) == Some(name) && DeclaredName(New(tail)) == Some(name')
    ensures Shown(text, KwOffsets(tail, i + 7), removed, Site(i, name), Site(i - 2 * removed, name'))
  {
    DeclaredCorresponds(tail);
    EditsInSpan(text, i, tail);
    KwOffsetsRange(tail, i + 7);
    NoneBelow(KwOffsets(tail, i + 7), i);
  }

  /** The simulation: from matching scanner states, the second scan shows the kept sites and no other. */
  lemma {:induction false} Simulate(text: string, i: nat, prev: char, q: char, mode: Mode, removed: nat,
                                    rel: string, wl: seq<Entry>)
    requires i <= |text| && SamePrev(prev, q) && 2 * removed <= i
    ensures var sites := Scan(prev, text[i..], mode, i);
      AllShown(text, Edits(sites, rel, wl), removed, KeptSites(sites, rel, wl),
               Scan(q, New(Mark(prev, text[i..], mode, rel, wl)), mode, i - 2 * removed))
    decreases |text| - i
  {
    hide Step, New, Old, KeptSites, Edits, AllShown, Allowed, Scan, Mark, IsIdent, SamePrev;
    var r := text[i..];
    if r == "" {
      NoPieces();
      NoSites(text, prev, q, mode, i, removed, rel, wl);
    } else {
      var s := Step(prev, r, mode);
      var k := Min(s.advance, |r|);
      var tail := Mark(r[k - 1], r[k..], s.mode, rel, wl);
      var later := Scan(r[k - 1], r[k..], s.mode, i + k);
      assert r[k..] == text[i + k..] && r == r[..k] + r[k..];
      MarkOnce(prev, r, mode, rel, wl);
      ScanOnce(prev, r, mode, i, r[..k], r[k..]);
      EditsAppend(Found(i, s), later, rel, wl);
      KeptAppend(Found(i, s), later, rel, wl);
      EditsOfFound(i, s, rel, wl);
      KeptOfFound(i, s, rel, wl);
      if Rewritten(s, rel, wl) {
        assert [] + KeptSites(later, rel, wl) == KeptSites(later, rel, wl);
        SimulateEdit(text, i, prev, q, mode, removed, rel, wl, tail, later);
      } else {
        assert [] + Edits(later, rel, wl) == Edits(later, rel, wl);
        SamePrevRefl(r[k - 1]);
        Simulate(text, i + k, r[k - 1], r[k - 1], s.mode, removed, rel, wl);
        SimulateKeep(text, i, prev, q, mode, removed, rel, wl, tail, later);
      }
    }
  }

  lemma ShownMore(text: string, edits: seq<nat>, removed: nat, a: seq<Site>, a': seq<Site>, b: seq<Site>, b': seq<Site>)
    requires AllShown(text, edits, removed, a, a') && AllShown(text, edits, removed, b, b')
    ensures AllShown(text, edits, removed, a + b, a' + b')
  {
    hide Shown;
    forall j | 0 <= j < |a + b| ensures Shown(text, edits, removed, (a + b)[j], (a' + b')[j]) {
      if j >= |a| { assert Shown(text, edits, removed, b[j - |a|], b'[j - |a|]); }
    }
  }

  /** A step over text that is kept, shown before what follows. */
  lemma SimulateKeep(text: string, i: nat, prev: char, q: char, mode: Mode, removed: nat,
                     rel: string, wl: seq<Entry>, tail: seq<Piece>, later: seq<Site>)
    requires i < |text| && SamePrev(prev, q) && 2 * removed <= i
    requires var r := text[i..]; var s := Step(prev, r, mode); var k := Min(s.advance, |r|);
      && !Rewritten(s, rel, wl)
      && tail == Mark(r[k - 1], text[i + k..], s.mode, rel, wl) && later == Scan(r[k - 1], text[i + k..], s.mode, i + k)
      && AllShown(text, Edits(later, rel, wl), removed, KeptSites(later, rel, wl),
                  Scan(r[k - 1], New(tail), s.mode, i + k - 2 * removed))
    ensures var r := text[i..]; var s := Step(prev, r, mode); var k := Min(s.advance, |r|);
      AllShown(text, Edits(later, rel, wl), removed, Found(i, s) + KeptSites(later, rel, wl),
               Scan(q, New(Chars(r[..k]) + tail), mode, i - 2 * removed))
  {
    hide Step, New, Old, KeptSites, Edits, Shown, Scan, Mark, KwOffsets, DeclaredName, SamePrev;
    var r := text[i..];
    var s := Step(prev, r, mode);
    var k := Min(s.advance, |r|);
    assert text[i + k..] == r[k..] && r == r[..k] + r[k..];
    MarkOld(r[k - 1], r[k..], s.mode, rel, wl);
    MarkEdits(r[k - 1], r[k..], s.mode, rel, wl, i + k);
    CharsText(r[..k], tail);
    StepCorresponds(prev, q, r[..k], tail, mode);
    var t := Step(q, r[..k] + New(tail), mode);
    ScanOnce(q, r[..k] + New(tail), mode, i - 2 * removed, r[..k], New(tail));
    if s.name.Some? {
      ShownHere(text, i, tail, removed, s.name.value, t.name.value);
    }
    ShownMore(text, Edits(later, rel, wl), removed, Found(i, s), Found(i - 2 * removed, t),
              KeptSites(later, rel, wl), Scan(r[k - 1], New(tail), s.mode, i + k - 2 * removed));
  }

  lemma SameM()
    ensures SamePrev('m', 'a')
  {
  }

  lemma StepOfName(prev: char, r: string, mode: Mode)
    requires r != "" && Step(prev, r, mode).name.Some?
    ensures IsKeyword(prev, r) && Step(prev, r, mode).mode == Code && mode == Code
  {
  }

  lemma SamePrevRefl(c: char)
    ensures SamePrev(c, c)
  {
  }

  lemma NoSites(text: string, prev: char, q: char, mode: Mode, off: nat, removed: nat, rel: string, wl: seq<Entry>)
    requires 2 * removed <= off
    ensures var sites := Scan(prev, "", mode, off);
      AllShown(text, Edits(sites, rel, wl), removed, KeptSites(sites, rel, wl),
               Scan(q, New(Mark(prev, "", mode, rel, wl)), mode, off - 2 * removed))
  {
  }

  /** The step over a rewritten keyword. */
  lemma {:induction false} SimulateEdit(text: string, i: nat, prev: char, q: char, mode: Mode, removed: nat,
                                        rel: string, wl: seq<Entry>, tail: seq<Piece>, later: seq<Site>)
    requires i < |text| && SamePrev(prev, q) && 2 * removed <= i
    requires var r := text[i..]; var s := Step(prev, r, mode);
      && Rewritten(s, rel, wl)
      && tail == Mark(r[6], text[i + 7..], s.mode, rel, wl) && later == Scan(r[6], text[i + 7..], s.mode, i + 7)
    ensures AllShown(text, [i] + Edits(later, rel, wl), removed, KeptSites(later, rel, wl),
                     Scan(q, New([Kw] + tail), mode, i - 2 * removed))
    decreases |text| - i, 0
  {
    hide Step, New, Old, KeptSites, Edits, AllShown, Allowed, Scan, Mark, Chars;
    var r := text[i..];
    StepOfName(prev, r, mode);
    SameM();
    KeywordText(prev, r);
    assert r[6] == r[..7][6] == 'm';
    KwFirst(tail, 0);
    WordScan(q, New(tail), i - 2 * removed);
    Simulate(text, i + 7, 'm', 'a', Code, removed + 1, rel, wl);
    TailRange('m', text[i + 7..], Code, i + 7, rel, wl);
    ShownAfterEdit(text, i, Edits(later, rel, wl), removed, KeptSites(later, rel, wl),
                   Scan('a', New(tail), Code, i + 7 - 2 * (removed + 1)));
  }
}
