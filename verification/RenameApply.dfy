/** What `--apply` does to a file: the keyword of every site not on the whitelist becomes
    `lemma`, and what a second scan of the rewritten text finds. */
module RenameApply {
  import opened Prelude
  import opened RenameScan

  datatype Entry = Entry(file: string, name: string)

  // ----- the whitelist -----

  predicate EntryAllows(e: Entry, rel: string, name: string) {
    && e.file == rel
    && if e.name != "" && e.name[|e.name| - 1] == '*' then e.name[..|e.name| - 1] <= name else name == e.name
  }

  predicate Allowed(rel: string, name: string, whitelist: seq<Entry>) {
    exists e :: e in whitelist && EntryAllows(e, rel, name)
  }

  /** An entry with a trailing `*` allows, in its file, the names that begin with what precedes it. */
  lemma StarAllows(file: string, prefix: string, rel: string, name: string)
    ensures EntryAllows(Entry(file, prefix + "*"), rel, name) <==> rel == file && exists rest :: name == prefix + rest
  {
    var e := prefix + "*";
    assert e[|e| - 1] == '*' && e[..|e| - 1] == prefix;
    if prefix <= name { assert name == prefix + name[|prefix|..]; }
  }

  /** Any other entry allows its own name only. */
  lemma PlainAllows(file: string, allowed: string, rel: string, name: string)
    requires allowed == "" || allowed[|allowed| - 1] != '*'
    ensures EntryAllows(Entry(file, allowed), rel, name) <==> rel == file && name == allowed
  {
  }

  method NameAllowed(rel: string, name: string, whitelist: seq<Entry>) returns (ok: bool)
    ensures ok == Allowed(rel, name, whitelist)
  {
    for i := 0 to |whitelist|
      invariant forall k :: 0 <= k < i ==> !EntryAllows(whitelist[k], rel, name)
    {
      var e := whitelist[i];
      assert e in whitelist;
      if e.file == rel {
        if e.name != "" && e.name[|e.name| - 1] == '*' {
          if e.name[..|e.name| - 1] <= name {
            return true;
          }
        } else if name == e.name {
          return true;
        }
      }
    }
    return false;
  }

  // ----- splicing -----

  /** The offsets `--apply` rewrites. */
  function Edits(sites: seq<Site>, rel: string, wl: seq<Entry>): seq<nat> {
    if sites == [] then []
    else (if Allowed(rel, sites[0].name, wl) then [] else [sites[0].off]) + Edits(sites[1..], rel, wl)
  }

  /** Offsets to rewrite, in order, without overlap, from `prev` on. */
  predicate Spliceable(text: string, prev: nat, edits: seq<nat>)
    decreases |edits|
  {
    if edits == [] then prev <= |text|
    else prev <= edits[0] <= |text| - 7 && Spliceable(text, edits[0] + 7, edits[1..])
  }

  function Splice(text: string, prev: nat, edits: seq<nat>): string
    requires Spliceable(text, prev, edits)
    decreases |edits|
  {
    if edits == [] then text[prev..]
    else text[prev..edits[0]] + "lemma" + Splice(text, edits[0] + 7, edits[1..])
  }

  // ----- the text as pieces -----

  /** A character the rewrite keeps, or a keyword it replaces. */
  datatype Piece = Ch(c: char) | Kw

  function OldOf(p: Piece): string {
    if p.Kw? then "theorem" else [p.c]
  }

  function NewOf(p: Piece): string {
    if p.Kw? then "lemma" else [p.c]
  }

  function Old(ps: seq<Piece>): string {
    if ps == [] then "" else OldOf(ps[0]) + Old(ps[1..])
  }

  function New(ps: seq<Piece>): string {
    if ps == [] then "" else NewOf(ps[0]) + New(ps[1..])
  }

  function Chars(s: string): seq<Piece> {
    if s == "" then [] else [Ch(s[0])] + Chars(s[1..])
  }

  function Keywords(ps: seq<Piece>): nat {
    if ps == [] then 0 else (if ps[0].Kw? then 1 else 0) + Keywords(ps[1..])
  }

  lemma {:induction false} CharsText(s: string, ps: seq<Piece>)
    ensures Old(Chars(s) + ps) == s + Old(ps) && New(Chars(s) + ps) == s + New(ps)
    ensures Keywords(Chars(s) + ps) == Keywords(ps) && |Chars(s)| == |s|
  {
    hide Old, New, Keywords;
    if s == "" {
      assert Chars(s) + ps == ps;
    } else {
      var c := s[0];
      CharsText(s[1..], ps);
      assert Chars(s) == [Ch(c)] + Chars(s[1..]);
      SeqAssociates([Ch(c)], Chars(s[1..]), ps);
      CharFirst(c, Chars(s[1..]) + ps);
      assert s == [c] + s[1..];
      SeqAssociates([c], s[1..], Old(ps));
      SeqAssociates([c], s[1..], New(ps));
    }
  }

  lemma CharFirst(c: char, ps: seq<Piece>)
    ensures Old([Ch(c)] + ps) == [c] + Old(ps) && New([Ch(c)] + ps) == [c] + New(ps)
    ensures Keywords([Ch(c)] + ps) == Keywords(ps)
  {
    assert ([Ch(c)] + ps)[1..] == ps;
  }

  lemma {:induction false} TextSplit(ps: seq<Piece>, m: nat)
    requires m <= |ps|
    ensures Old(ps) == Old(ps[..m]) + Old(ps[m..]) && New(ps) == New(ps[..m]) + New(ps[m..])
    ensures Keywords(ps) == Keywords(ps[..m]) + Keywords(ps[m..])
  {
    if m == 0 {
      assert ps[..0] == [] && ps[0..] == ps;
    } else {
      TextSplit(ps[1..], m - 1);
      assert ps[..m][1..] == ps[1..][..m - 1] && ps[1..][m - 1..] == ps[m..];
      SeqAssociates(OldOf(ps[0]), Old(ps[1..][..m - 1]), Old(ps[m..]));
      SeqAssociates(NewOf(ps[0]), New(ps[1..][..m - 1]), New(ps[m..]));
    }
  }

  lemma {:induction false} Lengths(ps: seq<Piece>)
    ensures |Old(ps)| == |New(ps)| + 2 * Keywords(ps)
    ensures Keywords(ps) == 0 ==> Old(ps) == New(ps)
  {
    if ps != [] { Lengths(ps[1..]); }
  }

  // ----- reading old and new side by side -----

  /** Letters no `theorem` and no `lemma` contains. */
  predicate Foreign(c: char) {
    c !in "theorem" && c !in "lemma"
  }

  /** The next characters agree, or both sides stand before a rewritten keyword. */
  lemma Fronts(ps: seq<Piece>)
    ensures Old(ps) == "" <==> New(ps) == ""
    ensures ps == [] <==> Old(ps) == ""
    ensures ps != [] && ps[0].Ch? ==> Old(ps) == [ps[0].c] + Old(ps[1..]) && New(ps) == [ps[0].c] + New(ps[1..])
    ensures ps != [] && ps[0].Kw? ==> Old(ps) == "theorem" + Old(ps[1..]) && New(ps) == "lemma" + New(ps[1..])
  {
  }

  function Index(ps: seq<Piece>, c: char): (m: nat)
    ensures m <= |ps|
  {
    if ps == [] || ps[0] == Ch(c) then 0 else 1 + Index(ps[1..], c)
  }

  lemma SkipWord(w: string, r: string, c: char)
    requires c !in w
    ensures Find(w + r, c) == |w| + Find(r, c)
  {
    if w == "" {
      assert w + r == r;
    } else {
      assert (w + r)[1..] == w[1..] + r;
      SkipWord(w[1..], r, c);
    }
  }

  lemma {:induction false} FindCorresponds(ps: seq<Piece>, c: char)
    requires Foreign(c)
    ensures Find(Old(ps), c) == |Old(ps[..Index(ps, c)])| && Find(New(ps), c) == |New(ps[..Index(ps, c)])|
    ensures Index(ps, c) < |ps| ==> ps[Index(ps, c)] == Ch(c)
  {
    var m := Index(ps, c);
    if ps != [] && ps[0] != Ch(c) {
      FindCorresponds(ps[1..], c);
      Fronts(ps);
      assert ps[..m][1..] == ps[1..][..m - 1];
      if ps[0].Kw? {
        SkipWord("theorem", Old(ps[1..]), c);
        SkipWord("lemma", New(ps[1..]), c);
      } else {
        SkipWord([ps[0].c], Old(ps[1..]), c);
        SkipWord([ps[0].c], New(ps[1..]), c);
      }
    }
  }

  function RunOf(ps: seq<Piece>): (m: nat)
    ensures m <= |ps|
  {
    if ps == [] || (ps[0].Ch? && !IsIdent(ps[0].c)) then 0 else 1 + RunOf(ps[1..])
  }

  lemma IdentWord(w: string, r: string)
    requires forall i :: 0 <= i < |w| ==> IsIdent(w[i])
    ensures IdentRun(w + r) == |w| + IdentRun(r)
  {
    if w == "" {
      assert w + r == r;
    } else {
      assert (w + r)[1..] == w[1..] + r;
      IdentWord(w[1..], r);
    }
  }

  lemma {:induction false} RunCorresponds(ps: seq<Piece>)
    ensures IdentRun(Old(ps)) == |Old(ps[..RunOf(ps)])| && IdentRun(New(ps)) == |New(ps[..RunOf(ps)])|
  {
    hide Old, New, IdentRun;
    var m := RunOf(ps);
    Fronts(ps);
    Fronts(ps[..m]);
    if ps != [] && (ps[0].Kw? || IsIdent(ps[0].c)) {
      RunCorresponds(ps[1..]);
      assert ps[..m][1..] == ps[1..][..m - 1];
      if ps[0].Kw? {
        IdentWord("theorem", Old(ps[1..]));
        IdentWord("lemma", New(ps[1..]));
      } else {
        IdentWord([ps[0].c], Old(ps[1..]));
        IdentWord([ps[0].c], New(ps[1..]));
      }
    } else {
      NoRun(Old(ps));
      NoRun(New(ps));
    }
  }

  lemma NoRun(r: string)
    requires r == "" || !IsIdent(r[0])
    ensures IdentRun(r) == 0
  {
  }

  function BlanksOf(ps: seq<Piece>): (m: nat)
    ensures m <= |ps|
  {
    if ps == [] || ps[0].Kw? || !IsBlank(ps[0].c) then 0 else 1 + BlanksOf(ps[1..])
  }

  lemma {:induction false} BlanksCorrespond(ps: seq<Piece>)
    ensures var m := BlanksOf(ps);
      && BlankRun(Old(ps)) == m && Old(ps)[m..] == Old(ps[m..])
      && BlankRun(New(ps)) == m && New(ps)[m..] == New(ps[m..])
  {
    Fronts(ps);
    if ps != [] && ps[0].Ch? && IsBlank(ps[0].c) {
      BlanksCorrespond(ps[1..]);
      var m := BlanksOf(ps);
      assert Old(ps)[1..] == Old(ps[1..]) && New(ps)[1..] == New(ps[1..]);
      assert Old(ps)[m..] == Old(ps)[1..][m - 1..] && New(ps)[m..] == New(ps)[1..][m - 1..];
      assert ps[m..] == ps[1..][m - 1..];
    }
  }

  // ----- names -----

  /** The pieces one name component takes, and the characters of it that are guillemets. */
  function PartPieces(ps: seq<Piece>): (p: Option<(nat, nat)>)
    ensures p.Some? ==> 0 < p.value.0 <= |ps|
  {
    if ps != [] && ps[0] == Ch(OPEN_GUILLEMET) then
      var m := Index(ps[1..], CLOSE_GUILLEMET);
      if m == |ps| - 1 then None else Some((m + 2, 2))
    else
      var m := RunOf(ps);
      if m == 0 then None else Some((m, 0))
  }

  ghost predicate PartAgrees(p: Option<(string, nat)>, text: string, front: string, guillemets: nat) {
    && (guillemets == 0 || guillemets == 2)
    && p.Some? && p.value.1 == |front| && front <= text
    && |p.value.0| == |front| - guillemets
    && (guillemets == 0 ==> p.value.0 == front)
    && (guillemets == 2 ==> p.value.0 == front[1..|front| - 1])
  }

  lemma PartCorresponds(ps: seq<Piece>)
    ensures PartPieces(ps).None? ==> Part(Old(ps)).None? && Part(New(ps)).None?
    ensures PartPieces(ps).Some? ==>
      var (m, g) := PartPieces(ps).value;
      PartAgrees(Part(Old(ps)), Old(ps), Old(ps[..m]), g) && PartAgrees(Part(New(ps)), New(ps), New(ps[..m]), g)
  {
    Fronts(ps);
    if ps != [] && ps[0] == Ch(OPEN_GUILLEMET) {
      GuillemetPart(ps);
    } else {
      var m := RunOf(ps);
      RunCorresponds(ps);
      TextSplit(ps, m);
      if m > 0 { Fronts(ps[..m]); }
    }
  }

  lemma GuillemetPart(ps: seq<Piece>)
    requires ps != [] && ps[0] == Ch(OPEN_GUILLEMET)
    ensures PartPieces(ps).None? ==> Part(Old(ps)).None? && Part(New(ps)).None?
    ensures PartPieces(ps).Some? ==>
      var (m, g) := PartPieces(ps).value;
      PartAgrees(Part(Old(ps)), Old(ps), Old(ps[..m]), g) && PartAgrees(Part(New(ps)), New(ps), New(ps[..m]), g)
  {
    hide Find, Old, New, Index;
    Fronts(ps);
    var q := ps[1..];
    var m := Index(q, CLOSE_GUILLEMET);
    FindCorresponds(q, CLOSE_GUILLEMET);
    TextSplit(q, m);
    if m == |q| {
      assert q[..m] == q;
      QuotedPart(Old(ps), Old(q), Old(q), "");
      QuotedPart(New(ps), New(q), New(q), "");
    } else {
      Fronts(q[m..]);
      assert ps[..m + 2] == [ps[0]] + q[..m] + [q[m]];
      TextOfThree(ps[0].c, q[..m], q[m].c);
      QuotedPart(Old(ps), Old(q), Old(q[..m]), Old(q[m..]));
      QuotedPart(New(ps), New(q), New(q[..m]), New(q[m..]));
    }
  }

  /** A component in guillemets, from where its closing one is. */
  lemma QuotedPart(r: string, q: string, mid: string, rest: string)
    requires r == [OPEN_GUILLEMET] + q && q == mid + rest && Find(q, CLOSE_GUILLEMET) == |mid|
    ensures rest == "" ==> Part(r).None?
    ensures rest != "" ==> rest[0] == CLOSE_GUILLEMET
    ensures rest != "" ==> PartAgrees(Part(r), r, [OPEN_GUILLEMET] + mid + [CLOSE_GUILLEMET], 2)
  {
    assert r[1..] == q;
    if rest != "" {
      assert q[|mid|] == rest[0];
      assert r[1..|mid| + 1] == mid;
      assert r[..|mid| + 2] == [OPEN_GUILLEMET] + mid + [CLOSE_GUILLEMET];
    }
  }

  lemma TextOfThree(a: char, mid: seq<Piece>, b: char)
    ensures Old([Ch(a)] + mid + [Ch(b)]) == [a] + Old(mid) + [b]
    ensures New([Ch(a)] + mid + [Ch(b)]) == [a] + New(mid) + [b]
  {
    var ps := [Ch(a)] + mid + [Ch(b)];
    assert ps[1..] == mid + [Ch(b)];
    TextSplit(mid + [Ch(b)], |mid|);
    assert (mid + [Ch(b)])[..|mid|] == mid && (mid + [Ch(b)])[|mid|..] == [Ch(b)];
  }

  predicate ContinuesPieces(ps: seq<Piece>) {
    |ps| >= 2 && ps[0] == Ch('.') && (ps[1].Kw? || IsNameStart(ps[1].c))
  }

  lemma ContinuesCorresponds(ps: seq<Piece>)
    ensures Continues(Old(ps)) == ContinuesPieces(ps) && Continues(New(ps)) == ContinuesPieces(ps)
  {
    Fronts(ps);
    if ps != [] { Fronts(ps[1..]); }
  }

  /** The pieces of the declared name. */
  function NamePieces(ps: seq<Piece>): (n: Option<nat>)
    ensures n.Some? ==> 0 < n.value <= |ps|
    decreases |ps|
  {
    var p := PartPieces(ps);
    if p.None? then None
    else
      var m := p.value.0;
      if ContinuesPieces(ps[m..]) then
        var n := NamePieces(ps[m + 1..]);
        if n.None? then None else Some(m + 1 + n.value)
      else Some(m)
  }

  lemma NameAfterPart(r: string, front: string, rest: string, p: string)
    requires r == front + rest && Part(r) == Some((p, |front|))
    ensures !Continues(rest) ==> NameAt(r) == Some((p, |front|))
    ensures Continues(rest) && NameAt(rest[1..]).None? ==> NameAt(r).None?
    ensures Continues(rest) && NameAt(rest[1..]).Some? ==>
      var (n, k) := NameAt(rest[1..]).value; NameAt(r) == Some((p + "." + n, |front| + 1 + k))
  {
    assert r[|front|..] == rest;
    if Continues(rest) { assert r[|front| + 1..] == rest[1..]; }
  }

  /** How the names read at the start of the old and the new text compare. */
  ghost predicate NamesAgree(ps: seq<Piece>, old': Option<(string, nat)>, new': Option<(string, nat)>) {
    && (NamePieces(ps).None? ==> old'.None? && new'.None?)
    && (NamePieces(ps).Some? ==>
          var span := ps[..NamePieces(ps).value];
          && old'.Some? && new'.Some?
          && old'.value.1 == |Old(span)| && new'.value.1 == |New(span)|
          && |old'.value.0| == |new'.value.0| + 2 * Keywords(span)
          && (Keywords(span) == 0 ==> old'.value.0 == new'.value.0))
  }

  /** Both texts have a name here or neither has. The names are of equal length exactly when no
      keyword inside is rewritten, and then they are equal. */
  lemma {:induction false} NameCorresponds(ps: seq<Piece>)
    ensures NamesAgree(ps, NameAt(Old(ps)), NameAt(New(ps)))
    decreases |ps|
  {
    hide Part, NameAt, Old, New, Keywords, PartPieces, Continues, ContinuesPieces;
    PartCorresponds(ps);
    if PartPieces(ps).None? {
      NoPartNoName([], Old(ps));
      NoPartNoName([], New(ps));
    } else {
      var m := PartPieces(ps).value.0;
      var rest := ps[m..];
      TextSplit(ps, m);
      Lengths(ps[..m]);
      NameAfterPart(Old(ps), Old(ps[..m]), Old(rest), Part(Old(ps)).value.0);
      NameAfterPart(New(ps), New(ps[..m]), New(rest), Part(New(ps)).value.0);
      ContinuesCorresponds(rest);
      if ContinuesPieces(rest) {
        DotFront(rest);
        assert rest[1..] == ps[m + 1..];
        NameCorresponds(ps[m + 1..]);
        if NamePieces(ps[m + 1..]).Some? { SpanOf(ps, m, NamePieces(ps[m + 1..]).value); }
      }
    }
  }

  lemma DotFront(ps: seq<Piece>)
    requires ContinuesPieces(ps)
    ensures ps != [] && ps[0] == Ch('.') && Old(ps)[1..] == Old(ps[1..]) && New(ps)[1..] == New(ps[1..])
    ensures Old(ps) != "" && New(ps) != ""
  {
    Fronts(ps);
  }

  lemma SpanOf(ps: seq<Piece>, m: nat, n: nat)
    requires m + 1 + n <= |ps| && ps[m] == Ch('.')
    ensures var span := ps[..m + 1 + n];
      && Old(span) == Old(ps[..m]) + "." + Old(ps[m + 1..][..n])
      && New(span) == New(ps[..m]) + "." + New(ps[m + 1..][..n])
      && Keywords(span) == Keywords(ps[..m]) + Keywords(ps[m + 1..][..n])
  {
    hide Old, New, Keywords;
    var span := ps[..m + 1 + n];
    TextSplit(span, m);
    assert span[..m] == ps[..m];
    assert span[m..] == [Ch('.')] + ps[m + 1..][..n];
    CharFirst('.', ps[m + 1..][..n]);
    SeqAssociates(Old(ps[..m]), ".", Old(ps[m + 1..][..n]));
    SeqAssociates(New(ps[..m]), ".", New(ps[m + 1..][..n]));
  }

  // ----- a name is read from its own characters -----

  lemma {:induction false} RunLocal(r: string, k: nat)
    requires IdentRun(r) <= k <= |r|
    ensures IdentRun(r[..k]) == IdentRun(r)
  {
    if k > 0 && IsIdent(r[0]) {
      assert r[..k][1..] == r[1..][..k - 1];
      RunLocal(r[1..], k - 1);
    }
  }

  lemma {:induction false} FindLocal(r: string, c: char, k: nat)
    requires Find(r, c) < k <= |r|
    ensures Find(r[..k], c) == Find(r, c)
  {
    if r[0] != c {
      assert r[..k][1..] == r[1..][..k - 1];
      FindLocal(r[1..], c, k - 1);
    }
  }

  lemma PartLocal(r: string, k: nat)
    requires Part(r).Some? && Part(r).value.1 <= k <= |r|
    ensures Part(r[..k]) == Part(r)
  {
    hide Find, IdentRun;
    var n := Part(r).value.1;
    assert r[..k][..n] == r[..n];
    if r[0] == OPEN_GUILLEMET {
      assert r[..k][1..] == r[1..][..k - 1];
      FindLocal(r[1..], CLOSE_GUILLEMET, k - 1);
      assert r[..k][1..n - 1] == r[1..n - 1];
    } else {
      RunLocal(r, k);
    }
  }

  /** Whatever follows it, the text of a name is read as that name. */
  lemma {:induction false} NameLocal(r: string)
    requires NameAt(r).Some?
    ensures NameAt(r[..NameAt(r).value.1]) == NameAt(r)
    decreases |r|
  {
    hide Part, NameAt;
    if Part(r).None? { NoPartNoName([], r); }
    NameOfPart(r);
    var k := NameAt(r).value.1;
    var (p, m) := Part(r).value;
    PartLocal(r, k);
    NameOfPart(r[..k]);
    assert r[..k][m..] == r[m..k];
    if Continues(r[m..]) {
      NameLocal(r[m + 1..]);
      assert r[..k][m + 1..] == r[m + 1..][..k - m - 1];
    }
  }
}
